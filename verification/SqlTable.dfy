/** The object_versions table and the query behind the listings: rows carry an
    ever-growing ordinal, and the newest row of a key decides what a listing shows. */
module SqlTable {
  import opened Bytes
  import opened Metadata

  datatype Row = Row(ordinal: nat, version: ObjectVersion)

  /** Rows in insertion order, which is ordinal order. */
  ghost predicate Ordered(rows: seq<Row>) {
    forall i, j :: 0 <= i < j < |rows| ==> rows[i].ordinal < rows[j].ordinal
  }

  predicate StrictByKey(objs: seq<ObjectVersion>) {
    forall i, j :: 0 <= i < j < |objs| ==> Less(objs[i].key, objs[j].key)
  }

  // ---- What a listing query means

  /** v is the newest row of its key, and that row is not a delete marker. */
  ghost predicate Shown(rows: seq<Row>, bucket: Str, v: ObjectVersion) {
    && v.bucket == bucket
    && !v.deleteMarker
    && exists r :: r in rows && r.version == v && Newest(rows, r)
  }

  ghost predicate Newest(rows: seq<Row>, r: Row) {
    forall s :: s in rows && s.version.bucket == r.version.bucket && s.version.key == r.version.key
      ==> s.ordinal <= r.ordinal
  }

  /** The WHERE clause of the grouped subquery. */
  predicate InRange(key: Str, lo: Str, after: Str, upper: Option<Str>) {
    !Less(key, lo) && Less(after, key) && (upper.Some? ==> Less(key, upper.value))
  }

  // ---- The query

  function Where(rows: seq<Row>, bucket: Str, lo: Str, after: Str, upper: Option<Str>): seq<Row> {
    if rows == [] then []
    else
      var init := Where(rows[..|rows| - 1], bucket, lo, after, upper);
      var r := rows[|rows| - 1];
      if r.version.bucket == bucket && InRange(r.version.key, lo, after, upper) then init + [r] else init
  }

  /** Keep objs sorted by key, replacing an older version of the same key. */
  function Upsert(objs: seq<ObjectVersion>, v: ObjectVersion): seq<ObjectVersion> {
    if objs == [] || Less(v.key, objs[0].key) then [v] + objs
    else if objs[0].key == v.key then [v] + objs[1..]
    else [objs[0]] + Upsert(objs[1..], v)
  }

  /** One version per key, that of the greatest ordinal, in key order. */
  function LatestByKey(rows: seq<Row>): seq<ObjectVersion> {
    if rows == [] then [] else Upsert(LatestByKey(rows[..|rows| - 1]), rows[|rows| - 1].version)
  }

  function Visible(objs: seq<ObjectVersion>): seq<ObjectVersion> {
    if objs == [] then []
    else
      var init := Visible(objs[..|objs| - 1]);
      var v := objs[|objs| - 1];
      if v.deleteMarker then init else init + [v]
  }

  /** SELECT the newest version of every key in range, drop delete markers, ORDER BY key. */
  function Query(rows: seq<Row>, bucket: Str, lo: Str, after: Str, upper: Option<Str>): seq<ObjectVersion> {
    Visible(LatestByKey(Where(rows, bucket, lo, after, upper)))
  }

  // ---- The query returns exactly what it means

  lemma {:induction false} WhereMember(rows: seq<Row>, bucket: Str, lo: Str, after: Str, upper: Option<Str>)
    ensures forall r :: r in Where(rows, bucket, lo, after, upper) <==>
                        r in rows && r.version.bucket == bucket && InRange(r.version.key, lo, after, upper)
    ensures Ordered(rows) ==> Ordered(Where(rows, bucket, lo, after, upper))
  {
    hide InRange, Ordered;
    if rows == [] {
      NoneOrdered();
    } else {
      var n := |rows| - 1;
      WhereMember(rows[..n], bucket, lo, after, upper);
      assert rows == rows[..n] + [rows[n]];
      OrderedSplit(rows[..n], rows[n]);
      var kept := Where(rows[..n], bucket, lo, after, upper);
      OrderedSplit(kept, rows[n]);
    }
  }

  lemma NoneOrdered()
    ensures Ordered([])
  {
  }

  lemma OrderedSplit(init: seq<Row>, last: Row)
    ensures Ordered(init + [last]) <==> Ordered(init) && forall r :: r in init ==> r.ordinal < last.ordinal
  {
    var rows := init + [last];
    if Ordered(rows) {
      forall i | 0 <= i < |init|
        ensures init[i].ordinal < last.ordinal
      {
        assert rows[i].ordinal < rows[|init|].ordinal;
      }
      assert forall i | 0 <= i < |init| :: init[i] == rows[i];
    }
  }

  ghost predicate AllAbove(objs: seq<ObjectVersion>, key: Str) {
    forall u :: u in objs ==> Less(key, u.key)
  }

  lemma StrictCons(v: ObjectVersion, objs: seq<ObjectVersion>)
    ensures StrictByKey([v] + objs) <==> AllAbove(objs, v.key) && StrictByKey(objs)
  {
    hide Less;
    var all := [v] + objs;
    if StrictByKey(all) {
      forall i | 0 <= i < |objs|
        ensures Less(v.key, objs[i].key)
      {
        assert Less(all[0].key, all[i + 1].key);
      }
      assert forall i | 0 <= i < |objs| :: objs[i] == all[i + 1];
    }
  }

  lemma {:induction false} UpsertMeaning(objs: seq<ObjectVersion>, v: ObjectVersion)
    requires StrictByKey(objs)
    ensures StrictByKey(Upsert(objs, v))
    ensures forall u :: u in Upsert(objs, v) <==> u == v || (u in objs && u.key != v.key)
  {
    hide Less;
    if objs != [] {
      var first, tail := objs[0], objs[1..];
      assert objs == [first] + tail;
      StrictCons(first, tail);
      forall u | u in tail
        ensures u.key != first.key
      {
        LessTotal(first.key, u.key);
      }
      LessTotal(v.key, first.key);
      if Less(v.key, first.key) {
        AboveAll(objs, v.key);
        StrictCons(v, objs);
      } else if first.key == v.key {
        StrictCons(v, tail);
      } else {
        UpsertMeaning(tail, v);
        StrictCons(first, Upsert(tail, v));
      }
    } else {
      StrictCons(v, objs);
    }
  }

  lemma AboveAll(objs: seq<ObjectVersion>, key: Str)
    requires StrictByKey(objs) && objs != [] && Less(key, objs[0].key)
    ensures AllAbove(objs, key)
    ensures forall u :: u in objs ==> u.key != key
  {
    hide Less;
    forall i | 0 <= i < |objs|
      ensures Less(key, objs[i].key) && objs[i].key != key
    {
      if i > 0 { LessTransitive(key, objs[0].key, objs[i].key); }
      LessTotal(key, objs[i].key);
    }
  }

  lemma {:induction false} LatestByKeyMember(rows: seq<Row>, v: ObjectVersion, bucket: Str)
    requires Ordered(rows) && forall r :: r in rows ==> r.version.bucket == bucket
    ensures StrictByKey(LatestByKey(rows))
    ensures v in LatestByKey(rows) <==> exists r :: r in rows && r.version == v && Newest(rows, r)
  {
    hide Less, Upsert;
    if rows != [] {
      var n := |rows| - 1;
      var init, last := rows[..n], rows[n];
      LatestByKeyMember(init, v, bucket);
      UpsertMeaning(LatestByKey(init), last.version);
      assert rows == init + [last];
      NewestAppend(init, last);
      if v in LatestByKey(rows) && v != last.version {
        var r :| r in init && r.version == v && Newest(init, r);
        assert r in rows && Newest(rows, r);
      }
      if r :| r in rows && r.version == v && Newest(rows, r) && v != last.version {
        assert r in init && Newest(init, r);
      }
    }
  }

  /** A row of the greatest ordinal is the newest of its key and takes that from no
      row of another key. */
  lemma NewestAppend(init: seq<Row>, last: Row)
    requires forall r :: r in init ==> r.ordinal < last.ordinal
    ensures Newest(init + [last], last)
    ensures forall r :: r in init ==>
      (Newest(init + [last], r) <==>
       Newest(init, r) && !(r.version.bucket == last.version.bucket && r.version.key == last.version.key))
  {
  }

  lemma {:induction false} VisibleMember(objs: seq<ObjectVersion>)
    requires StrictByKey(objs)
    ensures StrictByKey(Visible(objs))
    ensures forall v :: v in Visible(objs) <==> v in objs && !v.deleteMarker
  {
    hide Less;
    if objs != [] {
      var n := |objs| - 1;
      VisibleMember(objs[..n]);
      assert objs == objs[..n] + [objs[n]];
      assert forall v :: v in objs[..n] ==> Less(v.key, objs[n].key);
    }
  }

  lemma LatestByKeyIsStrict(rows: seq<Row>, bucket: Str)
    requires Ordered(rows) && forall r :: r in rows ==> r.version.bucket == bucket
    ensures StrictByKey(LatestByKey(rows))
  {
    if rows != [] { LatestByKeyMember(rows, rows[0].version, bucket); }
  }

  /** A range query lists, in strictly increasing key order, exactly the objects shown
      in the bucket whose key is in range. */
  lemma QueryMeaning(rows: seq<Row>, bucket: Str, lo: Str, after: Str, upper: Option<Str>)
    requires Ordered(rows)
    ensures StrictByKey(Query(rows, bucket, lo, after, upper))
    ensures forall v :: v in Query(rows, bucket, lo, after, upper) <==>
                        Shown(rows, bucket, v) && InRange(v.key, lo, after, upper)
  {
    hide Less, InRange;
    var sub := Where(rows, bucket, lo, after, upper);
    WhereMember(rows, bucket, lo, after, upper);
    LatestByKeyIsStrict(sub, bucket);
    VisibleMember(LatestByKey(sub));
    forall v
      ensures v in Query(rows, bucket, lo, after, upper) <==>
              Shown(rows, bucket, v) && InRange(v.key, lo, after, upper)
    {
      LatestByKeyMember(sub, v, bucket);
      if v in LatestByKey(sub) && !v.deleteMarker {
        var r :| r in sub && r.version == v && Newest(sub, r);
        assert r in rows && Newest(rows, r);
      }
      if Shown(rows, bucket, v) && InRange(v.key, lo, after, upper) {
        var r :| r in rows && r.version == v && Newest(rows, r);
        assert r in sub && Newest(sub, r);
      }
    }
  }
}
