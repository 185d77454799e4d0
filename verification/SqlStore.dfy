/** The row-level SQL store's version operations (internal/metadata/sqlite_store.go), each
    read back as an operation on the version list of one key. */
module SqlStore {
  import opened Bytes
  import opened Metadata
  import opened SqlTable
  import opened Versions

  predicate OfKey(r: Row, k: ObjectKey) {
    r.version.bucket == k.bucket && r.version.key == k.key
  }

  /** The versions of a key in ordinal order. */
  function RowsOf(rows: seq<Row>, k: ObjectKey): seq<ObjectVersion> {
    if rows == [] then []
    else
      var init, r := RowsOf(rows[..|rows| - 1], k), rows[|rows| - 1];
      if OfKey(r, k) then init + [r.version] else init
  }

  /** DELETE ... WHERE bucket, key and version id match. */
  function DeleteWhere(rows: seq<Row>, k: ObjectKey, id: Str): seq<Row> {
    if rows == [] then []
    else
      var init, r := DeleteWhere(rows[..|rows| - 1], k, id), rows[|rows| - 1];
      if OfKey(r, k) && r.version.versionId == id then init else init + [r]
  }

  /** DELETE ... WHERE bucket and key match. */
  function DeleteKey(rows: seq<Row>, k: ObjectKey): seq<Row> {
    if rows == [] then []
    else
      var init, r := DeleteKey(rows[..|rows| - 1], k), rows[|rows| - 1];
      if OfKey(r, k) then init else init + [r]
  }

  /** UPDATE ... SET metadata WHERE bucket, key and version id match. */
  function UpdateWhere(rows: seq<Row>, k: ObjectKey, id: Str, metadata: map<Str, Str>): seq<Row> {
    if rows == [] then []
    else
      var init, r := UpdateWhere(rows[..|rows| - 1], k, id, metadata), rows[|rows| - 1];
      init + [if OfKey(r, k) && r.version.versionId == id then r.(version := r.version.(metadata := metadata)) else r]
  }

  /** The same update on a version list: it touches every version with the id. */
  function UpdateAll(vs: seq<ObjectVersion>, id: Str, metadata: map<Str, Str>): seq<ObjectVersion> {
    if vs == [] then []
    else
      var v := vs[|vs| - 1];
      UpdateAll(vs[..|vs| - 1], id, metadata) + [if v.versionId == id then v.(metadata := metadata) else v]
  }

  // ---- Reading the statements back as list operations

  lemma {:induction false} DeleteWhereReads(rows: seq<Row>, k: ObjectKey, id: Str, l: ObjectKey)
    ensures RowsOf(DeleteWhere(rows, k, id), l) == if l == k then Without(RowsOf(rows, k), id) else RowsOf(rows, l)
  {
    hide OfKey;
    if rows != [] {
      var n := |rows| - 1;
      DeleteWhereReads(rows[..n], k, id, l);
      InsertReads(DeleteWhere(rows[..n], k, id), rows[n], l);
      WithoutAppend(RowsOf(rows[..n], k), rows[n].version, id);
      assert OfKey(rows[n], l) && OfKey(rows[n], k) ==> l == k by { SameKey(rows[n], k, l); }
    }
  }

  lemma SameKey(r: Row, k: ObjectKey, l: ObjectKey)
    ensures OfKey(r, k) && OfKey(r, l) ==> k == l
  {
  }

  lemma WithoutAppend(vs: seq<ObjectVersion>, v: ObjectVersion, id: Str)
    ensures Without(vs + [v], id) == Without(vs, id) + (if v.versionId == id then [] else [v])
  {
    assert (vs + [v])[..|vs|] == vs;
  }

  lemma {:induction false} DeleteWhereOrdered(rows: seq<Row>, k: ObjectKey, id: Str)
    requires Ordered(rows)
    ensures Ordered(DeleteWhere(rows, k, id))
    ensures forall r :: r in DeleteWhere(rows, k, id) ==> r in rows
  {
    hide OfKey;
    if rows != [] {
      var n := |rows| - 1;
      DeleteWhereOrdered(rows[..n], k, id);
      var init := DeleteWhere(rows[..n], k, id);
      assert forall i | 0 <= i < |init| :: init[i] in rows[..n];
    }
  }

  lemma {:induction false} DeleteKeyReads(rows: seq<Row>, k: ObjectKey, l: ObjectKey)
    ensures RowsOf(DeleteKey(rows, k), l) == if l == k then [] else RowsOf(rows, l)
  {
    hide OfKey;
    if rows != [] {
      var n := |rows| - 1;
      DeleteKeyReads(rows[..n], k, l);
      InsertReads(DeleteKey(rows[..n], k), rows[n], l);
      SameKey(rows[n], k, l);
    }
  }

  lemma {:induction false} DeleteKeyOrdered(rows: seq<Row>, k: ObjectKey)
    requires Ordered(rows)
    ensures Ordered(DeleteKey(rows, k))
    ensures forall r :: r in DeleteKey(rows, k) ==> r in rows
  {
    hide OfKey;
    if rows != [] {
      var n := |rows| - 1;
      DeleteKeyOrdered(rows[..n], k);
      var init := DeleteKey(rows[..n], k);
      assert forall i | 0 <= i < |init| :: init[i] in rows[..n];
    }
  }

  lemma {:induction false} UpdateWhereReads(rows: seq<Row>, k: ObjectKey, id: Str, metadata: map<Str, Str>,
                                            l: ObjectKey)
    ensures RowsOf(UpdateWhere(rows, k, id, metadata), l) ==
            if l == k then UpdateAll(RowsOf(rows, k), id, metadata) else RowsOf(rows, l)
  {
    if rows != [] {
      var n := |rows| - 1;
      var r, init := rows[n], UpdateWhere(rows[..n], k, id, metadata);
      var r' := if OfKey(r, k) && r.version.versionId == id then r.(version := r.version.(metadata := metadata)) else r;
      assert OfKey(r', l) == OfKey(r, l) && (OfKey(r, k) && OfKey(r, l) ==> l == k);
      hide OfKey;
      UpdateWhereReads(rows[..n], k, id, metadata, l);
      InsertReads(init, r', l);
      UpdateAllAppend(RowsOf(rows[..n], k), r.version, id, metadata);
    }
  }

  lemma UpdateAllAppend(vs: seq<ObjectVersion>, v: ObjectVersion, id: Str, metadata: map<Str, Str>)
    ensures UpdateAll(vs + [v], id, metadata) ==
            UpdateAll(vs, id, metadata) + [if v.versionId == id then v.(metadata := metadata) else v]
  {
    assert (vs + [v])[..|vs|] == vs;
  }

  lemma {:induction false} UpdateWhereOrdinals(rows: seq<Row>, k: ObjectKey, id: Str, metadata: map<Str, Str>)
    ensures |UpdateWhere(rows, k, id, metadata)| == |rows|
    ensures forall i :: 0 <= i < |rows| ==> UpdateWhere(rows, k, id, metadata)[i].ordinal == rows[i].ordinal
  {
    if rows != [] {
      UpdateWhereOrdinals(rows[..|rows| - 1], k, id, metadata);
    }
  }

  lemma InsertReads(rows: seq<Row>, r: Row, l: ObjectKey)
    ensures RowsOf(rows + [r], l) == RowsOf(rows, l) + (if OfKey(r, l) then [r.version] else [])
  {
    hide OfKey;
    assert (rows + [r])[..|rows|] == rows;
  }

  lemma {:induction false} UpdateAllAt(vs: seq<ObjectVersion>, id: Str, metadata: map<Str, Str>)
    ensures |UpdateAll(vs, id, metadata)| == |vs|
    ensures forall j :: 0 <= j < |vs| ==>
      UpdateAll(vs, id, metadata)[j] == if vs[j].versionId == id then vs[j].(metadata := metadata) else vs[j]
  {
    if vs != [] {
      UpdateAllAt(vs[..|vs| - 1], id, metadata);
    }
  }

  /** Where ids are distinct the update touches the one version with the id. */
  lemma UpdateAllIsOne(vs: seq<ObjectVersion>, id: Str, metadata: map<Str, Str>)
    requires UniqueIds(vs)
    ensures var i := Find(vs, id);
            UpdateAll(vs, id, metadata) == if i < 0 then vs else vs[i := vs[i].(metadata := metadata)]
  {
    hide Find, UpdateAll;
    UpdateAllAt(vs, id, metadata);
  }

  // ---- Looking rows up

  /** best is the row of k with the greatest ordinal, which is the last one of k. */
  ghost predicate BestOf(rows: seq<Row>, k: ObjectKey, best: Option<Row>) {
    && (best.None? <==> RowsOf(rows, k) == [])
    && (best.None? ==> forall r :: r in rows ==> !OfKey(r, k))
    && (best.Some? ==>
        && best.value in rows && OfKey(best.value, k)
        && (forall q :: q in rows && OfKey(q, k) ==> q.ordinal <= best.value.ordinal)
        && LatestOf(RowsOf(rows, k)) == One(best.value.version))
  }

  lemma NoRows(k: ObjectKey)
    ensures RowsOf([], k) == [] && BestOf([], k, None)
  {
  }

  lemma BetterOf(rows: seq<Row>, i: nat, k: ObjectKey, best: Option<Row>)
    requires Ordered(rows) && i < |rows| && BestOf(rows[..i], k, best)
    ensures BestOf(rows[..i + 1], k,
                   if OfKey(rows[i], k) && (best.None? || best.value.ordinal < rows[i].ordinal) then Some(rows[i])
                   else best)
  {
    hide RowsOf, OfKey;
    assert rows[..i + 1] == rows[..i] + [rows[i]];
    InsertReads(rows[..i], rows[i], k);
    assert forall q | q in rows[..i] :: q.ordinal < rows[i].ordinal;
  }

  /** The first row with the id, in any order of the others, is the version with the id. */
  lemma FoundNext(rows: seq<Row>, i: nat, k: ObjectKey, id: Str)
    requires i < |rows| && Find(RowsOf(rows[..i], k), id) < 0
    ensures if OfKey(rows[i], k) && rows[i].version.versionId == id
            then Find(RowsOf(rows, k), id) >= 0 && RowsOf(rows, k)[Find(RowsOf(rows, k), id)] == rows[i].version
            else Find(RowsOf(rows[..i + 1], k), id) < 0
  {
    hide RowsOf, OfKey, Find;
    assert rows[..i + 1] == rows[..i] + [rows[i]];
    InsertReads(rows[..i], rows[i], k);
    RowsGrow(rows, i + 1, k);
    var vs := RowsOf(rows[..i + 1], k);
    if OfKey(rows[i], k) && rows[i].version.versionId == id {
      assert RowsOf(rows, k)[|vs| - 1] == vs[|vs| - 1];
      assert forall j | 0 <= j < |vs| - 1 :: RowsOf(rows, k)[j] == vs[j] == RowsOf(rows[..i], k)[j];
    }
  }

  lemma {:induction false} RowsGrow(rows: seq<Row>, i: nat, k: ObjectKey)
    requires i <= |rows|
    ensures RowsOf(rows[..i], k) <= RowsOf(rows, k)
    decreases |rows|
  {
    hide OfKey;
    if i < |rows| {
      var n := |rows| - 1;
      RowsGrow(rows[..n], i, k);
      assert rows[..n][..i] == rows[..i];
    } else {
      assert rows[..i] == rows;
    }
  }

  // ---- The store

  type Column = map<Str, Str> -> map<Str, Str>

  /** A version as a row brings it back. */
  function Seen(carried: Column, v: ObjectVersion): ObjectVersion {
    v.(metadata := carried(v.metadata))
  }

  class SqlStore {
    /** What the metadata column, which is JSON, brings back of what was put into it. */
    const carried: Column
    var rows: seq<Row>
    var nextOrdinal: nat

    ghost predicate Valid()
      reads this
    {
      carried(map[]) == map[] && Ordered(rows) && forall r :: r in rows ==> r.ordinal < nextOrdinal
    }

    constructor (carried: Column)
      requires carried(map[]) == map[]
      ensures Valid() && rows == [] && this.carried == carried
    {
      this.carried, rows, nextOrdinal := carried, [], 0;
    }

    /** sqlitePutObjectVersion. The unique index refuses a second row of a non-"null" id. */
    method PutObjectVersion(v: ObjectVersion) returns (reply: Reply)
      requires Valid()
      modifies this
      ensures Valid()
      ensures var k := ObjectKey(v.bucket, v.key);
              var clash := v.versionId != NULL_ID && HasId(old(RowsOf(rows, k)), v.versionId);
              && reply == (if clash then Conflict else Done)
              && (clash ==> rows == old(rows))
              && (!clash ==> RowsOf(rows, k) == PutList(old(RowsOf(rows, k)), Seen(carried, v)))
              && (forall l :: l != k ==> RowsOf(rows, l) == old(RowsOf(rows, l)))
    {
      hide RowsOf, HasId, PutList;
      reply := Replace(Seen(carried, v));
    }

    /** Delete the "null" row if the version is to take its place, and insert the version. */
    method Replace(v: ObjectVersion) returns (reply: Reply)
      requires Valid()
      modifies this
      ensures Valid()
      ensures var k := ObjectKey(v.bucket, v.key);
              var clash := v.versionId != NULL_ID && HasId(old(RowsOf(rows, k)), v.versionId);
              && reply == (if clash then Conflict else Done)
              && (clash ==> rows == old(rows))
              && (!clash ==> RowsOf(rows, k) == PutList(old(RowsOf(rows, k)), v))
              && (forall l :: l != k ==> RowsOf(rows, l) == old(RowsOf(rows, l)))
    {
      var k := ObjectKey(v.bucket, v.key);
      ghost var before := rows;
      if v.versionId == NULL_ID {
        rows := DeleteWhere(rows, k, NULL_ID);
        DeleteWhereOrdered(before, k, NULL_ID);
        DeleteWhereReads(before, k, NULL_ID, k);
      } else if HasId(RowsOf(rows, k), v.versionId) {
        return Conflict;
      }
      ghost var kept := rows;
      rows := rows + [Row(nextOrdinal, v)];
      forall l
        ensures RowsOf(rows, l) == RowsOf(kept, l) + (if l == k then [v] else [])
      {
        InsertReads(kept, Row(nextOrdinal, v), l);
      }
      forall l | l != k
        ensures RowsOf(kept, l) == RowsOf(before, l)
      {
        DeleteWhereReads(before, k, NULL_ID, l);
      }
      nextOrdinal := nextOrdinal + 1;
      reply := Done;
    }

    method DeleteObject(k: ObjectKey, id: Str, at: int) returns (reply: Reply)
      requires Valid()
      modifies this
      ensures Valid()
      ensures var clash := id != NULL_ID && HasId(old(RowsOf(rows, k)), id);
              && reply == (if clash then Conflict else Done)
              && (clash ==> rows == old(rows))
              && (!clash ==> RowsOf(rows, k) == PutList(old(RowsOf(rows, k)), Marker(k, id, at)))
              && (forall l :: l != k ==> RowsOf(rows, l) == old(RowsOf(rows, l)))
    {
      reply := PutObjectVersion(Marker(k, id, at));
    }

    /** ORDER BY ordinal DESC LIMIT 1: the row of the key with the greatest ordinal, wherever it
        stands, is the last version of the key. */
    method GetLatestObjectVersion(k: ObjectKey) returns (reply: Reply)
      requires Valid()
      ensures reply == LatestOf(RowsOf(rows, k))
      ensures reply.NotFound? <==> forall r :: r in rows ==> !OfKey(r, k)
      ensures reply.One? ==> exists r :: r in rows && OfKey(r, k) && r.version == reply.version
                                         && forall q :: q in rows && OfKey(q, k) ==> q.ordinal <= r.ordinal
    {
      hide RowsOf, OfKey;
      var best: Option<Row> := None;
      NoRows(k);
      assert rows[..0] == [];
      for i := 0 to |rows|
        invariant BestOf(rows[..i], k, best)
      {
        BetterOf(rows, i, k, best);
        if OfKey(rows[i], k) && (best.None? || best.value.ordinal < rows[i].ordinal) {
          best := Some(rows[i]);
        }
      }
      assert rows[..|rows|] == rows;
      reply := if best.None? then NotFound else One(best.value.version);
    }

    /** The row with the id, if the key has one. */
    method GetObjectVersion(k: ObjectKey, id: Str) returns (reply: Reply)
      requires Valid()
      ensures reply == StepList(RowsOf(rows, k), GetVersion(k, id)).1
      ensures id != [] && reply.NotFound? ==> forall r :: r in rows && OfKey(r, k) ==> r.version.versionId != id
    {
      hide RowsOf, OfKey, Find;
      if id == [] {
        reply := GetLatestObjectVersion(k);
        return;
      }
      NoRows(k);
      assert rows[..0] == [];
      for i := 0 to |rows|
        invariant forall r :: r in rows[..i] && OfKey(r, k) ==> r.version.versionId != id
        invariant Find(RowsOf(rows[..i], k), id) < 0
      {
        FoundNext(rows, i, k, id);
        if OfKey(rows[i], k) && rows[i].version.versionId == id {
          return One(rows[i].version);
        }
      }
      assert rows[..|rows|] == rows;
      reply := NotFound;
    }

    method UpdateObjectMetadata(k: ObjectKey, id: Str, metadata: map<Str, Str>) returns (reply: Reply)
      requires Valid()
      modifies this
      ensures Valid()
      ensures reply == if Find(old(RowsOf(rows, k)), id) < 0 then NotFound else Done
      ensures RowsOf(rows, k) == UpdateAll(old(RowsOf(rows, k)), id, carried(metadata))
      ensures forall l :: l != k ==> RowsOf(rows, l) == old(RowsOf(rows, l))
    {
      ghost var before := rows;
      var affected := Find(RowsOf(rows, k), id) >= 0;
      var stored := carried(metadata);
      rows := UpdateWhere(rows, k, id, stored);
      UpdateWhereOrdinals(before, k, id, stored);
      UpdateWhereReads(before, k, id, stored, k);
      forall l | l != k
        ensures RowsOf(rows, l) == RowsOf(before, l)
      {
        UpdateWhereReads(before, k, id, stored, l);
      }
      assert forall r :: r in before ==> r.ordinal < nextOrdinal;
      reply := if affected then Done else NotFound;
    }

    /** The row is read first, by id or as the latest when the id is empty, and then the
        rows with that very id are deleted. */
    method DeleteObjectVersion(k: ObjectKey, id: Str) returns (reply: Reply)
      requires Valid()
      modifies this
      ensures Valid()
      ensures var vs := old(RowsOf(rows, k));
              reply == if Find(vs, id) < 0 then NotFound else StepList(vs, GetVersion(k, id)).1
      ensures RowsOf(rows, k) == Without(old(RowsOf(rows, k)), id)
      ensures forall l :: l != k ==> RowsOf(rows, l) == old(RowsOf(rows, l))
    {
      ghost var before := rows;
      DeleteWhereReads(rows, k, id, k);
      reply := GetObjectVersion(k, id);
      if reply.NotFound? {
        WithoutAbsent(RowsOf(rows, k), id);
        return;
      }
      var affected := Find(RowsOf(rows, k), id) >= 0;
      rows := DeleteWhere(rows, k, id);
      DeleteWhereOrdered(before, k, id);
      forall l | l != k
        ensures RowsOf(rows, l) == RowsOf(before, l)
      {
        DeleteWhereReads(before, k, id, l);
      }
      if !affected {
        reply := NotFound;
      }
    }

    method DeleteAllObjectVersions(k: ObjectKey) returns (reply: Reply)
      requires Valid()
      modifies this
      ensures Valid()
      ensures reply == StepList(old(RowsOf(rows, k)), DeleteAll(k)).1
      ensures RowsOf(rows, k) == []
      ensures forall l :: l != k ==> RowsOf(rows, l) == old(RowsOf(rows, l))
    {
      ghost var before := rows;
      var versions := RowsOf(rows, k);
      if versions == [] {
        return NotFound;
      }
      rows := DeleteKey(rows, k);
      DeleteKeyOrdered(before, k);
      DeleteKeyReads(before, k, k);
      forall l | l != k
        ensures RowsOf(rows, l) == RowsOf(before, l)
      {
        DeleteKeyReads(before, k, l);
      }
      reply := Many(versions);
    }
  }

  lemma {:induction false} WithoutAbsent(vs: seq<ObjectVersion>, id: Str)
    requires Find(vs, id) < 0
    ensures Without(vs, id) == vs
  {
    hide Find;
    if vs != [] {
      var n := |vs| - 1;
      assert Find(vs[..n], id) < 0;
      WithoutAbsent(vs[..n], id);
      assert vs == vs[..n] + [vs[n]];
    }
  }
}
