/** The row-level SQL store behaves like the in-memory store: over every run of version
    operations with unused version ids the two give the same answers and hold the same
    lists, and so they list the same objects. */
module StoreEquivalence {
  import opened Bytes
  import opened Metadata
  import opened SqlTable
  import opened Versions
  import opened MemoryStore
  import Listing
  import opened ListPages
  import opened PagerAgreement
  import Sql = SqlStore
  import Utf8

  /** For every key, its rows in ordinal order are its in-memory version list. */
  ghost predicate Related(rows: seq<Row>, m: Lists) {
    forall k :: Sql.RowsOf(rows, k) == Get(m, k)
  }

  ghost predicate FreshRun(m: Lists, ops: seq<Op>)
    decreases |ops|
  {
    ops == [] || (FreshOp(Get(m, KeyOf(ops[0])), ops[0]) && FreshRun(Step(m, ops[0]).0, ops[1..]))
  }

  function StateAfter(m: Lists, ops: seq<Op>): Lists
    decreases |ops|
  {
    if ops == [] then m else StateAfter(Step(m, ops[0]).0, ops[1..])
  }

  function Replies(m: Lists, ops: seq<Op>): seq<Reply>
    decreases |ops|
  {
    if ops == [] then [] else [Step(m, ops[0]).1] + Replies(Step(m, ops[0]).0, ops[1..])
  }

  // ---- What the SQL store makes of the same operations

  function SeenList(carried: Sql.Column, vs: seq<ObjectVersion>): seq<ObjectVersion> {
    seq(|vs|, i requires 0 <= i < |vs| => Sql.Seen(carried, vs[i]))
  }

  function SeenLists(carried: Sql.Column, m: Lists): Lists {
    map k | k in m :: SeenList(carried, m[k])
  }

  function SeenReply(carried: Sql.Column, reply: Reply): Reply {
    match reply
    case One(v) => One(Sql.Seen(carried, v))
    case Many(vs) => Many(SeenList(carried, vs))
    case _ => reply
  }

  function SeenOp(carried: Sql.Column, op: Op): Op {
    match op
    case Put(v) => Put(Sql.Seen(carried, v))
    case UpdateMetadata(k, id, metadata) => UpdateMetadata(k, id, carried(metadata))
    case _ => op
  }

  /** The JSON column, for metadata whose names are ASCII, as those of headers are. */
  function JsonColumn(metadata: map<Str, Str>): map<Str, Str> {
    map k | k in metadata :: Utf8.Coerced(metadata[k])
  }

  /** A version comes back unchanged exactly if all its metadata values are UTF-8. */
  lemma SeenIff(v: ObjectVersion)
    ensures JsonColumn(map[]) == map[]
    ensures Sql.Seen(JsonColumn, v) == v <==> forall k :: k in v.metadata ==> Utf8.Valid(v.metadata[k])
  {
    hide Utf8.Coerced, Utf8.Valid;
    var m := v.metadata;
    forall k | k in m
      ensures Utf8.Coerced(m[k]) == m[k] <==> Utf8.Valid(m[k])
    {
      Utf8.CoercedIff(m[k]);
    }
    assert JsonColumn(m) == m <==> forall k :: k in m ==> Utf8.Valid(m[k]) by {
      assert forall k | k in m :: JsonColumn(m)[k] == Utf8.Coerced(m[k]);
    }
  }

  lemma SeenFind(carried: Sql.Column, vs: seq<ObjectVersion>, id: Str)
    ensures Find(SeenList(carried, vs), id) == Find(vs, id)
    ensures HasId(SeenList(carried, vs), id) <==> HasId(vs, id)
  {
    hide Find;
    var seen := SeenList(carried, vs);
    assert forall i | 0 <= i < |vs| :: seen[i].versionId == vs[i].versionId && seen[i] in seen && vs[i] in vs;
    var i, j := Find(seen, id), Find(vs, id);
    if i >= 0 { assert vs[i].versionId == id; }
    if j >= 0 { assert seen[j].versionId == id; }
  }

  lemma {:induction false} SeenWithout(carried: Sql.Column, vs: seq<ObjectVersion>, id: Str)
    ensures Without(SeenList(carried, vs), id) == SeenList(carried, Without(vs, id))
  {
    if vs != [] {
      var n := |vs| - 1;
      SeenWithout(carried, vs[..n], id);
      assert SeenList(carried, vs)[..n] == SeenList(carried, vs[..n]);
    }
  }

  /** What both sides make of one operation. */
  ghost predicate SeenStepOk(carried: Sql.Column, vs: seq<ObjectVersion>, op: Op) {
    StepList(SeenList(carried, vs), SeenOp(carried, op))
    == (SeenList(carried, StepList(vs, op).0), SeenReply(carried, StepList(vs, op).1))
  }

  lemma SeenPuts(carried: Sql.Column, vs: seq<ObjectVersion>, op: Op)
    requires carried(map[]) == map[] && (op.Put? || op.PutMarker?)
    ensures SeenStepOk(carried, vs, op)
  {
    hide PutList, SeenList;
    SeenPut(carried, vs, if op.Put? then op.version else Marker(op.k, op.id, op.at));
  }

  lemma SeenUpdates(carried: Sql.Column, vs: seq<ObjectVersion>, op: Op)
    requires op.UpdateMetadata?
    ensures SeenStepOk(carried, vs, op)
  {
    hide Find, SeenList;
    SeenAt(carried, vs);
    SeenFind(carried, vs, op.id);
    if Find(vs, op.id) >= 0 { SeenUpdate(carried, vs, Find(vs, op.id), op.metadata); }
  }

  lemma SeenDeletes(carried: Sql.Column, vs: seq<ObjectVersion>, op: Op)
    requires op.DeleteVersion?
    ensures SeenStepOk(carried, vs, op)
  {
    hide Find, SeenList;
    SeenAt(carried, vs);
    SeenFind(carried, vs, op.id);
    if Find(vs, op.id) >= 0 { SeenCut(carried, vs, Find(vs, op.id)); }
  }

  lemma SeenReads(carried: Sql.Column, vs: seq<ObjectVersion>, op: Op)
    requires op.DeleteAll? || op.GetLatest? || op.GetVersion?
    ensures SeenStepOk(carried, vs, op)
  {
    hide Find, SeenList;
    SeenAt(carried, vs);
    if op.GetVersion? { SeenFind(carried, vs, op.id); }
  }

  /** The list operations do not look at metadata. */
  lemma SeenStepList(carried: Sql.Column, vs: seq<ObjectVersion>, op: Op)
    requires carried(map[]) == map[]
    ensures SeenStepOk(carried, vs, op)
  {
    hide SeenStepOk;
    if op.Put? || op.PutMarker? {
      SeenPuts(carried, vs, op);
    } else if op.UpdateMetadata? {
      SeenUpdates(carried, vs, op);
    } else if op.DeleteVersion? {
      SeenDeletes(carried, vs, op);
    } else {
      SeenReads(carried, vs, op);
    }
  }

  lemma SeenAt(carried: Sql.Column, vs: seq<ObjectVersion>)
    ensures SeenList(carried, []) == [] && |SeenList(carried, vs)| == |vs|
    ensures forall i :: 0 <= i < |vs| ==> SeenList(carried, vs)[i] == Sql.Seen(carried, vs[i])
  {
  }

  lemma SeenUpdate(carried: Sql.Column, vs: seq<ObjectVersion>, i: nat, metadata: map<Str, Str>)
    requires i < |vs|
    ensures var seen := SeenList(carried, vs);
            SeenList(carried, vs[i := vs[i].(metadata := metadata)])
            == seen[i := seen[i].(metadata := carried(metadata))]
  {
  }

  lemma SeenCut(carried: Sql.Column, vs: seq<ObjectVersion>, i: nat)
    requires i < |vs|
    ensures var seen := SeenList(carried, vs);
            SeenList(carried, vs[..i] + vs[i + 1..]) == seen[..i] + seen[i + 1..]
  {
  }

  lemma SeenPut(carried: Sql.Column, vs: seq<ObjectVersion>, v: ObjectVersion)
    ensures PutList(SeenList(carried, vs), Sql.Seen(carried, v)) == SeenList(carried, PutList(vs, v))
  {
    hide Without;
    SeenWithout(carried, vs, NULL_ID);
    var kept := if v.versionId == NULL_ID then Without(vs, NULL_ID) else vs;
    assert SeenList(carried, kept + [v]) == SeenList(carried, kept) + [Sql.Seen(carried, v)];
  }

  lemma SeenGet(carried: Sql.Column, m: Lists, k: ObjectKey)
    ensures Get(SeenLists(carried, m), k) == SeenList(carried, Get(m, k))
  {
  }

  lemma SeenStep(carried: Sql.Column, m: Lists, op: Op)
    requires carried(map[]) == map[]
    ensures Step(SeenLists(carried, m), SeenOp(carried, op))
         == (SeenLists(carried, Step(m, op).0), SeenReply(carried, Step(m, op).1))
  {
    hide StepList, SeenLists, SeenReply;
    var k := KeyOf(op);
    SameKey(carried, op);
    SeenGet(carried, m, k);
    SeenStepList(carried, Get(m, k), op);
    SeenStore(carried, m, k, StepList(Get(m, k), op).0);
  }

  lemma SeenStore(carried: Sql.Column, m: Lists, k: ObjectKey, vs: seq<ObjectVersion>)
    ensures Store(SeenLists(carried, m), k, SeenList(carried, vs)) == SeenLists(carried, Store(m, k, vs))
  {
    if vs == [] {
      assert SeenLists(carried, m) - {k} == SeenLists(carried, m - {k});
    } else {
      assert SeenLists(carried, m)[k := SeenList(carried, vs)] == SeenLists(carried, m[k := vs]);
    }
  }

  lemma SeenOk(carried: Sql.Column, m: Lists)
    requires ListsOk(m)
    ensures ListsOk(SeenLists(carried, m))
  {
    forall k | k in m
      ensures SeenList(carried, m[k]) != [] && ListOk(k, SeenList(carried, m[k]))
    {
      var vs, seen := m[k], SeenList(carried, m[k]);
      forall v | v in seen
        ensures v.versionId != [] && v.bucket == k.bucket && v.key == k.key
      {
        var i :| 0 <= i < |seen| && seen[i] == v;
        assert vs[i] in vs;
      }
    }
  }

  // ---- One operation

  method MemoryExec(mem: MemoryState, op: Op) returns (reply: Reply)
    requires mem.Valid() && ListsOk(mem.ListsOf())
    modifies mem`objects, mem.Arrays()
    ensures mem.Valid() && fresh(mem.Arrays() - old(mem.Arrays()))
    ensures (mem.ListsOf(), reply) == Step(old(mem.ListsOf()), op)
  {
    hide Find, Without;
    match op
    case Put(v) =>
      mem.PutObjectVersion(v);
      reply := Done;
    case PutMarker(k, id, at) =>
      mem.DeleteObject(k, id, at);
      reply := Done;
    case UpdateMetadata(k, id, metadata) =>
      reply := mem.UpdateObjectMetadata(k, id, metadata);
    case DeleteVersion(k, id) =>
      reply := mem.DeleteObjectVersion(k, id);
    case DeleteAll(k) =>
      reply := mem.DeleteAllObjectVersions(k);
    case GetLatest(k) =>
      UnchangedStore(mem.ListsOf(), k);
      reply := mem.GetLatestObjectVersion(k);
    case GetVersion(k, id) =>
      UnchangedStore(mem.ListsOf(), k);
      reply := mem.GetObjectVersion(k, id);
  }

  /** The effect of one operation on the rows of every key, and its answer. */
  method SqlExec(sql: Sql.SqlStore, op: Op) returns (reply: Reply)
    requires sql.Valid()
    requires ListOk(KeyOf(op), Sql.RowsOf(sql.rows, KeyOf(op))) && FreshOp(Sql.RowsOf(sql.rows, KeyOf(op)), op)
    modifies sql
    ensures sql.Valid()
    ensures (Sql.RowsOf(sql.rows, KeyOf(op)), reply)
         == StepList(old(Sql.RowsOf(sql.rows, KeyOf(op))), SeenOp(sql.carried, op))
    ensures forall l :: l != KeyOf(op) ==> Sql.RowsOf(sql.rows, l) == old(Sql.RowsOf(sql.rows, l))
  {
    hide Find, Without, Sql.UpdateAll, Sql.RowsOf, Sql.OfKey;
    assert sql.carried(map[]) == map[];
    hide Sql.SqlStore.Valid;
    ghost var vs := Sql.RowsOf(sql.rows, KeyOf(op));
    match op
    case Put(v) =>
      reply := sql.PutObjectVersion(v);
    case PutMarker(k, id, at) =>
      reply := sql.DeleteObject(k, id, at);
    case UpdateMetadata(k, id, metadata) =>
      Sql.UpdateAllIsOne(vs, id, sql.carried(metadata));
      reply := sql.UpdateObjectMetadata(k, id, metadata);
    case DeleteVersion(k, id) =>
      WithoutIsCut(vs, id);
      reply := sql.DeleteObjectVersion(k, id);
    case DeleteAll(k) =>
      reply := sql.DeleteAllObjectVersions(k);
    case GetLatest(k) =>
      reply := sql.GetLatestObjectVersion(k);
    case GetVersion(k, id) =>
      reply := sql.GetObjectVersion(k, id);
  }

  lemma RelatedStep(rows: seq<Row>, rows': seq<Row>, m: Lists, op: Op)
    requires Related(rows, m)
    requires Sql.RowsOf(rows', KeyOf(op)) == StepList(Sql.RowsOf(rows, KeyOf(op)), op).0
    requires forall l :: l != KeyOf(op) ==> Sql.RowsOf(rows', l) == Sql.RowsOf(rows, l)
    ensures Related(rows', Step(m, op).0)
  {
    hide StepList, Sql.RowsOf;
  }

  lemma ListOkAt(m: Lists, k: ObjectKey)
    requires ListsOk(m)
    ensures ListOk(k, Get(m, k))
  {
  }

  // ---- Whole runs

  lemma {:induction false} RunAppend(m: Lists, ops: seq<Op>, i: nat)
    requires i < |ops| && FreshRun(m, ops)
    ensures var mi := StateAfter(m, ops[..i]);
            && FreshOp(Get(mi, KeyOf(ops[i])), ops[i])
            && StateAfter(m, ops[..i + 1]) == Step(mi, ops[i]).0
            && Replies(m, ops[..i + 1]) == Replies(m, ops[..i]) + [Step(mi, ops[i]).1]
    decreases |ops|
  {
    hide Step, FreshOp;
    if i == 0 {
      assert ops[..1] == [ops[0]] && ops[..1][1..] == [];
    } else {
      RunAppend(Step(m, ops[0]).0, ops[1..], i - 1);
      assert ops[..i + 1][1..] == ops[1..][..i] && ops[..i][1..] == ops[1..][..i - 1];
    }
  }

  /** Both stores, driven by the same operations from related states, answer alike at every step
      and end in related states with at most one "null" version per key: alike but for what the
      metadata column makes of metadata, so equally if and only if it brings back unchanged all
      that is answered. */
  method Lockstep(mem: MemoryState, sql: Sql.SqlStore, ops: seq<Op>)
    returns (fromMemory: seq<Reply>, fromSql: seq<Reply>)
    requires mem.Valid() && sql.Valid() && ListsOk(mem.ListsOf())
    requires Related(sql.rows, SeenLists(sql.carried, mem.ListsOf())) && FreshRun(mem.ListsOf(), ops)
    modifies mem`objects, mem.Arrays(), sql
    ensures mem.Valid() && sql.Valid()
    ensures fromMemory == Replies(old(mem.ListsOf()), ops) && mem.ListsOf() == StateAfter(old(mem.ListsOf()), ops)
    ensures fromSql == SeenReplies(sql.carried, fromMemory)
    ensures fromSql == fromMemory <==> forall r :: r in fromMemory ==> SeenReply(sql.carried, r) == r
    ensures Related(sql.rows, SeenLists(sql.carried, mem.ListsOf())) && ListsOk(mem.ListsOf())
  {
    hide Step, StepList, FreshOp, Replies, StateAfter, SeenLists, SeenReply, SeenReplies, Related, ListsOk;
    hide Sql.SqlStore.Valid;
    ghost var m := mem.ListsOf();
    fromMemory, fromSql := [], [];
    SeenNone(sql.carried);
    EmptyRun(m);
    assert ops[..0] == [];
    for i := 0 to |ops|
      invariant mem.Valid() && sql.Valid() && fresh(mem.Arrays() - old(mem.Arrays()))
      invariant fromMemory == Replies(m, ops[..i]) && fromSql == SeenReplies(sql.carried, fromMemory)
      invariant mem.ListsOf() == StateAfter(m, ops[..i])
      invariant Related(sql.rows, SeenLists(sql.carried, mem.ListsOf())) && ListsOk(mem.ListsOf())
    {
      RunAppend(m, ops, i);
      var a, b := StepBoth(mem, sql, ops[i]);
      SeenMore(sql.carried, fromMemory, a);
      fromMemory, fromSql := fromMemory + [a], fromSql + [b];
    }
    assert ops[..|ops|] == ops;
    SeenSame(sql.carried, fromMemory);
  }

  function SeenReplies(carried: Sql.Column, replies: seq<Reply>): seq<Reply> {
    seq(|replies|, i requires 0 <= i < |replies| => SeenReply(carried, replies[i]))
  }

  lemma SeenNone(carried: Sql.Column)
    ensures SeenReplies(carried, []) == []
  {
  }

  lemma SeenMore(carried: Sql.Column, replies: seq<Reply>, r: Reply)
    ensures SeenReplies(carried, replies + [r]) == SeenReplies(carried, replies) + [SeenReply(carried, r)]
  {
    hide SeenReply;
  }

  lemma SeenSame(carried: Sql.Column, replies: seq<Reply>)
    ensures SeenReplies(carried, replies) == replies <==> forall r :: r in replies ==> SeenReply(carried, r) == r
  {
    hide SeenReply;
    if SeenReplies(carried, replies) == replies {
      assert forall i | 0 <= i < |replies| :: SeenReplies(carried, replies)[i] == SeenReply(carried, replies[i]);
    }
  }

  lemma EmptyRun(m: Lists)
    ensures Replies(m, []) == [] && StateAfter(m, []) == m
  {
  }

  method StepBoth(mem: MemoryState, sql: Sql.SqlStore, op: Op) returns (a: Reply, b: Reply)
    requires mem.Valid() && sql.Valid() && ListsOk(mem.ListsOf())
    requires Related(sql.rows, SeenLists(sql.carried, mem.ListsOf())) && FreshOp(Get(mem.ListsOf(), KeyOf(op)), op)
    modifies mem`objects, mem.Arrays(), sql
    ensures mem.Valid() && sql.Valid() && fresh(mem.Arrays() - old(mem.Arrays()))
    ensures (mem.ListsOf(), a) == Step(old(mem.ListsOf()), op) && b == SeenReply(sql.carried, a)
    ensures Related(sql.rows, SeenLists(sql.carried, mem.ListsOf())) && ListsOk(mem.ListsOf())
  {
    assert sql.carried(map[]) == map[];
    hide StepList, Step, FreshOp, Sql.RowsOf, SeenLists, SeenReply, Sql.SqlStore.Valid, Related, ListsOk, ListOk;
    hide SeenOp;
    ghost var m, rows, carried := mem.ListsOf(), sql.rows, sql.carried;
    SqlReady(carried, rows, m, op);
    StepOk(m, op);
    b := SqlExec(sql, op);
    SqlDone(carried, rows, sql.rows, m, op, b);
    a := MemoryExec(mem, op);
  }

  lemma SqlReady(carried: Sql.Column, rows: seq<Row>, m: Lists, op: Op)
    requires ListsOk(m) && Related(rows, SeenLists(carried, m)) && FreshOp(Get(m, KeyOf(op)), op)
    ensures ListOk(KeyOf(op), Sql.RowsOf(rows, KeyOf(op))) && FreshOp(Sql.RowsOf(rows, KeyOf(op)), op)
  {
    hide FreshOp, Sql.RowsOf, SeenLists, ListsOk;
    var k := KeyOf(op);
    SeenOk(carried, m);
    ListOkAt(SeenLists(carried, m), k);
    SeenGet(carried, m, k);
    SeenFresh(carried, Get(m, k), op);
  }

  lemma SqlDone(carried: Sql.Column, rows: seq<Row>, rows': seq<Row>, m: Lists, op: Op, reply: Reply)
    requires carried(map[]) == map[] && Related(rows, SeenLists(carried, m))
    requires (Sql.RowsOf(rows', KeyOf(op)), reply) == StepList(Sql.RowsOf(rows, KeyOf(op)), SeenOp(carried, op))
    requires forall l :: l != KeyOf(op) ==> Sql.RowsOf(rows', l) == Sql.RowsOf(rows, l)
    ensures Related(rows', SeenLists(carried, Step(m, op).0)) && reply == SeenReply(carried, Step(m, op).1)
  {
    hide StepList, Sql.RowsOf, SeenLists, SeenReply, SeenOp;
    SameKey(carried, op);
    SeenStep(carried, m, op);
    RelatedStep(rows, rows', SeenLists(carried, m), SeenOp(carried, op));
  }

  lemma SameKey(carried: Sql.Column, op: Op)
    ensures KeyOf(SeenOp(carried, op)) == KeyOf(op)
  {
  }

  /** Whether an operation brings a fresh id does not depend on metadata. */
  lemma SeenFresh(carried: Sql.Column, vs: seq<ObjectVersion>, op: Op)
    ensures FreshOp(SeenList(carried, vs), op) <==> FreshOp(vs, op)
  {
    hide HasId, Find;
    if op.Put? {
      SeenFind(carried, vs, op.version.versionId);
    } else if op.PutMarker? {
      SeenFind(carried, vs, op.id);
    }
  }

  // ---- Listings

  ghost predicate IsNewest(rows: seq<Row>, v: ObjectVersion) {
    exists r :: r in rows && r.version == v && Newest(rows, r)
  }

  /** A row of the same key put last takes over; one of another key changes nothing. */
  lemma NewestOfAppend(init: seq<Row>, last: Row, v: ObjectVersion)
    requires forall r :: r in init ==> r.ordinal < last.ordinal
    ensures var same := last.version.bucket == v.bucket && last.version.key == v.key;
            IsNewest(init + [last], v) <==> if same then v == last.version else IsNewest(init, v)
  {
    var rows := init + [last];
    NewestAppend(init, last);
    hide Newest;
    assert last in rows;
    if r :| r in rows && r.version == v && Newest(rows, r) && r != last {
      assert r in init;
    }
    if r :| r in init && r.version == v && Newest(init, r) {
      assert r in rows;
    }
  }

  /** v is the last version of its key in ordinal order. */
  ghost predicate IsLast(rows: seq<Row>, k: ObjectKey, v: ObjectVersion) {
    var vs := Sql.RowsOf(rows, k);
    vs != [] && v == vs[|vs| - 1]
  }

  lemma LastOfAppend(init: seq<Row>, last: Row, k: ObjectKey, v: ObjectVersion)
    ensures IsLast(init + [last], k, v) <==> if Sql.OfKey(last, k) then v == last.version else IsLast(init, k, v)
  {
    hide Sql.RowsOf, Sql.OfKey;
    Sql.InsertReads(init, last, k);
  }

  lemma NewestStep(init: seq<Row>, last: Row, k: ObjectKey, v: ObjectVersion)
    requires v.bucket == k.bucket && v.key == k.key
    requires forall r :: r in init ==> r.ordinal < last.ordinal
    requires IsNewest(init, v) <==> IsLast(init, k, v)
    ensures IsNewest(init + [last], v) <==> IsLast(init + [last], k, v)
  {
    hide IsNewest, IsLast;
    NewestOfAppend(init, last, v);
    LastOfAppend(init, last, k, v);
  }

  lemma NothingNewest(k: ObjectKey, v: ObjectVersion)
    ensures !IsNewest([], v) && !IsLast([], k, v)
  {
  }

  /** The last of a key's rows in ordinal order is the row of the greatest ordinal. */
  lemma {:induction false} NewestIsLast(rows: seq<Row>, k: ObjectKey, v: ObjectVersion)
    requires Ordered(rows) && v.bucket == k.bucket && v.key == k.key
    ensures IsNewest(rows, v) <==> IsLast(rows, k, v)
  {
    hide IsNewest, IsLast, Ordered;
    if rows == [] {
      NothingNewest(k, v);
    } else {
      var n := |rows| - 1;
      assert rows == rows[..n] + [rows[n]];
      OrderedSplit(rows[..n], rows[n]);
      NewestIsLast(rows[..n], k, v);
      NewestStep(rows[..n], rows[n], k, v);
    }
  }

  /** Related stores show the same objects in a bucket. */
  lemma ShownAgree(rows: seq<Row>, m: Lists, bucket: Str, v: ObjectVersion)
    requires Ordered(rows) && Related(rows, m) && ListsOk(m)
    ensures Shown(rows, bucket, v) <==> ShownInMemory(m, bucket, v)
  {
    var k := ObjectKey(v.bucket, v.key);
    NewestIsLast(rows, k, v);
    assert Shown(rows, bucket, v) <==> v.bucket == bucket && !v.deleteMarker && IsNewest(rows, v);
    assert Sql.RowsOf(rows, k) == Get(m, k);
    if ShownInMemory(m, bucket, v) {
      var l :| l in m && l.bucket == bucket && m[l] != [] && v == m[l][|m[l]| - 1] && !v.deleteMarker;
      assert v in m[l];
      assert l == k;
    }
  }

  lemma SameObjects(rows: seq<Row>, m: Lists, bucket: Str, objs: seq<ObjectVersion>)
    requires Ordered(rows) && Related(rows, m) && ListsOk(m) && forall k :: k in m ==> k.key != []
    requires StrictByKey(objs) && forall v :: v in objs <==> ShownInMemory(m, bucket, v)
    ensures objs == Objects(rows, bucket) && NonEmptyKeys(objs)
  {
    QueryMeaning(rows, bucket, [], [], None);
    forall v
      ensures v in objs <==> v in Objects(rows, bucket)
      ensures v in objs ==> v.key != []
    {
      ShownAgree(rows, m, bucket, v);
      if ShownInMemory(m, bucket, v) {
        var l :| l in m && l.bucket == bucket && m[l] != [] && v == m[l][|m[l]| - 1] && !v.deleteMarker;
        assert v in m[l];
        PrefixAtMost([], v.key);
        LessTotal(v.key, []);
      }
    }
    StrictListsEqual((v: ObjectVersion) => v.key, objs, Objects(rows, bucket));
  }

  /** A listing request answered by the SQL pager and by the in-memory path over related
      stores: from an issued position, with room for an entry, the answers are equal unless
      the position is a folder marker with keys under it. */
  method ListBoth(rows: seq<Row>, m: Lists, bucket: Str, p: Str, d: Str, after: Str, max: nat)
    returns (fromSql: Listing.Page, fromMemory: Listing.Page)
    requires Ordered(rows) && Related(rows, m) && ListsOk(m) && forall k :: k in m ==> k.key != []
    requires 0 < max <= 1000 && Issued(p, d, after)
    ensures fromSql == fromMemory <==> !(FolderMarker(p, d, after) && HasKeyUnder(Objects(rows, bucket), after))
  {
    fromSql := SqlListObjectsV2(rows, bucket, p, d, after, max);
    fromMemory := MemoryPage(m, bucket, p, d, after, max);
    ghost var objs :| IsListing(m, bucket, objs) && fromMemory == PageOf(Listing.Entries(objs, p, d), after, max);
    SameObjects(rows, m, bucket, objs);
    IssuedPagesAgreeIff(objs, p, d, after, max);
  }
}
