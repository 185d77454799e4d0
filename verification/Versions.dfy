/** Version lists: what each version operation of a metadata store does to the list of one
    key, oldest version first, and what it answers. */
module Versions {
  import opened Bytes
  import opened Metadata

  type Lists = map<ObjectKey, seq<ObjectVersion>>

  datatype Op =
    | Put(version: ObjectVersion)
    | PutMarker(k: ObjectKey, id: Str, at: int)
    | UpdateMetadata(k: ObjectKey, id: Str, metadata: map<Str, Str>)
    | DeleteVersion(k: ObjectKey, id: Str)
    | DeleteAll(k: ObjectKey)
    | GetLatest(k: ObjectKey)
    | GetVersion(k: ObjectKey, id: Str)

  datatype Reply = Done | NotFound | Conflict | One(version: ObjectVersion) | Many(versions: seq<ObjectVersion>)

  function KeyOf(op: Op): ObjectKey {
    if op.Put? then ObjectKey(op.version.bucket, op.version.key) else op.k
  }

  /** The delete marker DeleteObject puts. */
  function Marker(k: ObjectKey, id: Str, at: int): ObjectVersion {
    ObjectVersion(k.bucket, k.key, id, 0, [], Checksums([], [], [], []), [], map[], true, at)
  }

  function Without(vs: seq<ObjectVersion>, id: Str): seq<ObjectVersion> {
    if vs == [] then []
    else
      var init := Without(vs[..|vs| - 1], id);
      if vs[|vs| - 1].versionId == id then init else init + [vs[|vs| - 1]]
  }

  /** The position of the first version with this id, or -1. */
  function Find(vs: seq<ObjectVersion>, id: Str): (i: int)
    ensures -1 <= i < |vs|
    ensures i >= 0 ==> vs[i].versionId == id
    ensures forall j :: 0 <= j < (if i < 0 then |vs| else i) ==> vs[j].versionId != id
  {
    if vs == [] then -1
    else if vs[0].versionId == id then 0
    else
      var i := Find(vs[1..], id);
      assert forall j | 0 < j < |vs| :: vs[j] == vs[1..][j - 1];
      if i < 0 then -1 else i + 1
  }

  /** A put replaces the "null" version, moving it to the end, and appends any other. */
  function PutList(vs: seq<ObjectVersion>, v: ObjectVersion): seq<ObjectVersion> {
    (if v.versionId == NULL_ID then Without(vs, NULL_ID) else vs) + [v]
  }

  function LatestOf(vs: seq<ObjectVersion>): Reply {
    if vs == [] then NotFound else One(vs[|vs| - 1])
  }

  function StepList(vs: seq<ObjectVersion>, op: Op): (seq<ObjectVersion>, Reply) {
    match op
    case Put(v) => (PutList(vs, v), Done)
    case PutMarker(k, id, at) => (PutList(vs, Marker(k, id, at)), Done)
    case UpdateMetadata(_, id, metadata) =>
      var i := Find(vs, id);
      if i < 0 then (vs, NotFound) else (vs[i := vs[i].(metadata := metadata)], Done)
    case DeleteVersion(_, id) =>
      var i := Find(vs, id);
      if i < 0 then (vs, NotFound) else (vs[..i] + vs[i + 1..], One(vs[i]))
    case DeleteAll(_) => if vs == [] then (vs, NotFound) else ([], Many(vs))
    case GetLatest(_) => (vs, LatestOf(vs))
    case GetVersion(_, id) =>
      if id == [] then (vs, LatestOf(vs))
      else
        var i := Find(vs, id);
        (vs, if i < 0 then NotFound else One(vs[i]))
  }

  function Get(m: Lists, k: ObjectKey): seq<ObjectVersion> {
    if k in m then m[k] else []
  }

  function Store(m: Lists, k: ObjectKey, vs: seq<ObjectVersion>): Lists {
    if vs == [] then m - {k} else m[k := vs]
  }

  function Step(m: Lists, op: Op): (Lists, Reply) {
    var (vs, reply) := StepList(Get(m, KeyOf(op)), op);
    (Store(m, KeyOf(op), vs), reply)
  }

  // ---- What every operation keeps

  ghost predicate UniqueIds(vs: seq<ObjectVersion>) {
    forall i, j :: 0 <= i < j < |vs| ==> vs[i].versionId != vs[j].versionId
  }

  /** One list: distinct non-empty ids, so at most one "null" version, all of one key. */
  ghost predicate ListOk(k: ObjectKey, vs: seq<ObjectVersion>) {
    && UniqueIds(vs)
    && forall v :: v in vs ==> v.versionId != [] && v.bucket == k.bucket && v.key == k.key
  }

  ghost predicate ListsOk(m: Lists) {
    forall k :: k in m ==> m[k] != [] && ListOk(k, m[k])
  }

  predicate HasId(vs: seq<ObjectVersion>, id: Str) {
    exists v :: v in vs && v.versionId == id
  }

  /** New versions are "null" or carry an id their key does not use yet. */
  predicate FreshOp(vs: seq<ObjectVersion>, op: Op) {
    match op
    case Put(v) => v.versionId == NULL_ID || (v.versionId != [] && !HasId(vs, v.versionId))
    case PutMarker(_, id, _) => id == NULL_ID || (id != [] && !HasId(vs, id))
    case _ => true
  }

  lemma {:induction false} WithoutMeaning(vs: seq<ObjectVersion>, id: Str)
    ensures forall v :: v in Without(vs, id) <==> v in vs && v.versionId != id
    ensures UniqueIds(vs) ==> UniqueIds(Without(vs, id))
  {
    if vs != [] {
      var n := |vs| - 1;
      WithoutMeaning(vs[..n], id);
      assert vs == vs[..n] + [vs[n]];
      assert UniqueIds(vs) ==> forall v :: v in vs[..n] ==> v.versionId != vs[n].versionId;
    }
  }

  lemma CutInit(vs: seq<ObjectVersion>, i: nat)
    requires i < |vs| - 1
    ensures var n := |vs| - 1;
            vs[..i] + vs[i + 1..] == vs[..n][..i] + vs[..n][i + 1..] + [vs[n]]
  {
  }

  /** Without one id of a list of distinct ids: the list with that one position cut out. */
  lemma {:induction false} WithoutIsCut(vs: seq<ObjectVersion>, id: Str)
    requires UniqueIds(vs)
    ensures var i := Find(vs, id);
            Without(vs, id) == if i < 0 then vs else vs[..i] + vs[i + 1..]
  {
    hide Find;
    if vs != [] {
      var n := |vs| - 1;
      var i, j := Find(vs, id), Find(vs[..n], id);
      WithoutIsCut(vs[..n], id);
      if vs[n].versionId == id {
        assert j < 0 && i == n;
        assert vs[..i] + vs[i + 1..] == vs[..n];
      } else {
        assert i == j;
        assert vs == vs[..n] + [vs[n]];
        if i >= 0 { CutInit(vs, i); }
      }
    }
  }

  lemma PutListOk(k: ObjectKey, vs: seq<ObjectVersion>, v: ObjectVersion)
    requires ListOk(k, vs) && v.bucket == k.bucket && v.key == k.key && v.versionId != []
    requires v.versionId == NULL_ID || !HasId(vs, v.versionId)
    ensures ListOk(k, PutList(vs, v))
  {
    WithoutMeaning(vs, NULL_ID);
  }

  lemma StepListOk(k: ObjectKey, vs: seq<ObjectVersion>, op: Op)
    requires ListOk(k, vs) && KeyOf(op) == k && FreshOp(vs, op)
    ensures ListOk(k, StepList(vs, op).0)
  {
    hide Find, Without;
    match op
    case Put(v) => PutListOk(k, vs, v);
    case PutMarker(_, id, at) => PutListOk(k, vs, Marker(k, id, at));
    case UpdateMetadata(_, id, metadata) =>
      var i := Find(vs, id);
      if i >= 0 {
        var out := vs[i := vs[i].(metadata := metadata)];
        assert forall j | 0 <= j < |vs| :: out[j].versionId == vs[j].versionId;
      }
    case DeleteVersion(_, id) =>
      WithoutIsCut(vs, id);
      WithoutMeaning(vs, id);
    case _ =>
  }

  lemma StepOk(m: Lists, op: Op)
    requires ListsOk(m) && FreshOp(Get(m, KeyOf(op)), op)
    ensures ListsOk(Step(m, op).0)
  {
    StepListOk(KeyOf(op), Get(m, KeyOf(op)), op);
  }

  /** At most one version of a key is "null", and a put makes the version put the latest. */
  lemma PutIsLatest(k: ObjectKey, vs: seq<ObjectVersion>, v: ObjectVersion)
    requires ListOk(k, vs) && KeyOf(Put(v)) == k && FreshOp(vs, Put(v))
    ensures var (out, _) := StepList(vs, Put(v));
            && StepList(out, GetLatest(k)).1 == One(v)
            && StepList(out, GetVersion(k, v.versionId)).1 == One(v)
            && (forall i, j :: 0 <= i < j < |out| ==> !(out[i].versionId == NULL_ID && out[j].versionId == NULL_ID))
            && (forall id :: id != v.versionId && id != [] ==>
                StepList(out, GetVersion(k, id)).1 == StepList(vs, GetVersion(k, id)).1)
  {
    StepListOk(k, vs, Put(v));
    var out := PutList(vs, v);
    FindAt(out, |out| - 1);
    forall id | id != v.versionId && id != []
      ensures StepList(out, GetVersion(k, id)).1 == StepList(vs, GetVersion(k, id)).1
    {
      var base := out[..|out| - 1];
      if v.versionId == NULL_ID {
        WithoutMeaning(vs, NULL_ID);
        assert base == Without(vs, NULL_ID);
      } else {
        assert base == vs;
      }
      SameFind(vs, out, id);
    }
  }

  lemma FindAt(vs: seq<ObjectVersion>, i: nat)
    requires UniqueIds(vs) && i < |vs|
    ensures Find(vs, vs[i].versionId) == i
  {
  }

  lemma SameFind(vs: seq<ObjectVersion>, out: seq<ObjectVersion>, id: Str)
    requires UniqueIds(vs) && UniqueIds(out)
    requires forall u: ObjectVersion :: u.versionId == id ==> (u in vs <==> u in out)
    ensures Find(vs, id) >= 0 <==> Find(out, id) >= 0
    ensures Find(vs, id) >= 0 ==> vs[Find(vs, id)] == out[Find(out, id)]
  {
    var i, j := Find(vs, id), Find(out, id);
    if i >= 0 {
      assert vs[i] in out;
      var n :| 0 <= n < |out| && out[n] == vs[i];
      FindAt(out, n);
    }
    if j >= 0 {
      assert out[j] in vs;
    }
  }
}
