/** Transactions of the in-memory store: cloneState, memoryTx and RunInTx. */
module Transactions {
  import opened Bytes
  import opened Metadata
  import opened Versions
  import opened MemoryStore

  /** The operations a callback can make on its transaction. */
  datatype TxOp =
    | CreateBucket(bucket: Bucket)
    | DeleteBucket(name: Str)
    | UpdateVersioning(name: Str, status: Str)
    | PutVersion(version: ObjectVersion)
    | DeleteObject(k: ObjectKey, id: Str, at: int)
    | CreateUpload(upload: MultipartUpload)
    | DeleteUpload(uploadId: Str)
    | UpsertPart(part: MultipartPart)
    | UpsertCredential(record: CredentialRecord)

  datatype TxReply = Ok | Missing | Clash | Invalid

  /** The subresources memoryTx.DeleteBucket drops with the bucket; notification and
      replication settings stay. */
  predicate DroppedInTx(key: ConfigKey, bucket: Str) {
    key.bucket == bucket && !key.kind.Notification? && !key.kind.Replication?
  }

  function Survivors(configs: map<ConfigKey, Str>, bucket: Str): map<ConfigKey, Str> {
    map key | key in configs && !DroppedInTx(key, bucket) :: configs[key]
  }

  /** What one operation makes of the state as a value. */
  function TxStep(s: Snapshot, op: TxOp): (Snapshot, TxReply) {
    match op
    case CreateBucket(b) =>
      if b.name == [] then (s, Invalid)
      else if b.name in s.buckets then (s, Clash)
      else (s.(buckets := s.buckets[b.name := b]), Ok)
    case DeleteBucket(name) =>
      if name !in s.buckets then (s, Missing)
      else (s.(buckets := s.buckets - {name}, configs := Survivors(s.configs, name)), Ok)
    case UpdateVersioning(name, status) =>
      if name !in s.buckets then (s, Missing)
      else (s.(buckets := s.buckets[name := s.buckets[name].(versioning := status)]), Ok)
    case PutVersion(v) => (s.(objects := Step(s.objects, Put(v)).0), Ok)
    case DeleteObject(k, id, at) => (s.(objects := Step(s.objects, PutMarker(k, id, at)).0), Ok)
    case CreateUpload(u) =>
      if u.uploadId in s.multipart then (s, Clash)
      else (s.(multipart := s.multipart[u.uploadId := u]), Ok)
    case DeleteUpload(id) =>
      if id !in s.multipart then (s, Missing)
      else (s.(multipart := s.multipart - {id}, parts := s.parts - {id}), Ok)
    case UpsertPart(p) =>
      if p.uploadId !in s.multipart then (s, Missing)
      else
        var table := if p.uploadId in s.parts then s.parts[p.uploadId] else map[];
        (s.(parts := s.parts[p.uploadId := table[p.number := p]]), Ok)
    case UpsertCredential(r) => (s.(credentials := s.credentials[r.accessKeyId := r]), Ok)
  }

  /** What each operation comes to, and exactly when it is refused: a refused one changes nothing,
      any other only what it names. */
  lemma TxEffect(s: Snapshot, op: TxOp)
    ensures var (t, reply) := TxStep(s, op);
            && (reply != Ok ==> t == s)
            && match op
               case CreateBucket(b) =>
                 && (reply == Ok <==> b.name != [] && b.name !in s.buckets)
                 && (reply == Ok ==> t == s.(buckets := t.buckets) && t.buckets - {b.name} == s.buckets
                                     && b.name in t.buckets && t.buckets[b.name] == b)
               case DeleteBucket(name) =>
                 && (reply == Ok <==> name in s.buckets)
                 && (reply == Ok ==>
                       && t == s.(buckets := s.buckets - {name}, configs := t.configs)
                       && (forall key :: key in t.configs <==>
                             && key in s.configs
                             && (key.bucket != name || key.kind.Notification? || key.kind.Replication?))
                       && (forall key :: key in t.configs ==> t.configs[key] == s.configs[key]))
               case UpdateVersioning(name, status) =>
                 && (reply == Ok <==> name in s.buckets)
                 && (reply == Ok ==> t == s.(buckets := t.buckets) && t.buckets - {name} == s.buckets - {name}
                                     && name in t.buckets && t.buckets[name].versioning == status
                                     && t.buckets[name].(versioning := s.buckets[name].versioning) == s.buckets[name])
               case PutVersion(v) => reply == Ok && t == s.(objects := Step(s.objects, Put(v)).0)
               case DeleteObject(k, id, at) =>
                 reply == Ok && t == s.(objects := Step(s.objects, Put(Marker(k, id, at))).0)
               case CreateUpload(u) =>
                 && (reply == Ok <==> u.uploadId !in s.multipart)
                 && (reply == Ok ==> t == s.(multipart := t.multipart) && t.multipart - {u.uploadId} == s.multipart
                                     && u.uploadId in t.multipart && t.multipart[u.uploadId] == u)
               case DeleteUpload(id) =>
                 && (reply == Ok <==> id in s.multipart)
                 && (reply == Ok ==> t == s.(multipart := s.multipart - {id}, parts := s.parts - {id}))
               case UpsertPart(p) =>
                 && (reply == Ok <==> p.uploadId in s.multipart)
                 && (reply == Ok ==>
                       && t == s.(parts := t.parts) && t.parts - {p.uploadId} == s.parts - {p.uploadId}
                       && p.uploadId in t.parts && p.number in t.parts[p.uploadId]
                       && t.parts[p.uploadId][p.number] == p
                       && t.parts[p.uploadId] - {p.number} ==
                          (if p.uploadId in s.parts then s.parts[p.uploadId] else map[]) - {p.number})
               case UpsertCredential(r) =>
                 && reply == Ok && t == s.(credentials := t.credentials)
                 && t.credentials - {r.accessKeyId} == s.credentials - {r.accessKeyId}
                 && r.accessKeyId in t.credentials && t.credentials[r.accessKeyId] == r
  {
    hide Step;
    if op.CreateBucket? {
      PutKey(s.buckets, op.bucket.name, op.bucket);
    } else if op.UpdateVersioning? && op.name in s.buckets {
      PutKey(s.buckets, op.name, s.buckets[op.name].(versioning := op.status));
    } else if op.CreateUpload? {
      PutKey(s.multipart, op.upload.uploadId, op.upload);
    } else if op.UpsertPart? {
      var table := if op.part.uploadId in s.parts then s.parts[op.part.uploadId] else map[];
      PutKey(table, op.part.number, op.part);
      PutKey(s.parts, op.part.uploadId, table[op.part.number := op.part]);
    } else if op.UpsertCredential? {
      PutKey(s.credentials, op.record.accessKeyId, op.record);
    } else if op.DeleteObject? {
      MarkerIsPut(s.objects, op.k, op.id, op.at);
    }
  }

  lemma PutKey<K, W>(m: map<K, W>, k: K, w: W)
    ensures m[k := w] - {k} == m - {k} && (k !in m ==> m - {k} == m)
  {
  }

  lemma MarkerIsPut(m: Lists, k: ObjectKey, id: Str, at: int)
    ensures Step(m, PutMarker(k, id, at)).0 == Step(m, Put(Marker(k, id, at))).0
  {
  }

  function TxRun(s: Snapshot, ops: seq<TxOp>): Snapshot
    decreases |ops|
  {
    if ops == [] then s else TxStep(TxRun(s, ops[..|ops| - 1]), ops[|ops| - 1]).0
  }

  ghost function Footprint(st: MemoryState): set<object>
    reads st`objects, st`parts
  {
    {st} + st.Arrays() + st.Tables()
  }

  // ---- memoryTx

  method EnsureTable(st: MemoryState, u: Str)
    requires st.Valid()
    modifies st`parts
    ensures st.Valid() && u in st.parts && fresh(st.Tables() - old(st.Tables()))
    ensures st.ListsOf() == old(st.ListsOf())
    ensures st.PartsOf() == if u in old(st.parts) then old(st.PartsOf()) else old(st.PartsOf())[u := map[]]
  {
    hide MemoryState.SlicesOk;
    if u !in st.parts {
      var table := new PartTable(map[]);
      st.parts := st.parts[u := table];
      assert st.PartsOf() == old(st.PartsOf())[u := map[]];
    }
  }

  method SetPart(st: MemoryState, p: MultipartPart)
    requires st.Valid() && p.uploadId in st.parts
    modifies st.parts[p.uploadId]
    ensures st.ListsOf() == old(st.ListsOf())
    ensures var before := old(st.PartsOf());
            st.PartsOf() == before[p.uploadId := before[p.uploadId][p.number := p]]
  {
    var table := st.parts[p.uploadId];
    table.m := table.m[p.number := p];
  }

  method UpsertPartIn(st: MemoryState, p: MultipartPart) returns (reply: TxReply)
    requires st.Valid()
    modifies st`parts, st.Tables()
    ensures st.Valid() && fresh(st.Tables() - old(st.Tables())) && st.ListsOf() == old(st.ListsOf())
    ensures var (after, r) := TxStep(old(st.Snap()), UpsertPart(p));
            st.PartsOf() == after.parts && reply == r
  {
    if p.uploadId !in st.multipart {
      return Missing;
    }
    EnsureTable(st, p.uploadId);
    SetPart(st, p);
    reply := Ok;
  }

  lemma UpsertStep(s: Snapshot, p: MultipartPart)
    requires p.uploadId in s.multipart
    ensures var table := if p.uploadId in s.parts then s.parts[p.uploadId] else map[];
            TxStep(s, UpsertPart(p)).0.parts == s.parts[p.uploadId := table[p.number := p]]
  {
  }

  method DeleteUploadIn(st: MemoryState, id: Str) returns (reply: TxReply)
    requires st.Valid()
    modifies st`multipart, st`parts
    ensures st.Valid() && st.Tables() <= old(st.Tables()) && st.ListsOf() == old(st.ListsOf())
    ensures var (after, r) := TxStep(old(st.Snap()), DeleteUpload(id));
            st.multipart == after.multipart && st.PartsOf() == after.parts && reply == r
  {
    if id !in st.multipart {
      return Missing;
    }
    st.multipart := st.multipart - {id};
    st.parts := st.parts - {id};
    assert st.PartsOf() == old(st.PartsOf()) - {id};
    reply := Ok;
  }

  lemma DeleteStep(s: Snapshot, id: Str)
    requires id in s.multipart
    ensures var t := TxStep(s, DeleteUpload(id)).0;
            t.multipart == s.multipart - {id} && t.parts == s.parts - {id}
  {
  }

  lemma CreateStep(s: Snapshot, u: MultipartUpload)
    requires u.uploadId !in s.multipart
    ensures TxStep(s, CreateUpload(u)).0.multipart == s.multipart[u.uploadId := u]
  {
  }

  method ApplyToBuckets(st: MemoryState, op: TxOp) returns (reply: TxReply)
    requires st.Valid() && (op.CreateBucket? || op.DeleteBucket? || op.UpdateVersioning?)
    modifies st`buckets, st`configs
    ensures st.Valid() && st.ListsOf() == old(st.ListsOf()) && st.PartsOf() == old(st.PartsOf())
    ensures var (after, r) := TxStep(old(st.Snap()), op);
            st.buckets == after.buckets && st.configs == after.configs && reply == r
  {
    hide MemoryState.SlicesOk, MemoryState.TablesOk, Step;
    reply := Ok;
    match op
    case CreateBucket(b) =>
      if b.name == [] {
        reply := Invalid;
      } else if b.name in st.buckets {
        reply := Clash;
      } else {
        st.buckets := st.buckets[b.name := b];
      }
    case DeleteBucket(name) =>
      if name !in st.buckets {
        reply := Missing;
      } else {
        st.buckets := st.buckets - {name};
        st.configs := Survivors(st.configs, name);
      }
    case UpdateVersioning(name, status) =>
      if name !in st.buckets {
        reply := Missing;
      } else {
        st.buckets := st.buckets[name := st.buckets[name].(versioning := status)];
      }
  }

  method CreateUploadIn(st: MemoryState, u: MultipartUpload) returns (reply: TxReply)
    requires st.Valid()
    modifies st`multipart
    ensures st.Valid() && st.ListsOf() == old(st.ListsOf()) && st.PartsOf() == old(st.PartsOf())
    ensures var (after, r) := TxStep(old(st.Snap()), CreateUpload(u));
            st.multipart == after.multipart && reply == r
  {
    if u.uploadId in st.multipart {
      return Clash;
    }
    st.multipart := st.multipart[u.uploadId := u];
    reply := Ok;
  }

  /** One call on the transaction. */
  method ApplyTx(st: MemoryState, op: TxOp) returns (reply: TxReply)
    requires st.Valid()
    modifies Footprint(st)
    ensures st.Valid() && fresh(Footprint(st) - old(Footprint(st)))
    ensures (st.Snap(), reply) == TxStep(old(st.Snap()), op)
  {
    hide Step, MemoryState.ListsOf, MemoryState.PartsOf, MemoryState.SlicesOk, MemoryState.TablesOk;
    match op
    case PutVersion(v) =>
      st.PutObjectVersion(v);
      reply := Ok;
    case DeleteObject(k, id, at) =>
      st.DeleteObject(k, id, at);
      reply := Ok;
    case UpsertPart(p) =>
      reply := UpsertPartIn(st, p);
    case DeleteUpload(id) =>
      reply := DeleteUploadIn(st, id);
    case CreateUpload(u) =>
      reply := CreateUploadIn(st, u);
    case UpsertCredential(r) =>
      st.credentials := st.credentials[r.accessKeyId := r];
      reply := Ok;
    case _ =>
      reply := ApplyToBuckets(st, op);
  }

  // ---- cloneState

  method CloneLists(objects: map<ObjectKey, Slice>) returns (out: map<ObjectKey, Slice>)
    requires forall k :: k in objects ==> SliceOk(objects[k])
    ensures out.Keys == objects.Keys
    ensures forall k :: k in out ==> SliceOk(out[k]) && fresh(out[k].arr) && Elems(out[k]) == old(Elems(objects[k]))
    ensures forall k, l :: k in out && l in out && k != l ==> out[k].arr != out[l].arr
  {
    hide SliceOk;
    var todo := objects.Keys;
    out := map[];
    while todo != {}
      invariant todo <= objects.Keys && out.Keys == objects.Keys - todo
      invariant forall k :: k in out ==> SliceOk(out[k]) && fresh(out[k].arr) && Elems(out[k]) == old(Elems(objects[k]))
      invariant forall k, l :: k in out && l in out && k != l ==> out[k].arr != out[l].arr
      decreases |todo|
    {
      var k :| k in todo;
      todo := todo - {k};
      var copy := CopySlice(objects[k]);
      out := out[k := copy];
    }
  }

  method CopySlice(s: Slice) returns (t: Slice)
    requires SliceOk(s)
    ensures SliceOk(t) && fresh(t.arr) && Elems(t) == old(Elems(s))
  {
    var arr := new ObjectVersion[s.len];
    for i := 0 to s.len
      invariant arr[..i] == s.arr[..i]
    {
      arr[i] := s.arr[i];
    }
    t := Slice(arr, s.len);
  }

  method CloneTables(parts: map<Str, PartTable>) returns (out: map<Str, PartTable>)
    ensures out.Keys == parts.Keys
    ensures forall u :: u in out ==> fresh(out[u]) && out[u].m == old(parts[u].m)
    ensures forall u, w :: u in out && w in out && u != w ==> out[u] != out[w]
  {
    var todo := parts.Keys;
    out := map[];
    while todo != {}
      invariant todo <= parts.Keys && out.Keys == parts.Keys - todo
      invariant forall u :: u in out ==> fresh(out[u]) && out[u].m == old(parts[u].m)
      invariant forall u, w :: u in out && w in out && u != w ==> out[u] != out[w]
      decreases |todo|
    {
      var u :| u in todo;
      todo := todo - {u};
      var table := new PartTable(parts[u].m);
      out := out[u := table];
    }
  }

  /** cloneState: an equal state that shares no array and no part map with the original. */
  method CloneState(from: MemoryState) returns (out: MemoryState)
    requires from.Valid()
    ensures out.Valid() && fresh(Footprint(out)) && out.Snap() == old(from.Snap())
  {
    ghost var lists, tables := from.ListsOf(), from.PartsOf();
    var objects := CloneLists(from.objects);
    var parts := CloneTables(from.parts);
    out := new MemoryState.Of(from.buckets, objects, from.multipart, parts, from.credentials, from.configs,
                              from.taggings);
    assert out.ListsOf() == lists;
    assert out.PartsOf() == tables;
  }

  // ---- RunInTx

  datatype TxResult = Success | CallbackFailed | PersistFailed

  class MemoryBackedStore {
    var st: MemoryState

    constructor ()
      ensures st.Valid() && fresh(st)
    {
      st := new MemoryState();
    }

    /** A callback makes some calls and succeeds or fails. If it fails, the store still has
        its old state; nothing but the store's own reference is ever written, so no array
        and no map of the old state changed. If it succeeds, the state is exactly what its
        calls make of the old one in order, even when saving it then fails. */
    method RunInTx(calls: seq<TxOp>, fails: bool, persistFails: bool) returns (result: TxResult)
      requires st.Valid()
      modifies this
      ensures result == if fails then CallbackFailed else if persistFails then PersistFailed else Success
      ensures st.Valid()
      ensures fails ==> st == old(st) && st.Snap() == old(st.Snap())
      ensures !fails ==> fresh(Footprint(st)) && st.Snap() == TxRun(old(st.Snap()), calls)
    {
      hide TxRun;
      var clone := CloneAndRun(st, calls);
      if fails {
        result := CallbackFailed;
      } else {
        Swap(clone);
        result := if persistFails then PersistFailed else Success;
      }
    }

    method Swap(clone: MemoryState)
      requires clone.Valid()
      modifies this
      ensures st == clone && st.Valid() && st.Snap() == old(clone.Snap())
    {
      st := clone;
    }
  }

  method CloneAndRun(from: MemoryState, calls: seq<TxOp>) returns (clone: MemoryState)
    requires from.Valid()
    ensures clone.Valid() && fresh(Footprint(clone)) && clone.Snap() == TxRun(old(from.Snap()), calls)
  {
    hide TxRun;
    clone := CloneState(from);
    RunCalls(clone, calls);
  }

  method RunCalls(st: MemoryState, calls: seq<TxOp>)
    requires st.Valid()
    modifies Footprint(st)
    ensures st.Valid() && fresh(Footprint(st) - old(Footprint(st)))
    ensures st.Snap() == TxRun(old(st.Snap()), calls)
  {
    hide TxStep;
    for i := 0 to |calls|
      invariant st.Valid() && fresh(Footprint(st) - old(Footprint(st)))
      invariant st.Snap() == TxRun(old(st.Snap()), calls[..i])
    {
      assert calls[..i + 1][..i] == calls[..i];
      var _ := ApplyTx(st, calls[i]);
    }
    assert calls[..|calls|] == calls;
  }
}
