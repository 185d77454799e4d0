/** The object handlers as the server runs them, over the in-memory metadata store with its
    shared slices and part tables, and the files of the blob store; each one is a step of the
    machine in ObjectServer. */
module ObjectApi {
  import opened Bytes
  import opened Metadata
  import opened Text
  import opened ObjectServer
  import V = Versions
  import Ctr
  import Sse
  import M = MemoryStore
  import T = Transactions

  /** The checks of a completion request, part by part, stopping at the first complaint. */
  method ValidateParts(stored: map<int, MultipartPart>, listed: seq<ListedPart>)
    returns (reply: Reply, ordered: seq<int>)
    ensures reply == CheckParts(stored, listed, 0)
    ensures reply == Ok ==> |ordered| == |listed| && forall i :: 0 <= i < |listed| ==> ordered[i] == listed[i].number
  {
    hide Trim;
    ordered := [];
    for i := 0 to |listed|
      invariant CheckParts(stored, listed, 0) == CheckParts(stored, listed, i)
      invariant |ordered| == i && forall j :: 0 <= j < i ==> ordered[j] == listed[j].number
    {
      var part := listed[i];
      if i > 0 && part.number <= listed[i - 1].number {
        return InvalidPartOrder, ordered;
      }
      if part.number !in stored {
        return InvalidPart, ordered;
      }
      if Trim(part.etag, QUOTE) != stored[part.number].etag {
        return InvalidPart, ordered;
      }
      if i < |listed| - 1 && stored[part.number].size < MIN_PART_SIZE {
        return EntityTooSmall, ordered;
      }
      ordered := ordered + [part.number];
    }
    reply := Ok;
  }

  /** The readers of the parts in order, one after the other; None if a part has no file. */
  method AssembleParts(staged: map<PartFile, Str>, uploadId: Str, listed: seq<ListedPart>, ordered: seq<int>)
    returns (body: Option<Str>)
    requires |ordered| == |listed| && forall i :: 0 <= i < |listed| ==> ordered[i] == listed[i].number
    ensures body.Some? <==> AllStaged(staged, Files(uploadId, listed))
    ensures body.Some? ==> body.value == Assembled(staged, Files(uploadId, listed))
  {
    ghost var files := Files(uploadId, listed);
    var bytes: Str := [];
    for i := 0 to |ordered|
      invariant AllStaged(staged, files[..i]) && bytes == Assembled(staged, files[..i])
    {
      var file := PartFile(uploadId, ordered[i]);
      assert files[i] == file && file in files;
      if file !in staged {
        return None;
      }
      assert files[..i + 1][..i] == files[..i];
      bytes := bytes + staged[file];
    }
    assert files[..|ordered|] == files;
    body := Some(bytes);
  }

  /** The ETags stripped of quotes, then hashed together. */
  method CalculateMultipartETag(env: Env, listed: seq<ListedPart>) returns (etag: Str)
    ensures etag == MultipartETag(env, listed)
  {
    hide Trim, HexDecode, HexEncode, Itoa;
    var etags: seq<Str> := [];
    for i := 0 to |listed|
      invariant |etags| == i && forall j :: 0 <= j < i ==> etags[j] == Trim(listed[j].etag, QUOTE)
    {
      etags := etags + [Trim(listed[i].etag, QUOTE)];
    }
    var hashed: Str := [];
    for i := 0 to |etags|
      invariant hashed == DecodedETags(listed[..i])
    {
      assert listed[..i + 1][..i] == listed[..i];
      var decoded := HexDecode(Trim(etags[i], QUOTE));
      if decoded.Some? {
        hashed := hashed + decoded.value;
      }
    }
    assert listed[..|etags|] == listed;
    etag := HexEncode(env.md5(hashed)) + [45] + Itoa(|etags|);
  }

  /** What the metadata store holds. */
  datatype Held = Held(
    buckets: map<Str, Bucket>,
    lists: V.Lists,
    uploads: map<Str, MultipartUpload>,
    parts: map<Str, map<int, MultipartPart>>)

  /** The metadata store the handlers call, any of whose changes may fail. */
  class Records {
    const st: M.MemoryState
    ghost var held: Held
    ghost var repr: set<object>

    ghost predicate Valid()
      reads this, repr
    {
      && st in repr && repr == {this} + T.Footprint(st)
      && st.Valid()
      && held == Held(st.buckets, st.ListsOf(), st.multipart, st.PartsOf())
    }

    constructor ()
      ensures Valid() && fresh(repr) && held == Held(map[], map[], map[], map[])
    {
      var store := new M.MemoryState();
      assert store.objects.Keys == store.ListsOf().Keys && store.parts.Keys == store.PartsOf().Keys;
      st := store;
      new;
      Refresh();
    }

    ghost method Refresh()
      requires st.Valid()
      modifies this
      ensures Valid() && held == Held(st.buckets, st.ListsOf(), st.multipart, st.PartsOf())
    {
      held := Held(st.buckets, st.ListsOf(), st.multipart, st.PartsOf());
      repr := {this} + T.Footprint(st);
    }

    method GetBucket(name: Str) returns (b: Option<Bucket>)
      requires Valid()
      ensures b == if name in held.buckets then Some(held.buckets[name]) else None
    {
      b := if name in st.buckets then Some(st.buckets[name]) else None;
    }

    /** The version with the id, or the latest, if the store has it. */
    method Lookup(k: ObjectKey, id: Str) returns (v: Option<ObjectVersion>)
      requires Valid()
      ensures var r := V.Step(held.lists, V.GetVersion(k, id)).1;
              v == if r.One? then Some(r.version) else None
    {
      hide V.Step;
      var r := st.GetObjectVersion(k, id);
      v := if r.One? then Some(r.version) else None;
    }

    method GetUpload(id: Str) returns (u: Option<MultipartUpload>)
      requires Valid()
      ensures u == if id in held.uploads then Some(held.uploads[id]) else None
    {
      u := if id in st.multipart then Some(st.multipart[id]) else None;
    }

    method GetParts(id: Str) returns (parts: map<int, MultipartPart>)
      requires Valid()
      ensures parts == if id in held.parts then held.parts[id] else map[]
    {
      parts := if id in st.parts then st.parts[id].m else map[];
    }

    method PutBucket(name: Str, b: Bucket)
      requires Valid()
      modifies repr
      ensures Valid() && fresh(repr - old(repr))
      ensures held == old(held).(buckets := old(held.buckets)[name := b])
    {
      hide M.MemoryState.ListsOf, M.MemoryState.PartsOf;
      st.buckets := st.buckets[name := b];
      Refresh();
    }

    method PutVersion(v: ObjectVersion)
      requires Valid()
      modifies repr
      ensures Valid() && fresh(repr - old(repr))
      ensures held == old(held).(lists := V.Step(old(held.lists), V.Put(v)).0)
    {
      hide V.Step, M.MemoryState.ListsOf, M.MemoryState.PartsOf;
      st.PutObjectVersion(v);
      Refresh();
    }

    method UpdateMetadata(k: ObjectKey, id: Str, metadata: map<Str, Str>)
      requires Valid() && V.ListsOk(held.lists)
      modifies repr
      ensures Valid() && fresh(repr - old(repr))
      ensures held == old(held).(lists := V.Step(old(held.lists), V.UpdateMetadata(k, id, metadata)).0)
    {
      hide V.Step, V.ListsOk, M.MemoryState.ListsOf, M.MemoryState.PartsOf;
      var _ := st.UpdateObjectMetadata(k, id, metadata);
      Refresh();
    }

    method DeleteVersion(k: ObjectKey, id: Str) returns (removed: V.Reply)
      requires Valid() && V.ListsOk(held.lists)
      modifies repr
      ensures Valid() && fresh(repr - old(repr))
      ensures var r := V.Step(old(held.lists), V.DeleteVersion(k, id));
              held == old(held).(lists := r.0) && removed == r.1
    {
      hide V.Step, V.ListsOk, M.MemoryState.ListsOf, M.MemoryState.PartsOf;
      removed := st.DeleteObjectVersion(k, id);
      Refresh();
    }

    method DeleteAll(k: ObjectKey) returns (removed: V.Reply)
      requires Valid() && V.ListsOk(held.lists)
      modifies repr
      ensures Valid() && fresh(repr - old(repr))
      ensures var r := V.Step(old(held.lists), V.DeleteAll(k));
              held == old(held).(lists := r.0) && removed == r.1
    {
      hide V.Step, V.ListsOk, M.MemoryState.ListsOf, M.MemoryState.PartsOf;
      removed := st.DeleteAllObjectVersions(k);
      Refresh();
    }

    method CreateUpload(u: MultipartUpload)
      requires Valid() && u.uploadId !in held.uploads
      modifies repr
      ensures Valid() && fresh(repr - old(repr))
      ensures held == old(held).(uploads := old(held.uploads)[u.uploadId := u])
    {
      hide T.TxStep, M.MemoryState.ListsOf, M.MemoryState.PartsOf;
      T.CreateStep(st.Snap(), u);
      var _ := T.CreateUploadIn(st, u);
      Refresh();
    }

    method DeleteUpload(id: Str)
      requires Valid() && id in held.uploads
      modifies repr
      ensures Valid() && fresh(repr - old(repr))
      ensures held == old(held).(uploads := old(held.uploads) - {id}, parts := old(held.parts) - {id})
    {
      hide T.TxStep, M.MemoryState.ListsOf, M.MemoryState.PartsOf;
      T.DeleteStep(st.Snap(), id);
      var _ := T.DeleteUploadIn(st, id);
      Refresh();
    }

    method UpsertPart(p: MultipartPart)
      requires Valid() && p.uploadId in held.uploads
      modifies repr
      ensures Valid() && fresh(repr - old(repr))
      ensures var table := if p.uploadId in old(held.parts) then old(held.parts)[p.uploadId] else map[];
              held == old(held).(parts := old(held.parts)[p.uploadId := table[p.number := p]])
    {
      hide T.TxStep, M.MemoryState.ListsOf, M.MemoryState.PartsOf;
      T.UpsertStep(st.Snap(), p);
      var _ := T.UpsertPartIn(st, p);
      Refresh();
    }
  }

  class Api {
    const env: Env
    const records: Records
    var blobs: map<Ref, Str>
    var staged: map<PartFile, Str>

    constructor (env: Env)
      ensures this.env == env && Valid() && fresh(records.repr) && Contents() == Empty
    {
      var store := new Records();
      this.env, records := env, store;
      blobs, staged := map[], map[];
    }

    ghost predicate Valid()
      reads this, records, records.repr
    {
      records.Valid() && this !in records.repr && V.ListsOk(records.held.lists)
    }

    /** What the two stores hold. */
    ghost function Contents(): State
      reads this, records
    {
      State(records.held.buckets, records.held.lists, records.held.uploads, records.held.parts, blobs, staged)
    }

    // ---- Changes of records that may fail

    method RecordVersion(v: ObjectVersion, save: Save)
      requires Valid()
      modifies records.repr
      ensures records.Valid() && fresh(records.repr - old(records.repr))
      ensures Contents() == SaveVersion(old(Contents()), v, save)
    {
      hide Records.Valid, V.Step, V.ListsOk;
      if Takes(save) {
        records.PutVersion(v);
      } else if save.Halfway? && v.versionId == NULL_ID {
        var _ := records.DeleteVersion(ObjectKey(v.bucket, v.key), NULL_ID);
      }
    }

    method RecordMetadata(k: ObjectKey, id: Str, metadata: map<Str, Str>, save: Save) returns (reply: Reply)
      requires Valid()
      modifies records.repr
      ensures records.Valid() && fresh(records.repr - old(records.repr))
      ensures (Contents(), reply) == SaveMetadata(old(Contents()), k, id, metadata, save)
    {
      hide Records.Valid, V.Step, V.ListsOk;
      if Takes(save) {
        records.UpdateMetadata(k, id, metadata);
      }
      reply := if save.Saved? then Ok else RecordFailed;
    }

    // ---- Locks and files

    /** The locked "null" version a write would replace. */
    method GuardsNull(k: ObjectKey, id: Str, now: int) returns (locked: bool)
      requires records.Valid()
      ensures locked == NullLocked(env, Contents(), k, id, now)
    {
      hide Records.Valid, Locked, V.Find;
      locked := false;
      if id == NULL_ID {
        var v := records.Lookup(k, NULL_ID);
        if v.Some? {
          locked := Locked(env, v.value, now);
        }
      }
    }

    /** writeMaybeEncryptedObject: the file is replaced; what is reported is of the plaintext. */
    method WriteMaybeEncrypted(ref: Ref, body: Str, encrypted: bool, iv: Str, now: int) returns (meta: BlobMeta)
      requires EnvOk(env) && |iv| == Ctr.BLOCK
      modifies this`blobs
      ensures blobs == old(blobs)[ref := FileOf(env, body, encrypted, iv)]
      ensures meta == MetaOf(env, body, now)
    {
      if encrypted {
        var file, size, hashed := Sse.WriteEncrypted(env.cipher, iv, [body]);
        assert Sse.Flatten([body]) == body by { assert [body][..0] == []; }
        blobs := blobs[ref := file];
        meta := BlobMeta(size, HexEncode(env.md5(hashed)), env.sums(hashed), now);
      } else {
        blobs := blobs[ref := body];
        meta := MetaOf(env, body, now);
      }
    }

    method ReadMaybeEncrypted(v: ObjectVersion) returns (body: Option<Str>)
      requires EnvOk(env) && v.size < 0x8000_0000_0000_0000 && records.Valid()
      ensures body == ReadWhole(env, Contents(), v)
    {
      hide Records.Valid, Sse.Delivered;
      var ref := Ref(v.bucket, v.key, v.versionId);
      if ref !in blobs {
        return None;
      }
      if UsesSse(v) {
        var r := Sse.ReadEncrypted(env.cipher, blobs[ref], v.size, None);
        return if r.Ok? then Some(r.value) else None;
      }
      body := if blobs[ref] == [] then None else Some(blobs[ref]);
    }

    /** Remove a file that is not wanted after all; nobody learns of a failure. */
    method Discard(ref: Ref, cleaned: bool)
      modifies this`blobs
      ensures blobs == if cleaned then old(blobs) - {ref} else old(blobs)
    {
      if cleaned {
        blobs := blobs - {ref};
      }
    }

    /** The record of a file that was written; when it fails, the file goes. */
    method Record(ref: Ref, v: ObjectVersion, save: Save, cleaned: bool) returns (reply: Reply)
      requires Valid() && ref in blobs
      modifies this`blobs, records.repr
      ensures records.Valid() && fresh(records.repr - old(records.repr))
      ensures (Contents(), reply) == RecordObject(old(Contents()), ref, old(blobs[ref]), v, save, cleaned)
    {
      hide Records.Valid, SaveVersion;
      SameLists(Contents(), blobs - {ref}, v, save);
      assert blobs[ref := blobs[ref]] == blobs;
      RecordVersion(v, save);
      if save != Saved {
        Discard(ref, cleaned);
        return RecordFailed;
      }
      reply := Ok;
    }

    /** A body written to its file, and its version recorded. */
    method Store(ref: Ref, body: Str, encrypted: bool, iv: Str, metadata: map<Str, Str>, save: Save, cleaned: bool,
                 now: int)
      returns (reply: Reply)
      requires EnvOk(env) && Valid() && |iv| == Ctr.BLOCK
      modifies this`blobs, records.repr
      ensures records.Valid() && fresh(records.repr - old(records.repr))
      ensures (Contents(), reply) ==
              StoreObject(env, old(Contents()), ref, body, encrypted, iv, metadata, save, cleaned, now)
    {
      hide Records.Valid, FileOf, MetaOf, RecordObject, V.ListsOk;
      ghost var s := Contents();
      var meta := WriteMaybeEncrypted(ref, body, encrypted, iv, now);
      var v := VersionFrom(ref, meta, meta.md5Hex, metadata);
      Rewritten(s, ref, blobs[ref], v, save, cleaned);
      reply := Record(ref, v, save, cleaned);
    }

    /** Remove the file of every version the delete removed, but for those that cannot be. */
    method DeleteFiles(removed: seq<ObjectVersion>, left: set<Ref>)
      modifies this`blobs
      ensures blobs == old(blobs) - (RefsOf(removed) - left)
    {
      for i := 0 to |removed|
        invariant blobs == old(blobs) - (RefsOf(removed[..i]) - left)
      {
        var v := removed[i];
        var ref := Ref(v.bucket, v.key, v.versionId);
        assert RefsOf(removed[..i + 1]) == RefsOf(removed[..i]) + {ref};
        Discard(ref, ref !in left);
      }
      assert removed[..|removed|] == removed;
    }

    // ---- The handlers

    method RecordBucket(name: Str, b: Bucket, save: Save) returns (reply: Reply)
      requires records.Valid() && this !in records.repr
      modifies records.repr
      ensures records.Valid() && fresh(records.repr - old(records.repr))
      ensures (Contents(), reply) == SaveBucket(old(Contents()), name, b, save)
    {
      hide Records.Valid;
      if Takes(save) {
        records.PutBucket(name, b);
      }
      reply := if save.Saved? then Ok else RecordFailed;
    }

    method CreateBucket(c: Call) returns (reply: Reply)
      requires EnvOk(env) && Valid() && c.CreateBucket? && ValidCall(c)
      modifies records.repr
      ensures records.Valid() && fresh(records.repr - old(records.repr))
      ensures (Contents(), reply) == Step(env, old(Contents()), c)
    {
      hide Records.Valid, SaveBucket, V.ListsOk;
      var existing := records.GetBucket(c.bucket);
      if existing.Some? {
        return AlreadyExists;
      }
      reply := RecordBucket(c.bucket, Bucket(c.bucket, c.now, c.region, SUSPENDED), c.save);
    }

    method SetVersioning(c: Call) returns (reply: Reply)
      requires EnvOk(env) && Valid() && c.SetVersioning? && ValidCall(c)
      modifies records.repr
      ensures records.Valid() && fresh(records.repr - old(records.repr))
      ensures (Contents(), reply) == Step(env, old(Contents()), c)
    {
      hide Records.Valid, SaveBucket, V.ListsOk;
      if c.status != ENABLED && c.status != SUSPENDED {
        return InvalidRequest;
      }
      var b := records.GetBucket(c.bucket);
      if b.None? {
        return NoSuchBucket;
      }
      reply := RecordBucket(c.bucket, b.value.(versioning := c.status), c.save);
      if reply != Ok {
        reply := NoSuchBucket;
      }
    }

    method PutObject(c: Call) returns (reply: Reply)
      requires EnvOk(env) && Valid() && c.PutObject? && ValidCall(c)
      modifies this, records.repr
      ensures records.Valid() && fresh(records.repr - old(records.repr))
      ensures (Contents(), reply) == DoPut(env, old(Contents()), c)
    {
      hide Records.Valid, NullLocked, FileOf, StoreObject, MarkSse, V.ListsOk;
      var b := records.GetBucket(c.bucket);
      if b.None? {
        return NoSuchBucket;
      }
      var versionId := NULL_ID;
      if b.value.versioning == ENABLED {
        versionId := c.newId;
      }
      var ref := Ref(c.bucket, c.key, versionId);
      var locked := GuardsNull(KeyOf(ref), versionId, c.now);
      if locked {
        return AccessDenied;
      }
      if c.arrival.Broken? {
        return WriteFailed;
      }
      if c.arrival.Late? || c.arrival.Refused? {
        var _ := WriteMaybeEncrypted(ref, c.body, c.encrypted, c.iv, c.now);
        if c.arrival.Late? {
          return WriteFailed;
        }
        assert blobs - {ref} == old(blobs) - {ref};
        Discard(ref, c.cleaned);
        return BadDigest;
      }
      reply := Store(ref, c.body, c.encrypted, c.iv, MarkSse(c.userMeta, c.encrypted), c.save, c.cleaned, c.now);
    }

    method CopyObject(c: Call) returns (reply: Reply)
      requires EnvOk(env) && Valid() && c.CopyObject? && ValidCall(c)
      requires forall v :: v in V.Get(records.held.lists, ObjectKey(c.srcBucket, c.srcKey)) ==>
                 v.size < 0x8000_0000_0000_0000
      modifies this, records.repr
      ensures records.Valid() && fresh(records.repr - old(records.repr))
      ensures (Contents(), reply) == DoCopy(env, old(Contents()), c)
    {
      hide Records.Valid, NullLocked, FileOf, StoreObject, MarkSse, ReadWhole, V.ListsOk;
      var found := records.Lookup(ObjectKey(c.srcBucket, c.srcKey), []);
      if found.None? || found.value.deleteMarker {
        return NoSuchKey;
      }
      var src := found.value;
      var b := records.GetBucket(c.bucket);
      if b.None? {
        return NoSuchBucket;
      }
      var versionId := NULL_ID;
      if b.value.versioning == ENABLED {
        versionId := c.newId;
      }
      var ref := Ref(c.bucket, c.key, versionId);
      var locked := GuardsNull(KeyOf(ref), versionId, c.now);
      if locked {
        return AccessDenied;
      }
      if c.written.Unwritten? {
        return WriteFailed;
      }
      assert src in V.Get(records.held.lists, ObjectKey(c.srcBucket, c.srcKey));
      var body := ReadMaybeEncrypted(src);
      if body.None? || c.written.Misreported? {
        var _ := WriteMaybeEncrypted(ref, if body.Some? then body.value else [], c.encrypted, c.iv, c.now);
        if c.written.Misreported? {
          return WriteFailed;
        }
        assert blobs - {ref} == old(blobs) - {ref};
        Discard(ref, c.cleaned);
        return ReadFailed;
      }
      reply := Store(ref, body.value, c.encrypted, c.iv, MarkSse(src.metadata, c.encrypted), c.save, c.cleaned, c.now);
    }

    method DeleteObject(c: Call) returns (reply: Reply)
      requires EnvOk(env) && Valid() && c.DeleteObject? && ValidCall(c)
      modifies this, records.repr
      ensures records.Valid() && fresh(records.repr - old(records.repr))
      ensures (Contents(), reply) == DoDelete(env, old(Contents()), c)
    {
      hide Records.Valid, Locked, RefsOf, V.ListsOk, SaveVersion, Remove, DoDeleteVersion;
      var k := ObjectKey(c.bucket, c.key);
      var b := records.GetBucket(c.bucket);
      if b.None? {
        return NoSuchBucket;
      }
      if c.versionId != [] {
        reply := DeleteVersion(k, c.versionId, c.save, c.left, c.now);
        return;
      }
      if b.value.versioning == ENABLED {
        RecordVersion(V.Marker(k, c.newId, c.now), c.save);
        return Ok;
      }
      var latest := records.Lookup(k, []);
      if latest.Some? && Locked(env, latest.value, c.now) {
        return AccessDenied;
      }
      reply := DeleteAll(k, c.save, c.left);
    }

    method DeleteVersion(k: ObjectKey, id: Str, save: Save, left: set<Ref>, now: int) returns (reply: Reply)
      requires Valid() && id != []
      modifies this`blobs, records.repr
      ensures records.Valid() && fresh(records.repr - old(records.repr))
      ensures (Contents(), reply) == DoDeleteVersion(env, old(Contents()), k, id, save, left, now)
    {
      hide Records.Valid, Locked, V.Find, V.ListsOk, RefsOf;
      var existing := records.Lookup(k, id);
      if existing.Some? && Locked(env, existing.value, now) {
        return AccessDenied;
      }
      if !Takes(save) {
        return RecordFailed;
      }
      UnchangedDelete(records.held.lists, k, id);
      var removed := records.DeleteVersion(k, id);
      if removed.NotFound? {
        return Ok;
      }
      if save.Unpersisted? {
        return RecordFailed;
      }
      assert blobs - ({} - left) == blobs;
      if !removed.version.deleteMarker {
        DeleteFiles([removed.version], left);
      }
      reply := Ok;
    }

    method DeleteAll(k: ObjectKey, save: Save, left: set<Ref>) returns (reply: Reply)
      requires Valid()
      modifies this`blobs, records.repr
      ensures records.Valid() && fresh(records.repr - old(records.repr))
      ensures var s := old(Contents());
              var vs := V.Get(s.lists, k);
              (Contents(), reply) == if vs == [] then Nothing(s, save)
                                     else Remove(s, V.Step(s.lists, V.DeleteAll(k)).0, RefsOf(vs), save, left)
    {
      hide Records.Valid, V.ListsOk, RefsOf;
      if !Takes(save) {
        return RecordFailed;
      }
      M.UnchangedStore(records.held.lists, k);
      var removed := records.DeleteAll(k);
      if removed.NotFound? {
        return Ok;
      }
      if save.Unpersisted? {
        return RecordFailed;
      }
      DeleteFiles(removed.versions, left);
      reply := Ok;
    }

    method PutRetention(c: Call) returns (reply: Reply)
      requires EnvOk(env) && Valid() && c.PutRetention? && ValidCall(c)
      modifies records.repr
      ensures records.Valid() && fresh(records.repr - old(records.repr))
      ensures (Contents(), reply) == DoPutRetention(env, old(Contents()), c)
    {
      hide Records.Valid, V.Step, V.ListsOk, Trim, ToUpper, SaveMetadata;
      var k := ObjectKey(c.bucket, c.key);
      var found := records.Lookup(k, c.versionId);
      if found.None? || found.value.deleteMarker {
        return NoSuchKey;
      }
      var mode := ToUpper(Trim(c.mode, Space));
      if mode !in MODES {
        return InvalidRequest;
      }
      var until := env.parseTime(Trim(c.until, Space));
      if until.None? || until.value <= c.now {
        return InvalidRequest;
      }
      var meta := found.value.metadata[RETENTION_MODE_KEY := mode];
      meta := meta[RETAIN_UNTIL_KEY := env.formatTime(until.value)];
      reply := RecordMetadata(k, found.value.versionId, meta, c.save);
    }

    method PutLegalHold(c: Call) returns (reply: Reply)
      requires EnvOk(env) && Valid() && c.PutLegalHold? && ValidCall(c)
      modifies records.repr
      ensures records.Valid() && fresh(records.repr - old(records.repr))
      ensures (Contents(), reply) == DoPutLegalHold(old(Contents()), c)
    {
      hide Records.Valid, V.Step, V.ListsOk, Trim, ToUpper, SaveMetadata;
      var k := ObjectKey(c.bucket, c.key);
      var found := records.Lookup(k, c.versionId);
      if found.None? || found.value.deleteMarker {
        return NoSuchKey;
      }
      var status := ToUpper(Trim(c.status, Space));
      if status != ON && status != OFF {
        return InvalidRequest;
      }
      reply := RecordMetadata(k, found.value.versionId, found.value.metadata[LEGAL_HOLD_KEY := status], c.save);
    }

    method CreateMultipartUpload(c: Call) returns (reply: Reply)
      requires EnvOk(env) && Valid() && c.CreateUpload? && ValidCall(c)
      modifies records.repr
      ensures records.Valid() && fresh(records.repr - old(records.repr))
      ensures (Contents(), reply) == DoCreateUpload(old(Contents()), c)
    {
      hide Records.Valid, V.ListsOk;
      var existing := records.GetUpload(c.uploadId);
      if existing.Some? || !Takes(c.save) {
        return RecordFailed;
      }
      var algorithm := [];
      if c.encrypted {
        algorithm := AES256;
      }
      records.CreateUpload(MultipartUpload(c.uploadId, c.bucket, c.key, algorithm, c.now));
      if c.save.Unpersisted? {
        return RecordFailed;
      }
      if !c.made {
        if c.dropped {
          records.DeleteUpload(c.uploadId);
        }
        return WriteFailed;
      }
      reply := Ok;
    }

    method UploadPart(c: Call) returns (reply: Reply)
      requires EnvOk(env) && Valid() && c.UploadPart? && ValidCall(c)
      modifies this`staged, records.repr
      ensures records.Valid() && fresh(records.repr - old(records.repr))
      ensures (Contents(), reply) == DoUploadPart(env, old(Contents()), c)
    {
      hide Records.Valid, V.ListsOk, PartRecord, Swept;
      if c.number <= 0 || c.number > MAX_PARTS {
        return InvalidArgument;
      }
      var upload := records.GetUpload(c.uploadId);
      if upload.None? || upload.value.bucket != c.bucket || upload.value.key != c.key {
        return NoSuchUpload;
      }
      if c.arrival.Broken? {
        return WriteFailed;
      }
      staged := staged[PartFile(c.uploadId, c.number) := c.body];
      if c.arrival.Late? {
        return WriteFailed;
      }
      if c.arrival.Refused? {
        staged := Swept(staged, c.uploadId, c.leftParts);
        return BadDigest;
      }
      assert PartRecord(env, c).uploadId == c.uploadId by { RecordNames(env, c); }
      if Takes(c.save) {
        records.UpsertPart(PartRecord(env, c));
      }
      if c.save != Saved {
        staged := Swept(staged, c.uploadId, c.leftParts);
        return RecordFailed;
      }
      reply := Ok;
    }

    method AbortMultipartUpload(c: Call) returns (reply: Reply)
      requires EnvOk(env) && Valid() && c.Abort? && ValidCall(c)
      modifies this`staged, records.repr
      ensures records.Valid() && fresh(records.repr - old(records.repr))
      ensures (Contents(), reply) == DoAbort(old(Contents()), c)
    {
      hide Records.Valid, V.ListsOk, Swept;
      reply := Ok;
      var upload := records.GetUpload(c.uploadId);
      if upload.None? || upload.value.bucket != c.bucket || upload.value.key != c.key {
        return;
      }
      staged := Swept(staged, c.uploadId, c.leftParts);
      if c.dropped {
        records.DeleteUpload(c.uploadId);
      }
    }

    method CompleteMultipartUpload(c: Call) returns (reply: Reply)
      requires EnvOk(env) && Valid() && c.Complete? && ValidCall(c)
      modifies this, records.repr
      ensures records.Valid() && fresh(records.repr - old(records.repr))
      ensures (Contents(), reply) == DoComplete(env, old(Contents()), c)
    {
      hide Records.Valid, NullLocked, CheckParts, Assembled, FinishComplete, Files, V.ListsOk;
      var upload := records.GetUpload(c.uploadId);
      if upload.None? || upload.value.bucket != c.bucket || upload.value.key != c.key {
        return NoSuchUpload;
      }
      if c.listed == [] {
        return MalformedXML;
      }
      if |c.listed| > MAX_PARTS {
        return TooManyParts;
      }
      var stored := records.GetParts(c.uploadId);
      var checked, ordered := ValidateParts(stored, c.listed);
      if checked != Ok {
        return checked;
      }
      var b := records.GetBucket(c.bucket);
      if b.None? {
        return NoSuchBucket;
      }
      var versionId := NULL_ID;
      if b.value.versioning == ENABLED {
        versionId := c.newId;
      }
      var ref := Ref(c.bucket, c.key, versionId);
      var locked := GuardsNull(KeyOf(ref), versionId, c.now);
      if locked {
        return AccessDenied;
      }
      var body := AssembleParts(staged, c.uploadId, c.listed, ordered);
      if body.None? || c.written.Unwritten? {
        return WriteFailed;
      }
      reply := Finish(c, ref, body.value);
    }

    /** Encrypt, promote or assemble; then record the version, and drop the upload. */
    method Finish(c: Call, ref: Ref, body: Str) returns (reply: Reply)
      requires EnvOk(env) && Valid() && c.Complete? && ValidCall(c) && !c.written.Unwritten?
      requires c.uploadId in records.held.uploads && c.listed != [] && AllStaged(staged, Files(c.uploadId, c.listed))
      requires CheckParts(PartsOf(Contents(), c.uploadId), c.listed, 0) == Ok
      requires body == Assembled(staged, Files(c.uploadId, c.listed))
      modifies this, records.repr
      ensures records.Valid() && fresh(records.repr - old(records.repr))
      ensures (Contents(), reply) == FinishComplete(env, old(Contents()), c, ref)
    {
      hide Records.Valid, CheckParts, Assembled, Files, FileOf, CompletedVersion, SweepAndRecord, V.ListsOk, Swept;
      ghost var s := Contents();
      var upload := records.GetUpload(c.uploadId);
      var encrypted := upload.value.sseAlgorithm == AES256;
      var v := WriteAssembled(c, ref, body, encrypted);
      if c.written.Misreported? {
        if !encrypted && |c.listed| == 1 {
          staged := staged - {PartFile(c.uploadId, c.listed[0].number)};
        }
        staged := Swept(staged, c.uploadId, c.leftParts);
        return WriteFailed;
      }
      RewrittenSweep(s, c, ref, blobs[ref], v);
      reply := SweepAndStore(c, ref, v);
    }

    method SweepAndStore(c: Call, ref: Ref, v: ObjectVersion) returns (reply: Reply)
      requires Valid() && c.Complete? && c.uploadId in records.held.uploads && ref in blobs
      modifies this, records.repr
      ensures records.Valid() && fresh(records.repr - old(records.repr))
      ensures (Contents(), reply) == SweepAndRecord(old(Contents()), c, ref, old(blobs[ref]), v)
    {
      hide Records.Valid, Swept, RecordObject, V.ListsOk;
      staged := Swept(staged, c.uploadId, {});
      reply := Record(ref, v, c.save, c.cleaned);
      if reply != Ok {
        return;
      }
      if c.dropped {
        records.DeleteUpload(c.uploadId);
      }
      reply := Completed(v);
    }

    /** The object file, and the version to record for it. */
    method WriteAssembled(c: Call, ref: Ref, body: Str, encrypted: bool) returns (v: ObjectVersion)
      requires EnvOk(env) && records.Valid() && c.Complete? && ValidCall(c)
      requires c.uploadId in records.held.uploads && c.listed != [] && AllStaged(staged, Files(c.uploadId, c.listed))
      requires CheckParts(PartsOf(Contents(), c.uploadId), c.listed, 0) == Ok
      requires body == Assembled(staged, Files(c.uploadId, c.listed))
      requires encrypted == (records.held.uploads[c.uploadId].sseAlgorithm == AES256)
      modifies this`blobs
      ensures blobs == old(blobs)[ref := FileOf(env, body, encrypted, c.iv)]
      ensures v == CompletedVersion(env, old(Contents()), c, ref)
    {
      hide Records.Valid, CheckParts, Assembled, Files, MetaOf, MarkSse, MultipartETag, VersionFrom, Sse.Encrypted;
      var meta;
      if !encrypted && |c.listed| == 1 {
        CheckedPart(PartsOf(Contents(), c.uploadId), c.listed, 0, 0);
        var stored := records.GetParts(c.uploadId);
        meta := PromotedMeta(stored[c.listed[0].number]);
        blobs := blobs[ref := body];
      } else {
        meta := WriteMaybeEncrypted(ref, body, encrypted, c.iv, c.now);
      }
      var etag := CalculateMultipartETag(env, c.listed);
      v := VersionFrom(ref, meta, etag, MarkSse(map[], encrypted));
    }

    // ---- Serving calls

    /** One call: whichever handler it reaches makes the step of the machine. */
    method Handle(c: Call) returns (reply: Reply)
      requires EnvOk(env) && Valid() && ValidCall(c) && FreshCall(Contents(), c) && Sized(Contents())
      modifies this, records.repr
      ensures Valid() && fresh(records.repr - old(records.repr))
      ensures (Contents(), reply) == Step(env, old(Contents()), c)
    {
      hide Records.Valid, V.ListsOk, FreshCall, DoPut, DoCopy, DoDelete, DoPutRetention, DoPutLegalHold, DoCreateUpload,
           DoUploadPart, DoComplete, DoAbort, SaveBucket;
      StepKeepsLists(env, Contents(), c);
      if c.CreateBucket? {
        reply := CreateBucket(c);
      } else if c.SetVersioning? {
        reply := SetVersioning(c);
      } else if c.PutObject? {
        reply := PutObject(c);
      } else if c.CopyObject? {
        reply := CopyObject(c);
      } else if c.DeleteObject? {
        reply := DeleteObject(c);
      } else if c.PutRetention? {
        reply := PutRetention(c);
      } else if c.PutLegalHold? {
        reply := PutLegalHold(c);
      } else if c.CreateUpload? {
        reply := CreateMultipartUpload(c);
      } else if c.UploadPart? {
        reply := UploadPart(c);
      } else if c.Complete? {
        reply := CompleteMultipartUpload(c);
      } else if c.Abort? {
        reply := AbortMultipartUpload(c);
      } else {
        staged := staged - c.gone;
        reply := Ok;
      }
    }

    /** Any run of calls: the heap ends up holding what the machine's run says, so everything
        proved of runs holds of the server. */
    method Serve(calls: seq<Call>) returns (replies: seq<Reply>)
      requires EnvOk(env) && Valid() && Runs(env, Contents(), calls) && SizedRun(env, Contents(), calls)
      modifies this, records.repr
      ensures Valid() && Contents() == After(env, old(Contents()), calls)
      ensures replies == RepliesOf(env, old(Contents()), calls)
    {
      hide Records.Valid, V.ListsOk, Step, FreshCall, Sized, SizedRun, Runs, After, RepliesOf;
      ghost var s := Contents();
      replies := [];
      EmptyRun(env, s);
      assert calls[..0] == [];
      for i := 0 to |calls|
        invariant Valid() && fresh(records.repr - old(records.repr))
        invariant Runs(env, s, calls[..i]) && Contents() == After(env, s, calls[..i])
        invariant replies == RepliesOf(env, s, calls[..i])
      {
        NextCall(env, s, calls, i);
        var reply := Handle(calls[i]);
        replies := replies + [reply];
      }
      assert calls[..|calls|] == calls;
    }
  }

  lemma EmptyRun(env: Env, s: State)
    requires EnvOk(env)
    ensures Runs(env, s, []) && After(env, s, []) == s && RepliesOf(env, s, []) == []
  {
  }

  /** Object sizes are 64-bit numbers. */
  ghost predicate Sized(s: State) {
    forall k, v :: k in s.lists && v in s.lists[k] ==> v.size < 0x8000_0000_0000_0000
  }

  ghost predicate RunsTo(env: Env, s: State, calls: seq<Call>, i: nat)
    requires EnvOk(env) && i <= |calls|
  {
    Runs(env, s, calls[..i])
  }

  ghost predicate SizedRun(env: Env, s: State, calls: seq<Call>)
    requires EnvOk(env)
  {
    forall i :: 0 <= i <= |calls| && RunsTo(env, s, calls, i) ==> Sized(After(env, s, calls[..i]))
  }

  lemma {:induction false} PrefixRuns(env: Env, s: State, calls: seq<Call>, i: nat)
    requires EnvOk(env) && Runs(env, s, calls) && i <= |calls|
    ensures Runs(env, s, calls[..i])
    decreases |calls|
  {
    hide FreshCall, Step;
    if i < |calls| {
      var n := |calls| - 1;
      PrefixRuns(env, s, calls[..n], i);
      assert calls[..n][..i] == calls[..i];
    } else {
      assert calls[..i] == calls;
    }
  }

  lemma NextCall(env: Env, s: State, calls: seq<Call>, i: nat)
    requires EnvOk(env) && Runs(env, s, calls) && SizedRun(env, s, calls) && i < |calls|
    ensures RunsTo(env, s, calls, i) && Runs(env, s, calls[..i + 1]) && ValidCall(calls[i])
    ensures var t := After(env, s, calls[..i]);
            && Sized(t) && FreshCall(t, calls[i]) && After(env, s, calls[..i + 1]) == Step(env, t, calls[i]).0
            && RepliesOf(env, s, calls[..i + 1]) == RepliesOf(env, s, calls[..i]) + [Step(env, t, calls[i]).1]
  {
    hide FreshCall, Step, Sized, ValidCall;
    PrefixRuns(env, s, calls, i);
    PrefixRuns(env, s, calls, i + 1);
    assert calls[..i + 1][..i] == calls[..i];
    assert RunsTo(env, s, calls, i);
  }

  /** Recording over a file just written is recording the file. */
  lemma Rewritten(s: State, ref: Ref, file: Str, v: ObjectVersion, save: Save, cleaned: bool)
    ensures RecordObject(s.(blobs := s.blobs[ref := file]), ref, file, v, save, cleaned)
         == RecordObject(s, ref, file, v, save, cleaned)
  {
    hide V.Step;
    assert s.blobs[ref := file][ref := file] == s.blobs[ref := file];
    assert s.blobs[ref := file] - {ref} == s.blobs - {ref};
  }

  lemma RewrittenSweep(s: State, c: Call, ref: Ref, file: Str, v: ObjectVersion)
    requires c.Complete?
    ensures SweepAndRecord(s.(blobs := s.blobs[ref := file]), c, ref, file, v) == SweepAndRecord(s, c, ref, file, v)
  {
    hide RecordObject;
    Rewritten(s.(staged := Swept(s.staged, c.uploadId, {})), ref, file, v, c.save, c.cleaned);
  }

  lemma UnchangedDelete(m: V.Lists, k: ObjectKey, id: Str)
    requires V.ListsOk(m)
    ensures V.Step(m, V.DeleteVersion(k, id)).1.NotFound? ==> V.Step(m, V.DeleteVersion(k, id)).0 == m
  {
    M.UnchangedStore(m, k);
  }

  lemma RecordNames(env: Env, c: Call)
    requires c.UploadPart?
    ensures PartRecord(env, c).uploadId == c.uploadId
  {
  }

  /** Saving a version does not look at files. */
  lemma SameLists(s: State, blobs: map<Ref, Str>, v: ObjectVersion, save: Save)
    ensures SaveVersion(s.(blobs := blobs), v, save) == SaveVersion(s, v, save).(blobs := blobs)
  {
  }
}
