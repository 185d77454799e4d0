/** What each object request comes to, told from the request alone: what a client that is
    answered with success can rely on, and exactly when it is. */
module ObjectLaws {
  import opened Bytes
  import opened Metadata
  import opened Text
  import opened ObjectServer
  import V = Versions
  import L = ListPages
  import Ctr
  import Sse
  import MultipartRuns

  // ---- Stored objects

  function Found(s: State, k: ObjectKey, id: Str): V.Reply {
    V.Step(s.lists, V.GetVersion(k, id)).1
  }

  function Latest(s: State, k: ObjectKey): V.Reply {
    V.Step(s.lists, V.GetLatest(k)).1
  }

  /** The version describes the body, and its file reads back as it: an empty object cannot be
      read as a whole. */
  ghost predicate Holds(env: Env, s: State, v: ObjectVersion, body: Str, now: int)
    requires EnvOk(env)
  {
    && v.size == |body| && v.etag == HexEncode(env.md5(body)) && v.sums == env.sums(body)
    && v.createdAt == now && !v.deleteMarker
    && ReadWhole(env, s, v) == if body == [] then None else Some(body)
  }

  /** The file is the body, or the IV and the encryption of it. */
  ghost predicate OnDisk(env: Env, s: State, ref: Ref, body: Str, encrypted: bool, iv: Str)
    requires EnvOk(env) && |iv| == Ctr.BLOCK
  {
    ref in s.blobs && s.blobs[ref] == if encrypted then Sse.Encrypted(env.cipher, iv, body) else body
  }

  /** These metadata, with the mark of encryption exactly if it was asked for. */
  predicate Marked(m: map<Str, Str>, asked: map<Str, Str>, encrypted: bool) {
    && m - {SSE_KEY} == asked - {SSE_KEY}
    && (SSE_KEY in m <==> encrypted) && (encrypted ==> m[SSE_KEY] == AES256)
  }

  /** Only this file and the versions of this key changed, and of those only the one with this id,
      which is there now. */
  ghost predicate OnlyPut(s: State, t: State, ref: Ref) {
    && t == s.(lists := t.lists, blobs := t.blobs) && t.blobs - {ref} == s.blobs - {ref}
    && (forall l :: l != KeyOf(ref) ==> V.Get(t.lists, l) == V.Get(s.lists, l))
    && (forall id :: id != ref.versionId && id != [] ==> Found(t, KeyOf(ref), id) == Found(s, KeyOf(ref), id))
  }

  lemma MarkedSse(asked: map<Str, Str>, encrypted: bool)
    ensures Marked(MarkSse(asked, encrypted), asked, encrypted)
  {
    assert asked[SSE_KEY := AES256] - {SSE_KEY} == asked - {SSE_KEY};
    assert asked - {SSE_KEY} - {SSE_KEY} == asked - {SSE_KEY};
  }

  lemma PutFound(s: State, v: ObjectVersion)
    requires V.ListsOk(s.lists) && v.versionId != []
    requires var k := ObjectKey(v.bucket, v.key);
             v.versionId == NULL_ID || !V.HasId(V.Get(s.lists, k), v.versionId)
    ensures var k, t := ObjectKey(v.bucket, v.key), PutVersion(s, v);
            && Latest(t, k) == V.One(v) && Found(t, k, v.versionId) == V.One(v)
            && (forall id :: id != v.versionId && id != [] ==> Found(t, k, id) == Found(s, k, id))
            && (forall l :: l != k ==> V.Get(t.lists, l) == V.Get(s.lists, l))
  {
    hide V.Find, V.Without, V.HasId;
    var k := ObjectKey(v.bucket, v.key);
    assert V.ListOk(k, V.Get(s.lists, k));
    V.PutIsLatest(k, V.Get(s.lists, k), v);
  }

  /** A body written and recorded. */
  lemma StoredHolds(env: Env, s: State, ref: Ref, body: Str, encrypted: bool, iv: Str, metadata: map<Str, Str>,
                    cleaned: bool, now: int)
    requires EnvOk(env) && |iv| == Ctr.BLOCK && V.ListsOk(s.lists) && ref.versionId != []
    requires ref.versionId == NULL_ID || !V.HasId(V.Get(s.lists, KeyOf(ref)), ref.versionId)
    requires (SSE_KEY in metadata <==> encrypted) && (encrypted ==> metadata[SSE_KEY] == AES256)
    ensures var t := StoreObject(env, s, ref, body, encrypted, iv, metadata, Saved, cleaned, now).0;
            && Latest(t, KeyOf(ref)).One?
            && var v := Latest(t, KeyOf(ref)).version;
               && Ref(v.bucket, v.key, v.versionId) == ref && v.metadata == metadata
               && Holds(env, t, v, body, now) && OnDisk(env, t, ref, body, encrypted, iv) && OnlyPut(s, t, ref)
  {
    hide V.Step, V.ListsOk, V.HasId, HexEncode, ReadWhole;
    var meta := MetaOf(env, body, now);
    var v := VersionFrom(ref, meta, meta.md5Hex, metadata);
    var file := FileOf(env, body, encrypted, iv);
    var written := WriteFile(s, ref, file);
    var t := StoreObject(env, s, ref, body, encrypted, iv, metadata, Saved, cleaned, now).0;
    PutFound(written, v);
    assert t == PutVersion(written, v);
    assert s.blobs[ref := file] - {ref} == s.blobs - {ref};
    SseIsMarked(v, encrypted);
    MultipartRuns.ReadBack(env, t, v, body, encrypted, iv);
  }

  lemma SseIsMarked(v: ObjectVersion, encrypted: bool)
    requires (SSE_KEY in v.metadata <==> encrypted) && (encrypted ==> v.metadata[SSE_KEY] == AES256)
    ensures UsesSse(v) == encrypted
  {
    assert |AES256| == 6;
  }

  // ---- Put

  /** The id a write gives its version. */
  function IdFor(s: State, bucket: Str, newId: Str): Str {
    if bucket in s.buckets && s.buckets[bucket].versioning == Ascii("Enabled") then newId else Ascii("null")
  }

  lemma IdsAre(s: State, bucket: Str, newId: Str)
    requires bucket in s.buckets
    ensures IdFor(s, bucket, newId) == VersionIdFor(s.buckets[bucket], newId)
  {
    assert Ascii("Enabled") == ENABLED && Ascii("null") == NULL_ID;
  }

  /** Exactly when a put succeeds, and what else it is answered. */
  lemma PutReplies(env: Env, s: State, c: Call)
    requires EnvOk(env) && ValidCall(c) && c.PutObject?
    ensures var reply := Step(env, s, c).1;
            var locked := NullLocked(env, s, ObjectKey(c.bucket, c.key), IdFor(s, c.bucket, c.newId), c.now);
            && (reply == NoSuchBucket <==> c.bucket !in s.buckets)
            && (reply == AccessDenied <==> c.bucket in s.buckets && locked)
            && (reply == WriteFailed <==> c.bucket in s.buckets && !locked && (c.arrival.Broken? || c.arrival.Late?))
            && (reply == BadDigest <==> c.bucket in s.buckets && !locked && c.arrival.Refused?)
            && (reply == RecordFailed <==> c.bucket in s.buckets && !locked && c.arrival.Good? && !c.save.Saved?)
            && (reply == Ok <==> c.bucket in s.buckets && !locked && c.arrival.Good? && c.save.Saved?)
  {
    hide NullLocked, StoreObject, FileOf, MarkSse, IdFor, VersionIdFor;
    if c.bucket in s.buckets { IdsAre(s, c.bucket, c.newId); }
  }

  /** A put that succeeds makes the body the latest version of its key, described by it, with the
      metadata and the encryption asked for; it reads back, and nothing else changed. */
  lemma PutStores(env: Env, s: State, c: Call)
    requires EnvOk(env) && ValidCall(c) && c.PutObject? && V.ListsOk(s.lists) && FreshCall(s, c)
    requires Step(env, s, c).1 == Ok
    ensures var t, k := Step(env, s, c).0, ObjectKey(c.bucket, c.key);
            var ref := Ref(c.bucket, c.key, IdFor(s, c.bucket, c.newId));
            && Latest(t, k).One?
            && var v := Latest(t, k).version;
               && Ref(v.bucket, v.key, v.versionId) == ref && Marked(v.metadata, c.userMeta, c.encrypted)
               && Holds(env, t, v, c.body, c.now) && OnDisk(env, t, ref, c.body, c.encrypted, c.iv)
               && OnlyPut(s, t, ref)
  {
    hide NullLocked, StoreObject, FileOf, Holds, OnDisk, OnlyPut, V.ListsOk, V.HasId, Latest, IdFor, VersionIdFor;
    PutReplies(env, s, c);
    IdsAre(s, c.bucket, c.newId);
    IdsDiffer(s, c.bucket, c.newId);
    MarkedSse(c.userMeta, c.encrypted);
    var ref := Ref(c.bucket, c.key, VersionIdFor(s.buckets[c.bucket], c.newId));
    StoredHolds(env, s, ref, c.body, c.encrypted, c.iv, MarkSse(c.userMeta, c.encrypted), c.cleaned, c.now);
  }

  lemma IdsDiffer(s: State, bucket: Str, newId: Str)
    requires bucket in s.buckets
    ensures VersionIdFor(s.buckets[bucket], newId) in {newId, NULL_ID} && NULL_ID != []
  {
  }

  /** A put that fails changes nothing but at most the version and the file it was to make. */
  lemma FailedPutSpares(env: Env, s: State, c: Call)
    requires EnvOk(env) && ValidCall(c) && c.PutObject? && V.ListsOk(s.lists) && FreshCall(s, c)
    requires Step(env, s, c).1 != Ok
    ensures var t, ref := Step(env, s, c).0, Ref(c.bucket, c.key, IdFor(s, c.bucket, c.newId));
            && OnlyPut(s, t, ref) && (Step(env, s, c).1 != RecordFailed ==> t.lists == s.lists)
            && (c.bucket !in s.buckets || c.arrival.Broken? || Step(env, s, c).1 == AccessDenied ==> t == s)
  {
    hide NullLocked, FileOf, MarkSse, V.ListsOk, V.HasId, IdFor, StoreObject, WriteFile, WriteAndDiscard, OnlyPut, Step;
    hide VersionIdFor;
    var ref := Ref(c.bucket, c.key, IdFor(s, c.bucket, c.newId));
    PutReplies(env, s, c);
    FailedPutState(env, s, c);
    NothingPut(s, ref);
    if c.bucket in s.buckets {
      IdsAre(s, c.bucket, c.newId);
      IdsDiffer(s, c.bucket, c.newId);
      FilePut(s, ref, FileOf(env, c.body, c.encrypted, c.iv), c.cleaned);
      if !c.save.Saved? {
        UnsavedPut(env, s, ref, c.body, c.encrypted, c.iv, MarkSse(c.userMeta, c.encrypted), c.save, c.cleaned, c.now);
      }
    }
  }

  lemma FailedPutState(env: Env, s: State, c: Call)
    requires EnvOk(env) && ValidCall(c) && c.PutObject?
    ensures var (t, reply) := Step(env, s, c);
            var ref, file := Ref(c.bucket, c.key, IdFor(s, c.bucket, c.newId)), FileOf(env, c.body, c.encrypted, c.iv);
            && (reply == NoSuchBucket || reply == AccessDenied || c.arrival.Broken? ==> t == s)
            && (reply == WriteFailed && c.arrival.Late? ==> t == WriteFile(s, ref, file))
            && (reply == BadDigest ==> t == WriteAndDiscard(s, ref, file, c.cleaned))
            && (reply == RecordFailed ==>
                  t == StoreObject(env, s, ref, c.body, c.encrypted, c.iv, MarkSse(c.userMeta, c.encrypted), c.save,
                                   c.cleaned, c.now).0)
  {
    hide NullLocked, StoreObject, FileOf, MarkSse, IdFor, VersionIdFor, WriteFile, WriteAndDiscard;
    if c.bucket in s.buckets { IdsAre(s, c.bucket, c.newId); }
  }

  lemma NothingPut(s: State, ref: Ref)
    ensures OnlyPut(s, s, ref)
  {
  }

  lemma FilePut(s: State, ref: Ref, file: Str, cleaned: bool)
    ensures OnlyPut(s, WriteFile(s, ref, file), ref) && OnlyPut(s, WriteAndDiscard(s, ref, file, cleaned), ref)
    ensures WriteFile(s, ref, file).lists == s.lists && WriteAndDiscard(s, ref, file, cleaned).lists == s.lists
  {
    hide Found;
    SameFound(s, WriteFile(s, ref, file), KeyOf(ref));
    SameFound(s, WriteAndDiscard(s, ref, file, cleaned), KeyOf(ref));
    assert s.blobs[ref := file] - {ref} == s.blobs - {ref};
  }

  lemma UnsavedPut(env: Env, s: State, ref: Ref, body: Str, encrypted: bool, iv: Str, metadata: map<Str, Str>,
                   save: Save, cleaned: bool, now: int)
    requires EnvOk(env) && |iv| == Ctr.BLOCK && V.ListsOk(s.lists) && ref.versionId != [] && !save.Saved?
    requires ref.versionId == NULL_ID || !V.HasId(V.Get(s.lists, KeyOf(ref)), ref.versionId)
    ensures OnlyPut(s, StoreObject(env, s, ref, body, encrypted, iv, metadata, save, cleaned, now).0, ref)
  {
    hide FileOf, V.ListsOk, V.HasId, HexEncode, SaveVersion, Found, WriteAndDiscard;
    var file, meta := FileOf(env, body, encrypted, iv), MetaOf(env, body, now);
    var t := WriteAndDiscard(s, ref, file, cleaned);
    FilePut(s, ref, file, cleaned);
    SaveOnly(t, VersionFrom(ref, meta, meta.md5Hex, metadata), save);
  }

  lemma SameFound(s: State, t: State, k: ObjectKey)
    requires t.lists == s.lists
    ensures forall id :: Found(t, k, id) == Found(s, k, id)
  {
  }

  /** Whatever the store makes of a version, only the one with its id changes. */
  lemma SaveOnly(s: State, v: ObjectVersion, save: Save)
    requires V.ListsOk(s.lists) && v.versionId != []
    requires v.versionId == NULL_ID || !V.HasId(V.Get(s.lists, ObjectKey(v.bucket, v.key)), v.versionId)
    ensures var k, t := ObjectKey(v.bucket, v.key), SaveVersion(s, v, save);
            && (forall id :: id != v.versionId && id != [] ==> Found(t, k, id) == Found(s, k, id))
            && (forall l :: l != k ==> V.Get(t.lists, l) == V.Get(s.lists, l))
  {
    hide V.HasId, V.Find, V.Without, Found, V.ListsOk, V.Step;
    var k := ObjectKey(v.bucket, v.key);
    if Takes(save) {
      PutFound(s, v);
    } else if save.Halfway? && v.versionId == NULL_ID {
      forall id | id != NULL_ID && id != []
        ensures Found(SaveVersion(s, v, save), k, id) == Found(s, k, id)
      {
        CutFound(s, k, NULL_ID, id);
      }
      CutElsewhere(s, k, NULL_ID);
    } else {
      SameFound(s, SaveVersion(s, v, save), k);
    }
  }

  function Cut(s: State, k: ObjectKey, id: Str): State {
    s.(lists := V.Step(s.lists, V.DeleteVersion(k, id)).0)
  }

  lemma CutElsewhere(s: State, k: ObjectKey, id: Str)
    ensures forall l :: l != k ==> V.Get(Cut(s, k, id).lists, l) == V.Get(s.lists, l)
  {
  }

  /** Deleting a version by its id: it is not found any more, every other one is as before. */
  lemma CutFound(s: State, k: ObjectKey, id: Str, other: Str)
    requires V.ListsOk(s.lists) && id != [] && other != []
    ensures Found(Cut(s, k, id), k, other) == if other == id then V.NotFound else Found(s, k, other)
  {
    hide V.Find, V.Without;
    var vs := V.Get(s.lists, k);
    assert V.ListOk(k, vs);
    V.WithoutIsCut(vs, id);
    V.WithoutMeaning(vs, id);
    var out := V.Get(Cut(s, k, id).lists, k);
    assert out == V.Without(vs, id) by { CutGet(s, k, id); }
    if other == id {
      assert forall j | 0 <= j < |out| :: out[j] in out && out[j].versionId != id;
    } else {
      V.SameFind(vs, out, other);
    }
  }

  lemma CutGet(s: State, k: ObjectKey, id: Str)
    requires V.ListsOk(s.lists)
    ensures V.Get(Cut(s, k, id).lists, k) == V.Without(V.Get(s.lists, k), id)
  {
    hide V.Find, V.Without;
    assert V.ListOk(k, V.Get(s.lists, k));
    V.WithoutIsCut(V.Get(s.lists, k), id);
  }

  /** A put refused for its digest, whose file is then removed, leaves every version listed. One that
      could be read can be read as before, or not at all if and only if it is the "null" version of the
      key, not locked, in a bucket that is not versioned: its file was overwritten and then removed. */
  lemma RefusedPutLosesIff(env: Env, s: State, c: Call, k: ObjectKey, w: ObjectVersion)
    requires EnvOk(env) && ValidCall(c) && c.PutObject? && c.arrival.Refused? && c.cleaned
    requires V.ListsOk(s.lists) && FreshCall(s, c) && w in V.Get(s.lists, k) && ReadWhole(env, s, w).Some?
    ensures var t := Step(env, s, c).0;
            var lost := && c.bucket in s.buckets && s.buckets[c.bucket].versioning != Ascii("Enabled")
                        && k == ObjectKey(c.bucket, c.key) && w.versionId == NULL_ID && !Locked(env, w, c.now);
            && t.lists == s.lists
            && (lost <==> ReadWhole(env, t, w) == None)
            && (!lost ==> ReadWhole(env, t, w) == ReadWhole(env, s, w))
  {
    hide Locked, NullLocked, ReadWhole, Step, V.Find, V.Get, V.ListsOk;
    var ref := Ref(c.bucket, c.key, IdFor(s, c.bucket, c.newId));
    RefusedPutState(env, s, c);
    RefAt(s, k, w);
    if w.versionId == NULL_ID { NullLockedIs(env, s, k, w, c.now); }
    ReadWithout(env, s, ref, w);
  }

  lemma RefusedPutState(env: Env, s: State, c: Call)
    requires EnvOk(env) && ValidCall(c) && c.PutObject? && c.arrival.Refused? && c.cleaned
    ensures var id := IdFor(s, c.bucket, c.newId);
            Step(env, s, c).0 ==
            if c.bucket in s.buckets && !NullLocked(env, s, ObjectKey(c.bucket, c.key), id, c.now)
            then s.(blobs := s.blobs - {Ref(c.bucket, c.key, id)}) else s
  {
    hide NullLocked, FileOf, StoreObject, MarkSse;
    assert Step(env, s, c) == DoPut(env, s, c);
    hide Step;
    if c.bucket in s.buckets { IdsAre(s, c.bucket, c.newId); }
  }

  lemma ReadWithout(env: Env, s: State, ref: Ref, w: ObjectVersion)
    requires EnvOk(env)
    ensures ReadWhole(env, s.(blobs := s.blobs - {ref}), w) ==
            if ref == Ref(w.bucket, w.key, w.versionId) then None else ReadWhole(env, s, w)
  {
    hide UsesSse, Sse.Delivered;
  }

  lemma RefAt(s: State, k: ObjectKey, w: ObjectVersion)
    requires V.ListsOk(s.lists) && w in V.Get(s.lists, k)
    ensures w.bucket == k.bucket && w.key == k.key && V.HasId(V.Get(s.lists, k), w.versionId)
  {
    assert V.ListOk(k, V.Get(s.lists, k));
  }

  lemma NullLockedIs(env: Env, s: State, k: ObjectKey, w: ObjectVersion, now: int)
    requires V.ListsOk(s.lists) && w in V.Get(s.lists, k) && w.versionId == NULL_ID
    ensures NullLocked(env, s, k, NULL_ID, now) == Locked(env, w, now)
  {
    hide Locked, V.Find;
    var vs := V.Get(s.lists, k);
    assert V.ListOk(k, vs);
    var f := V.Find(vs, NULL_ID);
    assert f >= 0 && vs[f] == w;
  }

  // ---- Copy

  /** Exactly when a copy succeeds. */
  lemma CopyReplies(env: Env, s: State, c: Call)
    requires EnvOk(env) && ValidCall(c) && c.CopyObject?
    ensures var reply, src := Step(env, s, c).1, Latest(s, ObjectKey(c.srcBucket, c.srcKey));
            var there := src.One? && !src.version.deleteMarker;
            var locked := NullLocked(env, s, ObjectKey(c.bucket, c.key), IdFor(s, c.bucket, c.newId), c.now);
            && (reply == NoSuchKey <==> !there)
            && (reply == NoSuchBucket <==> there && c.bucket !in s.buckets)
            && (reply == AccessDenied <==> there && c.bucket in s.buckets && locked)
            && (reply == WriteFailed <==> there && c.bucket in s.buckets && !locked && !c.written.Written?)
            && (reply == ReadFailed <==> there && c.bucket in s.buckets && !locked && c.written.Written?
                                         && ReadWhole(env, s, src.version) == None)
            && (reply == Ok <==> there && c.bucket in s.buckets && !locked && c.written.Written?
                                 && ReadWhole(env, s, src.version).Some? && c.save.Saved?)
  {
    hide NullLocked, StoreObject, FileOf, MarkSse, IdFor, VersionIdFor, ReadWhole;
    if c.bucket in s.buckets { IdsAre(s, c.bucket, c.newId); }
  }

  /** A copy that succeeds makes what the latest version of the source read as the latest version of
      the destination, with the metadata of the source and the encryption asked for; nothing else
      changed, the source in particular. */
  lemma CopyStores(env: Env, s: State, c: Call)
    requires EnvOk(env) && ValidCall(c) && c.CopyObject? && V.ListsOk(s.lists) && FreshCall(s, c)
    requires Step(env, s, c).1 == Ok
    ensures var t, k, from := Step(env, s, c).0, ObjectKey(c.bucket, c.key), ObjectKey(c.srcBucket, c.srcKey);
            var ref := Ref(c.bucket, c.key, IdFor(s, c.bucket, c.newId));
            && Latest(s, from).One? && Latest(t, k).One?
            && var src, v := Latest(s, from).version, Latest(t, k).version;
               && OnlyPut(s, t, ref) && (from != k ==> V.Get(t.lists, from) == V.Get(s.lists, from))
               && Ref(v.bucket, v.key, v.versionId) == ref && Marked(v.metadata, src.metadata, c.encrypted)
               && ReadWhole(env, s, src).Some?
               && var body := ReadWhole(env, s, src).value;
                  Holds(env, t, v, body, c.now) && OnDisk(env, t, ref, body, c.encrypted, c.iv)
  {
    CopyRuns(env, s, c);
    hide StoreObject, Holds, OnDisk, V.ListsOk, V.HasId, IdFor, ReadWhole, OnlyPut, Step, Latest, MarkSse, Marked;
    IdsAre(s, c.bucket, c.newId);
    IdsDiffer(s, c.bucket, c.newId);
    var src := Latest(s, ObjectKey(c.srcBucket, c.srcKey)).version;
    var ref := Ref(c.bucket, c.key, IdFor(s, c.bucket, c.newId));
    MarkedSse(src.metadata, c.encrypted);
    SseMarks(src.metadata, c.encrypted);
    StoredHolds(env, s, ref, ReadWhole(env, s, src).value, c.encrypted, c.iv, MarkSse(src.metadata, c.encrypted),
                c.cleaned, c.now);
    ElsewhereSame(s, Step(env, s, c).0, ref, ObjectKey(c.srcBucket, c.srcKey));
  }

  lemma SseMarks(m: map<Str, Str>, encrypted: bool)
    ensures SSE_KEY in MarkSse(m, encrypted) <==> encrypted
    ensures encrypted ==> MarkSse(m, encrypted)[SSE_KEY] == AES256
  {
  }

  lemma ElsewhereSame(s: State, t: State, ref: Ref, k: ObjectKey)
    requires OnlyPut(s, t, ref)
    ensures k != KeyOf(ref) ==> V.Get(t.lists, k) == V.Get(s.lists, k)
  {
  }

  /** A copy that succeeds stores what it read. */
  lemma CopyRuns(env: Env, s: State, c: Call)
    requires EnvOk(env) && ValidCall(c) && c.CopyObject? && Step(env, s, c).1 == Ok
    ensures var from, ref := ObjectKey(c.srcBucket, c.srcKey), Ref(c.bucket, c.key, IdFor(s, c.bucket, c.newId));
            && c.bucket in s.buckets && Latest(s, from).One?
            && var src := Latest(s, from).version;
               && ReadWhole(env, s, src).Some?
               && Step(env, s, c) == StoreObject(env, s, ref, ReadWhole(env, s, src).value, c.encrypted, c.iv,
                                                 MarkSse(src.metadata, c.encrypted), Saved, c.cleaned, c.now)
  {
    CopyReplies(env, s, c);
    hide NullLocked, StoreObject, FileOf, IdFor, VersionIdFor, ReadWhole, MarkSse;
    IdsAre(s, c.bucket, c.newId);
  }

  // ---- Delete

  /** Exactly when a delete is refused or fails. */
  lemma DeleteReplies(env: Env, s: State, c: Call)
    requires EnvOk(env) && ValidCall(c) && c.DeleteObject?
    ensures var reply, k := Step(env, s, c).1, ObjectKey(c.bucket, c.key);
            var enabled := c.bucket in s.buckets && s.buckets[c.bucket].versioning == Ascii("Enabled");
            var v := if c.versionId == [] then Latest(s, k) else Found(s, k, c.versionId);
            var marks := c.versionId == [] && enabled;
            && (reply == NoSuchBucket <==> c.bucket !in s.buckets)
            && (reply == AccessDenied <==> c.bucket in s.buckets && !marks && v.One? && Locked(env, v.version, c.now))
            && (c.bucket in s.buckets && !marks && !(v.One? && Locked(env, v.version, c.now)) ==>
                  (reply == Ok <==> c.save.Saved? || (v.NotFound? && Takes(c.save))))
            && (marks ==> reply == Ok)
  {
    hide Locked, V.Find, RefsOf, SaveVersion;
    assert Ascii("Enabled") == ENABLED;
  }

  /** Without version id in a versioned bucket: a delete marker becomes the latest version, so the
      key is not shown, and every version and file stays. If the store does not take the marker,
      nothing changes, and the answer is success all the same. */
  lemma DeleteMarks(env: Env, s: State, c: Call)
    requires EnvOk(env) && ValidCall(c) && c.DeleteObject? && V.ListsOk(s.lists) && FreshCall(s, c)
    requires c.versionId == [] && c.bucket in s.buckets && s.buckets[c.bucket].versioning == Ascii("Enabled")
    ensures var (t, reply) := Step(env, s, c);
            var k := ObjectKey(c.bucket, c.key);
            && reply == Ok && t == s.(lists := t.lists)
            && (!Takes(c.save) ==> t == s)
            && (Takes(c.save) ==>
                  && Latest(t, k).One? && Latest(t, k).version.deleteMarker
                  && Latest(t, k).version.versionId == c.newId && Latest(t, k).version.createdAt == c.now
                  && OnlyPut(s, t, Ref(c.bucket, c.key, c.newId))
                  && (forall w :: w in V.Get(s.lists, k) ==> w in V.Get(t.lists, k))
                  && (forall w :: L.ShownInMemory(t.lists, c.bucket, w) ==> w.key != c.key))
  {
    hide V.ListsOk, V.HasId, Found;
    assert Ascii("Enabled") == ENABLED;
    var m := V.Marker(ObjectKey(c.bucket, c.key), c.newId, c.now);
    assert Step(env, s, c) == (SaveVersion(s, m, c.save), Ok);
    hide Step, V.Step, V.Get, L.ShownInMemory, Latest;
    if Takes(c.save) {
      PutFound(s, m);
      MarkerHides(s, m);
    }
  }

  lemma MarkerHides(s: State, m: ObjectVersion)
    requires V.ListsOk(s.lists) && m.deleteMarker && m.versionId != NULL_ID && m.versionId != []
    requires !V.HasId(V.Get(s.lists, ObjectKey(m.bucket, m.key)), m.versionId)
    ensures var k, t := ObjectKey(m.bucket, m.key), PutVersion(s, m);
            && (forall w :: w in V.Get(s.lists, k) ==> w in V.Get(t.lists, k))
            && (forall w :: L.ShownInMemory(t.lists, m.bucket, w) ==> w.key != m.key)
  {
    V.StepOk(s.lists, V.Put(m));
    var k, t := ObjectKey(m.bucket, m.key), PutVersion(s, m);
    forall w | L.ShownInMemory(t.lists, m.bucket, w)
      ensures w.key != m.key
    {
      var l :| l in t.lists && l.bucket == m.bucket && t.lists[l] != [] && w == t.lists[l][|t.lists[l]| - 1]
               && !w.deleteMarker;
      assert w in t.lists[l];
      assert V.ListOk(l, t.lists[l]);
    }
  }

  /** With a version id: that version is not found any more, its file is gone if it could be
      removed, and nothing else changed. */
  lemma DeleteRemovesVersion(env: Env, s: State, c: Call)
    requires EnvOk(env) && ValidCall(c) && c.DeleteObject? && V.ListsOk(s.lists)
    requires c.versionId != [] && Step(env, s, c).1 == Ok
    ensures var t, k, ref := Step(env, s, c).0, ObjectKey(c.bucket, c.key), Ref(c.bucket, c.key, c.versionId);
            && Found(t, k, c.versionId) == V.NotFound && OnlyPut(s, t, ref)
            && (Found(s, k, c.versionId).One? && !Found(s, k, c.versionId).version.deleteMarker && ref !in c.left ==>
                  ref !in t.blobs)
            && (Found(s, k, c.versionId).NotFound? || ref in c.left ==> t.blobs == s.blobs)
  {
    hide Locked, V.ListsOk, V.Step, V.Find;
    var k, id := ObjectKey(c.bucket, c.key), c.versionId;
    var vs := V.Get(s.lists, k);
    FoundIs(s, k, id);
    forall other | other != []
      ensures Found(Cut(s, k, id), k, other) == if other == id then V.NotFound else Found(s, k, other)
    {
      CutFound(s, k, id, other);
    }
    CutElsewhere(s, k, id);
    var i := V.Find(vs, id);
    if i >= 0 {
      RefOfFound(s, k, id);
      assert RefsOf([vs[i]]) == {Ref(vs[i].bucket, vs[i].key, vs[i].versionId)};
      SameFound(Cut(s, k, id), Step(env, s, c).0, k);
    }
  }

  lemma FoundIs(s: State, k: ObjectKey, id: Str)
    requires id != []
    ensures var vs := V.Get(s.lists, k);
            Found(s, k, id) == if V.Find(vs, id) < 0 then V.NotFound else V.One(vs[V.Find(vs, id)])
  {
  }

  lemma RefOfFound(s: State, k: ObjectKey, id: Str)
    requires V.ListsOk(s.lists) && V.Find(V.Get(s.lists, k), id) >= 0
    ensures var vs := V.Get(s.lists, k);
            var v := vs[V.Find(vs, id)];
            Ref(v.bucket, v.key, v.versionId) == Ref(k.bucket, k.key, id)
  {
    hide V.Find;
    var vs := V.Get(s.lists, k);
    assert vs[V.Find(vs, id)] in vs;
  }

  /** Without version id in a bucket that is not versioned: no version of the key is left, nor the
      file of any that could be removed, and nothing else changed. */
  lemma DeleteRemovesAll(env: Env, s: State, c: Call)
    requires EnvOk(env) && ValidCall(c) && c.DeleteObject? && V.ListsOk(s.lists) && Step(env, s, c).1 == Ok
    requires c.versionId == [] && s.buckets[c.bucket].versioning != Ascii("Enabled")
    ensures var t, k := Step(env, s, c).0, ObjectKey(c.bucket, c.key);
            && V.Get(t.lists, k) == [] && t == s.(lists := t.lists, blobs := t.blobs)
            && (forall l :: l != k ==> V.Get(t.lists, l) == V.Get(s.lists, l))
            && (forall v :: v in V.Get(s.lists, k) ==>
                  var ref := Ref(c.bucket, c.key, v.versionId); ref in c.left || ref !in t.blobs)
            && (forall ref :: ref in t.blobs ==> ref in s.blobs && t.blobs[ref] == s.blobs[ref])
            && (forall ref :: ref in s.blobs && (KeyOf(ref) != k || ref in c.left) ==> ref in t.blobs)
  {
    hide Locked, V.ListsOk;
    assert Ascii("Enabled") == ENABLED;
    AllOfKey(s, ObjectKey(c.bucket, c.key));
  }

  lemma AllOfKey(s: State, k: ObjectKey)
    requires V.ListsOk(s.lists)
    ensures forall v :: v in V.Get(s.lists, k) ==> v.bucket == k.bucket && v.key == k.key
  {
  }

  // ---- Locks

  /** The metadata of one version changed; every other version, every file and all else is as it
      was. */
  ghost predicate OnlyMetadata(s: State, t: State, k: ObjectKey, v: ObjectVersion, metadata: map<Str, Str>) {
    && t == s.(lists := t.lists) && Found(t, k, v.versionId) == V.One(v.(metadata := metadata))
    && |V.Get(t.lists, k)| == |V.Get(s.lists, k)|
    && (forall i :: 0 <= i < |V.Get(s.lists, k)| ==>
          var w := V.Get(s.lists, k)[i]; V.Get(t.lists, k)[i] == if w == v then v.(metadata := metadata) else w)
    && (forall l :: l != k ==> V.Get(t.lists, l) == V.Get(s.lists, l))
  }

  lemma UpdateFound(s: State, k: ObjectKey, v: ObjectVersion, metadata: map<Str, Str>)
    requires V.ListsOk(s.lists) && v in V.Get(s.lists, k)
    ensures OnlyMetadata(s, SetMetadata(s, k, v.versionId, metadata), k, v, metadata)
  {
    hide V.Find, V.ListsOk;
    var vs, t := V.Get(s.lists, k), SetMetadata(s, k, v.versionId, metadata);
    UniqueAt(s, k);
    var n :| 0 <= n < |vs| && vs[n] == v;
    V.FindAt(vs, n);
    var out := vs[n := v.(metadata := metadata)];
    assert V.Get(t.lists, k) == out;
    UpdatedAt(vs, n, metadata);
    FoundIs(t, k, v.versionId);
  }

  lemma UniqueAt(s: State, k: ObjectKey)
    requires V.ListsOk(s.lists)
    ensures V.UniqueIds(V.Get(s.lists, k)) && forall v :: v in V.Get(s.lists, k) ==> v.versionId != []
  {
  }

  lemma UpdatedAt(vs: seq<ObjectVersion>, n: nat, metadata: map<Str, Str>)
    requires V.UniqueIds(vs) && n < |vs|
    ensures var out := vs[n := vs[n].(metadata := metadata)];
            && V.Find(out, vs[n].versionId) == n
            && forall i :: 0 <= i < |vs| ==> out[i] == if vs[i] == vs[n] then vs[n].(metadata := metadata) else vs[i]
  {
    hide V.Find;
    var out := vs[n := vs[n].(metadata := metadata)];
    assert V.UniqueIds(out) by { assert forall i | 0 <= i < |vs| :: out[i].versionId == vs[i].versionId; }
    V.FindAt(out, n);
    forall i | 0 <= i < |vs| && i != n
      ensures vs[i] != vs[n]
    {
      assert vs[i].versionId != vs[n].versionId;
    }
  }

  /** The version a request is about: the one with the id, or the latest; a delete marker is none. */
  predicate Names(s: State, k: ObjectKey, id: Str, v: ObjectVersion) {
    (if id == [] then Latest(s, k) else Found(s, k, id)) == V.One(v) && !v.deleteMarker
  }

  lemma NamedIs(s: State, k: ObjectKey, id: Str)
    ensures forall v :: Names(s, k, id, v) <==> Named(s, k, id) == Some(v)
    ensures forall v :: Names(s, k, id, v) ==> v in V.Get(s.lists, k)
  {
    hide V.Find;
  }

  /** A retention is accepted if and only if it names a version, its mode is one of the two and its
      date parses and is to come, and the store saves it. */
  lemma RetentionReplies(env: Env, s: State, c: Call)
    requires EnvOk(env) && ValidCall(c) && c.PutRetention?
    ensures var k := ObjectKey(c.bucket, c.key);
            var mode, until := ToUpper(Trim(c.mode, Space)), env.parseTime(Trim(c.until, Space));
            Step(env, s, c).1 == Ok <==>
            && (exists v :: Names(s, k, c.versionId, v))
            && (mode == Ascii("GOVERNANCE") || mode == Ascii("COMPLIANCE"))
            && until.Some? && c.now < until.value && c.save.Saved?
  {
    hide V.Step, Trim, ToUpper, Named, Names, Ascii;
    NamedIs(s, ObjectKey(c.bucket, c.key), c.versionId);
    if Named(s, ObjectKey(c.bucket, c.key), c.versionId).Some? {
      assert Names(s, ObjectKey(c.bucket, c.key), c.versionId,
                   Named(s, ObjectKey(c.bucket, c.key), c.versionId).value);
    }
  }

  /** It sets mode and date of that version, and nothing else. */
  lemma RetentionSets(env: Env, s: State, c: Call)
    requires EnvOk(env) && ValidCall(c) && c.PutRetention? && V.ListsOk(s.lists) && Step(env, s, c).1 == Ok
    ensures var t, k := Step(env, s, c).0, ObjectKey(c.bucket, c.key);
            var until := env.parseTime(Trim(c.until, Space));
            && until.Some?
            && (exists v :: Names(s, k, c.versionId, v) &&
                  OnlyMetadata(s, t, k, v, v.metadata[RETENTION_MODE_KEY := ToUpper(Trim(c.mode, Space))]
                                                     [RETAIN_UNTIL_KEY := env.formatTime(until.value)]))
  {
    hide V.Step, Trim, ToUpper, Named, Names, Ascii, OnlyMetadata, SetMetadata, V.ListsOk;
    var k := ObjectKey(c.bucket, c.key);
    NamedIs(s, k, c.versionId);
    var v := Named(s, k, c.versionId).value;
    assert Names(s, k, c.versionId, v);
    var m := v.metadata[RETENTION_MODE_KEY := ToUpper(Trim(c.mode, Space))]
                       [RETAIN_UNTIL_KEY := env.formatTime(env.parseTime(Trim(c.until, Space)).value)];
    UpdateFound(s, k, v, m);
  }

  /** A legal hold is set if and only if it names a version, is on or off, and the store saves it. */
  lemma LegalHoldReplies(env: Env, s: State, c: Call)
    requires EnvOk(env) && ValidCall(c) && c.PutLegalHold?
    ensures var k, status := ObjectKey(c.bucket, c.key), ToUpper(Trim(c.status, Space));
            Step(env, s, c).1 == Ok <==>
            (exists v :: Names(s, k, c.versionId, v)) && (status == ON || status == OFF) && c.save.Saved?
  {
    hide V.Step, Trim, ToUpper, Named, Names;
    NamedIs(s, ObjectKey(c.bucket, c.key), c.versionId);
    if Named(s, ObjectKey(c.bucket, c.key), c.versionId).Some? {
      assert Names(s, ObjectKey(c.bucket, c.key), c.versionId,
                   Named(s, ObjectKey(c.bucket, c.key), c.versionId).value);
    }
  }

  lemma LegalHoldSets(env: Env, s: State, c: Call)
    requires EnvOk(env) && ValidCall(c) && c.PutLegalHold? && V.ListsOk(s.lists) && Step(env, s, c).1 == Ok
    ensures var t, k := Step(env, s, c).0, ObjectKey(c.bucket, c.key);
            exists v :: Names(s, k, c.versionId, v) &&
              OnlyMetadata(s, t, k, v, v.metadata[LEGAL_HOLD_KEY := ToUpper(Trim(c.status, Space))])
  {
    hide V.Step, Trim, ToUpper, Named, Names, OnlyMetadata, SetMetadata, V.ListsOk;
    var k := ObjectKey(c.bucket, c.key);
    NamedIs(s, k, c.versionId);
    var v := Named(s, k, c.versionId).value;
    assert Names(s, k, c.versionId, v);
    UpdateFound(s, k, v, v.metadata[LEGAL_HOLD_KEY := ToUpper(Trim(c.status, Space))]);
  }

  // ---- Buckets

  /** A bucket is made if and only if there is none of the name and the store saves it; it is not
      versioned, and nothing else changed. */
  lemma BucketMade(env: Env, s: State, c: Call)
    requires EnvOk(env) && ValidCall(c) && c.CreateBucket?
    ensures var (t, reply) := Step(env, s, c);
            && (reply == AlreadyExists <==> c.bucket in s.buckets)
            && (reply == Ok <==> c.bucket !in s.buckets && c.save.Saved?)
            && (reply == Ok ==> t == s.(buckets := t.buckets) && t.buckets - {c.bucket} == s.buckets
                                && c.bucket in t.buckets
                                && t.buckets[c.bucket] == Bucket(c.bucket, c.now, c.region, Ascii("Suspended")))
  {
    assert Ascii("Suspended") == SUSPENDED;
    var b := Bucket(c.bucket, c.now, c.region, SUSPENDED);
    assert c.bucket !in s.buckets ==> s.buckets[c.bucket := b] - {c.bucket} == s.buckets;
  }

  /** Versioning is set if and only if the status is one of the two, the bucket exists and the store
      saves it; nothing else of the bucket changes, and nothing else does. */
  lemma VersioningSet(env: Env, s: State, c: Call)
    requires EnvOk(env) && ValidCall(c) && c.SetVersioning?
    ensures var (t, reply) := Step(env, s, c);
            && (reply == Ok <==> (c.status == Ascii("Enabled") || c.status == Ascii("Suspended"))
                                 && c.bucket in s.buckets && c.save.Saved?)
            && (reply == Ok ==> t == s.(buckets := t.buckets) && t.buckets - {c.bucket} == s.buckets - {c.bucket}
                                && c.bucket in t.buckets && t.buckets[c.bucket].versioning == c.status
                                && t.buckets[c.bucket].(versioning := s.buckets[c.bucket].versioning)
                                   == s.buckets[c.bucket])
  {
    assert Ascii("Suspended") == SUSPENDED && Ascii("Enabled") == ENABLED;
    if c.bucket in s.buckets {
      var b := s.buckets[c.bucket].(versioning := c.status);
      assert s.buckets[c.bucket := b] - {c.bucket} == s.buckets - {c.bucket};
    }
  }

  // ---- Parts and uploads

  /** A part that is accepted is recorded and staged as sent, and nothing else changed. */
  lemma PartSaved(env: Env, s: State, c: Call)
    requires EnvOk(env) && ValidCall(c) && c.UploadPart?
    ensures var (t, reply) := Step(env, s, c);
            && (reply == Ok <==> && 1 <= c.number <= 10000 && UploadIs(s, c.bucket, c.key, c.uploadId)
                                 && c.arrival.Good? && c.save.Saved?)
            && (reply == Ok ==>
                  && t == s.(parts := t.parts, staged := t.staged)
                  && t.parts - {c.uploadId} == s.parts - {c.uploadId} && c.uploadId in t.parts
                  && PartsOf(t, c.uploadId) ==
                     PartsOf(s, c.uploadId)[c.number := MultipartPart(c.uploadId, c.number, HexEncode(env.md5(c.body)),
                                                                      |c.body|, env.sums(c.body), [], c.now)]
                  && t.staged == s.staged[PartFile(c.uploadId, c.number) := c.body])
  {
    hide HexEncode, Swept;
    var m := PartsOf(s, c.uploadId)[c.number := PartRecord(env, c)];
    assert s.parts[c.uploadId := m] - {c.uploadId} == s.parts - {c.uploadId};
  }

  /** What else a part is answered. */
  lemma PartReplies(env: Env, s: State, c: Call)
    requires EnvOk(env) && ValidCall(c) && c.UploadPart?
    ensures var reply, open := Step(env, s, c).1, UploadIs(s, c.bucket, c.key, c.uploadId);
            && (reply == InvalidArgument <==> !(1 <= c.number <= 10000))
            && (reply == NoSuchUpload <==> 1 <= c.number <= 10000 && !open)
            && (reply == WriteFailed <==> 1 <= c.number <= 10000 && open && (c.arrival.Broken? || c.arrival.Late?))
            && (reply == BadDigest <==> 1 <= c.number <= 10000 && open && c.arrival.Refused?)
            && (reply == RecordFailed <==> 1 <= c.number <= 10000 && open && c.arrival.Good? && !c.save.Saved?)
  {
    hide HexEncode, Swept;
  }

  /** An upload is opened if and only if its id is not in use, the store saves it and its directory
      can be made; it is as asked for, and nothing else changed. */
  lemma UploadOpened(env: Env, s: State, c: Call)
    requires EnvOk(env) && ValidCall(c) && c.CreateUpload?
    ensures var (t, reply) := Step(env, s, c);
            && (reply == Ok <==> c.uploadId !in s.uploads && c.save.Saved? && c.made)
            && (reply == Ok ==>
                  && t == s.(uploads := t.uploads) && t.uploads - {c.uploadId} == s.uploads
                  && c.uploadId in t.uploads
                  && t.uploads[c.uploadId] ==
                     MultipartUpload(c.uploadId, c.bucket, c.key, if c.encrypted then Ascii("AES256") else [], c.now))
  {
    hide Ascii;
    var u := MultipartUpload(c.uploadId, c.bucket, c.key, if c.encrypted then AES256 else [], c.now);
    assert c.uploadId !in s.uploads ==> s.uploads[c.uploadId := u] - {c.uploadId} == s.uploads;
  }

  /** The first complaint about the listed parts: out of order, not recorded, recorded with another
      ETag, or too small and not the last. */
  ghost predicate Complains(stored: map<int, MultipartPart>, listed: seq<ListedPart>, i: nat, reply: Reply)
    requires i < |listed|
  {
    var p := listed[i];
    var ordered := i > 0 ==> listed[i - 1].number < p.number;
    var matches := p.number in stored && Trim(p.etag, {34}) == stored[p.number].etag;
    && (reply == InvalidPartOrder <==> !ordered)
    && (reply == InvalidPart <==> ordered && !matches)
    && (reply == EntityTooSmall <==> ordered && matches && i < |listed| - 1 && stored[p.number].size < 5242880)
    && (reply == Ok <==> ordered && matches && (i < |listed| - 1 ==> stored[p.number].size >= 5242880))
  }

  lemma {:induction false} FirstComplaint(stored: map<int, MultipartPart>, listed: seq<ListedPart>, from: nat)
    requires from <= |listed|
    ensures var reply := CheckParts(stored, listed, from);
            if reply == Ok then forall i :: from <= i < |listed| ==> Complains(stored, listed, i, Ok)
            else exists i :: from <= i < |listed| && Complains(stored, listed, i, reply)
                             && forall j :: from <= j < i ==> Complains(stored, listed, j, Ok)
    decreases |listed| - from
  {
    hide Complains;
    if from < |listed| {
      FirstComplaint(stored, listed, from + 1);
      assert Complains(stored, listed, from, CheckPart(stored, listed, from)) by { CheckedAs(stored, listed, from); }
    }
  }

  lemma CheckedAs(stored: map<int, MultipartPart>, listed: seq<ListedPart>, i: nat)
    requires i < |listed|
    ensures Complains(stored, listed, i, CheckPart(stored, listed, i))
  {
    hide Trim;
  }

  /** What a completion that fails is answered, and that it then has recorded nothing, but where the
      store fails. */
  lemma CompleteReplies(env: Env, s: State, c: Call)
    requires EnvOk(env) && ValidCall(c) && c.Complete?
    ensures var (t, reply) := Step(env, s, c);
            var open := UploadIs(s, c.bucket, c.key, c.uploadId);
            var stored := PartsOf(s, c.uploadId);
            && (reply == NoSuchUpload <==> !open)
            && (reply == MalformedXML <==> open && c.listed == [])
            && (reply == TooManyParts <==> open && |c.listed| > 10000)
            && (reply in {InvalidPartOrder, InvalidPart, EntityTooSmall} ==>
                  open && exists i :: 0 <= i < |c.listed| && Complains(stored, c.listed, i, reply)
                                      && forall j :: 0 <= j < i ==> Complains(stored, c.listed, j, Ok))
            && (reply in {NoSuchBucket, AccessDenied, WriteFailed, RecordFailed} || reply.Completed? ==>
                  forall i :: 0 <= i < |c.listed| ==> Complains(stored, c.listed, i, Ok))
            && (!reply.Completed? && reply != RecordFailed ==> t.lists == s.lists)
  {
    hide NullLocked, CheckParts, Files, AllStaged, Complains, Moved, Assembled, FileOf, CompletedVersion, RecordObject;
    hide Swept;
    assert Step(env, s, c) == DoComplete(env, s, c);
    hide Step;
    MultipartRuns.CheckPartsReplies(PartsOf(s, c.uploadId), c.listed, 0);
    FirstComplaint(PartsOf(s, c.uploadId), c.listed, 0);
  }

  /** An abort of an open upload takes the staged files that can be removed, and the upload with its
      records unless that fails; nothing else changed. */
  lemma AbortCloses(env: Env, s: State, c: Call)
    requires EnvOk(env) && ValidCall(c) && c.Abort?
    ensures var (t, reply) := Step(env, s, c);
            && reply == Ok && t == s.(uploads := t.uploads, parts := t.parts, staged := t.staged)
            && (!UploadIs(s, c.bucket, c.key, c.uploadId) ==> t == s)
            && (UploadIs(s, c.bucket, c.key, c.uploadId) ==>
                  && (c.dropped ==> t.uploads == s.uploads - {c.uploadId} && t.parts == s.parts - {c.uploadId})
                  && (!c.dropped ==> t.uploads == s.uploads && t.parts == s.parts)
                  && (forall f :: f in t.staged <==>
                        f in s.staged && (f.uploadId != c.uploadId || f.number in c.leftParts))
                  && (forall f :: f in t.staged ==> t.staged[f] == s.staged[f]))
  {
  }
}
