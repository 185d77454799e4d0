/** The object handlers of the S3 API as atomic steps over the two stores behind them: the
    metadata store (buckets, version lists, uploads, part records) and the blob store (object
    files, staged part files). */
module ObjectServer {
  import opened Bytes
  import opened Metadata
  import opened Text
  import V = Versions
  import Ctr
  import Sse

  const ENABLED: Str := [69, 110, 97, 98, 108, 101, 100]
  const SUSPENDED: Str := [83, 117, 115, 112, 101, 110, 100, 101, 100]
  const SSE_KEY: Str := Ascii("__s000_sse")
  const AES256: Str := Ascii("AES256")
  const LEGAL_HOLD_KEY: Str := Ascii("__s000_legal_hold")
  const RETENTION_MODE_KEY: Str := Ascii("__s000_retention_mode")
  const RETAIN_UNTIL_KEY: Str := Ascii("__s000_retention_retain_until")
  const ON: Str := [79, 78]
  const OFF: Str := [79, 70, 70]
  const MODES: set<Str> := {Ascii("GOVERNANCE"), Ascii("COMPLIANCE")}
  const QUOTE: set<byte> := {34}
  const MAX_PARTS := 10000
  const MIN_PART_SIZE := 5 * 1024 * 1024

  /** What the handlers take from libraries: digests, the block cipher under the master key,
      and RFC 3339 timestamps. Times are nanoseconds. */
  datatype Env = Env(
    md5: Str -> Str,
    sums: Str -> Checksums,
    cipher: Str -> Str,
    parseTime: Str -> Option<int>,
    formatTime: int -> Str)

  ghost predicate EnvOk(env: Env) {
    Ctr.BlockCipher(env.cipher)
  }

  datatype PartFile = PartFile(uploadId: Str, number: int)

  datatype State = State(
    buckets: map<Str, Bucket>,
    lists: V.Lists,
    uploads: map<Str, MultipartUpload>,
    parts: map<Str, map<int, MultipartPart>>,
    blobs: map<Ref, Str>,
    staged: map<PartFile, Str>)

  const Empty := State(map[], map[], map[], map[], map[], map[])

  /** How a request body arrives: cut off, stored where it belongs but reported as failed, stored
      but refused by a digest header, or good. */
  datatype Arrival = Broken | Late | Refused | Good

  /** How writing a file goes: not at all, with a failure after it was renamed into place, or
      well. */
  datatype Write = Unwritten | Misreported | Written

  datatype ListedPart = ListedPart(number: int, etag: Str)

  /** What a change asked of the metadata store comes to. A store that has its state in memory
      keeps the change and still reports a failure to persist it; a SQL store that replaces the
      "null" version with two statements can fail between them. */
  datatype Save = Saved | Rejected | Unpersisted | Halfway

  predicate Takes(save: Save) {
    save.Saved? || save.Unpersisted?
  }

  /** Requests, with what their outcome depends on: `save` is what the metadata store makes of
      them, `cleaned` whether a file that is no longer wanted is removed, `left` and `leftParts` what is
      left where several are to be removed, and `dropped` whether an upload's records are. */
  datatype Call =
    | CreateBucket(bucket: Str, region: Str, save: Save, now: int)
    | SetVersioning(bucket: Str, status: Str, save: Save)
    | PutObject(bucket: Str, key: Str, body: Str, arrival: Arrival, encrypted: bool, iv: Str,
                userMeta: map<Str, Str>, newId: Str, save: Save, cleaned: bool, now: int)
    | CopyObject(srcBucket: Str, srcKey: Str, bucket: Str, key: Str, encrypted: bool, iv: Str,
                 newId: Str, written: Write, save: Save, cleaned: bool, now: int)
    | DeleteObject(bucket: Str, key: Str, versionId: Str, newId: Str, save: Save, left: set<Ref>, now: int)
    | PutRetention(bucket: Str, key: Str, versionId: Str, mode: Str, until: Str, save: Save, now: int)
    | PutLegalHold(bucket: Str, key: Str, versionId: Str, status: Str, save: Save)
    | CreateUpload(uploadId: Str, bucket: Str, key: Str, encrypted: bool, save: Save, made: bool,
                   dropped: bool, now: int)
    | UploadPart(bucket: Str, key: Str, uploadId: Str, number: int, body: Str, arrival: Arrival,
                 save: Save, leftParts: set<int>, now: int)
    | Complete(bucket: Str, key: Str, uploadId: Str, listed: seq<ListedPart>, iv: Str, newId: Str,
               written: Write, leftParts: set<int>, save: Save, cleaned: bool, dropped: bool, now: int)
    | Abort(bucket: Str, key: Str, uploadId: Str, leftParts: set<int>, dropped: bool)
    | Collect(gone: set<PartFile>)

  /** The S3 error codes; the three failures are InternalError, told apart by their message. */
  datatype Reply =
    | Ok | Completed(version: ObjectVersion)
    | NoSuchBucket | NoSuchKey | NoSuchUpload | AccessDenied | AlreadyExists
    | InvalidArgument | InvalidRequest | BadDigest | MalformedXML
    | TooManyParts | InvalidPartOrder | InvalidPart | EntityTooSmall
    | WriteFailed | ReadFailed | RecordFailed

  // ---- Object lock

  function Lookup(m: map<Str, Str>, k: Str): Str {
    if k in m then m[k] else []
  }

  /** objectLocked. */
  predicate Locked(env: Env, v: ObjectVersion, now: int) {
    || EqualFold(Lookup(v.metadata, LEGAL_HOLD_KEY), ON)
    || var until := env.parseTime(Trim(Lookup(v.metadata, RETAIN_UNTIL_KEY), Space));
       until.Some? && now < until.value
  }

  /** The check before a write that would replace the "null" version. */
  predicate NullLocked(env: Env, s: State, k: ObjectKey, id: Str, now: int) {
    id == NULL_ID &&
    var vs := V.Get(s.lists, k);
    var i := V.Find(vs, NULL_ID);
    i >= 0 && Locked(env, vs[i], now)
  }

  // ---- Writing objects

  function VersionIdFor(b: Bucket, newId: Str): Str {
    if b.versioning == ENABLED then newId else NULL_ID
  }

  function MarkSse(meta: map<Str, Str>, encrypted: bool): map<Str, Str> {
    if encrypted then meta[SSE_KEY := AES256] else meta - {SSE_KEY}
  }

  predicate UsesSse(v: ObjectVersion) {
    Lookup(v.metadata, SSE_KEY) == AES256
  }

  /** The file writeMaybeEncryptedObject leaves for a body. */
  ghost function FileOf(env: Env, body: Str, encrypted: bool, iv: Str): Str
    requires EnvOk(env) && |iv| == Ctr.BLOCK
  {
    if encrypted then Sse.Encrypted(env.cipher, iv, body) else body
  }

  /** What the blob store reports about a body it streamed. */
  datatype BlobMeta = BlobMeta(size: int, md5Hex: Str, sums: Checksums, createdAt: int)

  function MetaOf(env: Env, body: Str, now: int): BlobMeta {
    BlobMeta(|body|, HexEncode(env.md5(body)), env.sums(body), now)
  }

  function VersionFrom(ref: Ref, meta: BlobMeta, etag: Str, metadata: map<Str, Str>): ObjectVersion {
    ObjectVersion(ref.bucket, ref.key, ref.versionId, meta.size, etag, meta.sums, [], metadata, false, meta.createdAt)
  }

  function KeyOf(ref: Ref): ObjectKey {
    ObjectKey(ref.bucket, ref.key)
  }

  function PutVersion(s: State, v: ObjectVersion): State {
    s.(lists := V.Step(s.lists, V.Put(v)).0)
  }

  /** The lists after the store was asked to record v. */
  function SaveVersion(s: State, v: ObjectVersion, save: Save): (t: State)
    ensures t == s.(lists := t.lists)
  {
    if Takes(save) then PutVersion(s, v)
    else if save.Halfway? && v.versionId == NULL_ID then
      s.(lists := V.Step(s.lists, V.DeleteVersion(ObjectKey(v.bucket, v.key), NULL_ID)).0)
    else s
  }

  function WriteFile(s: State, ref: Ref, file: Str): State {
    s.(blobs := s.blobs[ref := file])
  }

  /** A file that was written and is not wanted after all goes again, if it can be removed. */
  function WriteAndDiscard(s: State, ref: Ref, file: Str, cleaned: bool): State {
    if cleaned then s.(blobs := s.blobs - {ref}) else WriteFile(s, ref, file)
  }

  /** A file for ref and a version of it to record: when the record fails the file goes. */
  function RecordObject(s: State, ref: Ref, file: Str, v: ObjectVersion, save: Save, cleaned: bool): (r: (State, Reply))
    ensures r.0 == s.(lists := r.0.lists, blobs := r.0.blobs)
    ensures r.1 == if save.Saved? then Ok else RecordFailed
  {
    if save.Saved? then (SaveVersion(WriteFile(s, ref, file), v, save), Ok)
    else (SaveVersion(WriteAndDiscard(s, ref, file, cleaned), v, save), RecordFailed)
  }

  /** A body written to its file, and its version recorded. */
  ghost function StoreObject(env: Env, s: State, ref: Ref, body: Str, encrypted: bool, iv: Str,
                             metadata: map<Str, Str>, save: Save, cleaned: bool, now: int): (r: (State, Reply))
    requires EnvOk(env) && |iv| == Ctr.BLOCK
    ensures r.0 == s.(lists := r.0.lists, blobs := r.0.blobs)
    ensures r.1 == if save.Saved? then Ok else RecordFailed
  {
    var meta := MetaOf(env, body, now);
    RecordObject(s, ref, FileOf(env, body, encrypted, iv), VersionFrom(ref, meta, meta.md5Hex, metadata), save,
                 cleaned)
  }

  ghost function DoPut(env: Env, s: State, c: Call): (r: (State, Reply))
    requires EnvOk(env) && c.PutObject? && |c.iv| == Ctr.BLOCK
    ensures r.0 == s.(lists := r.0.lists, blobs := r.0.blobs)
  {
    if c.bucket !in s.buckets then (s, NoSuchBucket)
    else
      var ref := Ref(c.bucket, c.key, VersionIdFor(s.buckets[c.bucket], c.newId));
      if NullLocked(env, s, KeyOf(ref), ref.versionId, c.now) then (s, AccessDenied)
      else if c.arrival.Broken? then (s, WriteFailed)
      else if c.arrival.Late? then (WriteFile(s, ref, FileOf(env, c.body, c.encrypted, c.iv)), WriteFailed)
      else if c.arrival.Refused? then
        (WriteAndDiscard(s, ref, FileOf(env, c.body, c.encrypted, c.iv), c.cleaned), BadDigest)
      else
        StoreObject(env, s, ref, c.body, c.encrypted, c.iv, MarkSse(c.userMeta, c.encrypted), c.save, c.cleaned, c.now)
  }

  /** The bytes a whole-object read of a version streams, if it succeeds. An empty object
      cannot be read: its last byte position is before its first. */
  ghost function ReadWhole(env: Env, s: State, v: ObjectVersion): Option<Str>
    requires EnvOk(env)
  {
    var ref := Ref(v.bucket, v.key, v.versionId);
    if ref !in s.blobs then None
    else if UsesSse(v) then
      var d := Sse.Delivered(env.cipher, s.blobs[ref], v.size, None);
      if d.Ok? then Some(d.value) else None
    else if s.blobs[ref] == [] then None
    else Some(s.blobs[ref])
  }

  ghost function DoCopy(env: Env, s: State, c: Call): (r: (State, Reply))
    requires EnvOk(env) && c.CopyObject? && |c.iv| == Ctr.BLOCK
    ensures r.0 == s.(lists := r.0.lists, blobs := r.0.blobs)
  {
    var vs := V.Get(s.lists, ObjectKey(c.srcBucket, c.srcKey));
    if vs == [] || vs[|vs| - 1].deleteMarker then (s, NoSuchKey)
    else if c.bucket !in s.buckets then (s, NoSuchBucket)
    else
      var src := vs[|vs| - 1];
      var ref := Ref(c.bucket, c.key, VersionIdFor(s.buckets[c.bucket], c.newId));
      if NullLocked(env, s, KeyOf(ref), ref.versionId, c.now) then (s, AccessDenied)
      else
        var body := ReadWhole(env, s, src);
        var file := FileOf(env, if body.Some? then body.value else [], c.encrypted, c.iv);
        if c.written.Unwritten? then (s, WriteFailed)
        else if c.written.Misreported? then (WriteFile(s, ref, file), WriteFailed)
        else if body.None? then (WriteAndDiscard(s, ref, file, c.cleaned), ReadFailed)
        else
          StoreObject(env, s, ref, body.value, c.encrypted, c.iv, MarkSse(src.metadata, c.encrypted), c.save, c.cleaned,
                      c.now)
  }

  // ---- Deleting objects

  function RefsOf(vs: seq<ObjectVersion>): set<Ref> {
    set v | v in vs :: Ref(v.bucket, v.key, v.versionId)
  }

  /** Delete records, and those of their files that can be removed unless the store reports a
      failure. */
  function Remove(s: State, lists: V.Lists, refs: set<Ref>, save: Save, left: set<Ref>): (r: (State, Reply))
    ensures r.0 == s.(lists := r.0.lists, blobs := r.0.blobs)
  {
    if !Takes(save) then (s, RecordFailed)
    else if save.Unpersisted? then (s.(lists := lists), RecordFailed)
    else (s.(lists := lists, blobs := s.blobs - (refs - left)), Ok)
  }

  /** A store that finds nothing to change reports no failure to persist. */
  function Nothing(s: State, save: Save): (State, Reply) {
    (s, if Takes(save) then Ok else RecordFailed)
  }

  function DoDeleteVersion(env: Env, s: State, k: ObjectKey, id: Str, save: Save, left: set<Ref>, now: int):
    (r: (State, Reply))
    ensures r.0 == s.(lists := r.0.lists, blobs := r.0.blobs)
  {
    var vs := V.Get(s.lists, k);
    var i := V.Find(vs, id);
    if i < 0 then Nothing(s, save)
    else if Locked(env, vs[i], now) then (s, AccessDenied)
    else
      var refs := if vs[i].deleteMarker then {} else RefsOf([vs[i]]);
      Remove(s, V.Step(s.lists, V.DeleteVersion(k, id)).0, refs, save, left)
  }

  function DoDelete(env: Env, s: State, c: Call): (r: (State, Reply))
    requires c.DeleteObject?
    ensures r.0 == s.(lists := r.0.lists, blobs := r.0.blobs)
  {
    var k := ObjectKey(c.bucket, c.key);
    var vs := V.Get(s.lists, k);
    if c.bucket !in s.buckets then (s, NoSuchBucket)
    else if c.versionId != [] then DoDeleteVersion(env, s, k, c.versionId, c.save, c.left, c.now)
    else if s.buckets[c.bucket].versioning == ENABLED then (SaveVersion(s, V.Marker(k, c.newId, c.now), c.save), Ok)
    else if vs == [] then Nothing(s, c.save)
    else if Locked(env, vs[|vs| - 1], c.now) then (s, AccessDenied)
    else Remove(s, V.Step(s.lists, V.DeleteAll(k)).0, RefsOf(vs), c.save, c.left)
  }

  // ---- Setting locks

  /** The version a request names: by id, or the latest when it gives none. */
  function Named(s: State, k: ObjectKey, id: Str): Option<ObjectVersion> {
    var r := V.Step(s.lists, V.GetVersion(k, id)).1;
    if r.One? && !r.version.deleteMarker then Some(r.version) else None
  }

  function SetMetadata(s: State, k: ObjectKey, id: Str, metadata: map<Str, Str>): State {
    s.(lists := V.Step(s.lists, V.UpdateMetadata(k, id, metadata)).0)
  }

  function SaveMetadata(s: State, k: ObjectKey, id: Str, metadata: map<Str, Str>, save: Save): (r: (State, Reply))
    ensures r.0 == s.(lists := r.0.lists)
  {
    (if Takes(save) then SetMetadata(s, k, id, metadata) else s, if save.Saved? then Ok else RecordFailed)
  }

  function DoPutRetention(env: Env, s: State, c: Call): (r: (State, Reply))
    requires c.PutRetention?
    ensures r.0 == s.(lists := r.0.lists, blobs := r.0.blobs)
  {
    var k := ObjectKey(c.bucket, c.key);
    var v := Named(s, k, c.versionId);
    var mode, until := ToUpper(Trim(c.mode, Space)), env.parseTime(Trim(c.until, Space));
    if v.None? then (s, NoSuchKey)
    else if mode !in MODES || until.None? || until.value <= c.now then (s, InvalidRequest)
    else
      var m := v.value.metadata[RETENTION_MODE_KEY := mode][RETAIN_UNTIL_KEY := env.formatTime(until.value)];
      SaveMetadata(s, k, v.value.versionId, m, c.save)
  }

  function DoPutLegalHold(s: State, c: Call): (r: (State, Reply))
    requires c.PutLegalHold?
    ensures r.0 == s.(lists := r.0.lists, blobs := r.0.blobs)
  {
    var k := ObjectKey(c.bucket, c.key);
    var v := Named(s, k, c.versionId);
    var status := ToUpper(Trim(c.status, Space));
    if v.None? then (s, NoSuchKey)
    else if status !in {ON, OFF} then (s, InvalidRequest)
    else SaveMetadata(s, k, v.value.versionId, v.value.metadata[LEGAL_HOLD_KEY := status], c.save)
  }

  // ---- Multipart uploads

  /** The staged files after those of an upload were removed, but for the ones left. */
  function Swept(staged: map<PartFile, Str>, uploadId: Str, left: set<int>): map<PartFile, Str> {
    map f | f in staged && (f.uploadId != uploadId || f.number in left) :: staged[f]
  }

  predicate UploadIs(s: State, bucket: Str, key: Str, uploadId: Str) {
    uploadId in s.uploads && s.uploads[uploadId].bucket == bucket && s.uploads[uploadId].key == key
  }

  function PartsOf(s: State, uploadId: Str): map<int, MultipartPart> {
    if uploadId in s.parts then s.parts[uploadId] else map[]
  }

  function DropUpload(s: State, uploadId: Str): State {
    s.(uploads := s.uploads - {uploadId}, parts := s.parts - {uploadId})
  }

  function DoCreateUpload(s: State, c: Call): (r: (State, Reply))
    requires c.CreateUpload?
    ensures r.0 == s.(uploads := r.0.uploads, parts := r.0.parts, staged := r.0.staged)
  {
    if c.uploadId in s.uploads then (s, RecordFailed)
    else
      var u := MultipartUpload(c.uploadId, c.bucket, c.key, if c.encrypted then AES256 else [], c.now);
      var t := s.(uploads := s.uploads[c.uploadId := u]);
      if !c.save.Saved? then (if Takes(c.save) then t else s, RecordFailed)
      else if !c.made then (if c.dropped then DropUpload(t, c.uploadId) else t, WriteFailed)
      else (t, Ok)
  }

  function PartRecord(env: Env, c: Call): MultipartPart
    requires c.UploadPart?
  {
    var meta := MetaOf(env, c.body, c.now);
    MultipartPart(c.uploadId, c.number, meta.md5Hex, meta.size, meta.sums, [], c.now)
  }

  function SavePart(s: State, p: MultipartPart): State {
    s.(parts := s.parts[p.uploadId := PartsOf(s, p.uploadId)[p.number := p]])
  }

  function DoUploadPart(env: Env, s: State, c: Call): (r: (State, Reply))
    requires c.UploadPart?
    ensures r.0 == s.(uploads := r.0.uploads, parts := r.0.parts, staged := r.0.staged)
  {
    if c.number <= 0 || c.number > MAX_PARTS then (s, InvalidArgument)
    else if !UploadIs(s, c.bucket, c.key, c.uploadId) then (s, NoSuchUpload)
    else if c.arrival.Broken? then (s, WriteFailed)
    else
      var staged := s.staged[PartFile(c.uploadId, c.number) := c.body];
      if c.arrival.Late? then (s.(staged := staged), WriteFailed)
      else if c.arrival.Refused? then (s.(staged := Swept(staged, c.uploadId, c.leftParts)), BadDigest)
      else
        var t := if Takes(c.save) then SavePart(s, PartRecord(env, c)) else s;
        if !c.save.Saved? then (t.(staged := Swept(staged, c.uploadId, c.leftParts)), RecordFailed)
        else (t.(staged := staged), Ok)
  }

  function DoAbort(s: State, c: Call): (r: (State, Reply))
    requires c.Abort?
    ensures r.0 == s.(uploads := r.0.uploads, parts := r.0.parts, staged := r.0.staged)
  {
    if !UploadIs(s, c.bucket, c.key, c.uploadId) then (s, Ok)
    else
      var t := s.(staged := Swept(s.staged, c.uploadId, c.leftParts));
      (if c.dropped then DropUpload(t, c.uploadId) else t, Ok)
  }

  /** The checks on listed part i, in the order the handler makes them. */
  function CheckPart(stored: map<int, MultipartPart>, listed: seq<ListedPart>, i: nat): Reply
    requires i < |listed|
  {
    var p := listed[i];
    if i > 0 && p.number <= listed[i - 1].number then InvalidPartOrder
    else if p.number !in stored then InvalidPart
    else if Trim(p.etag, QUOTE) != stored[p.number].etag then InvalidPart
    else if i < |listed| - 1 && stored[p.number].size < MIN_PART_SIZE then EntityTooSmall
    else Ok
  }

  /** The first complaint about the listed parts from position i on, or Ok. */
  function CheckParts(stored: map<int, MultipartPart>, listed: seq<ListedPart>, i: nat): Reply
    requires i <= |listed|
    decreases |listed| - i
  {
    if i == |listed| then Ok
    else if CheckPart(stored, listed, i) != Ok then CheckPart(stored, listed, i)
    else CheckParts(stored, listed, i + 1)
  }

  function Files(uploadId: Str, listed: seq<ListedPart>): seq<PartFile> {
    seq(|listed|, i requires 0 <= i < |listed| => PartFile(uploadId, listed[i].number))
  }

  predicate AllStaged(staged: map<PartFile, Str>, files: seq<PartFile>) {
    forall f :: f in files ==> f in staged
  }

  /** The staged files in order, one after the other. */
  function Assembled(staged: map<PartFile, Str>, files: seq<PartFile>): Str
    requires AllStaged(staged, files)
  {
    if files == [] then []
    else
      assert files[|files| - 1] in files;
      Assembled(staged, files[..|files| - 1]) + staged[files[|files| - 1]]
  }

  /** The bytes the part ETags of a request decode to; one that does not decode is skipped. */
  function DecodedETags(listed: seq<ListedPart>): Str {
    if listed == [] then []
    else
      var d := HexDecode(Trim(Trim(listed[|listed| - 1].etag, QUOTE), QUOTE));
      DecodedETags(listed[..|listed| - 1]) + (if d.Some? then d.value else [])
  }

  /** calculateMultipartETag. */
  function MultipartETag(env: Env, listed: seq<ListedPart>): Str {
    HexEncode(env.md5(DecodedETags(listed))) + [45] + Itoa(|listed|)
  }

  /** What promoting one part reports: the part's own record. */
  function PromotedMeta(p: MultipartPart): BlobMeta {
    BlobMeta(p.size, p.etag, p.sums, p.createdAt)
  }

  ghost function DoComplete(env: Env, s: State, c: Call): (State, Reply)
    requires EnvOk(env) && c.Complete? && |c.iv| == Ctr.BLOCK
  {
    if !UploadIs(s, c.bucket, c.key, c.uploadId) then (s, NoSuchUpload)
    else if c.listed == [] then (s, MalformedXML)
    else if |c.listed| > MAX_PARTS then (s, TooManyParts)
    else if CheckParts(PartsOf(s, c.uploadId), c.listed, 0) != Ok then
      (s, CheckParts(PartsOf(s, c.uploadId), c.listed, 0))
    else if c.bucket !in s.buckets then (s, NoSuchBucket)
    else
      var ref := Ref(c.bucket, c.key, VersionIdFor(s.buckets[c.bucket], c.newId));
      if NullLocked(env, s, KeyOf(ref), ref.versionId, c.now) then (s, AccessDenied)
      else if c.written.Unwritten? || !AllStaged(s.staged, Files(c.uploadId, c.listed)) then (s, WriteFailed)
      else FinishComplete(env, s, c, ref)
  }

  /** The version a completion records: of the promoted part, or of what was written. */
  ghost function CompletedVersion(env: Env, s: State, c: Call, ref: Ref): (v: ObjectVersion)
    requires EnvOk(env) && c.Complete? && c.uploadId in s.uploads && c.listed != []
    requires AllStaged(s.staged, Files(c.uploadId, c.listed))
    requires CheckParts(PartsOf(s, c.uploadId), c.listed, 0) == Ok
    ensures Ref(v.bucket, v.key, v.versionId) == ref
  {
    var encrypted := s.uploads[c.uploadId].sseAlgorithm == AES256;
    var body := Assembled(s.staged, Files(c.uploadId, c.listed));
    var meta :=
      if Promotes(s, c) then
        CheckedPart(PartsOf(s, c.uploadId), c.listed, 0, 0);
        PromotedMeta(PartsOf(s, c.uploadId)[c.listed[0].number])
      else MetaOf(env, body, c.now);
    VersionFrom(ref, meta, MultipartETag(env, c.listed), MarkSse(map[], encrypted))
  }

  /** The staged files go, the object is recorded, and then the upload goes. */
  function SweepAndRecord(s: State, c: Call, ref: Ref, file: Str, v: ObjectVersion): (State, Reply)
    requires c.Complete?
  {
    var swept := s.(staged := Swept(s.staged, c.uploadId, {}));
    var (t, reply) := RecordObject(swept, ref, file, v, c.save, c.cleaned);
    if reply != Ok then (t, reply) else (if c.dropped then DropUpload(t, c.uploadId) else t, Completed(v))
  }

  predicate Promotes(s: State, c: Call)
    requires c.Complete? && c.uploadId in s.uploads
  {
    s.uploads[c.uploadId].sseAlgorithm != AES256 && |c.listed| == 1
  }

  /** The staged files after a completion that failed when its object was in place: a promoted
      part is gone, and any of the others may be. */
  function Moved(s: State, c: Call): map<PartFile, Str>
    requires c.Complete? && c.uploadId in s.uploads && c.listed != []
  {
    var staged := if Promotes(s, c) then s.staged - {PartFile(c.uploadId, c.listed[0].number)} else s.staged;
    Swept(staged, c.uploadId, c.leftParts)
  }

  /** All parts are there: write or promote, then record the object and drop the upload. */
  ghost function FinishComplete(env: Env, s: State, c: Call, ref: Ref): (State, Reply)
    requires EnvOk(env) && c.Complete? && |c.iv| == Ctr.BLOCK
    requires c.uploadId in s.uploads && c.listed != [] && AllStaged(s.staged, Files(c.uploadId, c.listed))
    requires CheckParts(PartsOf(s, c.uploadId), c.listed, 0) == Ok
  {
    var encrypted := s.uploads[c.uploadId].sseAlgorithm == AES256;
    var file := FileOf(env, Assembled(s.staged, Files(c.uploadId, c.listed)), encrypted, c.iv);
    if c.written.Misreported? then (WriteFile(s, ref, file).(staged := Moved(s, c)), WriteFailed)
    else SweepAndRecord(s, c, ref, file, CompletedVersion(env, s, c, ref))
  }

  /** A list that passes all checks passes each. */
  lemma {:induction false} CheckedPart(stored: map<int, MultipartPart>, listed: seq<ListedPart>, from: nat, i: nat)
    requires from <= i < |listed| && CheckParts(stored, listed, from) == Ok
    ensures CheckPart(stored, listed, i) == Ok && listed[i].number in stored
    decreases i - from
  {
    if from < i { CheckedPart(stored, listed, from + 1, i); }
  }

  // ---- The step

  ghost predicate ValidCall(c: Call) {
    (c.PutObject? || c.CopyObject? || c.Complete?) ==> |c.iv| == Ctr.BLOCK
  }

  function SaveBucket(s: State, name: Str, b: Bucket, save: Save): (State, Reply) {
    (if Takes(save) then s.(buckets := s.buckets[name := b]) else s, if save.Saved? then Ok else RecordFailed)
  }

  ghost function Step(env: Env, s: State, c: Call): (State, Reply)
    requires EnvOk(env) && ValidCall(c)
  {
    if c.CreateBucket? then
      if c.bucket in s.buckets then (s, AlreadyExists)
      else SaveBucket(s, c.bucket, Bucket(c.bucket, c.now, c.region, SUSPENDED), c.save)
    else if c.SetVersioning? then
      if c.status != ENABLED && c.status != SUSPENDED then (s, InvalidRequest)
      else if c.bucket !in s.buckets then (s, NoSuchBucket)
      else
        var (t, reply) := SaveBucket(s, c.bucket, s.buckets[c.bucket].(versioning := c.status), c.save);
        (t, if reply == Ok then Ok else NoSuchBucket)
    else if c.PutObject? then DoPut(env, s, c)
    else if c.CopyObject? then DoCopy(env, s, c)
    else if c.DeleteObject? then DoDelete(env, s, c)
    else if c.PutRetention? then DoPutRetention(env, s, c)
    else if c.PutLegalHold? then DoPutLegalHold(s, c)
    else if c.CreateUpload? then DoCreateUpload(s, c)
    else if c.UploadPart? then DoUploadPart(env, s, c)
    else if c.Complete? then DoComplete(env, s, c)
    else if c.Abort? then DoAbort(s, c)
    else (s.(staged := s.staged - c.gone), Ok)
  }

  /** The version id a call may generate is new to the key it writes. */
  ghost predicate FreshCall(s: State, c: Call) {
    (c.PutObject? || c.CopyObject? || c.Complete? || c.DeleteObject?) ==>
      c.newId != [] && c.newId != NULL_ID && !V.HasId(V.Get(s.lists, ObjectKey(c.bucket, c.key)), c.newId)
  }

  ghost predicate Runs(env: Env, s: State, calls: seq<Call>)
    requires EnvOk(env)
    decreases |calls|, 0
  {
    calls == [] ||
    var n := |calls| - 1;
    && Runs(env, s, calls[..n])
    && ValidCall(calls[n]) && FreshCall(After(env, s, calls[..n]), calls[n])
  }

  ghost function After(env: Env, s: State, calls: seq<Call>): State
    requires EnvOk(env) && Runs(env, s, calls)
    decreases |calls|, 1
  {
    if calls == [] then s
    else Step(env, After(env, s, calls[..|calls| - 1]), calls[|calls| - 1]).0
  }

  ghost function RepliesOf(env: Env, s: State, calls: seq<Call>): seq<Reply>
    requires EnvOk(env) && Runs(env, s, calls)
    decreases |calls|
  {
    if calls == [] then []
    else
      var n := |calls| - 1;
      RepliesOf(env, s, calls[..n]) + [Step(env, After(env, s, calls[..n]), calls[n]).1]
  }

  // ---- What a write does to versions and files

  predicate Writes(c: Call) {
    c.PutObject? || c.CopyObject? || c.Complete?
  }

  /** The one object file and version id a write is about. */
  function Target(s: State, c: Call): Ref
    requires Writes(c) && c.bucket in s.buckets
  {
    Ref(c.bucket, c.key, VersionIdFor(s.buckets[c.bucket], c.newId))
  }

  function NullDropped(s: State, k: ObjectKey): V.Lists {
    V.Step(s.lists, V.DeleteVersion(k, NULL_ID)).0
  }

  /** Versions are as before, or one was put into them, or the "null" one it was to replace went. */
  ghost predicate ListsPut(s: State, t: State, ref: Ref) {
    || t.lists == s.lists
    || (exists v: ObjectVersion :: Ref(v.bucket, v.key, v.versionId) == ref && t.lists == PutVersion(s, v).lists)
    || (ref.versionId == NULL_ID && t.lists == NullDropped(s, KeyOf(ref)))
  }

  /** One file and one version id at most are touched. */
  ghost predicate Touches(s: State, t: State, ref: Ref) {
    t.buckets == s.buckets && t.blobs - {ref} == s.blobs - {ref} && ListsPut(s, t, ref)
  }

  ghost predicate WriteOk(env: Env, s: State, c: Call, t: State)
    requires Writes(c)
  {
    if c.bucket !in s.buckets then t == s
    else
      var ref := Target(s, c);
      && (NullLocked(env, s, KeyOf(ref), ref.versionId, c.now) ==> t == s)
      && Touches(s, t, ref)
  }

  lemma NothingTouches(s: State, ref: Ref)
    ensures Touches(s, s, ref)
  {
  }

  lemma LateTouches(s: State, ref: Ref, file: Str, cleaned: bool)
    ensures Touches(s, WriteFile(s, ref, file), ref) && Touches(s, WriteAndDiscard(s, ref, file, cleaned), ref)
  {
    assert s.blobs[ref := file] - {ref} == s.blobs - {ref};
  }

  lemma SaveTouches(s: State, v: ObjectVersion, save: Save)
    ensures ListsPut(s, SaveVersion(s, v, save), Ref(v.bucket, v.key, v.versionId))
  {
    hide V.Step;
    if Takes(save) {
      assert SaveVersion(s, v, save).lists == PutVersion(s, v).lists;
    }
  }

  lemma RecordTouches(s: State, ref: Ref, file: Str, v: ObjectVersion, save: Save, cleaned: bool)
    requires Ref(v.bucket, v.key, v.versionId) == ref
    ensures Touches(s, RecordObject(s, ref, file, v, save, cleaned).0, ref)
  {
    hide V.Step, ListsPut;
    var t := WriteAndDiscard(s, ref, file, cleaned && !save.Saved?);
    assert t.blobs - {ref} == s.blobs - {ref};
    SaveTouches(t, v, save);
    SamePut(s, t, SaveVersion(t, v, save), RecordObject(s, ref, file, v, save, cleaned).0, ref);
  }

  lemma SamePut(s: State, s': State, t': State, t: State, ref: Ref)
    requires s'.lists == s.lists && t'.lists == t.lists && ListsPut(s', t', ref)
    ensures ListsPut(s, t, ref)
  {
    hide V.Step;
    if v: ObjectVersion :| Ref(v.bucket, v.key, v.versionId) == ref && t.lists == PutVersion(s', v).lists {
      assert PutVersion(s, v).lists == PutVersion(s', v).lists;
    }
  }

  lemma StoreTouches(env: Env, s: State, ref: Ref, body: Str, encrypted: bool, iv: Str,
                     metadata: map<Str, Str>, save: Save, cleaned: bool, now: int)
    requires EnvOk(env) && |iv| == Ctr.BLOCK
    ensures Touches(s, StoreObject(env, s, ref, body, encrypted, iv, metadata, save, cleaned, now).0, ref)
  {
    hide FileOf, HexEncode, RecordObject, Touches;
    var meta := MetaOf(env, body, now);
    RecordTouches(s, ref, FileOf(env, body, encrypted, iv), VersionFrom(ref, meta, meta.md5Hex, metadata), save,
                  cleaned);
  }

  lemma PutWrites(env: Env, s: State, c: Call)
    requires EnvOk(env) && ValidCall(c) && c.PutObject?
    ensures WriteOk(env, s, c, DoPut(env, s, c).0)
  {
    hide StoreObject, NullLocked, MarkSse, VersionIdFor, Touches, FileOf, WriteFile, WriteAndDiscard;
    if c.bucket in s.buckets {
      NothingTouches(s, Target(s, c));
      LateTouches(s, Target(s, c), FileOf(env, c.body, c.encrypted, c.iv), c.cleaned);
      StoreTouches(env, s, Target(s, c), c.body, c.encrypted, c.iv, MarkSse(c.userMeta, c.encrypted), c.save, c.cleaned,
                   c.now);
    }
  }

  lemma CopyWrites(env: Env, s: State, c: Call)
    requires EnvOk(env) && ValidCall(c) && c.CopyObject?
    ensures WriteOk(env, s, c, DoCopy(env, s, c).0)
  {
    hide StoreObject, V.Get, NullLocked, MarkSse, ReadWhole, VersionIdFor, Touches, FileOf, WriteFile, WriteAndDiscard;
    var vs := V.Get(s.lists, ObjectKey(c.srcBucket, c.srcKey));
    if c.bucket in s.buckets {
      NothingTouches(s, Target(s, c));
      if vs != [] {
        var src := vs[|vs| - 1];
        var body := ReadWhole(env, s, src);
        if body.Some? {
          StoreTouches(env, s, Target(s, c), body.value, c.encrypted, c.iv, MarkSse(src.metadata, c.encrypted), c.save,
                       c.cleaned, c.now);
        }
        LateTouches(s, Target(s, c), FileOf(env, if body.Some? then body.value else [], c.encrypted, c.iv), c.cleaned);
      }
    }
  }

  lemma CompleteWrites(env: Env, s: State, c: Call)
    requires EnvOk(env) && ValidCall(c) && c.Complete?
    ensures WriteOk(env, s, c, DoComplete(env, s, c).0)
  {
    hide NullLocked, CheckParts, Files, FinishComplete, Touches;
    if c.bucket in s.buckets {
      NothingTouches(s, Target(s, c));
      if c.uploadId in s.uploads && c.listed != []
        && AllStaged(s.staged, Files(c.uploadId, c.listed)) && CheckParts(PartsOf(s, c.uploadId), c.listed, 0) == Ok
      {
        FinishTouches(env, s, c, Target(s, c));
      }
    }
  }

  lemma FinishTouches(env: Env, s: State, c: Call, ref: Ref)
    requires EnvOk(env) && ValidCall(c) && c.Complete?
    requires c.uploadId in s.uploads && c.listed != [] && AllStaged(s.staged, Files(c.uploadId, c.listed))
    requires CheckParts(PartsOf(s, c.uploadId), c.listed, 0) == Ok
    ensures Touches(s, FinishComplete(env, s, c, ref).0, ref)
  {
    hide FileOf, CheckParts, CheckPart, Assembled, CompletedVersion, Swept, Moved, RecordObject, ListsPut;
    var encrypted := s.uploads[c.uploadId].sseAlgorithm == AES256;
    var file := FileOf(env, Assembled(s.staged, Files(c.uploadId, c.listed)), encrypted, c.iv);
    var swept := s.(staged := Swept(s.staged, c.uploadId, {}));
    if c.written.Misreported? {
      LateTouches(s, ref, file, c.cleaned);
      SamePut(s, s, WriteFile(s, ref, file), FinishComplete(env, s, c, ref).0, ref);
    } else {
      RecordTouches(swept, ref, file, CompletedVersion(env, s, c, ref), c.save, c.cleaned);
      SamePut(s, swept, RecordObject(swept, ref, file, CompletedVersion(env, s, c, ref), c.save, c.cleaned).0,
              FinishComplete(env, s, c, ref).0, ref);
    }
  }

  /** A write touches one file and at most puts one version; over a locked "null" version it
      does nothing. */
  lemma WriteEffect(env: Env, s: State, c: Call)
    requires EnvOk(env) && ValidCall(c) && Writes(c)
    ensures WriteOk(env, s, c, Step(env, s, c).0)
  {
    hide WriteOk, DoPut, DoCopy, DoComplete;
    if c.PutObject? { PutWrites(env, s, c); }
    if c.CopyObject? { CopyWrites(env, s, c); }
    if c.Complete? { CompleteWrites(env, s, c); }
  }

  // ---- Version lists stay well formed

  lemma WriteKeepsLists(env: Env, s: State, c: Call)
    requires EnvOk(env) && ValidCall(c) && Writes(c) && V.ListsOk(s.lists) && FreshCall(s, c)
    ensures V.ListsOk(Step(env, s, c).0.lists)
  {
    hide Step, V.Step, V.ListsOk;
    WriteEffect(env, s, c);
    var t := Step(env, s, c).0;
    if t.lists != s.lists {
      var ref := Target(s, c);
      V.StepOk(s.lists, V.DeleteVersion(KeyOf(ref), NULL_ID));
      if v: ObjectVersion :| Ref(v.bucket, v.key, v.versionId) == ref && t.lists == PutVersion(s, v).lists {
        V.StepOk(s.lists, V.Put(v));
      }
    }
  }

  lemma DeleteKeepsLists(env: Env, s: State, c: Call)
    requires c.DeleteObject? && V.ListsOk(s.lists) && FreshCall(s, c)
    ensures V.ListsOk(DoDelete(env, s, c).0.lists)
  {
    hide V.Step, V.ListsOk, V.Find, Locked, RefsOf;
    var k := ObjectKey(c.bucket, c.key);
    V.StepOk(s.lists, V.DeleteVersion(k, c.versionId));
    V.StepOk(s.lists, V.Put(V.Marker(k, c.newId, c.now)));
    V.StepOk(s.lists, V.DeleteAll(k));
  }

  lemma SetMetadataKeepsLists(s: State, k: ObjectKey, id: Str, metadata: map<Str, Str>)
    requires V.ListsOk(s.lists)
    ensures V.ListsOk(SetMetadata(s, k, id, metadata).lists)
  {
    V.StepOk(s.lists, V.UpdateMetadata(k, id, metadata));
  }

  lemma LocksKeepLists(env: Env, s: State, c: Call)
    requires (c.PutRetention? || c.PutLegalHold?) && V.ListsOk(s.lists)
    ensures c.PutRetention? ==> V.ListsOk(DoPutRetention(env, s, c).0.lists)
    ensures c.PutLegalHold? ==> V.ListsOk(DoPutLegalHold(s, c).0.lists)
  {
    hide V.Step, V.ListsOk, Named, Trim, ToUpper, SetMetadata;
    forall k, id, m { SetMetadataKeepsLists(s, k, id, m); }
  }

  lemma StepKeepsLists(env: Env, s: State, c: Call)
    requires EnvOk(env) && ValidCall(c) && V.ListsOk(s.lists) && FreshCall(s, c)
    ensures V.ListsOk(Step(env, s, c).0.lists)
  {
    hide V.ListsOk, DoPut, DoCopy, DoComplete, DoDelete, DoPutRetention, DoPutLegalHold;
    if Writes(c) {
      WriteKeepsLists(env, s, c);
    } else if c.DeleteObject? {
      DeleteKeepsLists(env, s, c);
    } else if c.PutRetention? || c.PutLegalHold? {
      LocksKeepLists(env, s, c);
    }
  }

  /** In every run each key has distinct version ids, and at most one "null" version. */
  lemma {:induction false} RunKeepsLists(env: Env, s: State, calls: seq<Call>)
    requires EnvOk(env) && Runs(env, s, calls) && V.ListsOk(s.lists)
    ensures V.ListsOk(After(env, s, calls).lists)
    decreases |calls|
  {
    hide Step, V.ListsOk;
    if calls != [] {
      var n := |calls| - 1;
      RunKeepsLists(env, s, calls[..n]);
      StepKeepsLists(env, After(env, s, calls[..n]), calls[n]);
    }
  }
}
