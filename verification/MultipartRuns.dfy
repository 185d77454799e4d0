/** Multipart uploads over whole runs: what a completed upload contains is decided by the
    part uploads the server acknowledged, whatever other calls came between. */
module MultipartRuns {
  import opened Bytes
  import opened Metadata
  import opened Text
  import opened ObjectServer
  import V = Versions
  import Ctr
  import Sse

  ghost predicate Run(env: Env, calls: seq<Call>) {
    EnvOk(env) && Runs(env, Empty, calls)
  }

  ghost function ReplyTo(env: Env, calls: seq<Call>): Reply
    requires Run(env, calls) && calls != []
  {
    Step(env, After(env, Empty, calls[..|calls| - 1]), calls[|calls| - 1]).1
  }

  // ---- What a run says about the parts of an upload

  predicate Opens(s: State, t: State, u: Str) {
    u !in s.uploads && u in t.uploads
  }

  predicate Uploads(c: Call, u: Str, n: int) {
    c.UploadPart? && c.uploadId == u && c.number == n
  }

  /** The store took the record of the part, whether it said so or not. */
  predicate Records(c: Call, reply: Reply, u: Str, n: int) {
    Uploads(c, u, n) && (reply == Ok || (reply == RecordFailed && Takes(c.save)))
  }

  /** The body got to its place among the staged files, whatever became of it then. */
  predicate Stages(c: Call, reply: Reply, u: Str, n: int) {
    && Uploads(c, u, n)
    && (reply.Ok? || reply.BadDigest? || reply.RecordFailed? || (reply.WriteFailed? && c.arrival.Late?))
  }

  /** The events that throw the staged file of a part away: a part of the upload whose digest
      header or record fails, a completion that got its object in place, an abort, a sweep of
      stale uploads; unless the removal failed and left it. */
  predicate Sweeps(s: State, c: Call, reply: Reply, u: Str, n: int) {
    || (c.UploadPart? && c.uploadId == u && (reply.BadDigest? || reply.RecordFailed?) && n !in c.leftParts)
    || (c.Complete? && c.uploadId == u && (reply == RecordFailed || reply.Completed?))
    || (c.Complete? && c.uploadId == u && reply == WriteFailed && MovesOut(s, c) && PartFile(u, n) !in Moved(s, c))
    || (c.Abort? && c.uploadId == u && UploadIs(s, c.bucket, c.key, u) && n !in c.leftParts)
    || (c.Collect? && PartFile(u, n) in c.gone)
  }

  predicate MovesOut(s: State, c: Call)
    requires c.Complete?
  {
    && c.written.Misreported? && c.uploadId in s.uploads && c.listed != []
    && AllStaged(s.staged, Files(c.uploadId, c.listed))
  }

  /** What is known of part n since the upload came into being: the body of its last acknowledged
      upload, the one whose record the store holds, the one that is staged, and whether the last
      attempt to upload the part was acknowledged. */
  datatype Known = Known(acked: Option<Str>, recorded: Option<Str>, kept: Option<Str>, settled: bool)

  const Unknown := Known(None, None, None, false)

  function KeptAfter(s: State, c: Call, reply: Reply, u: Str, n: int, before: Option<Str>): Option<Str> {
    if Sweeps(s, c, reply, u, n) then None
    else if Stages(c, reply, u, n) then Some(c.body)
    else before
  }

  function KnownAfter(s: State, c: Call, t: State, reply: Reply, u: Str, n: int, before: Known): Known {
    var kept := KeptAfter(s, c, reply, u, n, before.kept);
    if Opens(s, t, u) then Unknown.(kept := kept)
    else
      Known(if Uploads(c, u, n) && reply == Ok then Some(c.body) else before.acked,
            if Records(c, reply, u, n) then Some(c.body) else before.recorded,
            kept,
            if Uploads(c, u, n) && !reply.InvalidArgument? && !reply.NoSuchUpload? then reply.Ok? else before.settled)
  }

  ghost function KnownOf(env: Env, calls: seq<Call>, u: Str, n: int): Known
    requires Run(env, calls)
    decreases |calls|
  {
    if calls == [] then Unknown
    else
      var m := |calls| - 1;
      KnownAfter(After(env, Empty, calls[..m]), calls[m], After(env, Empty, calls), ReplyTo(env, calls), u, n,
                 KnownOf(env, calls[..m], u, n))
  }

  ghost function Acked(env: Env, calls: seq<Call>, u: Str, n: int): Option<Str>
    requires Run(env, calls)
  {
    KnownOf(env, calls, u, n).acked
  }

  // ---- What every call keeps

  ghost predicate RecordOf(env: Env, p: MultipartPart, body: Str) {
    p.etag == HexEncode(env.md5(body)) && p.size == |body| && p.sums == env.sums(body)
  }

  /** The file of part n of upload u is of the body the run says. */
  predicate FileOk(s: State, u: Str, n: int, kept: Option<Str>) {
    && (PartFile(u, n) in s.staged <==> kept.Some?)
    && (kept.Some? ==> s.staged[PartFile(u, n)] == kept.value)
  }

  /** Its record too, as long as the upload is open. */
  ghost predicate RecordOk(env: Env, s: State, u: Str, n: int, recorded: Option<Str>) {
    if u in s.uploads then
      && (n in PartsOf(s, u) <==> recorded.Some?)
      && (recorded.Some? ==> RecordOf(env, PartsOf(s, u)[n], recorded.value))
    else u !in s.parts
  }

  /** If the last attempt to upload the part was acknowledged, record and file are of that body. */
  predicate KnownOk(k: Known) {
    && (k.acked.Some? ==> k.recorded.Some?)
    && (k.settled ==> k.acked.Some? && k.acked == k.recorded && (k.kept.Some? ==> k.kept == k.acked))
  }

  ghost predicate PartOk(env: Env, s: State, u: Str, n: int, k: Known) {
    FileOk(s, u, n, k.kept) && RecordOk(env, s, u, n, k.recorded) && KnownOk(k)
  }

  predicate Multipart(c: Call) {
    c.CreateUpload? || c.UploadPart? || c.Complete? || c.Abort? || c.Collect?
  }

  predicate SameUploads(s: State, t: State) {
    t.uploads == s.uploads && t.parts == s.parts && t.staged == s.staged
  }

  lemma OtherCallsKeepUploads(env: Env, s: State, c: Call)
    requires EnvOk(env) && ValidCall(c) && !Multipart(c)
    ensures SameUploads(s, Step(env, s, c).0)
  {
    hide DoPut, DoCopy, DoDelete, DoPutRetention, DoPutLegalHold, DoComplete, DoUploadPart, DoAbort, DoCreateUpload;
  }

  /** A completion with this reply swept the files of the upload, and may have ended it, or moved
      some of them, or left them alone. */
  ghost predicate OnUploads(s: State, c: Call, t: State, reply: Reply)
    requires c.Complete?
  {
    && (reply.Completed? || reply == RecordFailed ==> t.staged == Swept(s.staged, c.uploadId, {}))
    && (reply.Completed? && c.dropped ==> SameUploads(DropUpload(s, c.uploadId).(staged := t.staged), t))
    && (!reply.Completed? || !c.dropped ==> SameUploads(s.(staged := t.staged), t))
    && (reply == WriteFailed && MovesOut(s, c) ==> t.staged == Moved(s, c))
    && (!reply.Completed? && reply != RecordFailed && !(reply == WriteFailed && MovesOut(s, c)) ==>
          t.staged == s.staged)
    && reply != Ok
  }

  lemma RecordedOnUploads(s: State, c: Call, ref: Ref, file: Str, v: ObjectVersion)
    requires c.Complete? && !c.written.Misreported?
    ensures var (t, reply) := SweepAndRecord(s, c, ref, file, v); OnUploads(s, c, t, reply)
  {
    hide RecordObject, Swept, Moved;
  }

  lemma FinishOnUploads(env: Env, s: State, c: Call, ref: Ref)
    requires EnvOk(env) && ValidCall(c) && c.Complete? && !c.written.Unwritten?
    requires c.uploadId in s.uploads && c.listed != [] && AllStaged(s.staged, Files(c.uploadId, c.listed))
    requires CheckParts(PartsOf(s, c.uploadId), c.listed, 0) == Ok
    ensures var (t, reply) := FinishComplete(env, s, c, ref); OnUploads(s, c, t, reply)
  {
    hide CheckParts, CheckPart, Assembled, CompletedVersion, FileOf, SweepAndRecord, Swept, Moved, Files, AllStaged;
    hide PartsOf;
    if !c.written.Misreported? {
      hide OnUploads;
      var encrypted := s.uploads[c.uploadId].sseAlgorithm == AES256;
      var file := FileOf(env, Assembled(s.staged, Files(c.uploadId, c.listed)), encrypted, c.iv);
      RecordedOnUploads(s, c, ref, file, CompletedVersion(env, s, c, ref));
    }
  }

  lemma CompleteOnUploads(env: Env, s: State, c: Call)
    requires EnvOk(env) && ValidCall(c) && c.Complete?
    ensures var (t, reply) := DoComplete(env, s, c); OnUploads(s, c, t, reply)
  {
    hide NullLocked, CheckParts, Assembled, FinishComplete, Swept, Moved, Files, AllStaged, OnUploads, MovesOut;
    CheckPartsReplies(PartsOf(s, c.uploadId), c.listed, 0);
    StayingOnUploads(s, c);
    if UploadIs(s, c.bucket, c.key, c.uploadId) && c.listed != [] && c.bucket in s.buckets && !c.written.Unwritten?
       && CheckParts(PartsOf(s, c.uploadId), c.listed, 0) == Ok && AllStaged(s.staged, Files(c.uploadId, c.listed)) {
      FinishOnUploads(env, s, c, Target(s, c));
    }
  }

  /** A completion that got nowhere. */
  lemma StayingOnUploads(s: State, c: Call)
    requires c.Complete?
    ensures forall reply: Reply :: reply != Ok && !reply.Completed? && reply != RecordFailed && reply != WriteFailed ==>
              OnUploads(s, c, s, reply)
    ensures c.written.Unwritten? || !AllStaged(s.staged, Files(c.uploadId, c.listed)) ==>
              OnUploads(s, c, s, WriteFailed)
  {
    hide Swept, Moved, Files, AllStaged;
  }

  lemma {:induction false} CheckPartsReplies(stored: map<int, MultipartPart>, listed: seq<ListedPart>, i: nat)
    requires i <= |listed|
    ensures CheckParts(stored, listed, i) in {Ok, InvalidPartOrder, InvalidPart, EntityTooSmall}
    decreases |listed| - i
  {
    if i < |listed| { CheckPartsReplies(stored, listed, i + 1); }
  }

  ghost predicate KeepsFile(s: State, c: Call, t: State, reply: Reply, u: Str, n: int, kept: Option<Str>) {
    FileOk(s, u, n, kept) ==> FileOk(t, u, n, KeptAfter(s, c, reply, u, n, kept))
  }

  function RecordedAfter(s: State, c: Call, t: State, reply: Reply, u: Str, n: int, recorded: Option<Str>)
    : Option<Str>
  {
    if Opens(s, t, u) then None else if Records(c, reply, u, n) then Some(c.body) else recorded
  }

  ghost predicate KeepsRecord(env: Env, s: State, c: Call, t: State, reply: Reply, u: Str, n: int,
                              recorded: Option<Str>) {
    RecordOk(env, s, u, n, recorded) ==> RecordOk(env, t, u, n, RecordedAfter(s, c, t, reply, u, n, recorded))
  }

  ghost predicate KeepsPart(env: Env, s: State, c: Call, t: State, reply: Reply, u: Str, n: int, k: Known) {
    KeepsFile(s, c, t, reply, u, n, k.kept) && KeepsRecord(env, s, c, t, reply, u, n, k.recorded)
  }

  lemma KnownStaysOk(s: State, c: Call, t: State, reply: Reply, u: Str, n: int, k: Known)
    requires KnownOk(k)
    ensures KnownOk(KnownAfter(s, c, t, reply, u, n, k))
  {
    hide Moved, AllStaged, Files;
  }

  lemma SavedPartReads(s: State, p: MultipartPart, u: Str)
    ensures PartsOf(SavePart(s, p), u) == if u == p.uploadId then PartsOf(s, u)[p.number := p] else PartsOf(s, u)
    ensures u in SavePart(s, p).parts <==> u in s.parts || u == p.uploadId
  {
  }

  lemma SweptReads(staged: map<PartFile, Str>, u: Str, left: set<int>, f: PartFile)
    ensures f in Swept(staged, u, left) <==> f in staged && (f.uploadId != u || f.number in left)
    ensures f in Swept(staged, u, left) ==> Swept(staged, u, left)[f] == staged[f]
  {
  }

  lemma MovedReads(s: State, c: Call, f: PartFile)
    requires c.Complete? && c.uploadId in s.uploads && c.listed != []
    ensures f in Moved(s, c) ==> f in s.staged && Moved(s, c)[f] == s.staged[f]
    ensures f in s.staged && f.uploadId != c.uploadId ==> f in Moved(s, c)
  {
  }

  lemma PartRecordIs(env: Env, c: Call)
    requires c.UploadPart?
    ensures var p := PartRecord(env, c);
            p.uploadId == c.uploadId && p.number == c.number && RecordOf(env, p, c.body)
  {
  }

  lemma UploadOnFiles(env: Env, s: State, c: Call)
    requires c.UploadPart?
    ensures var (t, reply) := DoUploadPart(env, s, c);
            var staged := s.staged[PartFile(c.uploadId, c.number) := c.body];
            t.staged == if !Stages(c, reply, c.uploadId, c.number) then s.staged
                        else if reply.BadDigest? || reply.RecordFailed? then Swept(staged, c.uploadId, c.leftParts)
                        else staged
    ensures DoUploadPart(env, s, c).1.BadDigest? || DoUploadPart(env, s, c).1.RecordFailed? ==>
              Stages(c, DoUploadPart(env, s, c).1, c.uploadId, c.number)
  {
    hide Swept, PartRecord, SavePart;
    SavedStaged(s, PartRecord(env, c));
  }

  lemma UploadKeepsFile(env: Env, s: State, c: Call, u: Str, n: int, kept: Option<Str>)
    requires c.UploadPart?
    ensures var (t, reply) := DoUploadPart(env, s, c); KeepsFile(s, c, t, reply, u, n, kept)
  {
    hide Swept, DoUploadPart;
    UploadOnFiles(env, s, c);
    SweptReads(s.staged[PartFile(c.uploadId, c.number) := c.body], c.uploadId, c.leftParts, PartFile(u, n));
  }

  lemma SavedStaged(s: State, p: MultipartPart)
    ensures SavePart(s, p) == s.(parts := SavePart(s, p).parts)
  {
  }

  lemma UploadOnRecords(env: Env, s: State, c: Call)
    requires c.UploadPart?
    ensures var (t, reply) := DoUploadPart(env, s, c);
            && t.uploads == s.uploads
            && t.parts == (if Records(c, reply, c.uploadId, c.number) then SavePart(s, PartRecord(env, c)) else s).parts
            && (Records(c, reply, c.uploadId, c.number) ==> c.uploadId in s.uploads)
  {
    hide Swept, PartRecord, SavePart;
    SavedStaged(s, PartRecord(env, c));
  }

  lemma UploadKeepsRecord(env: Env, s: State, c: Call, u: Str, n: int, recorded: Option<Str>)
    requires c.UploadPart?
    ensures var (t, reply) := DoUploadPart(env, s, c); KeepsRecord(env, s, c, t, reply, u, n, recorded)
  {
    hide RecordOf, DoUploadPart, PartRecord, SavePart;
    UploadOnRecords(env, s, c);
    SavedPartReads(s, PartRecord(env, c), u);
    PartRecordIs(env, c);
  }

  lemma UploadKeepsPart(env: Env, s: State, c: Call, u: Str, n: int, k: Known)
    requires c.UploadPart?
    ensures var (t, reply) := DoUploadPart(env, s, c); KeepsPart(env, s, c, t, reply, u, n, k)
  {
    hide KeepsFile, KeepsRecord, DoUploadPart;
    UploadKeepsFile(env, s, c, u, n, k.kept);
    UploadKeepsRecord(env, s, c, u, n, k.recorded);
  }

  lemma CompleteKeepsFile(env: Env, s: State, c: Call, u: Str, n: int, kept: Option<Str>)
    requires EnvOk(env) && ValidCall(c) && c.Complete?
    ensures var (t, reply) := DoComplete(env, s, c); KeepsFile(s, c, t, reply, u, n, kept)
  {
    hide DoComplete, Swept, Moved, SameUploads, MovesOut;
    CompleteOnUploads(env, s, c);
    SweptReads(s.staged, c.uploadId, {}, PartFile(u, n));
    if MovesOut(s, c) {
      MovesOutMeans(s, c);
      MovedReads(s, c, PartFile(u, n));
    }
  }

  lemma MovesOutMeans(s: State, c: Call)
    requires c.Complete? && MovesOut(s, c)
    ensures c.uploadId in s.uploads && c.listed != []
  {
  }

  lemma CompleteKeepsRecord(env: Env, s: State, c: Call, u: Str, n: int, recorded: Option<Str>)
    requires EnvOk(env) && ValidCall(c) && c.Complete?
    ensures var (t, reply) := DoComplete(env, s, c); KeepsRecord(env, s, c, t, reply, u, n, recorded)
  {
    hide DoComplete, RecordOf, Swept, Moved, MovesOut;
    CompleteOnUploads(env, s, c);
  }

  lemma CompleteKeepsPart(env: Env, s: State, c: Call, u: Str, n: int, k: Known)
    requires EnvOk(env) && ValidCall(c) && c.Complete?
    ensures var (t, reply) := DoComplete(env, s, c); KeepsPart(env, s, c, t, reply, u, n, k)
  {
    hide KeepsFile, KeepsRecord, DoComplete;
    CompleteKeepsFile(env, s, c, u, n, k.kept);
    CompleteKeepsRecord(env, s, c, u, n, k.recorded);
  }

  lemma AbortKeepsFile(s: State, c: Call, u: Str, n: int, kept: Option<Str>)
    requires c.Abort?
    ensures KeepsFile(s, c, DoAbort(s, c).0, Ok, u, n, kept)
  {
    hide Swept;
    SweptReads(s.staged, c.uploadId, c.leftParts, PartFile(u, n));
  }

  lemma AbortKeepsRecord(env: Env, s: State, c: Call, u: Str, n: int, recorded: Option<Str>)
    requires c.Abort?
    ensures KeepsRecord(env, s, c, DoAbort(s, c).0, Ok, u, n, recorded)
  {
    hide RecordOf, Swept, PartsOf, UploadIs;
    assert PartsOf(DoAbort(s, c).0, u) == PartsOf(s, u) || u !in DoAbort(s, c).0.uploads by { AbortParts(s, c, u); }
  }

  lemma AbortParts(s: State, c: Call, u: Str)
    requires c.Abort?
    ensures PartsOf(DoAbort(s, c).0, u) == PartsOf(s, u) || u !in DoAbort(s, c).0.uploads
  {
    hide Swept;
  }

  lemma AbortKeepsPart(env: Env, s: State, c: Call, u: Str, n: int, k: Known)
    requires c.Abort?
    ensures var (t, reply) := DoAbort(s, c); KeepsPart(env, s, c, t, reply, u, n, k)
  {
    hide KeepsFile, KeepsRecord;
    AbortKeepsFile(s, c, u, n, k.kept);
    AbortKeepsRecord(env, s, c, u, n, k.recorded);
  }

  lemma NoPartEvent(s: State, c: Call, reply: Reply, u: Str, n: int)
    requires !Multipart(c)
    ensures !Sweeps(s, c, reply, u, n) && !Stages(c, reply, u, n) && !Records(c, reply, u, n)
  {
    hide Moved, MovesOut, UploadIs;
  }

  lemma SameKeepsPart(env: Env, s: State, c: Call, t: State, reply: Reply, u: Str, n: int, k: Known)
    requires SameUploads(s, t) && !Multipart(c)
    ensures KeepsPart(env, s, c, t, reply, u, n, k)
  {
    hide RecordOf, Sweeps, Stages, Records, RecordOk, FileOk;
    NoPartEvent(s, c, reply, u, n);
    SameOk(env, s, t, u, n, k);
  }

  lemma SameOk(env: Env, s: State, t: State, u: Str, n: int, k: Known)
    requires SameUploads(s, t)
    ensures FileOk(t, u, n, k.kept) == FileOk(s, u, n, k.kept)
    ensures RecordOk(env, t, u, n, k.recorded) == RecordOk(env, s, u, n, k.recorded)
  {
    hide RecordOf;
  }

  /** A new upload has neither records nor files; any other is as it was. */
  lemma CreateOnUploads(s: State, c: Call)
    requires c.CreateUpload?
    ensures var t := DoCreateUpload(s, c).0;
            && (t.uploads == s.uploads || (c.uploadId !in s.uploads && t.uploads.Keys == s.uploads.Keys + {c.uploadId}))
            && t.staged == s.staged && (t.parts == s.parts || t.parts == s.parts - {c.uploadId})
            && (c.uploadId in s.uploads ==> t == s)
  {
    hide PartsOf;
    assert c.uploadId !in s.uploads ==> s.uploads[c.uploadId := MultipartUpload(c.uploadId, c.bucket, c.key,
      if c.encrypted then AES256 else [], c.now)] - {c.uploadId} == s.uploads;
  }

  lemma CreateKeepsPart(env: Env, s: State, c: Call, u: Str, n: int, k: Known)
    requires c.CreateUpload?
    ensures var (t, reply) := DoCreateUpload(s, c); KeepsPart(env, s, c, t, reply, u, n, k)
  {
    hide RecordOf, DoCreateUpload;
    CreateOnUploads(s, c);
  }

  lemma CollectKeepsPart(env: Env, s: State, c: Call, u: Str, n: int, k: Known)
    requires c.Collect?
    ensures KeepsPart(env, s, c, s.(staged := s.staged - c.gone), Ok, u, n, k)
  {
    hide RecordOf;
  }

  lemma StepKeepsPart(env: Env, s: State, c: Call, u: Str, n: int, k: Known)
    requires EnvOk(env) && ValidCall(c)
    ensures var (t, reply) := Step(env, s, c); KeepsPart(env, s, c, t, reply, u, n, k)
  {
    hide DoPut, DoCopy, DoDelete, DoPutRetention, DoPutLegalHold, DoUploadPart, DoComplete, DoAbort, DoCreateUpload,
         KeepsPart, SameUploads, SaveBucket;
    if !Multipart(c) {
      OtherCallsKeepUploads(env, s, c);
      var (t, reply) := Step(env, s, c);
      SameKeepsPart(env, s, c, t, reply, u, n, k);
    } else if c.Complete? {
      CompleteKeepsPart(env, s, c, u, n, k);
    } else if c.Abort? {
      AbortKeepsPart(env, s, c, u, n, k);
    } else if c.UploadPart? {
      UploadKeepsPart(env, s, c, u, n, k);
    } else if c.CreateUpload? {
      CreateKeepsPart(env, s, c, u, n, k);
    } else {
      CollectKeepsPart(env, s, c, u, n, k);
    }
  }

  /** In every run, the server's records and files are those the run says. */
  lemma {:induction false} RunKeepsPart(env: Env, calls: seq<Call>, u: Str, n: int)
    requires Run(env, calls)
    ensures PartOk(env, After(env, Empty, calls), u, n, KnownOf(env, calls, u, n))
    decreases |calls|
  {
    hide Step, PartOk, KnownAfter;
    if calls == [] {
      NothingKnown(env, u, n);
    } else {
      var m := |calls| - 1;
      RunKeepsPart(env, calls[..m], u, n);
      var s, t, k := After(env, Empty, calls[..m]), After(env, Empty, calls), KnownOf(env, calls[..m], u, n);
      StepKeepsPart(env, s, calls[m], u, n, k);
      PartStaysOk(env, s, calls[m], t, ReplyTo(env, calls), u, n, k);
    }
  }

  lemma PartStaysOk(env: Env, s: State, c: Call, t: State, reply: Reply, u: Str, n: int, k: Known)
    requires PartOk(env, s, u, n, k) && KeepsPart(env, s, c, t, reply, u, n, k)
    ensures PartOk(env, t, u, n, KnownAfter(s, c, t, reply, u, n, k))
  {
    hide FileOk, RecordOk, KnownOk, KeptAfter, Records;
    KnownStaysOk(s, c, t, reply, u, n, k);
  }

  lemma NothingKnown(env: Env, u: Str, n: int)
    ensures PartOk(env, Empty, u, n, Unknown)
  {
  }

  /** A part whose record the store keeps although it reports a failure: the record of a body
      nobody acknowledged stays, and no part of the upload is staged any more, but for those
      whose removal failed. */
  lemma UnpersistedPartStays(env: Env, calls: seq<Call>, n: int)
    requires Run(env, calls) && calls != [] && calls[|calls| - 1].UploadPart?
    requires ReplyTo(env, calls) == RecordFailed && Takes(calls[|calls| - 1].save)
    ensures var m := |calls| - 1;
            var c, s, t := calls[m], After(env, Empty, calls[..m]), After(env, Empty, calls);
            && c.uploadId in t.uploads && c.number in PartsOf(t, c.uploadId)
            && RecordOf(env, PartsOf(t, c.uploadId)[c.number], c.body)
            && Acked(env, calls, c.uploadId, n) == Acked(env, calls[..m], c.uploadId, n)
            && (n !in c.leftParts ==> PartFile(c.uploadId, n) !in t.staged)
  {
    hide RecordOf, DoUploadPart;
    var m := |calls| - 1;
    var c, s := calls[m], After(env, Empty, calls[..m]);
    UnsavedUploads(env, s, c);
    RunKeepsPart(env, calls, c.uploadId, c.number);
    RunKeepsPart(env, calls, c.uploadId, n);
  }

  lemma UnsavedUploads(env: Env, s: State, c: Call)
    requires c.UploadPart? && DoUploadPart(env, s, c).1 == RecordFailed
    ensures c.uploadId in s.uploads && DoUploadPart(env, s, c).0.uploads == s.uploads
  {
  }

  // ---- Who opened an upload, and until when it stays closed

  /** The call that opened the upload last. */
  ghost function OriginOf(env: Env, calls: seq<Call>, u: Str): Option<Call>
    requires Run(env, calls)
    decreases |calls|
  {
    if calls == [] then None
    else
      var m := |calls| - 1;
      if Opens(After(env, Empty, calls[..m]), After(env, Empty, calls), u) then Some(calls[m])
      else OriginOf(env, calls[..m], u)
  }

  /** An upload is opened as its client asked, and stays so. */
  ghost predicate UploadOk(s: State, c: Call, t: State, u: Str) {
    u in t.uploads ==>
      if u in s.uploads then t.uploads[u] == s.uploads[u]
      else
        && c.CreateUpload? && c.uploadId == u
        && t.uploads[u] == MultipartUpload(u, c.bucket, c.key, if c.encrypted then Ascii("AES256") else [], c.now)
  }

  lemma StepKeepsUpload(env: Env, s: State, c: Call, u: Str)
    requires EnvOk(env) && ValidCall(c)
    ensures UploadOk(s, c, Step(env, s, c).0, u)
  {
    hide DoPut, DoCopy, DoDelete, DoPutRetention, DoPutLegalHold, DoUploadPart, DoComplete, DoAbort, Ascii, Swept;
    if c.CreateUpload? {
    } else if c.Complete? {
      CompleteOnUploads(env, s, c);
    } else if c.Abort? {
      AbortOnUploads(s, c);
    } else if c.UploadPart? {
      UploadOnRecords(env, s, c);
    }
  }

  lemma AbortOnUploads(s: State, c: Call)
    requires c.Abort?
    ensures DoAbort(s, c).0.uploads == s.uploads || DoAbort(s, c).0.uploads == s.uploads - {c.uploadId}
  {
  }

  /** While an upload is open, its bucket, key and encryption are those its client asked for when
      opening it. */
  lemma {:induction false} OpenAsCreated(env: Env, calls: seq<Call>, u: Str)
    requires Run(env, calls) && u in After(env, Empty, calls).uploads
    ensures var c := OriginOf(env, calls, u);
            && c.Some? && c.value.CreateUpload? && c.value.uploadId == u
            && After(env, Empty, calls).uploads[u] ==
               MultipartUpload(u, c.value.bucket, c.value.key, if c.value.encrypted then Ascii("AES256") else [],
                               c.value.now)
    decreases |calls|
  {
    hide Step, Ascii;
    if calls != [] {
      var m := |calls| - 1;
      StepKeepsUpload(env, After(env, Empty, calls[..m]), calls[m], u);
      if u in After(env, Empty, calls[..m]).uploads { OpenAsCreated(env, calls[..m], u); }
    }
  }

  /** A closed upload stays closed until one with its id is created. */
  lemma {:induction false} StaysClosed(env: Env, s: State, calls: seq<Call>, u: Str)
    requires EnvOk(env) && Runs(env, s, calls) && u !in s.uploads
    requires forall c :: c in calls ==> !(c.CreateUpload? && c.uploadId == u)
    ensures u !in After(env, s, calls).uploads
    decreases |calls|
  {
    hide Step;
    if calls != [] {
      var m := |calls| - 1;
      assert calls[m] in calls && forall c :: c in calls[..m] ==> c in calls;
      StaysClosed(env, s, calls[..m], u);
      StepKeepsUpload(env, After(env, s, calls[..m]), calls[m], u);
    }
  }

  /** After an abort that dropped the upload, no part is taken and nothing completed under its id,
      whatever else happens, until an upload with the id is created. */
  lemma AbortedIsClosed(env: Env, s: State, a: Call, calls: seq<Call>, c: Call)
    requires EnvOk(env) && ValidCall(a) && ValidCall(c) && a.Abort? && a.dropped
    requires UploadIs(s, a.bucket, a.key, a.uploadId) && Runs(env, Step(env, s, a).0, calls)
    requires forall d :: d in calls ==> !(d.CreateUpload? && d.uploadId == a.uploadId)
    requires (c.Complete? || (c.UploadPart? && 1 <= c.number <= MAX_PARTS)) && c.uploadId == a.uploadId
    ensures var t := After(env, Step(env, s, a).0, calls);
            a.uploadId !in t.uploads && Step(env, t, c) == (t, NoSuchUpload)
  {
    hide Runs, After, Swept;
    StaysClosed(env, Step(env, s, a).0, calls, a.uploadId);
  }

  // ---- What a completed upload is

  predicate Ascending(listed: seq<ListedPart>) {
    forall i :: 0 < i < |listed| ==> listed[i - 1].number < listed[i].number
  }

  function OrEmpty(body: Option<Str>): Str {
    if body.Some? then body.value else []
  }

  /** The bodies of the listed parts, in the order listed: those acknowledged last, */
  ghost function AckedBodies(env: Env, calls: seq<Call>, u: Str, listed: seq<ListedPart>): (bodies: seq<Str>)
    requires Run(env, calls)
    ensures |bodies| == |listed|
  {
    seq(|listed|, i requires 0 <= i < |listed| => OrEmpty(KnownOf(env, calls, u, listed[i].number).acked))
  }

  /** those the store has records of, */
  ghost function RecordedBodies(env: Env, calls: seq<Call>, u: Str, listed: seq<ListedPart>): (bodies: seq<Str>)
    requires Run(env, calls)
    ensures |bodies| == |listed|
  {
    seq(|listed|, i requires 0 <= i < |listed| => OrEmpty(KnownOf(env, calls, u, listed[i].number).recorded))
  }

  /** and those staged. */
  ghost function StagedBodies(env: Env, calls: seq<Call>, u: Str, listed: seq<ListedPart>): (bodies: seq<Str>)
    requires Run(env, calls)
    ensures |bodies| == |listed|
  {
    seq(|listed|, i requires 0 <= i < |listed| => OrEmpty(KnownOf(env, calls, u, listed[i].number).kept))
  }

  /** Listed part i is recorded with this ETag and a file of it is staged; all but the last are
      of the minimum size. */
  ghost predicate PartReady(env: Env, calls: seq<Call>, u: Str, listed: seq<ListedPart>, i: nat)
    requires Run(env, calls) && i < |listed|
  {
    var k := KnownOf(env, calls, u, listed[i].number);
    && k.recorded.Some? && k.kept.Some?
    && Trim(listed[i].etag, QUOTE) == HexEncode(env.md5(k.recorded.value))
    && (i < |listed| - 1 ==> |k.recorded.value| >= 5 * 1024 * 1024)
  }

  ghost predicate PartsReady(env: Env, calls: seq<Call>, u: Str, listed: seq<ListedPart>)
    requires Run(env, calls)
  {
    forall i :: 0 <= i < |listed| ==> PartReady(env, calls, u, listed, i)
  }

  /** All checks on the listed parts pass just when each one does. */
  lemma {:induction false} CheckPartsIff(stored: map<int, MultipartPart>, listed: seq<ListedPart>, from: nat)
    requires from <= |listed|
    ensures CheckParts(stored, listed, from) == Ok
       <==> forall i :: from <= i < |listed| ==> CheckPart(stored, listed, i) == Ok
    decreases |listed| - from
  {
    hide CheckPart;
    if from < |listed| { CheckPartsIff(stored, listed, from + 1); }
  }

  lemma PartReadyIff(env: Env, calls: seq<Call>, u: Str, listed: seq<ListedPart>, i: nat)
    requires Run(env, calls) && i < |listed|
    requires u in After(env, Empty, calls).uploads
    ensures var s := After(env, Empty, calls);
            CheckPart(PartsOf(s, u), listed, i) == Ok && PartFile(u, listed[i].number) in s.staged
            <==> (i > 0 ==> listed[i - 1].number < listed[i].number) && PartReady(env, calls, u, listed, i)
  {
    hide Step, KnownOf, After, HexEncode, Trim;
    RunKeepsPart(env, calls, u, listed[i].number);
  }

  lemma AllReadyIff(env: Env, calls: seq<Call>, u: Str, listed: seq<ListedPart>)
    requires Run(env, calls) && u in After(env, Empty, calls).uploads
    ensures var s := After(env, Empty, calls);
            CheckParts(PartsOf(s, u), listed, 0) == Ok && AllStaged(s.staged, Files(u, listed))
            <==> Ascending(listed) && PartsReady(env, calls, u, listed)
  {
    hide Step, After, CheckPart, PartReady;
    var s, files := After(env, Empty, calls), Files(u, listed);
    CheckPartsIff(PartsOf(s, u), listed, 0);
    assert forall i | 0 <= i < |listed| :: files[i] == PartFile(u, listed[i].number);
    if CheckParts(PartsOf(s, u), listed, 0) == Ok && AllStaged(s.staged, files) {
      forall i | 0 <= i < |listed|
        ensures (i > 0 ==> listed[i - 1].number < listed[i].number) && PartReady(env, calls, u, listed, i)
      {
        assert files[i] in files;
        PartReadyIff(env, calls, u, listed, i);
      }
    }
    if Ascending(listed) && PartsReady(env, calls, u, listed) {
      forall i | 0 <= i < |listed|
        ensures CheckPart(PartsOf(s, u), listed, i) == Ok && files[i] in s.staged
      {
        assert PartReady(env, calls, u, listed, i);
        PartReadyIff(env, calls, u, listed, i);
      }
    }
  }

  /** Exactly when a completion succeeds, in any run. */
  lemma CompleteIff(env: Env, calls: seq<Call>)
    requires Run(env, calls) && calls != [] && calls[|calls| - 1].Complete?
    ensures var m := |calls| - 1;
            var c, s := calls[m], After(env, Empty, calls[..m]);
            ReplyTo(env, calls).Completed? <==>
            && UploadIs(s, c.bucket, c.key, c.uploadId)
            && 0 < |c.listed| <= 10000
            && Ascending(c.listed) && PartsReady(env, calls[..m], c.uploadId, c.listed)
            && c.bucket in s.buckets
            && !NullLocked(env, s, ObjectKey(c.bucket, c.key), VersionIdFor(s.buckets[c.bucket], c.newId), c.now)
            && c.written.Written? && c.save == Saved
  {
    hide KnownOf, After, CheckParts, CheckPart, Assembled, CompletedVersion, FileOf, NullLocked, PartsReady;
    var m := |calls| - 1;
    var c, s := calls[m], After(env, Empty, calls[..m]);
    CheckPartsReplies(PartsOf(s, c.uploadId), c.listed, 0);
    if c.uploadId in s.uploads { AllReadyIff(env, calls[..m], c.uploadId, c.listed); }
  }

  lemma {:induction false} AssembledIs(staged: map<PartFile, Str>, files: seq<PartFile>, bodies: seq<Str>)
    requires AllStaged(staged, files) && |files| == |bodies|
    requires forall i :: 0 <= i < |files| ==> files[i] in staged && staged[files[i]] == bodies[i]
    ensures Assembled(staged, files) == Sse.Flatten(bodies)
  {
    if files != [] {
      var n := |files| - 1;
      AssembledIs(staged, files[..n], bodies[..n]);
    }
  }

  ghost function Digests(env: Env, bodies: seq<Str>): seq<Str> {
    seq(|bodies|, i requires 0 <= i < |bodies| => env.md5(bodies[i]))
  }

  lemma {:induction false} DecodedETagsAre(env: Env, listed: seq<ListedPart>, bodies: seq<Str>)
    requires |listed| == |bodies|
    requires forall i :: 0 <= i < |listed| ==> Trim(listed[i].etag, QUOTE) == HexEncode(env.md5(bodies[i]))
    ensures DecodedETags(listed) == Sse.Flatten(Digests(env, bodies))
  {
    hide HexEncode, HexDecode, Trim;
    if listed != [] {
      var n := |listed| - 1;
      DecodedETagsAre(env, listed[..n], bodies[..n]);
      assert Digests(env, bodies)[..n] == Digests(env, bodies[..n]);
      HexRoundTrip(env.md5(bodies[n]));
      HexHasNoQuotes(env.md5(bodies[n]));
    }
  }

  /** The record and the file of a ready part are of the bodies the run says. */
  lemma ReadyFile(env: Env, calls: seq<Call>, u: Str, listed: seq<ListedPart>, i: nat)
    requires Run(env, calls) && u in After(env, Empty, calls).uploads
    requires i < |listed| && PartReady(env, calls, u, listed, i)
    ensures var s, n := After(env, Empty, calls), listed[i].number;
            && n in PartsOf(s, u) && RecordOf(env, PartsOf(s, u)[n], RecordedBodies(env, calls, u, listed)[i])
            && PartFile(u, n) in s.staged && s.staged[PartFile(u, n)] == StagedBodies(env, calls, u, listed)[i]
            && Trim(listed[i].etag, QUOTE) == HexEncode(env.md5(RecordedBodies(env, calls, u, listed)[i]))
  {
    hide Step, After, KnownOf, HexEncode, Trim;
    RunKeepsPart(env, calls, u, listed[i].number);
  }

  /** The assembled bytes of a ready list are the staged bodies, its ETag is over the digests of
      the recorded ones. */
  lemma ReadyContent(env: Env, calls: seq<Call>, u: Str, listed: seq<ListedPart>)
    requires Run(env, calls) && u in After(env, Empty, calls).uploads && PartsReady(env, calls, u, listed)
    requires AllStaged(After(env, Empty, calls).staged, Files(u, listed))
    ensures var s, recorded := After(env, Empty, calls), RecordedBodies(env, calls, u, listed);
            && Assembled(s.staged, Files(u, listed)) == Sse.Flatten(StagedBodies(env, calls, u, listed))
            && MultipartETag(env, listed)
               == HexEncode(env.md5(Sse.Flatten(Digests(env, recorded)))) + [45] + Itoa(|listed|)
  {
    hide Step, After, KnownOf, HexEncode, Trim, Itoa, PartReady, RecordedBodies, StagedBodies;
    var s, recorded, staged := After(env, Empty, calls), RecordedBodies(env, calls, u, listed),
                               StagedBodies(env, calls, u, listed);
    forall i | 0 <= i < |listed|
      ensures Trim(listed[i].etag, QUOTE) == HexEncode(env.md5(recorded[i]))
      ensures Files(u, listed)[i] in s.staged && s.staged[Files(u, listed)[i]] == staged[i]
    {
      assert PartReady(env, calls, u, listed, i);
      ReadyFile(env, calls, u, listed, i);
    }
    AssembledIs(s.staged, Files(u, listed), staged);
    DecodedETagsAre(env, listed, recorded);
  }

  /** Promoting a single part reports what writing its recorded body would have, but for the time:
      what assembling the part would have, if that is the body staged. */
  lemma PromotionIsAssembly(env: Env, calls: seq<Call>, u: Str, listed: seq<ListedPart>)
    requires Run(env, calls) && u in After(env, Empty, calls).uploads
    requires |listed| == 1 && PartsReady(env, calls, u, listed)
    ensures var s, recorded := After(env, Empty, calls), RecordedBodies(env, calls, u, listed);
            && listed[0].number in PartsOf(s, u) && AllStaged(s.staged, Files(u, listed))
            && var p := PartsOf(s, u)[listed[0].number];
               && PromotedMeta(p) == MetaOf(env, Sse.Flatten(recorded), p.createdAt)
               && (StagedBodies(env, calls, u, listed) == recorded ==>
                     PromotedMeta(p) == MetaOf(env, Assembled(s.staged, Files(u, listed)), p.createdAt))
  {
    hide Step, After, KnownOf, HexEncode, Trim, RecordedBodies, StagedBodies;
    assert PartReady(env, calls, u, listed, 0);
    ReadyFile(env, calls, u, listed, 0);
    var s, recorded := After(env, Empty, calls), RecordedBodies(env, calls, u, listed);
    assert Files(u, listed) == [PartFile(u, listed[0].number)];
    AssembledIs(s.staged, Files(u, listed), StagedBodies(env, calls, u, listed));
    assert recorded[..0] == [];
    assert Sse.Flatten(recorded) == recorded[0];
  }

  /** The version a completion creates, told from the recorded and the staged bodies: a promoted
      part is described by its record, an assembled object by its bytes. */
  ghost predicate IsObjectOf(env: Env, v: ObjectVersion, recorded: seq<Str>, staged: seq<Str>, promoted: bool,
                             encrypted: bool) {
    var body := Sse.Flatten(if promoted then recorded else staged);
    && v.size == |body| && v.sums == env.sums(body)
    && v.etag == HexEncode(env.md5(Sse.Flatten(Digests(env, recorded)))) + [45] + Itoa(|recorded|)
    && UsesSse(v) == encrypted && !v.deleteMarker
  }

  lemma FinishedObject(env: Env, calls: seq<Call>, c: Call, ref: Ref)
    requires Run(env, calls) && ValidCall(c) && c.Complete? && c.written.Written? && c.save == Saved
    requires c.uploadId in After(env, Empty, calls).uploads && c.listed != []
    requires PartsReady(env, calls, c.uploadId, c.listed)
    requires var s := After(env, Empty, calls);
             CheckParts(PartsOf(s, c.uploadId), c.listed, 0) == Ok && AllStaged(s.staged, Files(c.uploadId, c.listed))
    ensures var s := After(env, Empty, calls);
            var recorded, staged := RecordedBodies(env, calls, c.uploadId, c.listed),
                                    StagedBodies(env, calls, c.uploadId, c.listed);
            var (t, reply) := FinishComplete(env, s, c, ref);
            var encrypted := s.uploads[c.uploadId].sseAlgorithm == AES256;
            && reply.Completed? && IsObjectOf(env, reply.version, recorded, staged, Promotes(s, c), encrypted)
            && reply.version.metadata == (if encrypted then map[SSE_KEY := AES256] else map[])
            && (!Promotes(s, c) ==> reply.version.createdAt == c.now)
            && (Promotes(s, c) ==>
                  && c.listed[0].number in PartsOf(s, c.uploadId)
                  && reply.version.createdAt == PartsOf(s, c.uploadId)[c.listed[0].number].createdAt)
            && Ref(reply.version.bucket, reply.version.key, reply.version.versionId) == ref
            && t == (if c.dropped then DropUpload(s, c.uploadId) else s).(
                      blobs := s.blobs[ref := FileOf(env, Sse.Flatten(staged), encrypted, c.iv)],
                      lists := PutVersion(s, reply.version).lists,
                      staged := Swept(s.staged, c.uploadId, {}))
  {
    hide Step, After, PartsReady, CheckParts, CheckPart, Assembled, MultipartETag, FileOf, V.Step, HexEncode,
         Itoa, Swept, RecordedBodies, StagedBodies, Digests, Sse.Flatten, Files;
    ReadyContent(env, calls, c.uploadId, c.listed);
    if |c.listed| == 1 { PromotionIsAssembly(env, calls, c.uploadId, c.listed); }
    var none: map<Str, Str> := map[];
    assert none - {SSE_KEY} == none;
  }

  /** Reading the new object back through either read path gives the bytes of its file. */
  lemma ReadBack(env: Env, t: State, v: ObjectVersion, body: Str, encrypted: bool, iv: Str)
    requires EnvOk(env) && |iv| == Ctr.BLOCK
    requires (encrypted ==> v.size == |body|) && UsesSse(v) == encrypted
    requires var ref := Ref(v.bucket, v.key, v.versionId);
             ref in t.blobs && t.blobs[ref] == FileOf(env, body, encrypted, iv)
    ensures ReadWhole(env, t, v) == if body == [] then None else Some(body)
  {
    hide Sse.Delivered, Sse.Encrypted, UsesSse;
    Sse.RangeRoundTrip(env.cipher, iv, body, None);
  }

  /** A successful completion passed every check, so it ran to its end. */
  lemma CompletedState(env: Env, calls: seq<Call>)
    requires Run(env, calls) && calls != [] && calls[|calls| - 1].Complete? && ReplyTo(env, calls).Completed?
    ensures var m := |calls| - 1;
            var c, s := calls[m], After(env, Empty, calls[..m]);
            && UploadIs(s, c.bucket, c.key, c.uploadId) && c.bucket in s.buckets
            && c.listed != [] && c.written.Written? && c.save == Saved
            && Ascending(c.listed) && PartsReady(env, calls[..m], c.uploadId, c.listed) && ValidCall(c)
            && CheckParts(PartsOf(s, c.uploadId), c.listed, 0) == Ok
            && AllStaged(s.staged, Files(c.uploadId, c.listed))
            && (After(env, Empty, calls), ReplyTo(env, calls)) == FinishComplete(env, s, c, Target(s, c))
  {
    hide CheckParts, CheckPart, FinishComplete, NullLocked, PartsReady, Ascending, KnownOf;
    var m := |calls| - 1;
    var c, s := calls[m], After(env, Empty, calls[..m]);
    CompleteIff(env, calls);
    AllReadyIff(env, calls[..m], c.uploadId, c.listed);
  }

  /** What a successful completion made of these bodies, for an upload opened with or without
      encryption: the version is the latest of its key and described by them, its file is the staged
      ones or the encryption of them and reads back as them, the staged files are gone, and all else
      is as it was. */
  ghost predicate CompletedFrom(env: Env, s: State, c: Call, t: State, v: ObjectVersion, recorded: seq<Str>,
                                staged: seq<Str>, encrypted: bool)
    requires EnvOk(env) && ValidCall(c) && c.Complete? && c.uploadId in s.uploads && c.bucket in s.buckets
    requires c.listed != []
  {
    var promoted, body := !encrypted && |c.listed| == 1, Sse.Flatten(staged);
    var k, ref := ObjectKey(c.bucket, c.key), Ref(v.bucket, v.key, v.versionId);
    var part := c.listed[0].number;
    && IsObjectOf(env, v, recorded, staged, promoted, encrypted)
    && v.metadata == (if encrypted then map[SSE_KEY := AES256] else map[])
    && (!promoted ==> v.createdAt == c.now)
    && (promoted ==> part in PartsOf(s, c.uploadId) && v.createdAt == PartsOf(s, c.uploadId)[part].createdAt)
    && KeyOf(ref) == k && ref.versionId == (if s.buckets[c.bucket].versioning == ENABLED then c.newId else NULL_ID)
    && V.Step(t.lists, V.GetLatest(k)).1 == V.One(v)
    && ref in t.blobs && t.blobs[ref] == (if encrypted then Sse.Encrypted(env.cipher, c.iv, body) else body)
    && ReadWhole(env, t, v) == (if body == [] then None else Some(body))
    && t == (if c.dropped then DropUpload(s, c.uploadId) else s).(
              blobs := s.blobs[ref := t.blobs[ref]], lists := V.Step(s.lists, V.Put(v)).0,
              staged := Swept(s.staged, c.uploadId, {}))
  }

  /** Over any run: a successful completion creates an object of the staged bodies of the listed
      parts, in ascending part order, with the ETag of the recorded ones, encrypted exactly if the
      call that opened the upload asked for it. */
  lemma CompletedObject(env: Env, calls: seq<Call>)
    requires Run(env, calls) && calls != [] && calls[|calls| - 1].Complete? && ReplyTo(env, calls).Completed?
    ensures var m := |calls| - 1;
            var c, s := calls[m], After(env, Empty, calls[..m]);
            var origin := OriginOf(env, calls[..m], c.uploadId);
            && UploadIs(s, c.bucket, c.key, c.uploadId) && c.bucket in s.buckets
            && c.listed != [] && Ascending(c.listed)
            && origin.Some? && origin.value.CreateUpload? && origin.value.uploadId == c.uploadId
            && origin.value.bucket == c.bucket && origin.value.key == c.key
            && CompletedFrom(env, s, c, After(env, Empty, calls), ReplyTo(env, calls).version,
                             RecordedBodies(env, calls[..m], c.uploadId, c.listed),
                             StagedBodies(env, calls[..m], c.uploadId, c.listed), origin.value.encrypted)
  {
    hide Step, After, KnownOf, PartsReady, FinishComplete, RecordedBodies, StagedBodies, Swept, ReadWhole,
         Ascending, Digests, CheckParts, CheckPart, HexEncode, Itoa, Sse.Flatten, OriginOf;
    var m := |calls| - 1;
    var c, v, s, t := calls[m], ReplyTo(env, calls).version, After(env, Empty, calls[..m]), After(env, Empty, calls);
    CompletedState(env, calls);
    OpenAsCreated(env, calls[..m], c.uploadId);
    var staged, ref := StagedBodies(env, calls[..m], c.uploadId, c.listed), Target(s, c);
    var encrypted := OriginOf(env, calls[..m], c.uploadId).value.encrypted;
    assert encrypted == (s.uploads[c.uploadId].sseAlgorithm == AES256) by { assert |AES256| == 6; }
    FinishedObject(env, calls[..m], c, ref);
    ReadBack(env, t, v, Sse.Flatten(staged), encrypted, c.iv);
  }

  // ---- When that is what was acknowledged

  /** The last attempt to upload each listed part was acknowledged. */
  ghost predicate AllSettled(env: Env, calls: seq<Call>, u: Str, listed: seq<ListedPart>)
    requires Run(env, calls)
  {
    forall i :: 0 <= i < |listed| ==> KnownOf(env, calls, u, listed[i].number).settled
  }

  lemma SettledBodies(env: Env, calls: seq<Call>, u: Str, listed: seq<ListedPart>)
    requires Run(env, calls) && u in After(env, Empty, calls).uploads
    requires PartsReady(env, calls, u, listed) && AllSettled(env, calls, u, listed)
    ensures var bodies := AckedBodies(env, calls, u, listed);
            && RecordedBodies(env, calls, u, listed) == bodies && StagedBodies(env, calls, u, listed) == bodies
            && forall i :: 0 <= i < |listed| ==> Acked(env, calls, u, listed[i].number) == Some(bodies[i])
  {
    hide Step, After, KnownOf, HexEncode, Trim;
    forall i | 0 <= i < |listed|
      ensures var k := KnownOf(env, calls, u, listed[i].number);
              k.acked.Some? && k.acked == k.recorded == k.kept
    {
      assert PartReady(env, calls, u, listed, i);
      RunKeepsPart(env, calls, u, listed[i].number);
    }
  }

  /** Over any run: if the last attempt to upload each listed part was acknowledged, a successful
      completion creates an object whose bytes, size, checksums and ETag are those of the
      acknowledged bodies, in ascending part order. */
  lemma CompletedAcknowledged(env: Env, calls: seq<Call>)
    requires Run(env, calls) && calls != [] && calls[|calls| - 1].Complete? && ReplyTo(env, calls).Completed?
    requires var c := calls[|calls| - 1]; AllSettled(env, calls[..|calls| - 1], c.uploadId, c.listed)
    ensures var m := |calls| - 1;
            var c, s := calls[m], After(env, Empty, calls[..m]);
            var bodies := AckedBodies(env, calls[..m], c.uploadId, c.listed);
            var origin := OriginOf(env, calls[..m], c.uploadId);
            && UploadIs(s, c.bucket, c.key, c.uploadId) && c.bucket in s.buckets
            && c.listed != [] && Ascending(c.listed)
            && (forall i :: 0 <= i < |c.listed| ==>
                  Acked(env, calls[..m], c.uploadId, c.listed[i].number) == Some(bodies[i]))
            && origin.Some? && origin.value.CreateUpload?
            && CompletedFrom(env, s, c, After(env, Empty, calls), ReplyTo(env, calls).version, bodies, bodies,
                             origin.value.encrypted)
  {
    hide Step, After, KnownOf, PartsReady, FinishComplete, CompletedFrom, AllSettled, Ascending, CheckParts, OriginOf;
    var m := |calls| - 1;
    CompletedState(env, calls);
    CompletedObject(env, calls);
    SettledBodies(env, calls[..m], calls[m].uploadId, calls[m].listed);
  }

  /** What is known one call later. */
  lemma KnownNext(env: Env, calls: seq<Call>, c: Call, u: Str, n: int)
    requires Run(env, calls + [c])
    ensures var s := After(env, Empty, calls);
            && Run(env, calls) && ValidCall(c)
            && (After(env, Empty, calls + [c]), ReplyTo(env, calls + [c])) == Step(env, s, c)
            && KnownOf(env, calls + [c], u, n) ==
               KnownAfter(s, c, Step(env, s, c).0, Step(env, s, c).1, u, n, KnownOf(env, calls, u, n))
  {
    hide Step, KnownAfter;
    assert (calls + [c])[..|calls|] == calls;
  }

  /** After a part that was stored and yet reported as failed, the acknowledged body is not the one
      staged. */
  lemma LatePart(env: Env, calls: seq<Call>, c: Call)
    requires Run(env, calls + [c]) && Run(env, calls) && c.UploadPart? && c.arrival.Late?
    requires 0 < c.number <= MAX_PARTS && UploadIs(After(env, Empty, calls), c.bucket, c.key, c.uploadId)
    ensures ReplyTo(env, calls + [c]) == WriteFailed
    ensures var k := KnownOf(env, calls, c.uploadId, c.number);
            KnownOf(env, calls + [c], c.uploadId, c.number) == Known(k.acked, k.recorded, Some(c.body), false)
    ensures var s, t := After(env, Empty, calls), After(env, Empty, calls + [c]);
            t == s.(staged := t.staged)
  {
    hide KnownOf, After;
    KnownNext(env, calls, c, c.uploadId, c.number);
  }

  /** So a completion that lists the part with the ETag it was acknowledged with succeeds, and
      serves the other body under that ETag. */
  lemma LatePartIsServed(env: Env, calls: seq<Call>, c: Call, d: Call, a: Str)
    requires Run(env, calls) && Run(env, calls + [c]) && Run(env, calls + [c] + [d])
    requires c.UploadPart? && c.arrival.Late? && c.body != [] && 0 < c.number <= MAX_PARTS
    requires KnownOf(env, calls, c.uploadId, c.number).acked == Some(a)
    requires KnownOf(env, calls, c.uploadId, c.number).settled
    requires d.Complete? && d.listed == [ListedPart(c.number, HexEncode(env.md5(a)))]
    requires d.uploadId == c.uploadId && d.bucket == c.bucket && d.key == c.key && d.written.Written? && d.save == Saved
    requires var s := After(env, Empty, calls);
             && UploadIs(s, c.bucket, c.key, c.uploadId) && d.bucket in s.buckets
             && !NullLocked(env, s, ObjectKey(d.bucket, d.key), VersionIdFor(s.buckets[d.bucket], d.newId), d.now)
    ensures var all := calls + [c] + [d];
            && ReplyTo(env, calls + [c]) == WriteFailed && Acked(env, calls + [c], c.uploadId, c.number) == Some(a)
            && ReplyTo(env, all).Completed?
            && var v := ReplyTo(env, all).version;
               && v.etag == HexEncode(env.md5(env.md5(a))) + [45] + Itoa(1)
               && ReadWhole(env, After(env, Empty, all), v) == Some(c.body)
  {
    hide Step, After, KnownOf, NullLocked, HexEncode, Itoa, Trim, ReadWhole, VersionIdFor, PartsReady, CompletedFrom;
    hide OriginOf;
    var late, all := calls + [c], calls + [c] + [d];
    var s, t := After(env, Empty, calls), After(env, Empty, late);
    LatePart(env, calls, c);
    LateReady(env, calls, c, d.listed, a);
    assert all[..|all| - 1] == late && all[|all| - 1] == d;
    SameLocks(env, s, t, ObjectKey(d.bucket, d.key), VersionIdFor(s.buckets[d.bucket], d.newId), d.now);
    CompleteIff(env, all);
    CompletedObject(env, all);
    ServedOne(env, t, d, After(env, Empty, all), ReplyTo(env, all).version, a, c.body,
              OriginOf(env, late, d.uploadId).value.encrypted);
  }

  /** The late part is ready under the ETag acknowledged before, with two different bodies. */
  lemma LateReady(env: Env, calls: seq<Call>, c: Call, listed: seq<ListedPart>, a: Str)
    requires Run(env, calls) && Run(env, calls + [c]) && c.UploadPart? && c.arrival.Late? && 0 < c.number <= MAX_PARTS
    requires KnownOf(env, calls, c.uploadId, c.number).acked == Some(a)
    requires KnownOf(env, calls, c.uploadId, c.number).settled
    requires UploadIs(After(env, Empty, calls), c.bucket, c.key, c.uploadId)
    requires listed == [ListedPart(c.number, HexEncode(env.md5(a)))]
    ensures PartsReady(env, calls + [c], c.uploadId, listed)
    ensures RecordedBodies(env, calls + [c], c.uploadId, listed) == [a]
    ensures StagedBodies(env, calls + [c], c.uploadId, listed) == [c.body]
  {
    hide Step, After, KnownOf, HexEncode, Trim;
    LatePart(env, calls, c);
    RunKeepsPart(env, calls, c.uploadId, c.number);
    HexHasNoQuotes(env.md5(a));
    assert PartReady(env, calls + [c], c.uploadId, listed, 0);
  }

  lemma ServedOne(env: Env, s: State, d: Call, t: State, v: ObjectVersion, a: Str, b: Str, encrypted: bool)
    requires EnvOk(env) && ValidCall(d) && d.Complete? && d.uploadId in s.uploads && d.bucket in s.buckets
    requires d.listed != [] && b != [] && CompletedFrom(env, s, d, t, v, [a], [b], encrypted)
    ensures v.etag == HexEncode(env.md5(env.md5(a))) + [45] + Itoa(1) && ReadWhole(env, t, v) == Some(b)
  {
    hide HexEncode, Itoa, ReadWhole, V.Step, Swept;
    OneBody(b);
    OneBody(env.md5(a));
    assert Digests(env, [a]) == [env.md5(a)];
  }

  lemma SameLocks(env: Env, s: State, t: State, k: ObjectKey, id: Str, now: int)
    requires t.lists == s.lists
    ensures NullLocked(env, t, k, id, now) == NullLocked(env, s, k, id, now)
  {
  }

  lemma OneBody(body: Str)
    ensures Sse.Flatten([body]) == body
  {
    assert [body][..0] == [];
  }
}
