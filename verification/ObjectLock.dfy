/** Object lock: which calls can remove or overwrite a version that is under retention or
    legal hold, and the files behind it. */
module ObjectLock {
  import opened Bytes
  import opened Metadata
  import opened Text
  import opened ObjectServer
  import V = Versions

  function RefOf(v: ObjectVersion): Ref {
    Ref(v.bucket, v.key, v.versionId)
  }

  /** The file behind a version is as it was. */
  predicate SameFile(s: State, t: State, ref: Ref) {
    (ref in t.blobs <==> ref in s.blobs) && (ref in s.blobs ==> t.blobs[ref] == s.blobs[ref])
  }

  /** The version, metadata included, and its file are as they were. */
  predicate Survives(s: State, t: State, k: ObjectKey, v: ObjectVersion) {
    v in V.Get(t.lists, k) && SameFile(s, t, RefOf(v))
  }

  /** A delete without version id, in a bucket that is not versioned now, of a key whose
      latest version is not locked, which the store carries out. */
  predicate UnguardedDelete(env: Env, s: State, c: Call, k: ObjectKey) {
    && c.DeleteObject? && ObjectKey(c.bucket, c.key) == k && c.versionId == [] && Takes(c.save)
    && c.bucket in s.buckets && s.buckets[c.bucket].versioning != ENABLED
    && var vs := V.Get(s.lists, k);
       vs != [] && !Locked(env, vs[|vs| - 1], c.now)
  }

  predicate EditsLock(c: Call, k: ObjectKey) {
    (c.PutRetention? || c.PutLegalHold?) && ObjectKey(c.bucket, c.key) == k
  }

  /** v is locked at the time this call checks locks, if it does. */
  predicate LockedFor(env: Env, c: Call, v: ObjectVersion) {
    Writes(c) || c.DeleteObject? ==> Locked(env, v, c.now)
  }

  /** v is a version of k, and locked. */
  ghost predicate Holds(env: Env, s: State, k: ObjectKey, v: ObjectVersion, now: int) {
    V.ListsOk(s.lists) && v in V.Get(s.lists, k) && Locked(env, v, now)
  }

  // ---- One step

  lemma OfKey(s: State, k: ObjectKey, v: ObjectVersion)
    requires V.ListsOk(s.lists) && v in V.Get(s.lists, k)
    ensures KeyOf(RefOf(v)) == k && v.versionId != []
    ensures var vs := V.Get(s.lists, k);
            var i := V.Find(vs, v.versionId);
            i >= 0 && vs[i] == v
  {
    hide V.Find;
    var vs := V.Get(s.lists, k);
    assert V.ListOk(k, vs);
    var j :| 0 <= j < |vs| && vs[j] == v;
    V.FindAt(vs, j);
  }

  lemma PutSpares(s: State, k: ObjectKey, v: ObjectVersion, w: ObjectVersion)
    requires v in V.Get(s.lists, k) && RefOf(w) != RefOf(v) && KeyOf(RefOf(v)) == k
    ensures v in V.Get(PutVersion(s, w).lists, k)
  {
    V.WithoutMeaning(V.Get(s.lists, k), NULL_ID);
  }

  lemma WriteSpares(env: Env, s: State, c: Call, k: ObjectKey, v: ObjectVersion)
    requires EnvOk(env) && ValidCall(c) && FreshCall(s, c) && Writes(c) && Holds(env, s, k, v, c.now)
    ensures Survives(s, Step(env, s, c).0, k, v)
  {
    hide Step, Locked, V.ListsOk, V.Find, V.Step, PutVersion;
    WriteEffect(env, s, c);
    OfKey(s, k, v);
    var t := Step(env, s, c).0;
    if t != s {
      var ref := Target(s, c);
      assert RefOf(v) != ref;
      assert RefOf(v) in t.blobs - {ref} <==> RefOf(v) in s.blobs - {ref};
      if t.lists != s.lists {
        PutOrDropSpares(s, t, ref, k, v);
      }
    }
  }

  /** Whatever a write does to the lists, it leaves the versions of other ids and keys alone. */
  lemma PutOrDropSpares(s: State, t: State, ref: Ref, k: ObjectKey, v: ObjectVersion)
    requires ListsPut(s, t, ref) && V.ListsOk(s.lists)
    requires v in V.Get(s.lists, k) && KeyOf(RefOf(v)) == k && RefOf(v) != ref
    ensures v in V.Get(t.lists, k)
  {
    hide V.Step, PutVersion, V.ListsOk, V.Get;
    if w: ObjectVersion :| Ref(w.bucket, w.key, w.versionId) == ref && t.lists == PutVersion(s, w).lists {
      PutSpares(s, k, v, w);
    } else if t.lists != s.lists {
      CutSpares(s, KeyOf(ref), NULL_ID, k, v);
    }
  }

  lemma CutSpares(s: State, k: ObjectKey, id: Str, j: ObjectKey, v: ObjectVersion)
    requires V.ListsOk(s.lists) && v in V.Get(s.lists, j) && (j != k || v.versionId != id)
    ensures v in V.Get(V.Step(s.lists, V.DeleteVersion(k, id)).0, j)
  {
    hide V.Find, V.Without;
    var vs := V.Get(s.lists, k);
    if j == k {
      assert V.ListOk(k, vs);
      V.WithoutIsCut(vs, id);
      V.WithoutMeaning(vs, id);
    }
  }

  lemma DeleteVersionSpares(env: Env, s: State, k: ObjectKey, id: Str, save: Save, left: set<Ref>, now: int,
                            j: ObjectKey, v: ObjectVersion)
    requires Holds(env, s, j, v, now)
    ensures Survives(s, DoDeleteVersion(env, s, k, id, save, left, now).0, j, v)
  {
    hide Locked, V.Find, V.Step, V.ListsOk;
    OfKey(s, j, v);
    AllOfKey(s, k);
    var vs := V.Get(s.lists, k);
    var i := V.Find(vs, id);
    if i >= 0 && !Locked(env, vs[i], now) {
      assert vs[i] in vs;
      CutSpares(s, k, id, j, v);
    }
  }

  lemma AllOfKey(s: State, k: ObjectKey)
    requires V.ListsOk(s.lists)
    ensures forall w :: w in V.Get(s.lists, k) ==> KeyOf(RefOf(w)) == k
  {
  }

  lemma MarkerSpares(s: State, k: ObjectKey, id: Str, at: int, save: Save, j: ObjectKey, v: ObjectVersion)
    requires v in V.Get(s.lists, j) && id != NULL_ID
    ensures v in V.Get(SaveVersion(s, V.Marker(k, id, at), save).lists, j)
  {
  }

  lemma DeleteAllMeans(s: State, k: ObjectKey, j: ObjectKey)
    ensures V.Get(V.Step(s.lists, V.DeleteAll(k)).0, j) == if j == k then [] else V.Get(s.lists, j)
  {
  }

  lemma RefsElsewhere(s: State, k: ObjectKey, v: ObjectVersion)
    requires V.ListsOk(s.lists) && KeyOf(RefOf(v)) != k
    ensures RefOf(v) !in RefsOf(V.Get(s.lists, k))
  {
    AllOfKey(s, k);
  }

  /** Removing all versions of another key. */
  lemma RemoveElsewhere(s: State, j: ObjectKey, save: Save, left: set<Ref>, k: ObjectKey, v: ObjectVersion)
    requires V.ListsOk(s.lists) && v in V.Get(s.lists, k) && KeyOf(RefOf(v)) == k && j != k
    ensures Survives(s, Remove(s, V.Step(s.lists, V.DeleteAll(j)).0, RefsOf(V.Get(s.lists, j)), save, left).0, k, v)
  {
    hide V.ListsOk, V.Step, V.Get, RefsOf;
    DeleteAllMeans(s, j, k);
    RefsElsewhere(s, j, v);
  }

  /** Removing all versions of the key itself. */
  lemma RemoveHere(s: State, save: Save, left: set<Ref>, k: ObjectKey, v: ObjectVersion)
    requires v in V.Get(s.lists, k)
    ensures Survives(s, Remove(s, V.Step(s.lists, V.DeleteAll(k)).0, RefsOf(V.Get(s.lists, k)), save, left).0, k, v)
       <==> !Takes(save)
  {
    hide V.Step, V.Get, RefsOf;
    DeleteAllMeans(s, k, k);
  }

  lemma DeleteAllSpares(env: Env, s: State, c: Call, k: ObjectKey, v: ObjectVersion)
    requires c.DeleteObject? && c.versionId == [] && Holds(env, s, k, v, c.now)
    requires c.bucket in s.buckets ==> s.buckets[c.bucket].versioning != ENABLED
    ensures Survives(s, DoDelete(env, s, c).0, k, v) <==> !UnguardedDelete(env, s, c, k)
  {
    hide Locked, V.ListsOk, V.Step, V.Get, RefsOf, Remove, Survives;
    var j := ObjectKey(c.bucket, c.key);
    OfKey(s, k, v);
    StillSurvives(s, k, v);
    if j == k { RemoveHere(s, c.save, c.left, k, v); } else { RemoveElsewhere(s, j, c.save, c.left, k, v); }
  }

  lemma StillSurvives(s: State, k: ObjectKey, v: ObjectVersion)
    requires v in V.Get(s.lists, k)
    ensures Survives(s, s, k, v)
  {
  }

  lemma DeleteSpares(env: Env, s: State, c: Call, k: ObjectKey, v: ObjectVersion)
    requires FreshCall(s, c) && c.DeleteObject? && Holds(env, s, k, v, c.now)
    ensures Survives(s, DoDelete(env, s, c).0, k, v) <==> !UnguardedDelete(env, s, c, k)
  {
    hide Locked, DoDeleteVersion, V.ListsOk, V.Step, V.Find, V.Get, V.HasId, RefsOf, SaveVersion;
    var j := ObjectKey(c.bucket, c.key);
    OfKey(s, k, v);
    if c.versionId != [] {
      DeleteVersionSpares(env, s, j, c.versionId, c.save, c.left, c.now, k, v);
    } else if c.bucket in s.buckets && s.buckets[c.bucket].versioning == ENABLED {
      MarkerSpares(s, j, c.newId, c.now, c.save, k, v);
    } else {
      hide DoDelete, UnguardedDelete;
      DeleteAllSpares(env, s, c, k, v);
    }
  }

  lemma SetMetadataSpares(s: State, k: ObjectKey, id: Str, metadata: map<Str, Str>, j: ObjectKey)
    requires j != k
    ensures V.Get(SetMetadata(s, k, id, metadata).lists, j) == V.Get(s.lists, j)
  {
    hide V.StepList;
  }

  lemma EditSpares(env: Env, s: State, c: Call, k: ObjectKey)
    requires (c.PutRetention? || c.PutLegalHold?) && !EditsLock(c, k)
    ensures c.PutRetention? ==> SameKey(s, DoPutRetention(env, s, c).0, k)
    ensures c.PutLegalHold? ==> SameKey(s, DoPutLegalHold(s, c).0, k)
  {
    hide V.Step, V.Get, Named, Trim, ToUpper, SetMetadata;
    forall id, m { SetMetadataSpares(s, ObjectKey(c.bucket, c.key), id, m, k); }
  }

  predicate SameKey(s: State, t: State, k: ObjectKey) {
    t.blobs == s.blobs && V.Get(t.lists, k) == V.Get(s.lists, k)
  }

  predicate TouchesObjects(c: Call) {
    Writes(c) || c.DeleteObject? || c.PutRetention? || c.PutLegalHold?
  }

  lemma OtherCallsKeepObjects(env: Env, s: State, c: Call)
    requires EnvOk(env) && ValidCall(c) && !TouchesObjects(c)
    ensures var t := Step(env, s, c).0; t.lists == s.lists && t.blobs == s.blobs
  {
    hide DoPut, DoCopy, DoDelete, DoPutRetention, DoPutLegalHold, DoComplete, DoUploadPart, DoAbort, DoCreateUpload,
         Swept;
  }

  /** Exactly when a locked version, metadata and file included, outlives a call. */
  lemma LockedSurvivesIff(env: Env, s: State, c: Call, k: ObjectKey, v: ObjectVersion)
    requires EnvOk(env) && ValidCall(c) && FreshCall(s, c) && !EditsLock(c, k)
    requires V.ListsOk(s.lists) && v in V.Get(s.lists, k) && LockedFor(env, c, v)
    ensures Survives(s, Step(env, s, c).0, k, v) <==> !UnguardedDelete(env, s, c, k)
  {
    hide DoPut, DoCopy, DoComplete, DoDelete, DoPutRetention, DoPutLegalHold, DoUploadPart, DoCreateUpload, DoAbort,
         Swept, Locked, V.ListsOk, V.Get;
    if Writes(c) {
      WriteSpares(env, s, c, k, v);
    } else if c.DeleteObject? {
      DeleteSpares(env, s, c, k, v);
    } else if c.PutRetention? || c.PutLegalHold? {
      EditSpares(env, s, c, k);
    } else {
      OtherCallsKeepObjects(env, s, c);
    }
  }

  // ---- Whole runs

  /** v is locked whenever one of the calls looks, and no call edits locks of its key. */
  ghost predicate LockedThroughout(env: Env, calls: seq<Call>, k: ObjectKey, v: ObjectVersion) {
    forall i :: 0 <= i < |calls| ==> !EditsLock(calls[i], k) && LockedFor(env, calls[i], v)
  }

  ghost predicate NoUnguardedDelete(env: Env, s: State, calls: seq<Call>, k: ObjectKey)
    requires EnvOk(env) && Runs(env, s, calls)
    decreases |calls|
  {
    calls == [] ||
    var n := |calls| - 1;
    && NoUnguardedDelete(env, s, calls[..n], k)
    && !UnguardedDelete(env, After(env, s, calls[..n]), calls[n], k)
  }

  /** A locked version outlives any run without an unguarded delete of its key. */
  lemma {:induction false} RunKeepsLocked(env: Env, s: State, calls: seq<Call>, k: ObjectKey, v: ObjectVersion)
    requires EnvOk(env) && Runs(env, s, calls) && V.ListsOk(s.lists) && v in V.Get(s.lists, k)
    requires LockedThroughout(env, calls, k, v) && NoUnguardedDelete(env, s, calls, k)
    ensures Survives(s, After(env, s, calls), k, v)
    decreases |calls|
  {
    hide Step, V.ListsOk, Locked, UnguardedDelete;
    if calls != [] {
      var n := |calls| - 1;
      RunKeepsLocked(env, s, calls[..n], k, v);
      RunKeepsLists(env, s, calls[..n]);
      LockedSurvivesIff(env, After(env, s, calls[..n]), calls[n], k, v);
    }
  }

  // ---- Buckets whose versioning does not change

  predicate Switches(c: Call, bucket: Str) {
    c.SetVersioning? && c.bucket == bucket
  }

  predicate Enables(c: Call, bucket: Str) {
    Switches(c, bucket) && c.status == ENABLED
  }

  /** Every bucket call but a switch to Enabled leaves an unversioned bucket unversioned. */
  lemma StepKeepsUnversioned(env: Env, s: State, c: Call, bucket: Str)
    requires EnvOk(env) && ValidCall(c) && !Enables(c, bucket)
    requires bucket in s.buckets ==> s.buckets[bucket].versioning != ENABLED
    ensures var t := Step(env, s, c).0;
            && (bucket in t.buckets ==> t.buckets[bucket].versioning != ENABLED)
            && (bucket in s.buckets ==> bucket in t.buckets)
  {
    hide Step;
    if c.CreateBucket? || c.SetVersioning? {
      BucketCalls(env, s, c);
    } else {
      OtherCallsKeepBuckets(env, s, c);
    }
  }

  lemma BucketCalls(env: Env, s: State, c: Call)
    requires EnvOk(env) && ValidCall(c) && (c.CreateBucket? || c.SetVersioning?)
    ensures var t := Step(env, s, c).0;
            || t.buckets == s.buckets
            || (c.CreateBucket? && c.bucket !in s.buckets
                && t.buckets == s.buckets[c.bucket := Bucket(c.bucket, c.now, c.region, SUSPENDED)])
            || (c.SetVersioning? && c.bucket in s.buckets
                && t.buckets == s.buckets[c.bucket := s.buckets[c.bucket].(versioning := c.status)])
  {
  }

  lemma OtherCallsKeepBuckets(env: Env, s: State, c: Call)
    requires EnvOk(env) && ValidCall(c) && !c.CreateBucket? && !c.SetVersioning?
    ensures Step(env, s, c).0.buckets == s.buckets
  {
    hide DoPut, DoCopy, DoDelete, DoPutRetention, DoPutLegalHold, DoComplete, DoUploadPart, DoAbort, DoCreateUpload,
         Swept;
    if Writes(c) { WriteEffect(env, s, c); }
  }

  lemma StepKeepsBucket(env: Env, s: State, c: Call, bucket: Str)
    requires EnvOk(env) && ValidCall(c) && bucket in s.buckets && !Switches(c, bucket)
    ensures var t := Step(env, s, c).0; bucket in t.buckets && t.buckets[bucket] == s.buckets[bucket]
  {
    hide Step;
    if c.CreateBucket? || c.SetVersioning? {
      BucketCalls(env, s, c);
    } else {
      OtherCallsKeepBuckets(env, s, c);
    }
  }

  /** In a bucket that stays versioned, no locked version is ever lost. */
  lemma {:induction false} EnabledKeepsLocked(env: Env, s: State, calls: seq<Call>, k: ObjectKey, v: ObjectVersion)
    requires EnvOk(env) && Runs(env, s, calls) && V.ListsOk(s.lists) && v in V.Get(s.lists, k)
    requires LockedThroughout(env, calls, k, v)
    requires k.bucket in s.buckets && s.buckets[k.bucket].versioning == ENABLED
    requires forall i :: 0 <= i < |calls| ==> !Switches(calls[i], k.bucket)
    ensures Survives(s, After(env, s, calls), k, v)
  {
    EnabledNeverUnguarded(env, s, calls, k);
    RunKeepsLocked(env, s, calls, k, v);
  }

  lemma {:induction false} EnabledNeverUnguarded(env: Env, s: State, calls: seq<Call>, k: ObjectKey)
    requires EnvOk(env) && Runs(env, s, calls)
    requires k.bucket in s.buckets && s.buckets[k.bucket].versioning == ENABLED
    requires forall i :: 0 <= i < |calls| ==> !Switches(calls[i], k.bucket)
    ensures NoUnguardedDelete(env, s, calls, k)
    ensures var t := After(env, s, calls); k.bucket in t.buckets && t.buckets[k.bucket] == s.buckets[k.bucket]
    decreases |calls|
  {
    hide Step, Locked;
    if calls != [] {
      var n := |calls| - 1;
      EnabledNeverUnguarded(env, s, calls[..n], k);
      StepKeepsBucket(env, After(env, s, calls[..n]), calls[n], k.bucket);
    }
  }

  /** A key whose only version is a locked "null" one, in a bucket that is not versioned. */
  ghost predicate SoleNull(s: State, k: ObjectKey, v: ObjectVersion) {
    && V.Get(s.lists, k) == [v] && v.versionId == NULL_ID
    && k.bucket in s.buckets && s.buckets[k.bucket].versioning != ENABLED
  }

  lemma WriteKeepsSole(env: Env, s: State, c: Call, k: ObjectKey, v: ObjectVersion)
    requires EnvOk(env) && ValidCall(c) && FreshCall(s, c) && V.ListsOk(s.lists) && Writes(c)
    requires SoleNull(s, k, v) && Locked(env, v, c.now)
    ensures V.Get(Step(env, s, c).0.lists, k) == [v]
  {
    hide Step, Locked, V.Step, V.ListsOk, PutVersion;
    WriteEffect(env, s, c);
    var t := Step(env, s, c).0;
    if t.lists != s.lists {
      var ref := Target(s, c);
      if KeyOf(ref) != k { WriteElsewhere(s, t, ref, k); }
    }
  }

  lemma WriteElsewhere(s: State, t: State, ref: Ref, k: ObjectKey)
    requires ListsPut(s, t, ref) && KeyOf(ref) != k
    ensures V.Get(t.lists, k) == V.Get(s.lists, k)
  {
    hide V.Step, PutVersion, V.Get;
    if w: ObjectVersion :| Ref(w.bucket, w.key, w.versionId) == ref && t.lists == PutVersion(s, w).lists {
      PutElsewhere(s, w, k);
    }
    CutElsewhere(s, KeyOf(ref), NULL_ID, k);
  }

  lemma PutElsewhere(s: State, w: ObjectVersion, k: ObjectKey)
    ensures KeyOf(RefOf(w)) != k ==> V.Get(PutVersion(s, w).lists, k) == V.Get(s.lists, k)
  {
    hide V.StepList;
  }

  lemma DeleteKeepsSole(env: Env, s: State, c: Call, k: ObjectKey, v: ObjectVersion)
    requires c.DeleteObject? && SoleNull(s, k, v) && Locked(env, v, c.now)
    ensures V.Get(DoDelete(env, s, c).0.lists, k) == [v]
  {
    hide Locked, V.Without, V.Find, V.Step, RefsOf, SaveVersion;
    var j, vs := ObjectKey(c.bucket, c.key), V.Get(s.lists, k);
    assert vs[0].versionId == NULL_ID;
    DeleteAllMeans(s, j, k);
    if c.versionId != [] && j != k { CutElsewhere(s, j, c.versionId, k); }
    if c.versionId == [] && j != k { MarkerElsewhere(s, j, c.newId, c.now, c.save, k); }
  }

  lemma CutElsewhere(s: State, k: ObjectKey, id: Str, j: ObjectKey)
    requires j != k
    ensures V.Get(V.Step(s.lists, V.DeleteVersion(k, id)).0, j) == V.Get(s.lists, j)
  {
    hide V.StepList;
  }

  lemma MarkerElsewhere(s: State, k: ObjectKey, id: Str, at: int, save: Save, j: ObjectKey)
    requires j != k
    ensures V.Get(SaveVersion(s, V.Marker(k, id, at), save).lists, j) == V.Get(s.lists, j)
  {
    hide V.StepList;
  }

  lemma StepKeepsSole(env: Env, s: State, c: Call, k: ObjectKey, v: ObjectVersion)
    requires EnvOk(env) && ValidCall(c) && FreshCall(s, c) && V.ListsOk(s.lists)
    requires SoleNull(s, k, v) && LockedFor(env, c, v) && !EditsLock(c, k) && !Enables(c, k.bucket)
    ensures SoleNull(Step(env, s, c).0, k, v)
  {
    hide DoPut, DoCopy, DoComplete, DoDelete, DoPutRetention, DoPutLegalHold, Locked, V.ListsOk;
    StepKeepsUnversioned(env, s, c, k.bucket);
    if Writes(c) {
      WriteKeepsSole(env, s, c, k, v);
    } else if c.DeleteObject? {
      DeleteKeepsSole(env, s, c, k, v);
    } else if c.PutRetention? || c.PutLegalHold? {
      EditSpares(env, s, c, k);
    }
  }

  lemma {:induction false} SoleNeverUnguarded(env: Env, s: State, calls: seq<Call>, k: ObjectKey, v: ObjectVersion)
    requires EnvOk(env) && Runs(env, s, calls) && V.ListsOk(s.lists) && SoleNull(s, k, v)
    requires LockedThroughout(env, calls, k, v)
    requires forall i :: 0 <= i < |calls| ==> !Enables(calls[i], k.bucket)
    ensures NoUnguardedDelete(env, s, calls, k) && SoleNull(After(env, s, calls), k, v)
    decreases |calls|
  {
    hide Step, Locked, V.ListsOk;
    if calls != [] {
      var n := |calls| - 1;
      SoleNeverUnguarded(env, s, calls[..n], k, v);
      RunKeepsLists(env, s, calls[..n]);
      StepKeepsSole(env, After(env, s, calls[..n]), calls[n], k, v);
    }
  }

  // ---- Buckets that never were versioned

  predicate NullOnly(vs: seq<ObjectVersion>) {
    vs == [] || (|vs| == 1 && vs[0].versionId == NULL_ID)
  }

  /** The bucket is not versioned, and each of its keys has one "null" version or none. */
  ghost predicate Unversioned(s: State, bucket: Str) {
    && (bucket in s.buckets ==> s.buckets[bucket].versioning != ENABLED)
    && forall k: ObjectKey :: k.bucket == bucket ==> NullOnly(V.Get(s.lists, k))
  }

  lemma PutStaysNull(s: State, w: ObjectVersion, k: ObjectKey)
    requires NullOnly(V.Get(s.lists, k)) && (KeyOf(RefOf(w)) == k ==> w.versionId == NULL_ID)
    ensures NullOnly(V.Get(PutVersion(s, w).lists, k))
  {
    var vs := V.Get(s.lists, k);
    V.WithoutMeaning(vs, NULL_ID);
    assert |vs| == 1 ==> vs[..0] == [] && V.Without(vs, NULL_ID) == [];
  }

  lemma WriteStaysNull(env: Env, s: State, c: Call, k: ObjectKey)
    requires EnvOk(env) && ValidCall(c) && Writes(c) && NullOnly(V.Get(s.lists, k))
    requires k.bucket in s.buckets ==> s.buckets[k.bucket].versioning != ENABLED
    ensures NullOnly(V.Get(Step(env, s, c).0.lists, k))
  {
    hide Step, V.Step, PutVersion, NullLocked;
    WriteEffect(env, s, c);
    var t := Step(env, s, c).0;
    if t.lists != s.lists {
      var ref := Target(s, c);
      CutStaysNull(s, KeyOf(ref), NULL_ID, k);
      if w: ObjectVersion :| Ref(w.bucket, w.key, w.versionId) == ref && t.lists == PutVersion(s, w).lists {
        PutStaysNull(s, w, k);
      }
    }
  }

  lemma CutStaysNull(s: State, k: ObjectKey, id: Str, j: ObjectKey)
    requires NullOnly(V.Get(s.lists, j))
    ensures NullOnly(V.Get(V.Step(s.lists, V.DeleteVersion(k, id)).0, j))
  {
    hide V.Find;
  }

  lemma DeleteStaysNull(env: Env, s: State, c: Call, k: ObjectKey)
    requires c.DeleteObject? && NullOnly(V.Get(s.lists, k))
    requires k.bucket in s.buckets ==> s.buckets[k.bucket].versioning != ENABLED
    ensures NullOnly(V.Get(DoDelete(env, s, c).0.lists, k))
  {
    hide V.Step, V.Find, V.Get, Locked, RefsOf, NullOnly, SaveVersion;
    var j := ObjectKey(c.bucket, c.key);
    CutStaysNull(s, j, c.versionId, k);
    DeleteAllMeans(s, j, k);
    assert NullOnly([]) by { NullOnlyEmpty(); }
    if j != k { MarkerElsewhere(s, j, c.newId, c.now, c.save, k); }
  }

  lemma NullOnlyEmpty()
    ensures NullOnly([])
  {
  }

  lemma UpdateStaysNull(s: State, k: ObjectKey, id: Str, metadata: map<Str, Str>, j: ObjectKey)
    requires NullOnly(V.Get(s.lists, j))
    ensures NullOnly(V.Get(SetMetadata(s, k, id, metadata).lists, j))
  {
    hide V.Find;
  }

  lemma LocksStayNull(env: Env, s: State, c: Call, k: ObjectKey)
    requires (c.PutRetention? || c.PutLegalHold?) && NullOnly(V.Get(s.lists, k))
    ensures c.PutRetention? ==> NullOnly(V.Get(DoPutRetention(env, s, c).0.lists, k))
    ensures c.PutLegalHold? ==> NullOnly(V.Get(DoPutLegalHold(s, c).0.lists, k))
  {
    hide V.Step, V.Get, Named, Trim, ToUpper, NullOnly, SetMetadata;
    forall j, id, m { UpdateStaysNull(s, j, id, m, k); }
  }

  lemma StepStaysNull(env: Env, s: State, c: Call, k: ObjectKey)
    requires EnvOk(env) && ValidCall(c) && NullOnly(V.Get(s.lists, k))
    requires k.bucket in s.buckets ==> s.buckets[k.bucket].versioning != ENABLED
    ensures NullOnly(V.Get(Step(env, s, c).0.lists, k))
  {
    hide DoPut, DoCopy, DoComplete, DoDelete, DoPutRetention, DoPutLegalHold, V.Get, NullOnly;
    if Writes(c) {
      WriteStaysNull(env, s, c, k);
    } else if c.DeleteObject? {
      DeleteStaysNull(env, s, c, k);
    } else if c.PutRetention? || c.PutLegalHold? {
      LocksStayNull(env, s, c, k);
    }
  }

  /** A bucket that was never switched to Enabled keeps one "null" version per key. */
  lemma {:induction false} RunStaysUnversioned(env: Env, calls: seq<Call>, bucket: Str)
    requires EnvOk(env) && Runs(env, Empty, calls)
    requires forall i :: 0 <= i < |calls| ==> !Enables(calls[i], bucket)
    ensures Unversioned(After(env, Empty, calls), bucket)
    decreases |calls|
  {
    hide Step, NullOnly, V.Get;
    if calls == [] {
      forall k: ObjectKey | k.bucket == bucket
        ensures NullOnly(V.Get(Empty.lists, k))
      {
        NullOnlyEmpty();
        EmptyGet(k);
      }
    } else {
      var n := |calls| - 1;
      RunStaysUnversioned(env, calls[..n], bucket);
      var s := After(env, Empty, calls[..n]);
      StepKeepsUnversioned(env, s, calls[n], bucket);
      forall k: ObjectKey | k.bucket == bucket
        ensures NullOnly(V.Get(Step(env, s, calls[n]).0.lists, k))
      {
        StepStaysNull(env, s, calls[n], k);
      }
    }
  }

  lemma EmptyGet(k: ObjectKey)
    ensures V.Get(Empty.lists, k) == []
  {
  }

  /** In a bucket that never was versioned, a version outlives every run made while it is
      locked: it stays the one version of its key, with its metadata and its file. */
  lemma SuspendedKeepsLocked(env: Env, before: seq<Call>, calls: seq<Call>, k: ObjectKey, v: ObjectVersion)
    requires EnvOk(env) && Runs(env, Empty, before) && Runs(env, After(env, Empty, before), calls)
    requires forall i :: 0 <= i < |before| ==> !Enables(before[i], k.bucket)
    requires forall i :: 0 <= i < |calls| ==> !Enables(calls[i], k.bucket)
    requires k.bucket in After(env, Empty, before).buckets
    requires v in V.Get(After(env, Empty, before).lists, k) && LockedThroughout(env, calls, k, v)
    ensures var s := After(env, Empty, before);
            var t := After(env, s, calls);
            V.Get(t.lists, k) == [v] && SameFile(s, t, RefOf(v))
  {
    hide Step, Locked, V.ListsOk, V.Get;
    var s := After(env, Empty, before);
    RunStaysUnversioned(env, before, k.bucket);
    EmptyListsOk();
    RunKeepsLists(env, Empty, before);
    assert NullOnly(V.Get(s.lists, k));
    SoleNeverUnguarded(env, s, calls, k, v);
    RunKeepsLocked(env, s, calls, k, v);
  }

  lemma EmptyListsOk()
    ensures V.ListsOk(Empty.lists)
  {
  }

  // ---- What setting a lock does

  /** RFC 3339 without fractions: a time with a four-digit UTC year reads back cut to the
      second, and what any other time is formatted to does not parse. */
  ghost predicate TimeOk(env: Env, t: int) {
    env.parseTime(Trim(env.formatTime(t), Space)) == if Expressible(t) then Some(Floor(t)) else None
  }

  lemma UpdatedReads(s: State, k: ObjectKey, v: ObjectVersion, metadata: map<Str, Str>)
    requires V.ListsOk(s.lists) && v in V.Get(s.lists, k)
    ensures V.Step(SetMetadata(s, k, v.versionId, metadata).lists, V.GetVersion(k, v.versionId)).1
         == V.One(v.(metadata := metadata))
  {
    hide V.Find;
    OfKey(s, k, v);
    var vs := V.Get(s.lists, k);
    var i := V.Find(vs, v.versionId);
    var out := vs[i := v.(metadata := metadata)];
    assert V.ListOk(k, vs);
    assert forall j | 0 <= j < |vs| :: out[j].versionId == vs[j].versionId;
    V.FindAt(out, i);
  }

  lemma NamedIsStored(s: State, k: ObjectKey, id: Str)
    ensures Named(s, k, id).Some? ==> Named(s, k, id).value in V.Get(s.lists, k)
  {
  }

  /** An accepted retention locks the version it names until its date, cut to the second, if
      that date is before the UTC year 10000, and not at all if it is not; a legal hold locks
      it regardless. */
  lemma RetentionLocks(env: Env, s: State, c: Call, at: int)
    requires V.ListsOk(s.lists) && c.PutRetention? && DoPutRetention(env, s, c).1 == Ok
    requires var until := env.parseTime(Trim(c.until, Space)); until.Some? ==> TimeOk(env, until.value)
    ensures var k, v := ObjectKey(c.bucket, c.key), Named(s, ObjectKey(c.bucket, c.key), c.versionId);
            && v.Some?
            && var w := Named(DoPutRetention(env, s, c).0, k, v.value.versionId);
               var until := env.parseTime(Trim(c.until, Space));
               && w.Some? && until.Some? && w.value.(metadata := v.value.metadata) == v.value
               && (Locked(env, w.value, at) <==>
                   || EqualFold(Lookup(v.value.metadata, LEGAL_HOLD_KEY), ON)
                   || (Expressible(until.value) && at < Floor(until.value)))
  {
    hide V.Step, V.Find, V.ListsOk, Trim, ToUpper, EqualFold;
    var k, v := ObjectKey(c.bucket, c.key), Named(s, ObjectKey(c.bucket, c.key), c.versionId);
    var mode, until := ToUpper(Trim(c.mode, Space)), env.parseTime(Trim(c.until, Space));
    NamedIsStored(s, k, c.versionId);
    var m := v.value.metadata[RETENTION_MODE_KEY := mode][RETAIN_UNTIL_KEY := env.formatTime(until.value)];
    UpdatedReads(s, k, v.value, m);
    assert |LEGAL_HOLD_KEY| == 17 && |RETENTION_MODE_KEY| == 21 && |RETAIN_UNTIL_KEY| == 29;
  }

  const LATE_DATE: Str := Ascii("9999-12-31T23:59:59-01:00")

  /** The last second of 9999 west of Greenwich is a date in the UTC year 10000: it is
      accepted, and leaves a version without a legal hold unlocked at every time. */
  lemma LateRetentionNeverLocks(env: Env, s: State, c: Call, at: int)
    requires V.ListsOk(s.lists) && env.parseTime(LATE_DATE) == Some(END_TIME + 3599 * SECOND)
    requires TimeOk(env, END_TIME + 3599 * SECOND)
    requires c.PutRetention? && c.mode == Ascii("GOVERNANCE") && c.until == LATE_DATE && c.save == Saved
    requires c.now < END_TIME
    requires var v := Named(s, ObjectKey(c.bucket, c.key), c.versionId);
             v.Some? && !EqualFold(Lookup(v.value.metadata, LEGAL_HOLD_KEY), ON)
    ensures var k, v := ObjectKey(c.bucket, c.key), Named(s, ObjectKey(c.bucket, c.key), c.versionId);
            var (t, reply) := DoPutRetention(env, s, c);
            && reply == Ok
            && var w := Named(t, k, v.value.versionId); w.Some? && !Locked(env, w.value, at)
  {
    hide V.Step, V.Find, V.ListsOk, EqualFold, SaveMetadata, Locked;
    PlainInputs();
    assert DoPutRetention(env, s, c).1 == Ok by { SavedReplies(env, s, c); }
    RetentionLocks(env, s, c, at);
  }

  lemma PlainInputs()
    ensures Trim(LATE_DATE, Space) == LATE_DATE
    ensures var mode := Ascii("GOVERNANCE"); ToUpper(Trim(mode, Space)) == mode && mode in MODES
  {
    assert |LATE_DATE| == 25 && LATE_DATE[0] == 57 && LATE_DATE[24] == 48;
    var mode := Ascii("GOVERNANCE");
    assert |mode| == 10 && mode[0] == 71 && mode[9] == 69;
    assert Trim(mode, Space) == mode;
    assert forall i | 0 <= i < 10 :: 65 <= mode[i] <= 90;
    assert ToUpper(mode) == mode;
  }

  lemma SavedReplies(env: Env, s: State, c: Call)
    requires c.PutRetention? && c.save == Saved && Named(s, ObjectKey(c.bucket, c.key), c.versionId).Some?
    requires ToUpper(Trim(c.mode, Space)) in MODES
    requires var until := env.parseTime(Trim(c.until, Space)); until.Some? && until.value > c.now
    ensures DoPutRetention(env, s, c).1 == Ok
  {
    hide V.Step, Named, Trim, ToUpper, SetMetadata;
  }

  /** Turning a legal hold on locks the version at every time; turning it off leaves exactly
      its retention. */
  lemma LegalHoldLocks(env: Env, s: State, c: Call, at: int)
    requires V.ListsOk(s.lists) && c.PutLegalHold? && DoPutLegalHold(s, c).1 == Ok
    ensures var k, v := ObjectKey(c.bucket, c.key), Named(s, ObjectKey(c.bucket, c.key), c.versionId);
            && v.Some?
            && var w := Named(DoPutLegalHold(s, c).0, k, v.value.versionId);
               && w.Some? && w.value.(metadata := v.value.metadata) == v.value
               && (Locked(env, w.value, at) <==>
                   || ToUpper(Trim(c.status, Space)) == ON
                   || Locked(env, v.value.(metadata := v.value.metadata - {LEGAL_HOLD_KEY}), at))
  {
    hide V.Step, V.Find, V.ListsOk, Trim, ToUpper;
    var k, v := ObjectKey(c.bucket, c.key), Named(s, ObjectKey(c.bucket, c.key), c.versionId);
    NamedIsStored(s, k, c.versionId);
    UpdatedReads(s, k, v.value, v.value.metadata[LEGAL_HOLD_KEY := ToUpper(Trim(c.status, Space))]);
    assert |LEGAL_HOLD_KEY| == 17 && |RETAIN_UNTIL_KEY| == 29;
  }

  // ---- How a locked version is lost

  const ZERO_IV: Str := [0, 0, 0, 0, 0, 0, 0, 0, 0, 0, 0, 0, 0, 0, 0, 0]

  /** Suspend versioning, put an ordinary object, delete it. */
  function LosingCalls(k: ObjectKey, newId: Str, now: int): seq<Call> {
    [SetVersioning(k.bucket, SUSPENDED, Saved),
     PutObject(k.bucket, k.key, [], Good, false, ZERO_IV, map[], newId, Saved, true, now),
     DeleteObject(k.bucket, k.key, [], newId, Saved, {}, now)]
  }

  lemma OrdinaryPut(env: Env, s: State, k: ObjectKey, newId: Str, now: int)
    requires EnvOk(env) && k.bucket in s.buckets && s.buckets[k.bucket].versioning != ENABLED
    requires !NullLocked(env, s, k, NULL_ID, now) && env.parseTime([]).None?
    ensures var t := DoPut(env, s, LosingCalls(k, newId, now)[1]).0;
            var vs := V.Get(t.lists, k);
            t.buckets == s.buckets && vs != [] && !Locked(env, vs[|vs| - 1], now)
            && forall w :: w in vs ==> w in V.Get(s.lists, k) || w.versionId == NULL_ID
  {
    hide V.Find, NullLocked, HexEncode;
    V.WithoutMeaning(V.Get(s.lists, k), NULL_ID);
    assert Lookup(MarkSse(map[], false), LEGAL_HOLD_KEY) == [];
  }

  /** From any state of an existing bucket whose "null" version of the key is not locked, three
      calls, none of which edits a lock, lose every locked version of the key. */
  lemma SuspendingLosesLocked(env: Env, s: State, k: ObjectKey, v: ObjectVersion, newId: Str, now: int)
    requires EnvOk(env) && V.ListsOk(s.lists) && v in V.Get(s.lists, k) && Locked(env, v, now)
    requires k.bucket in s.buckets && !NullLocked(env, s, k, NULL_ID, now) && env.parseTime([]).None?
    requires newId != [] && newId != NULL_ID && !V.HasId(V.Get(s.lists, k), newId)
    ensures var calls := LosingCalls(k, newId, now);
            && Runs(env, s, calls) && LockedThroughout(env, calls, k, v)
            && V.Get(After(env, s, calls).lists, k) == []
  {
    hide V.Find, V.Step, V.HasId, DoPut, DoDelete, Locked, V.ListsOk, NullLocked;
    var calls := LosingCalls(k, newId, now);
    var s1 := s.(buckets := s.buckets[k.bucket := s.buckets[k.bucket].(versioning := SUSPENDED)]);
    assert NullLocked(env, s1, k, NULL_ID, now) == NullLocked(env, s, k, NULL_ID, now) by {
      SameNullLocked(env, s, s1, k, now);
    }
    OrdinaryPut(env, s1, k, newId, now);
    var s2 := DoPut(env, s1, calls[1]).0;
    StillFresh(s1, s2, k, newId);
    EmptiesKey(env, s2, calls[2]);
    RunOfThree(env, s, calls, s1, s2);
  }

  lemma SameNullLocked(env: Env, s: State, t: State, k: ObjectKey, now: int)
    requires s.lists == t.lists
    ensures NullLocked(env, s, k, NULL_ID, now) == NullLocked(env, t, k, NULL_ID, now)
  {
  }

  lemma StillFresh(s: State, t: State, k: ObjectKey, id: Str)
    requires !V.HasId(V.Get(s.lists, k), id) && id != NULL_ID
    requires forall w :: w in V.Get(t.lists, k) ==> w in V.Get(s.lists, k) || w.versionId == NULL_ID
    ensures !V.HasId(V.Get(t.lists, k), id)
  {
  }

  /** An unguarded delete removes every version of the key. */
  lemma EmptiesKey(env: Env, s: State, c: Call)
    requires c.DeleteObject? && UnguardedDelete(env, s, c, ObjectKey(c.bucket, c.key))
    ensures V.Get(DoDelete(env, s, c).0.lists, ObjectKey(c.bucket, c.key)) == []
  {
    hide Locked, V.Step, RefsOf;
    DeleteAllMeans(s, ObjectKey(c.bucket, c.key), ObjectKey(c.bucket, c.key));
  }

  lemma RunOfThree(env: Env, s: State, calls: seq<Call>, s1: State, s2: State)
    requires EnvOk(env) && |calls| == 3 && forall c :: c in calls ==> ValidCall(c)
    requires FreshCall(s, calls[0]) && FreshCall(s1, calls[1]) && FreshCall(s2, calls[2])
    requires s1 == Step(env, s, calls[0]).0 && s2 == Step(env, s1, calls[1]).0
    ensures Runs(env, s, calls) && After(env, s, calls) == Step(env, s2, calls[2]).0
  {
    hide Step, FreshCall, ValidCall;
    assert calls[0] in calls && calls[1] in calls && calls[2] in calls;
    RunExtends(env, s, [], calls[0]);
    RunExtends(env, s, [] + [calls[0]], calls[1]);
    RunExtends(env, s, [] + [calls[0]] + [calls[1]], calls[2]);
    assert calls == [] + [calls[0]] + [calls[1]] + [calls[2]];
  }

  lemma RunExtends(env: Env, s: State, calls: seq<Call>, c: Call)
    requires EnvOk(env) && Runs(env, s, calls) && ValidCall(c) && FreshCall(After(env, s, calls), c)
    ensures Runs(env, s, calls + [c]) && After(env, s, calls + [c]) == Step(env, After(env, s, calls), c).0
  {
    hide Step, FreshCall, ValidCall;
    assert (calls + [c])[..|calls|] == calls;
  }
}
