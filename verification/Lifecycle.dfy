/** The lifecycle worker: scan, then delete expired keys in batches with retries
    (internal/lifecycle/worker.go). */
module Lifecycle {
  import opened Arith
  import opened Bytes
  import opened Metadata
  import V = Versions
  import opened ObjectServer
  import L = ListPages

  type Blobs = map<Ref, Str>

  /** What one attempt, or all attempts, to delete a key came to. */
  datatype Attempt = Removed | Missing | Failed

  /** The sleep after the n-th failure: the backoff doubled n times in 64 bits, and none at all
      where that is not positive. */
  function Sleep(backoff: Duration, n: nat): (d: Duration)
    ensures d >= 0
  {
    var d := Wrap(backoff * Pow2(n));
    if backoff <= 0 || d <= 0 then 0 else d
  }

  /** The sleep before n retries together. */
  function Slept(backoff: Duration, n: nat): (d: int)
    ensures d >= 0
  {
    if n == 0 then 0 else Slept(backoff, n - 1) + Sleep(backoff, n - 1)
  }

  /** What doubling the backoff each time would come to. */
  function Backoffs(backoff: int, n: nat): int {
    if backoff <= 0 then 0 else backoff * (Pow2(n) - 1)
  }

  /** How a store operation goes: as asked, not at all, or, where records are in memory and
      cannot be persisted, done and yet reported as failed. */
  datatype Fault = Fine | Fails | FailsAfter

  function Cleared(lists: V.Lists, k: ObjectKey): V.Lists {
    V.Step(lists, V.DeleteAll(k)).0
  }

  /** All versions of k are gone, and the files of the first n of them. */
  ghost predicate Gone(lists: V.Lists, blobs: Blobs, k: ObjectKey, n: nat, lists': V.Lists, blobs': Blobs)
    requires n <= |V.Get(lists, k)|
  {
    lists' == Cleared(lists, k) && blobs' == blobs - RefsOf(V.Get(lists, k)[..n])
  }

  /** Nothing happened, or the records are gone while some file may be left behind. */
  ghost predicate Partial(lists: V.Lists, blobs: Blobs, k: ObjectKey, lists': V.Lists, blobs': Blobs) {
    || (lists' == lists && blobs' == blobs)
    || exists n :: 0 <= n < |V.Get(lists, k)| && Gone(lists, blobs, k, n, lists', blobs')
  }

  /** What each outcome says about the stores. */
  ghost predicate Tells(r: Attempt, lists: V.Lists, blobs: Blobs, k: ObjectKey, lists': V.Lists, blobs': Blobs) {
    match r
    case Removed => V.Get(lists, k) != [] && Gone(lists, blobs, k, |V.Get(lists, k)|, lists', blobs')
    case Missing => V.Get(lists, k) == [] && lists' == lists && blobs' == blobs
    case Failed => Partial(lists, blobs, k, lists', blobs')
  }

  lemma ClearedGet(lists: V.Lists, k: ObjectKey, j: ObjectKey)
    ensures V.Get(Cleared(lists, k), j) == if j == k then [] else V.Get(lists, j)
  {
  }

  // ---- Which objects a scan picks

  datatype Rule = Rule(prefix: Str, expireAfter: Duration)

  /** A bucket's own lifecycle document: none, switched off, rules, or a failure to get them. */
  datatype BucketConfig = Absent | Off | Rules(rules: seq<Rule>) | Unusable

  predicate Expires(rules: seq<Rule>, key: Str, age: int) {
    exists r :: r in rules && r.expireAfter <= age && r.prefix <= key
  }

  /** The rules in force for a bucket: the worker's, then the bucket's own. */
  function InForce(rules: seq<Rule>, config: BucketConfig): seq<Rule> {
    if config.Rules? then rules + config.rules else rules
  }

  function Picked(rules: seq<Rule>, objects: seq<ObjectVersion>, now: int): seq<ObjectVersion> {
    if objects == [] then []
    else
      var obj := objects[|objects| - 1];
      var before := Picked(rules, objects[..|objects| - 1], now);
      if now >= obj.createdAt && Expires(rules, obj.key, now - obj.createdAt) then before + [obj] else before
  }

  /** Whether a bucket is scanned, passed over, or counted as failed. */
  datatype Visit = Look(objects: seq<ObjectVersion>) | Skip | Trouble

  function VisitOf(rules: seq<Rule>, config: BucketConfig, listing: Option<seq<ObjectVersion>>): Visit {
    if config.Unusable? then Trouble
    else if InForce(rules, config) == [] then Skip
    else if listing.None? then Trouble
    else Look(listing.value)
  }

  datatype Found = Found(candidates: seq<ObjectVersion>, scanned: nat, failed: nat)

  function FoundIn(rules: seq<Rule>, config: Str -> BucketConfig, listing: Str -> Option<seq<ObjectVersion>>,
                   buckets: seq<Str>, now: int): Found {
    if buckets == [] then Found([], 0, 0)
    else
      var b := buckets[|buckets| - 1];
      var before := FoundIn(rules, config, listing, buckets[..|buckets| - 1], now);
      match VisitOf(rules, config(b), listing(b))
      case Skip => before
      case Trouble => before.(failed := before.failed + 1)
      case Look(objects) =>
        var picked := Picked(InForce(rules, config(b)), objects, now);
        Found(before.candidates + picked, before.scanned + |objects|, before.failed)
  }

  lemma {:induction false} PickedIff(rules: seq<Rule>, objects: seq<ObjectVersion>, now: int, obj: ObjectVersion)
    ensures obj in Picked(rules, objects, now)
       <==> obj in objects && now >= obj.createdAt && Expires(rules, obj.key, now - obj.createdAt)
  {
    hide Expires;
    if objects != [] {
      var n := |objects| - 1;
      PickedIff(rules, objects[..n], now, obj);
      assert objects == objects[..n] + [objects[n]];
    }
  }

  /** A scan picks exactly the listed objects of usable buckets that some rule in force expires. */
  lemma {:induction false} CandidateIff(rules: seq<Rule>, config: Str -> BucketConfig,
                                        listing: Str -> Option<seq<ObjectVersion>>, buckets: seq<Str>, now: int,
                                        obj: ObjectVersion)
    ensures obj in FoundIn(rules, config, listing, buckets, now).candidates
       <==> exists b :: b in buckets && !config(b).Unusable? && listing(b).Some? && obj in listing(b).value
                        && now >= obj.createdAt && Expires(InForce(rules, config(b)), obj.key, now - obj.createdAt)
  {
    hide Expires, Picked;
    if buckets != [] {
      var n := |buckets| - 1;
      var b := buckets[n];
      CandidateIff(rules, config, listing, buckets[..n], now, obj);
      assert buckets == buckets[..n] + [b];
      if listing(b).Some? { PickedIff(InForce(rules, config(b)), listing(b).value, now, obj); }
      if InForce(rules, config(b)) == [] { NoRuleNoExpiry(obj.key, now - obj.createdAt); }
    }
  }

  function Sum(f: Str -> nat, buckets: seq<Str>): nat {
    if buckets == [] then 0 else Sum(f, buckets[..|buckets| - 1]) + f(buckets[|buckets| - 1])
  }

  /** Some rule is in force in the bucket. */
  predicate Ruled(rules: seq<Rule>, config: BucketConfig) {
    rules != [] || (config.Rules? && config.rules != [])
  }

  /** Counted as failed are the buckets whose rules cannot be had, or that have some and cannot be
      listed; counted as scanned is every object of the others that have some. */
  lemma {:induction false} FoundCounts(rules: seq<Rule>, config: Str -> BucketConfig,
                                       listing: Str -> Option<seq<ObjectVersion>>, buckets: seq<Str>, now: int)
    ensures var found := FoundIn(rules, config, listing, buckets, now);
            && found.failed == Sum(b => if config(b).Unusable? || (Ruled(rules, config(b)) && listing(b).None?)
                                        then 1 else 0, buckets)
            && found.scanned == Sum(b => if !config(b).Unusable? && Ruled(rules, config(b)) && listing(b).Some?
                                         then |listing(b).value| else 0, buckets)
  {
    hide Picked;
    if buckets != [] { FoundCounts(rules, config, listing, buckets[..|buckets| - 1], now); }
  }

  /** An age out of the range of durations counts like the longest one. */
  lemma ExpiresCut(rules: seq<Rule>, key: Str, now: int, createdAt: int)
    ensures Sub(now, createdAt) < 0 <==> now < createdAt
    ensures now >= createdAt ==>
              (Expires(rules, key, Sub(now, createdAt)) <==> Expires(rules, key, now - createdAt))
  {
  }

  lemma NoRuleNoExpiry(key: Str, age: int)
    ensures !Expires([], key, age)
  {
  }

  method MatchesAnyRule(rules: seq<Rule>, key: Str, age: int) returns (matched: bool)
    ensures matched <==> Expires(rules, key, age)
    ensures matched <==> exists r :: r in rules && age >= r.expireAfter && r.prefix <= key
  {
    for i := 0 to |rules|
      invariant forall j :: 0 <= j < i ==> !(rules[j].expireAfter <= age && rules[j].prefix <= key)
    {
      if age < rules[i].expireAfter {
        continue;
      }
      if rules[i].prefix <= key {
        return true;
      }
    }
    matched := false;
  }

  method ScanBucket(rules: seq<Rule>, objects: seq<ObjectVersion>, now: int)
    returns (picked: seq<ObjectVersion>, scanned: nat)
    ensures picked == Picked(rules, objects, now) && scanned == |objects|
  {
    hide Expires;
    picked, scanned := [], 0;
    for i := 0 to |objects|
      invariant picked == Picked(rules, objects[..i], now) && scanned == i
    {
      assert objects[..i + 1][..i] == objects[..i];
      var obj := objects[i];
      scanned := scanned + 1;
      var age := Sub(now, obj.createdAt);
      ExpiresCut(rules, obj.key, now, obj.createdAt);
      if age < 0 {
        continue;
      }
      var matched := MatchesAnyRule(rules, obj.key, age);
      if matched {
        picked := picked + [obj];
      }
    }
    assert objects[..|objects|] == objects;
  }

  method Scan(rules: seq<Rule>, config: Str -> BucketConfig, listing: Str -> Option<seq<ObjectVersion>>,
              buckets: seq<Str>, now: int) returns (found: Found)
    ensures found == FoundIn(rules, config, listing, buckets, now)
  {
    hide Picked;
    found := Found([], 0, 0);
    for i := 0 to |buckets|
      invariant found == FoundIn(rules, config, listing, buckets[..i], now)
    {
      assert buckets[..i + 1][..i] == buckets[..i];
      var b := buckets[i];
      var inForce := rules;
      if config(b).Rules? {
        inForce := inForce + config(b).rules;
      } else if config(b).Unusable? {
        found := found.(failed := found.failed + 1);
        continue;
      }
      if |inForce| == 0 {
        continue;
      }
      if listing(b).None? {
        found := found.(failed := found.failed + 1);
        continue;
      }
      var picked, scanned := ScanBucket(inForce, listing(b).value, now);
      found := Found(found.candidates + picked, found.scanned + scanned, found.failed);
    }
    assert buckets[..|buckets|] == buckets;
  }

  // ---- What the scan sees of the stores

  /** The objects a bucket shows, each once, or a failure to list them. */
  ghost predicate ListedAs(lists: V.Lists, b: Str, fails: bool, got: Option<seq<ObjectVersion>>) {
    if fails then got.None?
    else
      && got.Some? && (forall v :: v in got.value <==> L.ShownInMemory(lists, b, v))
      && forall i, j :: 0 <= i < j < |got.value| ==> got.value[i].key != got.value[j].key
  }

  lemma ListedSo(lists: V.Lists, b: Str, fails: bool, objects: seq<ObjectVersion>)
    requires forall v :: v in objects <==> L.ShownInMemory(lists, b, v)
    requires forall i, j :: 0 <= i < j < |objects| ==> objects[i].key != objects[j].key
    ensures ListedAs(lists, b, fails, if fails then None else Some(objects))
  {
  }

  lemma Keyed(lists: V.Lists)
    requires V.ListsOk(lists)
    ensures L.WellKeyed(lists)
  {
  }

  /** The bucket shows the object, can be scanned, and a rule in force expires the object. */
  ghost predicate Expired(rules: seq<Rule>, config: Str -> BucketConfig, listFails: Str -> bool, lists: V.Lists,
                          now: int, b: Str, obj: ObjectVersion) {
    && !config(b).Unusable? && !listFails(b) && L.ShownInMemory(lists, b, obj)
    && now >= obj.createdAt && Expires(InForce(rules, config(b)), obj.key, now - obj.createdAt)
  }

  lemma PickedFromLists(rules: seq<Rule>, config: Str -> BucketConfig, listFails: Str -> bool, lists: V.Lists,
                        listing: Str -> Option<seq<ObjectVersion>>, buckets: seq<Str>, now: int, obj: ObjectVersion)
    requires forall b :: b in buckets ==> ListedAs(lists, b, listFails(b), listing(b))
    ensures obj in FoundIn(rules, config, listing, buckets, now).candidates
       <==> exists b :: b in buckets && Expired(rules, config, listFails, lists, now, b, obj)
  {
    hide Expires, FoundIn, L.ShownInMemory;
    CandidateIff(rules, config, listing, buckets, now, obj);
    assert forall b :: b in buckets ==> ListedAs(lists, b, listFails(b), listing(b));
  }

  function ListingOf(listed: map<Str, Option<seq<ObjectVersion>>>): Str -> Option<seq<ObjectVersion>> {
    b => if b in listed then listed[b] else None
  }

  // ---- A run over the candidates

  datatype Report = Report(scanned: nat, eligible: nat, deleted: nat, failed: nat)

  function CandidateKey(v: ObjectVersion): ObjectKey {
    ObjectKey(v.bucket, v.key)
  }

  function Counted(r: Attempt, outcomes: seq<Attempt>): nat {
    if outcomes == [] then 0
    else Counted(r, outcomes[..|outcomes| - 1]) + if outcomes[|outcomes| - 1] == r then 1 else 0
  }

  /** How far the candidates so far changed the stores: each key is as it was, files included,
      or has no versions left; only candidates' keys changed; and a key counted as removed has
      neither versions nor files, while any that did not fail has no versions. */
  ghost predicate Progress(lists: V.Lists, blobs: Blobs, candidates: seq<ObjectVersion>, outcomes: seq<Attempt>,
                           lists': V.Lists, blobs': Blobs) {
    && |outcomes| <= |candidates| && V.ListsOk(lists')
    && (forall k :: V.Get(lists', k) == V.Get(lists, k) || V.Get(lists', k) == [])
    && (forall k :: V.Get(lists', k) != V.Get(lists, k) ==>
          exists i :: 0 <= i < |outcomes| && CandidateKey(candidates[i]) == k)
    && (forall ref :: ref in blobs' ==> ref in blobs && blobs'[ref] == blobs[ref])
    && (forall ref :: ref in blobs && ref !in blobs' ==>
          V.Get(lists', KeyOf(ref)) == [] && V.Get(lists, KeyOf(ref)) != [])
    && (forall i :: 0 <= i < |outcomes| && outcomes[i] == Removed ==>
          RemovedWhole(lists, CandidateKey(candidates[i]), lists', blobs'))
    && (forall i :: 0 <= i < |outcomes| && outcomes[i] != Failed ==> V.Get(lists', CandidateKey(candidates[i])) == [])
  }

  ghost predicate RemovedWhole(lists: V.Lists, k: ObjectKey, lists': V.Lists, blobs': Blobs) {
    && V.Get(lists, k) != [] && V.Get(lists', k) == []
    && forall v :: v in V.Get(lists, k) ==> Ref(v.bucket, v.key, v.versionId) !in blobs'
  }

  class Worker {
    const batchSize: nat
    const maxRetries: nat
    const backoff: Duration
    const dryRun: bool
    /** How the n-th store operation goes, and whether the context is over at the n-th look. */
    const faults: nat -> Fault
    const over: nat -> bool
    var tick: nat
    var lists: V.Lists
    var blobs: Blobs
    var queueDepth: int

    constructor (batchSize: int, maxRetries: int, backoff: Duration, dryRun: bool, faults: nat -> Fault,
                 over: nat -> bool, lists: V.Lists, blobs: Blobs)
      ensures this.batchSize == (if batchSize <= 0 then 100 else batchSize) && this.dryRun == dryRun
      ensures this.maxRetries == (if maxRetries < 0 then 0 else maxRetries) && this.backoff == backoff
      ensures this.faults == faults && this.over == over && this.lists == lists && this.blobs == blobs
    {
      this.batchSize := if batchSize <= 0 then 100 else batchSize;
      this.maxRetries := if maxRetries < 0 then 0 else maxRetries;
      this.backoff, this.dryRun, this.faults, this.over := backoff, dryRun, faults, over;
      this.lists, this.blobs, tick, queueDepth := lists, blobs, 0, 0;
    }

    method DeleteOne(k: ObjectKey) returns (r: Attempt)
      modifies this`tick, this`lists, this`blobs
      ensures tick > old(tick)
      ensures Tells(r, old(lists), old(blobs), k, lists, blobs)
      ensures (forall t :: faults(t).Fine?) ==> r != Failed
    {
      hide RefsOf, V.Step;
      tick := tick + 1;
      if faults(tick).Fails? {
        return Failed;
      }
      DeleteAllReplies(lists, k);
      var (after, reply) := V.Step(lists, V.DeleteAll(k));
      if reply.NotFound? {
        return Missing;
      }
      lists := after;
      var versions := reply.versions;
      NoFiles(versions);
      assert blobs == blobs - {};
      if faults(tick).FailsAfter? {
        assert Gone(old(lists), old(blobs), k, 0, lists, blobs);
        return Failed;
      }
      for i := 0 to |versions|
        invariant versions == V.Get(old(lists), k) && tick > old(tick)
        invariant Gone(old(lists), old(blobs), k, i, lists, blobs)
      {
        tick := tick + 1;
        if !faults(tick).Fine? {
          return Failed;
        }
        var v := versions[i];
        MoreFiles(versions, i, old(blobs));
        blobs := blobs - {Ref(v.bucket, v.key, v.versionId)};
      }
      r := Removed;
    }

    /** deleteWithRetry: whatever the failures, Removed means that one attempt took the records
        and every file; a success that finds nothing after a failure counts as failed. */
    method DeleteWithRetry(k: ObjectKey) returns (r: Attempt, attempts: nat, slept: int)
      modifies this`tick, this`lists, this`blobs
      ensures Tells(r, old(lists), old(blobs), k, lists, blobs)
      ensures 1 <= attempts <= maxRetries + 1
      ensures 0 <= slept <= Slept(backoff, maxRetries)
      ensures (forall t :: faults(t).Fine?) ==> r != Failed && attempts == 1 && slept == 0
      ensures (forall t :: !over(t)) && r == Failed && lists == old(lists) && V.Get(old(lists), k) != [] ==>
                attempts == maxRetries + 1
    {
      hide Partial, Gone, V.Step, V.Get, RefsOf, Sleep, Pow2;
      attempts, slept := 0, 0;
      var lastErr := false;
      SleepBound(backoff, 0, maxRetries);
      NothingYet(lists, blobs, k);
      while attempts <= maxRetries
        invariant attempts <= maxRetries + 1 && (lastErr <==> attempts > 0)
        invariant Partial(old(lists), old(blobs), k, lists, blobs)
        invariant !lastErr ==> lists == old(lists) && blobs == old(blobs)
        invariant slept == Slept(backoff, if attempts > maxRetries then maxRetries else attempts)
        invariant (forall t :: faults(t).Fine?) ==> attempts == 0
        decreases maxRetries + 1 - attempts
      {
        ghost var lists1, blobs1 := lists, blobs;
        var attempt := DeleteOne(k);
        AttemptAfter(old(lists), old(blobs), k, lists1, blobs1, attempt, lists, blobs);
        attempts := attempts + 1;
        SleepBound(backoff, attempts - 1, maxRetries);
        if attempt != Failed {
          if lastErr && attempt == Missing {
            return Failed, attempts, slept;
          }
          return attempt, attempts, slept;
        }
        lastErr := true;
        if attempts == maxRetries + 1 {
          break;
        }
        SleepBound(backoff, attempts, maxRetries);
        if backoff <= 0 {
          continue;
        }
        slept := slept + Sleep(backoff, attempts - 1);
        tick := tick + 1;
        if over(tick) {
          return Failed, attempts, slept;
        }
      }
      r := Failed;
    }

    /** RunOnce after the scan: the candidates in batches. */
    method Expire(candidates: seq<ObjectVersion>)
      returns (outcomes: seq<Attempt>, deleted: nat, failed: nat, cancelled: bool)
      requires V.ListsOk(lists) && batchSize > 0
      modifies this
      ensures !cancelled ==> |outcomes| == |candidates| && queueDepth == 0
      ensures (forall t :: !over(t)) ==> !cancelled
      ensures dryRun ==> lists == old(lists) && blobs == old(blobs) && deleted == failed == 0
      ensures !dryRun ==> deleted == Counted(Removed, outcomes) && failed == Counted(Failed, outcomes)
      ensures !dryRun ==> Progress(old(lists), old(blobs), candidates, outcomes, lists, blobs)
      ensures |outcomes| <= |candidates|
      ensures (forall t :: faults(t).Fine?) ==> failed == 0
    {
      hide Progress, V.ListsOk;
      queueDepth := |candidates|;
      var start := 0;
      outcomes, deleted, failed, cancelled := [], 0, 0, false;
      NoProgress(lists, blobs, candidates);
      while start < |candidates|
        invariant 0 <= start && |outcomes| == if start < |candidates| then start else |candidates|
        invariant dryRun ==> lists == old(lists) && blobs == old(blobs) && deleted == failed == 0
        invariant !dryRun ==> deleted == Counted(Removed, outcomes) && failed == Counted(Failed, outcomes)
        invariant !dryRun ==> Progress(old(lists), old(blobs), candidates, outcomes, lists, blobs)
        invariant (forall t :: faults(t).Fine?) ==> failed == 0
      {
        var end := start + batchSize;
        if end > |candidates| {
          end := |candidates|;
        }
        for i := start to end
          invariant |outcomes| == i
          invariant dryRun ==> lists == old(lists) && blobs == old(blobs) && deleted == failed == 0
          invariant !dryRun ==> deleted == Counted(Removed, outcomes) && failed == Counted(Failed, outcomes)
          invariant !dryRun ==> Progress(old(lists), old(blobs), candidates, outcomes, lists, blobs)
          invariant (forall t :: faults(t).Fine?) ==> failed == 0
        {
          tick := tick + 1;
          if over(tick) {
            return outcomes, deleted, failed, true;
          }
          if dryRun {
            outcomes := outcomes + [Missing];
            queueDepth := |candidates| - |outcomes|;
            continue;
          }
          ghost var lists1, blobs1 := lists, blobs;
          var r, _, _ := DeleteWithRetry(CandidateKey(candidates[i]));
          ProgressStep(old(lists), old(blobs), candidates, outcomes, lists1, blobs1, r, lists, blobs);
          assert (outcomes + [r])[..i] == outcomes;
          outcomes := outcomes + [r];
          if r == Failed {
            failed := failed + 1;
          } else if r == Removed {
            deleted := deleted + 1;
          }
          queueDepth := |candidates| - |outcomes|;
        }
        start := start + batchSize;
      }
      queueDepth := 0;
    }

    /** What listing each bucket gives, from the version lists as they are. */
    method ListBuckets(buckets: seq<Str>, listFails: Str -> bool)
      returns (listing: map<Str, Option<seq<ObjectVersion>>>)
      requires V.ListsOk(lists)
      ensures listing.Keys == set b | b in buckets
      ensures forall b :: b in listing ==> ListedAs(lists, b, listFails(b), listing[b])
    {
      hide ListedAs, V.ListsOk;
      listing := map[];
      Keyed(lists);
      for i := 0 to |buckets|
        invariant listing.Keys == set b | b in buckets[..i]
        invariant forall b :: b in listing ==> ListedAs(lists, b, listFails(b), listing[b])
      {
        var b := buckets[i];
        var objects := L.ListObjects(lists, b);
        var got := if listFails(b) then None else Some(objects);
        assert ListedAs(lists, b, listFails(b), got) by { ListedSo(lists, b, listFails(b), objects); }
        listing := listing[b := got];
      }
      assert buckets[..|buckets|] == buckets;
    }

    /** RunOnce: scan every bucket, then expire what was found; each candidate has one outcome. */
    method RunOnce(rules: seq<Rule>, config: Str -> BucketConfig, listFails: Str -> bool, buckets: seq<Str>, now: int)
      returns (report: Report, candidates: seq<ObjectVersion>, outcomes: seq<Attempt>, cancelled: bool,
               listed: map<Str, Option<seq<ObjectVersion>>>)
      requires V.ListsOk(lists) && batchSize > 0
      modifies this
      ensures listed.Keys == set b | b in buckets
      ensures forall b :: b in listed ==> ListedAs(old(lists), b, listFails(b), listed[b])
      ensures forall obj :: obj in candidates <==>
                exists b :: b in buckets && Expired(rules, config, listFails, old(lists), now, b, obj)
      ensures var found := FoundIn(rules, config, ListingOf(listed), buckets, now);
              && candidates == found.candidates && report.eligible == |candidates| && report.scanned == found.scanned
              && report.failed == found.failed + if dryRun then 0 else Counted(Failed, outcomes)
      ensures !cancelled ==> |outcomes| == |candidates| && queueDepth == 0
      ensures dryRun ==> lists == old(lists) && blobs == old(blobs) && report.deleted == 0
      ensures !dryRun ==> report.deleted == Counted(Removed, outcomes)
      ensures !dryRun ==> Progress(old(lists), old(blobs), candidates, outcomes, lists, blobs)
      ensures (forall t :: !over(t)) ==> !cancelled
    {
      hide Progress, V.ListsOk, Expired, FoundIn, ListedAs;
      listed := ListBuckets(buckets, listFails);
      var listing := ListingOf(listed);
      var found := Scan(rules, config, listing, buckets, now);
      candidates := found.candidates;
      forall obj
        ensures obj in candidates <==> exists b :: b in buckets && Expired(rules, config, listFails, lists, now, b, obj)
      {
        PickedFromLists(rules, config, listFails, lists, listing, buckets, now, obj);
      }
      var deleted, failed;
      outcomes, deleted, failed, cancelled := Expire(candidates);
      report := Report(found.scanned, |candidates|, deleted, found.failed + failed);
    }
  }

  lemma NoProgress(lists: V.Lists, blobs: Blobs, candidates: seq<ObjectVersion>)
    requires V.ListsOk(lists)
    ensures Progress(lists, blobs, candidates, [], lists, blobs)
  {
  }

  /** Clearing a candidate's key, with some of its files, is progress. */
  lemma GoneIsProgress(lists: V.Lists, blobs: Blobs, candidates: seq<ObjectVersion>, outcomes: seq<Attempt>,
                       lists1: V.Lists, blobs1: Blobs, n: nat, r: Attempt, lists2: V.Lists, blobs2: Blobs)
    requires Progress(lists, blobs, candidates, outcomes, lists1, blobs1) && |outcomes| < |candidates|
    requires var k := CandidateKey(candidates[|outcomes|]);
             n <= |V.Get(lists1, k)| && V.Get(lists1, k) != [] && Gone(lists1, blobs1, k, n, lists2, blobs2)
             && (r == Removed ==> n == |V.Get(lists1, k)|)
    ensures Progress(lists, blobs, candidates, outcomes + [r], lists2, blobs2)
  {
    hide V.Step, V.ListsOk, V.Get, RefsOf;
    var k := CandidateKey(candidates[|outcomes|]);
    var vs := V.Get(lists1, k);
    assert vs == V.Get(lists, k);
    V.StepOk(lists1, V.DeleteAll(k));
    forall j { ClearedGet(lists1, k, j); }
    FilesOfKey(lists1, k, n);
    forall j | V.Get(lists2, j) != V.Get(lists, j)
      ensures exists i :: 0 <= i < |outcomes + [r]| && CandidateKey(candidates[i]) == j
    {
      if j == k {
        assert CandidateKey(candidates[|outcomes|]) == k;
      } else {
        var i :| 0 <= i < |outcomes| && CandidateKey(candidates[i]) == j;
      }
    }
    forall i | 0 <= i < |outcomes + [r]| && (outcomes + [r])[i] != Failed
      ensures V.Get(lists2, CandidateKey(candidates[i])) == []
    {
      assert i < |outcomes| ==> outcomes[i] != Failed;
      assert V.Get(lists1, CandidateKey(candidates[i])) == [] || CandidateKey(candidates[i]) == k;
    }
    forall i | 0 <= i < |outcomes + [r]| && (outcomes + [r])[i] == Removed
      ensures RemovedWhole(lists, CandidateKey(candidates[i]), lists2, blobs2)
    {
      if i == |outcomes| {
        AllFiles(lists1, k);
      } else {
        assert outcomes[i] == Removed;
        assert RemovedWhole(lists, CandidateKey(candidates[i]), lists1, blobs1);
      }
    }
  }

  lemma FilesOfKey(lists: V.Lists, k: ObjectKey, n: nat)
    requires V.ListsOk(lists) && n <= |V.Get(lists, k)|
    ensures forall ref :: ref in RefsOf(V.Get(lists, k)[..n]) ==> KeyOf(ref) == k
  {
  }

  lemma AllFiles(lists: V.Lists, k: ObjectKey)
    ensures var vs := V.Get(lists, k);
            forall v :: v in vs ==> Ref(v.bucket, v.key, v.versionId) in RefsOf(vs[..|vs|])
  {
    var vs := V.Get(lists, k);
    assert vs[..|vs|] == vs;
  }

  lemma StillIsProgress(lists: V.Lists, blobs: Blobs, candidates: seq<ObjectVersion>, outcomes: seq<Attempt>,
                        lists1: V.Lists, blobs1: Blobs, r: Attempt)
    requires Progress(lists, blobs, candidates, outcomes, lists1, blobs1) && |outcomes| < |candidates| && r != Removed
    requires r == Missing ==> V.Get(lists1, CandidateKey(candidates[|outcomes|])) == []
    ensures Progress(lists, blobs, candidates, outcomes + [r], lists1, blobs1)
  {
    hide V.Step, V.ListsOk, V.Get, RemovedWhole;
    assert forall i | 0 <= i < |outcomes| :: (outcomes + [r])[i] == outcomes[i];
    forall i | 0 <= i < |outcomes + [r]| && (outcomes + [r])[i] != Failed
      ensures V.Get(lists1, CandidateKey(candidates[i])) == []
    {
      assert i < |outcomes| ==> outcomes[i] != Failed;
    }
    forall k | V.Get(lists1, k) != V.Get(lists, k)
      ensures exists i :: 0 <= i < |outcomes + [r]| && CandidateKey(candidates[i]) == k
    {
      var i :| 0 <= i < |outcomes| && CandidateKey(candidates[i]) == k;
    }
  }

  lemma ProgressStep(lists: V.Lists, blobs: Blobs, candidates: seq<ObjectVersion>, outcomes: seq<Attempt>,
                     lists1: V.Lists, blobs1: Blobs, r: Attempt, lists2: V.Lists, blobs2: Blobs)
    requires Progress(lists, blobs, candidates, outcomes, lists1, blobs1) && |outcomes| < |candidates|
    requires Tells(r, lists1, blobs1, CandidateKey(candidates[|outcomes|]), lists2, blobs2)
    ensures Progress(lists, blobs, candidates, outcomes + [r], lists2, blobs2)
  {
    hide V.Step, V.Get, Progress, Gone;
    var k := CandidateKey(candidates[|outcomes|]);
    if r == Removed {
      GoneIsProgress(lists, blobs, candidates, outcomes, lists1, blobs1, |V.Get(lists1, k)|, r, lists2, blobs2);
    } else if lists2 == lists1 && blobs2 == blobs1 {
      StillIsProgress(lists, blobs, candidates, outcomes, lists1, blobs1, r);
    } else {
      var n :| 0 <= n < |V.Get(lists1, k)| && Gone(lists1, blobs1, k, n, lists2, blobs2);
      GoneIsProgress(lists, blobs, candidates, outcomes, lists1, blobs1, n, r, lists2, blobs2);
    }
  }

  lemma NothingYet(lists: V.Lists, blobs: Blobs, k: ObjectKey)
    ensures Partial(lists, blobs, k, lists, blobs)
  {
  }

  lemma DeleteAllReplies(lists: V.Lists, k: ObjectKey)
    ensures V.Step(lists, V.DeleteAll(k)).1 == if V.Get(lists, k) == [] then V.NotFound else V.Many(V.Get(lists, k))
  {
  }

  lemma NoFiles(versions: seq<ObjectVersion>)
    ensures RefsOf(versions[..0]) == {}
  {
  }

  lemma MoreFiles(versions: seq<ObjectVersion>, i: nat, blobs: Blobs)
    requires i < |versions|
    ensures blobs - RefsOf(versions[..i + 1])
         == blobs - RefsOf(versions[..i]) - {Ref(versions[i].bucket, versions[i].key, versions[i].versionId)}
  {
    var v := versions[i];
    assert versions[..i + 1] == versions[..i] + [v];
    assert RefsOf(versions[..i + 1]) == RefsOf(versions[..i]) + {Ref(v.bucket, v.key, v.versionId)};
  }

  lemma {:induction false} SleepBound(backoff: Duration, n: nat, m: nat)
    requires n <= m
    ensures Slept(backoff, n) <= Slept(backoff, m) && (backoff <= 0 ==> Slept(backoff, n) == 0)
    decreases n + m
  {
    hide Wrap;
    if n < m {
      SleepBound(backoff, n, m - 1);
    } else if n > 0 {
      SleepBound(backoff, n - 1, n - 1);
    }
  }

  /** The sleeps are at most what doubling comes to, and exactly that if and only if the longest
      of them is a duration. */
  lemma {:induction false} SleptIff(backoff: Duration, n: nat)
    ensures Slept(backoff, n) <= Backoffs(backoff, n)
    ensures Slept(backoff, n) == Backoffs(backoff, n) <==>
            n == 0 || backoff <= 0 || backoff * Pow2(n - 1) <= MAX_DURATION
  {
    if n == 0 || backoff <= 0 {
      SleepBound(backoff, n, n);
    } else {
      hide Pow2, Sleep;
      SleptIff(backoff, n - 1);
      SleepIff(backoff, n - 1);
      TimesTwice(backoff, Pow2(n - 1));
      Doubled(n);
      if n > 1 {
        Doubled(n - 1);
        TimesTwo(backoff, Pow2(n - 2));
      }
    }
  }

  lemma Doubled(n: nat)
    requires n > 0
    ensures Pow2(n) == 2 * Pow2(n - 1)
  {
  }

  lemma TimesTwo(b: int, x: nat)
    requires b > 0
    ensures b * (2 * x) == 2 * (b * x) && b * x <= b * (2 * x)
  {
  }

  lemma SleepIff(backoff: Duration, n: nat)
    requires backoff > 0
    ensures Sleep(backoff, n) <= backoff * Pow2(n)
    ensures Sleep(backoff, n) == backoff * Pow2(n) <==> backoff * Pow2(n) <= MAX_DURATION
  {
    Pow2Grows(0, n);
    TimesGrows(backoff, 0, Pow2(n));
    WrapBelow(backoff * Pow2(n));
  }

  lemma WrapBelow(x: nat)
    ensures Wrap(x) <= x
  {
  }

  lemma TimesGrows(b: int, x: nat, y: nat)
    requires b > 0 && x <= y
    ensures 0 <= b * x <= b * y
  {
  }

  lemma TimesTwice(b: int, x: int)
    ensures b * (x - 1) + b * x == b * (2 * x - 1)
  {
  }

  /** An attempt made after earlier ones failed: it can only have removed the key if they left
      everything as it was. */
  lemma AttemptAfter(lists: V.Lists, blobs: Blobs, k: ObjectKey, lists1: V.Lists, blobs1: Blobs,
                     r: Attempt, lists2: V.Lists, blobs2: Blobs)
    requires Partial(lists, blobs, k, lists1, blobs1) && Tells(r, lists1, blobs1, k, lists2, blobs2)
    ensures Partial(lists, blobs, k, lists2, blobs2) || r == Removed
    ensures r == Removed ==> Tells(r, lists, blobs, k, lists2, blobs2)
  {
    hide RefsOf, V.Step;
    ClearedGet(lists, k, k);
  }
}
