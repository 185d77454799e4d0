/** The heavy-operation limiter (internal/server/heavy.go): two buffered channels used as
    semaphores and a depth counter, stepped by any number of goroutines in any order. */
module HeavyLimiter {

  /** Where a goroutine stands between two channel operations or counter updates. */
  datatype Pc =
    | Idle         // outside Acquire and Release
    | Admitted     // sent to slots, depth not yet raised
    | Waiting      // in the second select of Acquire
    | Holding      // Acquire returned nil, Release not yet called
    | FreeingSlot  // about to receive from slots, after a cancel or after receiving from workers
    | FreedSlot    // received from slots, depth not yet lowered

  datatype Limiter = Limiter(workers: nat, queue: nat, slotsUsed: nat, workersUsed: nat, depth: int, pcs: map<nat, Pc>)

  /** newHeavyOpLimiter. */
  function New(workers: int, queue: int): (l: Limiter)
    ensures l.workers > 0 && Inv(l)
    ensures (workers > 0 ==> l.workers == workers) && (queue >= 0 ==> l.queue == queue) && l.pcs == map[]
  {
    Limiter(if workers <= 0 then 4 else workers, if queue < 0 then 0 else queue, 0, 0, 0, map[])
  }

  datatype Step =
    | TryAcquire(g: nat)     // select { slots <- ; default: overloaded }
    | RaiseDepth(g: nat)     // adjustDepth(1)
    | TakeWorker(g: nat)     // workers <-
    | Cancel(g: nat)         // <-ctx.Done()
    | ReleaseWorker(g: nat)  // <-workers, the first receive of Release
    | FreeSlot(g: nat)       // <-slots
    | LowerDepth(g: nat)     // adjustDepth(-1)

  function PcOf(l: Limiter, g: nat): Pc {
    if g in l.pcs then l.pcs[g] else Idle
  }

  /** A send needs room in the channel's buffer and a receive an element in it. */
  predicate Enabled(l: Limiter, s: Step) {
    match s
    case TryAcquire(g) => PcOf(l, g).Idle?
    case RaiseDepth(g) => PcOf(l, g).Admitted?
    case TakeWorker(g) => PcOf(l, g).Waiting? && l.workersUsed < l.workers
    case Cancel(g) => PcOf(l, g).Waiting?
    case ReleaseWorker(g) => PcOf(l, g).Holding? && l.workersUsed > 0
    case FreeSlot(g) => PcOf(l, g).FreeingSlot? && l.slotsUsed > 0
    case LowerDepth(g) => PcOf(l, g).FreedSlot?
  }

  function Adjusted(depth: int, delta: int): int {
    if depth + delta < 0 then 0 else depth + delta
  }

  function Apply(l: Limiter, s: Step): Limiter
    requires Enabled(l, s)
  {
    match s
    case TryAcquire(g) =>
      if l.slotsUsed < l.workers + l.queue
      then l.(slotsUsed := l.slotsUsed + 1, pcs := l.pcs[g := Admitted])
      else l
    case RaiseDepth(g) => l.(depth := Adjusted(l.depth, 1), pcs := l.pcs[g := Waiting])
    case TakeWorker(g) => l.(workersUsed := l.workersUsed + 1, pcs := l.pcs[g := Holding])
    case Cancel(g) => l.(pcs := l.pcs[g := FreeingSlot])
    case ReleaseWorker(g) => l.(workersUsed := l.workersUsed - 1, pcs := l.pcs[g := FreeingSlot])
    case FreeSlot(g) => l.(slotsUsed := l.slotsUsed - 1, pcs := l.pcs[g := FreedSlot])
    case LowerDepth(g) => l.(depth := Adjusted(l.depth, -1), pcs := l.pcs[g := Idle])
  }

  // ---- Counting goroutines

  ghost function At(pcs: map<nat, Pc>, where: set<Pc>): set<nat> {
    set g | g in pcs && pcs[g] in where
  }

  ghost function Count(l: Limiter, where: set<Pc>): nat {
    |At(l.pcs, where)|
  }

  ghost const OnSlot := {Admitted, Waiting, Holding, FreeingSlot}
  ghost const Counted := {Waiting, Holding, FreeingSlot, FreedSlot}

  lemma CountMove(l: Limiter, g: nat, to: Pc, where: set<Pc>)
    requires Idle !in where
    ensures |At(l.pcs[g := to], where)| ==
            Count(l, where) - (if PcOf(l, g) in where then 1 else 0) + (if to in where then 1 else 0)
  {
    var before, after := At(l.pcs, where), At(l.pcs[g := to], where);
    var others := before - {g};
    assert before == if g in before then others + {g} else others;
    assert after == if to in where then others + {g} else others;
  }

  lemma CountPositive(l: Limiter, g: nat, where: set<Pc>)
    requires PcOf(l, g) in where && Idle !in where
    ensures Count(l, where) > 0
  {
    assert g in At(l.pcs, where);
  }

  /** The channels hold one element per goroutine that put one there, and the counter
      counts the goroutines that raised it and have not lowered it. */
  ghost predicate Inv(l: Limiter) {
    && l.slotsUsed == Count(l, OnSlot) <= l.workers + l.queue
    && l.workersUsed == Count(l, {Holding}) <= l.workers
    && l.depth == Count(l, Counted)
  }

  lemma StepKeepsInv(l: Limiter, s: Step)
    requires Inv(l) && Enabled(l, s)
    ensures Inv(Apply(l, s))
  {
    var to :=
      match s
      case TryAcquire(_) => Admitted
      case RaiseDepth(_) => Waiting
      case TakeWorker(_) => Holding
      case Cancel(_) => FreeingSlot
      case ReleaseWorker(_) => FreeingSlot
      case FreeSlot(_) => FreedSlot
      case LowerDepth(_) => Idle;
    CountMove(l, s.g, to, OnSlot);
    CountMove(l, s.g, to, {Holding});
    CountMove(l, s.g, to, Counted);
  }

  // ---- Runs

  ghost predicate Runs(l: Limiter, steps: seq<Step>)
    decreases |steps|
  {
    steps == [] || (Enabled(l, steps[0]) && Runs(Apply(l, steps[0]), steps[1..]))
  }

  ghost function After(l: Limiter, steps: seq<Step>): Limiter
    requires Runs(l, steps)
    decreases |steps|
  {
    if steps == [] then l else After(Apply(l, steps[0]), steps[1..])
  }

  lemma {:induction false} RunKeepsInv(l: Limiter, steps: seq<Step>)
    requires Inv(l) && Runs(l, steps)
    ensures Inv(After(l, steps))
    ensures After(l, steps).workers == l.workers && After(l, steps).queue == l.queue
    decreases |steps|
  {
    if steps != [] {
      StepKeepsInv(l, steps[0]);
      RunKeepsInv(Apply(l, steps[0]), steps[1..]);
    }
  }

  /** In every interleaving: at most `workers` goroutines hold the limiter and at most
      workers + queue occupy slots; no receive of Release or of a cancel can block; a
      waiter can proceed when nobody holds; lowering the depth never meets the clamp. */
  lemma SafeInEveryRun(workers: int, queue: int, steps: seq<Step>, g: nat)
    requires Runs(New(workers, queue), steps)
    ensures var l := After(New(workers, queue), steps);
            && Count(l, {Holding}) <= l.workers == New(workers, queue).workers
            && Count(l, OnSlot) <= l.workers + New(workers, queue).queue
            && (PcOf(l, g).Holding? ==> Enabled(l, ReleaseWorker(g)))
            && (PcOf(l, g).FreeingSlot? ==> Enabled(l, FreeSlot(g)))
            && (PcOf(l, g).Waiting? && Count(l, {Holding}) == 0 ==> Enabled(l, TakeWorker(g)))
            && (PcOf(l, g).FreedSlot? ==> l.depth - 1 >= 0)
  {
    var l := After(New(workers, queue), steps);
    RunKeepsInv(New(workers, queue), steps);
    if PcOf(l, g) in {Holding} { CountPositive(l, g, {Holding}); }
    if PcOf(l, g) in OnSlot { CountPositive(l, g, OnSlot); }
    if PcOf(l, g) in Counted { CountPositive(l, g, Counted); }
  }

  ghost predicate Quiescent(l: Limiter) {
    forall g :: PcOf(l, g).Idle?
  }

  /** With everybody out, both channels are empty and the depth is zero. */
  lemma QuiescentIsZero(l: Limiter)
    requires Inv(l) && Quiescent(l)
    ensures l.slotsUsed == 0 && l.workersUsed == 0 && l.depth == 0
  {
    forall g | g in l.pcs
      ensures l.pcs[g].Idle?
    {
      assert PcOf(l, g).Idle?;
    }
    assert At(l.pcs, OnSlot) == {} && At(l.pcs, {Holding}) == {} && At(l.pcs, Counted) == {};
  }

  // ---- No deadlock: everyone inside can leave, and nobody has to give up for it

  ghost function Distance(l: Limiter): nat {
    5 * Count(l, {Admitted}) + 4 * Count(l, {Waiting}) + 3 * Count(l, {Holding}) +
    2 * Count(l, {FreeingSlot}) + Count(l, {FreedSlot})
  }

  lemma DistanceMove(l: Limiter, g: nat, to: Pc)
    ensures Distance(l.(pcs := l.pcs[g := to])) == Distance(l) - Rank(PcOf(l, g)) + Rank(to)
  {
    CountMove(l, g, to, {Admitted});
    CountMove(l, g, to, {Waiting});
    CountMove(l, g, to, {Holding});
    CountMove(l, g, to, {FreeingSlot});
    CountMove(l, g, to, {FreedSlot});
  }

  function Rank(pc: Pc): nat {
    match pc
    case Idle => 0
    case Admitted => 5
    case Waiting => 4
    case Holding => 3
    case FreeingSlot => 2
    case FreedSlot => 1
  }

  /** Somebody inside can take its next step towards leaving. */
  lemma CanMove(l: Limiter) returns (s: Step)
    requires Inv(l) && l.workers > 0 && !Quiescent(l)
    ensures Enabled(l, s) && !s.TryAcquire? && !s.Cancel?
    ensures Distance(Apply(l, s)) < Distance(l)
  {
    var g :| !PcOf(l, g).Idle?;
    if h :| PcOf(l, h).Holding? {
      CountPositive(l, h, {Holding});
      s := ReleaseWorker(h);
      DistanceMove(l, h, FreeingSlot);
    } else {
      assert At(l.pcs, {Holding}) == {} by {
        forall h | h in l.pcs
          ensures l.pcs[h] !in {Holding}
        {
          assert !PcOf(l, h).Holding?;
        }
      }
      match PcOf(l, g)
      case Admitted =>
        s := RaiseDepth(g);
        DistanceMove(l, g, Waiting);
      case Waiting =>
        s := TakeWorker(g);
        DistanceMove(l, g, Holding);
      case FreeingSlot =>
        CountPositive(l, g, OnSlot);
        s := FreeSlot(g);
        DistanceMove(l, g, FreedSlot);
      case FreedSlot =>
        s := LowerDepth(g);
        DistanceMove(l, g, Idle);
    }
  }

  /** From every reachable state the goroutines inside can all run to completion, with no
      cancellation, down to an empty limiter. */
  lemma {:induction false} DrainsToZero(l: Limiter) returns (steps: seq<Step>)
    requires Inv(l) && l.workers > 0
    ensures Runs(l, steps) && (forall s :: s in steps ==> !s.TryAcquire? && !s.Cancel?)
    ensures Quiescent(After(l, steps)) && After(l, steps).depth == 0
    decreases Distance(l)
  {
    if Quiescent(l) {
      steps := [];
      QuiescentIsZero(l);
    } else {
      var s := CanMove(l);
      StepKeepsInv(l, s);
      var rest := DrainsToZero(Apply(l, s));
      steps := [s] + rest;
      assert steps[1..] == rest;
    }
  }

  // ---- The depth against its nominal bound

  /** Between the goroutines that count towards the depth and those that hold a slot lie the
      ones that freed theirs and the ones that have not raised the depth yet. */
  lemma CountSplit(l: Limiter)
    ensures Count(l, Counted) + Count(l, {Admitted}) == Count(l, OnSlot) + Count(l, {FreedSlot})
  {
    var inside := At(l.pcs, {Waiting, Holding, FreeingSlot});
    var admitted, freed := At(l.pcs, {Admitted}), At(l.pcs, {FreedSlot});
    assert At(l.pcs, Counted) == inside + freed && inside !! freed;
    assert At(l.pcs, OnSlot) == inside + admitted && inside !! admitted;
  }

  /** In every interleaving, the depth is within workers + queue exactly while no more
      goroutines have freed their slot and still to lower the depth than there are free slots
      and goroutines that took one and still have to raise it. */
  lemma DepthWithinIff(workers: int, queue: int, steps: seq<Step>)
    requires Runs(New(workers, queue), steps)
    ensures var l := After(New(workers, queue), steps);
            l.depth <= l.workers + l.queue
            <==> Count(l, {FreedSlot}) <= Count(l, {Admitted}) + (l.workers + l.queue - l.slotsUsed)
  {
    RunKeepsInv(New(workers, queue), steps);
    CountSplit(After(New(workers, queue), steps));
  }

  /** One goroutine comes, raises the depth, gives up and frees its slot again. */
  function Visit(g: nat): seq<Step> {
    [TryAcquire(g), RaiseDepth(g), Cancel(g), FreeSlot(g)]
  }

  lemma VisitStates(l: Limiter, g: nat)
    requires PcOf(l, g).Idle? && l.slotsUsed < l.workers + l.queue && l.depth >= 0
    ensures var l1 := l.(slotsUsed := l.slotsUsed + 1, pcs := l.pcs[g := Admitted]);
            var l2 := l1.(depth := l.depth + 1, pcs := l.pcs[g := Waiting]);
            var l3 := l2.(pcs := l.pcs[g := FreeingSlot]);
            && Enabled(l, TryAcquire(g)) && Apply(l, TryAcquire(g)) == l1
            && Enabled(l1, RaiseDepth(g)) && Apply(l1, RaiseDepth(g)) == l2
            && Enabled(l2, Cancel(g)) && Apply(l2, Cancel(g)) == l3
            && Enabled(l3, FreeSlot(g))
            && Apply(l3, FreeSlot(g)) == l.(depth := l.depth + 1, pcs := l.pcs[g := FreedSlot])
  {
    assert l.pcs[g := Admitted][g := Waiting] == l.pcs[g := Waiting];
    assert l.pcs[g := Waiting][g := FreeingSlot] == l.pcs[g := FreeingSlot];
    assert l.pcs[g := FreeingSlot][g := FreedSlot] == l.pcs[g := FreedSlot];
  }

  lemma VisitRuns(l: Limiter, g: nat, rest: seq<Step>)
    requires PcOf(l, g).Idle? && l.slotsUsed < l.workers + l.queue && l.depth >= 0
    requires Runs(l.(depth := l.depth + 1, pcs := l.pcs[g := FreedSlot]), rest)
    ensures Runs(l, Visit(g) + rest)
    ensures After(l, Visit(g) + rest) == After(l.(depth := l.depth + 1, pcs := l.pcs[g := FreedSlot]), rest)
  {
    hide Runs, After, Apply, Enabled;
    VisitStates(l, g);
    var l1 := l.(slotsUsed := l.slotsUsed + 1, pcs := l.pcs[g := Admitted]);
    var l2 := l1.(depth := l.depth + 1, pcs := l.pcs[g := Waiting]);
    var l3 := l2.(pcs := l.pcs[g := FreeingSlot]);
    var r3 := [FreeSlot(g)] + rest;
    var r2 := [Cancel(g)] + r3;
    var r1 := [RaiseDepth(g)] + r2;
    RunsCons(l3, FreeSlot(g), rest);
    RunsCons(l2, Cancel(g), r3);
    RunsCons(l1, RaiseDepth(g), r2);
    RunsCons(l, TryAcquire(g), r1);
    assert Visit(g) + rest == [TryAcquire(g)] + r1;
  }

  lemma {:induction false} VisitsRun(l: Limiter, g: nat, n: nat) returns (steps: seq<Step>)
    requires l.slotsUsed < l.workers + l.queue && l.depth >= 0 && forall h :: h >= g ==> PcOf(l, h).Idle?
    ensures Runs(l, steps) && After(l, steps).depth == l.depth + n
    decreases n
  {
    if n == 0 {
      steps := [];
    } else {
      var l' := l.(depth := l.depth + 1, pcs := l.pcs[g := FreedSlot]);
      assert forall h | h >= g + 1 :: PcOf(l', h) == PcOf(l, h);
      var rest := VisitsRun(l', g + 1, n - 1);
      VisitRuns(l, g, rest);
      steps := Visit(g) + rest;
    }
  }

  /** Nothing bounds the depth: whatever the settings, for every n some run reads depth n. */
  lemma DepthIsUnbounded(workers: int, queue: int, n: nat) returns (steps: seq<Step>)
    ensures Runs(New(workers, queue), steps) && After(New(workers, queue), steps).depth == n
  {
    steps := VisitsRun(New(workers, queue), 0, n);
  }

  lemma RunsCons(l: Limiter, s: Step, rest: seq<Step>)
    requires Enabled(l, s) && Runs(Apply(l, s), rest)
    ensures Runs(l, [s] + rest) && After(l, [s] + rest) == After(Apply(l, s), rest)
  {
    assert ([s] + rest)[1..] == rest;
  }
}
