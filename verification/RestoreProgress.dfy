/** How long restores take, when they give up, and that they are never stuck. */
module RestoreProgress {
  import opened Common
  import opened SelectedNodes
  import opened SelectedNodesTheorems
  import opened ProfileList
  import opened RestoreProtocol

  predicate StepsWorker(step: Step, w: nat) {
    step.StepWorker? && step.worker == w
  }

  /** How many of a run's steps are this worker's. */
  function Turns(steps: seq<Step>, w: nat): (n: nat)
    ensures n <= |steps|
  {
    if steps == [] then 0 else (if StepsWorker(steps[0], w) then 1 else 0) + Turns(steps[1..], w)
  }

  /** What a worker's step leaves alone. */
  ghost predicate MovesOnly(s: System, s': System, w: nat) {
    && w < |s.workers| == |s'.workers|
    && s'.workers == s.workers[w := s'.workers[w]]
    && s'.workers[w].generation == s.workers[w].generation
    && s'.generation == s.generation && s'.clerks == s.clerks
  }

  /** A selection is under way only if there is one to make. */
  predicate Ready(pc: WorkerPc) {
    pc.Starting? || pc.Selecting? ==> pc.todo != []
  }

  predicate ClerkHolds(pc: ClerkPc) {
    pc.Writing? || pc.Storing?
  }

  predicate WorkerHolds(pc: WorkerPc) {
    pc.PersistWriting? || pc.PersistStoring?
  }

  /** How one actor's step may change who holds the permit. */
  predicate PermitStep(was: bool, held: bool, now: bool, holds: bool) {
    || (now == was && holds == held)
    || (!was && !held && now && holds)
    || (held && !now && !holds)
  }

  predicate BeforeLoading(pc: WorkerPc) {
    pc.Waiting? || pc.Gate? || pc.Loading?
  }

  /** The own steps a superseded worker can still take. */
  function StaleFuel(pc: WorkerPc): (n: nat)
    ensures n <= 3
    ensures n == 0 <==> pc.Finished?
  {
    match pc
    case Finished => 0
    case Loading => 3
    case Starting(_, _, _, _) => 3
    case PersistQueued(_, _) => 3
    case Waiting => 2
    case Fetching(_) => 2
    case Selecting(_, _, _, _) => 2
    case Acting(_, _, _, _) => 2
    case Refetching(_, _, _) => 2
    case SettleFetching(_, _, _) => 2
    case PersistWriting(_, _, _, _) => 2
    case _ => 1
  }

  /** What a worker's step does, whichever it is. */
  ghost predicate StepFacts(s: System, s': System, w: nat) {
    && MovesOnly(s, s', w)
    && var wk, wk' := s.workers[w], s'.workers[w];
    && (Ready(wk.pc) ==> Ready(wk'.pc))
    && PermitStep(s.permit, WorkerHolds(wk.pc), s'.permit, WorkerHolds(wk'.pc))
    && (BeforeLoading(wk'.pc) ==> wk.pc.Waiting? || wk.pc.Gate?)
    && (!Current(s, w) ==> StaleFuel(wk'.pc) < StaleFuel(wk.pc))
  }

  lemma StartupFacts(s: System, w: nat, ok: bool, snapshot: Proxies)
    requires w < |s.workers|
    ensures NextStartup(s, w, ok, snapshot).Some? ==> StepFacts(s, NextStartup(s, w, ok, snapshot).value, w)
  {}

  lemma ActivationFacts(s: System, w: nat, ok: bool)
    requires w < |s.workers|
    ensures NextActivation(s, w, ok).Some? ==> StepFacts(s, NextActivation(s, w, ok).value, w)
  {}

  lemma DecisionFacts(s: System, w: nat, ok: bool, snapshot: Proxies)
    requires w < |s.workers|
    ensures NextDecision(s, w, ok, snapshot).Some? ==> StepFacts(s, NextDecision(s, w, ok, snapshot).value, w)
  {}

  lemma SettleFacts(s: System, w: nat, ok: bool, snapshot: Proxies, again: bool)
    requires w < |s.workers|
    ensures NextSettle(s, w, ok, snapshot, again).Some? ==> StepFacts(s, NextSettle(s, w, ok, snapshot, again).value, w)
  {}

  lemma PersistFacts(s: System, w: nat, ok: bool)
    requires w < |s.workers|
    ensures NextPersist(s, w, ok).Some? ==> StepFacts(s, NextPersist(s, w, ok).value, w)
  {}

  lemma WorkerFacts(s: System, w: nat, ok: bool, snapshot: Proxies, again: bool)
    requires w < |s.workers|
    ensures NextWorker(s, w, ok, snapshot, again).Some? ==> StepFacts(s, NextWorker(s, w, ok, snapshot, again).value, w)
  {
    var pc := s.workers[w].pc;
    if InStartup(pc) {
      StartupFacts(s, w, ok, snapshot);
    } else if InActivation(pc) {
      ActivationFacts(s, w, ok);
    } else if InDecision(pc) {
      DecisionFacts(s, w, ok, snapshot);
    } else if InSettle(pc) {
      SettleFacts(s, w, ok, snapshot, again);
    } else {
      PersistFacts(s, w, ok);
    }
  }

  lemma ClerkLeavesWorkers(s: System, c: nat, ok: bool)
    requires c < |s.clerks|
    ensures NextClerk(s, c, ok).Some? ==>
              NextClerk(s, c, ok).value.workers == s.workers && s.generation <= NextClerk(s, c, ok).value.generation
  {}

  /** Others leave a worker where it is, and the generation only grows. */
  lemma OthersLeaveWorker(s: System, step: Step, w: nat)
    requires Next(s, step).Some? && w < |s.workers|
    ensures w < |Next(s, step).value.workers| && s.generation <= Next(s, step).value.generation
    ensures !StepsWorker(step, w) ==> Next(s, step).value.workers[w] == s.workers[w]
  {
    match step
    case StepWorker(v, ok, snapshot, again) => WorkerFacts(s, v, ok, snapshot, again);
    case StepClerk(c, ok) => ClerkLeavesWorkers(s, c, ok);
    case _ =>
  }

  // ---------------------------------------------------------------- superseded workers

  /** A superseded worker takes at most three more steps of its own, in any run. */
  lemma {:induction false} SupersededWorkersEnd(s: System, steps: seq<Step>, w: nat)
    requires w < |s.workers| && s.workers[w].generation < s.generation && Exec(s, steps).Some?
    ensures var s' := Exec(s, steps).value;
            && w < |s'.workers|
            && Turns(steps, w) + StaleFuel(s'.workers[w].pc) <= StaleFuel(s.workers[w].pc) <= 3
    decreases |steps|
  {
    if steps != [] {
      var next := Next(s, steps[0]).value;
      OthersLeaveWorker(s, steps[0], w);
      if StepsWorker(steps[0], w) {
        WorkerFacts(s, w, steps[0].ok, steps[0].snapshot, steps[0].again);
      }
      SupersededWorkersEnd(next, steps[1..], w);
    }
  }

  // ---------------------------------------------------------------- all workers

  /** The steps settling can take: `left` looks at a list of `n` records. */
  function SettleFuel(n: nat, left: nat): nat {
    if left == 0 then 1 else SettleFuel(n, left - 1) + 4 * n + 4
  }

  function DecideFuel(n: nat): nat {
    SettleFuel(n, SETTLE_ATTEMPTS) + 5
  }

  /** The steps still to come once the activations under way are done. */
  function RoundFuel(n: nat, round: Round): nat {
    match round
    case First(_) => DecideFuel(n) + 4 * n + 4
    case Second(_) => DecideFuel(n)
    case Settling(left) => SettleFuel(n, left)
  }

  /** The own steps a worker can still take; `loaded` is the length of the list it will load, if it has not. */
  function Fuel(pc: WorkerPc, loaded: nat): nat {
    match pc
    case Waiting => FirstFuel(loaded) + 5
    case Gate => FirstFuel(loaded) + 4
    case Loading => FirstFuel(loaded) + 3
    case Fetching(job) => FirstFuel(|job.selected|) + 2
    case Fetched(job, _) => FirstFuel(|job.selected|) + 1
    case Acting(job, round, todo, _) => 4 * |todo| + 1 + RoundFuel(|job.selected|, round)
    case Starting(job, round, todo, _) => 4 * |todo| + RoundFuel(|job.selected|, round)
    case Selecting(job, round, todo, _) => if todo == [] then 0 else 4 * |todo| - 1 + RoundFuel(|job.selected|, round)
    case Returned(job, round, todo, _) => 4 * |todo| + 2 + RoundFuel(|job.selected|, round)
    case Resting(job, _, _) => DecideFuel(|job.selected|) + 4 * |job.selected| + 4
    case Refetching(job, _, _) => DecideFuel(|job.selected|) + 4 * |job.selected| + 3
    case Refetched(job, _, _, _) => DecideFuel(|job.selected|) + 4 * |job.selected| + 2
    case Deciding(job, _, _) => DecideFuel(|job.selected|)
    case SettleGate(job, _, left) => SettleFuel(|job.selected|, left)
    case SettleFetching(job, _, left) => SettleFuel(|job.selected|, left) + 4 * |job.selected| + 3
    case SettleFetched(job, _, left, _) => SettleFuel(|job.selected|, left) + 4 * |job.selected| + 2
    case PersistGate(_, _) => 4
    case PersistQueued(_, _) => 3
    case PersistWriting(_, _, _, _) => 2
    case PersistStoring(_, _, _, _, _, _) => 1
    case Finished => 0
  }

  /** From the first activation on. */
  function FirstFuel(n: nat): nat {
    4 * n + 1 + DecideFuel(n) + 4 * n + 4
  }

  lemma {:induction false} RemainingFits(acts: seq<Activation>, done: Done)
    ensures |Remaining(acts, done)| <= |acts|
  {
    if acts != [] {
      RemainingFits(acts[..|acts| - 1], done);
    }
  }

  lemma {:induction false} ActivationsFit(items: seq<PrfSelected>, proxies: Proxies)
    ensures |Activations(items, proxies)| <= |items|
  {
    if items != [] {
      ActivationsFit(items[..|items| - 1], proxies);
    }
  }

  /** A plan asks for no more activations than there are records. */
  lemma TodoFits(selected: seq<PrfSelected>, previous: Option<Proxies>, proxies: Proxies, done: Done)
    ensures |Remaining(Reconcile(selected, previous, proxies).activations, done)| <= |selected|
  {
    LastIsShorter(selected);
    ActivationsFit(LastRecords(selected), proxies);
    RemainingFits(Reconcile(selected, previous, proxies).activations, done);
  }

  /** The length of the list a worker loads with its next step, if it loads one. */
  function LoadsNow(s: System, w: nat): nat
    requires w < |s.workers|
  {
    if s.workers[w].pc.Loading? && s.profiles.current.Some? then |SelectedOf(s.profiles, s.profiles.current.value)| else 0
  }

  /** The length of the list a worker loads in the course of a run; 0 if it loads none. */
  function LoadsInRun(s: System, steps: seq<Step>, w: nat): nat
    decreases |steps|
  {
    if steps == [] || Next(s, steps[0]).None? then 0
    else if StepsWorker(steps[0], w) && w < |s.workers| && s.workers[w].pc.Loading? then LoadsNow(s, w)
    else LoadsInRun(Next(s, steps[0]).value, steps[1..], w)
  }

  lemma StartupSpends(s: System, w: nat, ok: bool, snapshot: Proxies, loaded: nat)
    requires w < |s.workers| && !s.workers[w].pc.Fetched? && NextStartup(s, w, ok, snapshot).Some?
    requires s.workers[w].pc.Loading? ==> loaded == LoadsNow(s, w)
    ensures var s' := NextStartup(s, w, ok, snapshot).value;
            w < |s'.workers| && Fuel(s'.workers[w].pc, loaded) < Fuel(s.workers[w].pc, loaded)
  {}

  lemma FetchedSpends(s: System, w: nat, ok: bool, snapshot: Proxies, loaded: nat)
    requires w < |s.workers| && s.workers[w].pc.Fetched?
    ensures NextStartup(s, w, ok, snapshot).Some?
    ensures var s' := NextStartup(s, w, ok, snapshot).value;
            w < |s'.workers| && Fuel(s'.workers[w].pc, loaded) < Fuel(s.workers[w].pc, loaded)
  {
    var pc := s.workers[w].pc;
    TodoFits(pc.job.selected, None, pc.first, map[]);
  }

  lemma ActingSpends(s: System, w: nat, ok: bool, loaded: nat)
    requires w < |s.workers| && s.workers[w].pc.Acting?
    ensures NextActivation(s, w, ok).Some? ==>
            var s' := NextActivation(s, w, ok).value;
            w < |s'.workers| && Fuel(s'.workers[w].pc, loaded) < Fuel(s.workers[w].pc, loaded)
  {}

  lemma SelectingSpends(s: System, w: nat, ok: bool, loaded: nat)
    requires w < |s.workers| && !s.workers[w].pc.Acting?
    ensures NextActivation(s, w, ok).Some? ==>
            var s' := NextActivation(s, w, ok).value;
            w < |s'.workers| && Fuel(s'.workers[w].pc, loaded) < Fuel(s.workers[w].pc, loaded)
  {}

  lemma DecisionSpends(s: System, w: nat, ok: bool, snapshot: Proxies, loaded: nat)
    requires w < |s.workers| && !s.workers[w].pc.Refetched?
    ensures NextDecision(s, w, ok, snapshot).Some? ==>
            var s' := NextDecision(s, w, ok, snapshot).value;
            w < |s'.workers| && Fuel(s'.workers[w].pc, loaded) < Fuel(s.workers[w].pc, loaded)
  {}

  lemma RefetchedSpends(s: System, w: nat, ok: bool, snapshot: Proxies, loaded: nat)
    requires w < |s.workers| && s.workers[w].pc.Refetched?
    ensures NextDecision(s, w, ok, snapshot).Some?
    ensures var s' := NextDecision(s, w, ok, snapshot).value;
            w < |s'.workers| && Fuel(s'.workers[w].pc, loaded) < Fuel(s.workers[w].pc, loaded)
  {
    var pc := s.workers[w].pc;
    TodoFits(pc.job.selected, Some(pc.first), pc.second, pc.done);
  }

  lemma LookSpends(s: System, w: nat, ok: bool, snapshot: Proxies, again: bool, loaded: nat)
    requires w < |s.workers| && !s.workers[w].pc.SettleFetched?
    ensures NextSettle(s, w, ok, snapshot, again).Some? ==>
            var s' := NextSettle(s, w, ok, snapshot, again).value;
            w < |s'.workers| && Fuel(s'.workers[w].pc, loaded) < Fuel(s.workers[w].pc, loaded)
  {}

  lemma RetrySpends(s: System, w: nat, ok: bool, snapshot: Proxies, again: bool, loaded: nat)
    requires w < |s.workers| && s.workers[w].pc.SettleFetched? && NextSettle(s, w, ok, snapshot, again).Some?
    ensures var s' := NextSettle(s, w, ok, snapshot, again).value;
            w < |s'.workers| && Fuel(s'.workers[w].pc, loaded) < Fuel(s.workers[w].pc, loaded)
  {
    var pc := s.workers[w].pc;
    TodoFits(pc.job.selected, None, pc.snapshot, pc.done);
  }

  lemma PersistSpends(s: System, w: nat, ok: bool, loaded: nat)
    requires w < |s.workers| && NextPersist(s, w, ok).Some?
    ensures var s' := NextPersist(s, w, ok).value;
            w < |s'.workers| && Fuel(s'.workers[w].pc, loaded) < Fuel(s.workers[w].pc, loaded)
  {}

  lemma WorkerSpends(s: System, w: nat, ok: bool, snapshot: Proxies, again: bool, loaded: nat)
    requires w < |s.workers|
    requires s.workers[w].pc.Loading? ==> loaded == LoadsNow(s, w)
    ensures NextWorker(s, w, ok, snapshot, again).Some? ==>
            var s' := NextWorker(s, w, ok, snapshot, again).value;
            w < |s'.workers| && Fuel(s'.workers[w].pc, loaded) < Fuel(s.workers[w].pc, loaded)
  {
    var pc := s.workers[w].pc;
    if InStartup(pc) {
      if pc.Fetched? {
        FetchedSpends(s, w, ok, snapshot, loaded);
      } else if NextStartup(s, w, ok, snapshot).Some? {
        StartupSpends(s, w, ok, snapshot, loaded);
      }
    } else if InActivation(pc) {
      if pc.Acting? {
        ActingSpends(s, w, ok, loaded);
      } else {
        SelectingSpends(s, w, ok, loaded);
      }
    } else if InDecision(pc) {
      if pc.Refetched? {
        RefetchedSpends(s, w, ok, snapshot, loaded);
      } else {
        DecisionSpends(s, w, ok, snapshot, loaded);
      }
    } else if InSettle(pc) {
      if pc.SettleFetched? {
        RetrySpends(s, w, ok, snapshot, again, loaded);
      } else {
        LookSpends(s, w, ok, snapshot, again, loaded);
      }
    } else if NextPersist(s, w, ok).Some? {
      PersistSpends(s, w, ok, loaded);
    }
  }

  /** Only a worker that has still to load cares about the length. */
  lemma LengthMattersBefore(pc: WorkerPc, one: nat, other: nat)
    requires !BeforeLoading(pc)
    ensures Fuel(pc, one) == Fuel(pc, other)
  {}

  lemma {:induction false} RunSpends(s: System, steps: seq<Step>, w: nat)
    requires w < |s.workers| && Exec(s, steps).Some?
    ensures var s' := Exec(s, steps).value;
            var loaded := LoadsInRun(s, steps, w);
            w < |s'.workers| && Turns(steps, w) + Fuel(s'.workers[w].pc, loaded) <= Fuel(s.workers[w].pc, loaded)
    decreases |steps|
  {
    if steps != [] {
      var next := Next(s, steps[0]).value;
      var loaded := LoadsInRun(s, steps, w);
      if StepsWorker(steps[0], w) {
        WorkerSpends(s, w, steps[0].ok, steps[0].snapshot, steps[0].again, loaded);
        if s.workers[w].pc.Loading? {
          WorkerFacts(s, w, steps[0].ok, steps[0].snapshot, steps[0].again);
          LoadedStays(next, steps[1..], w, loaded);
        }
      } else {
        OthersLeaveWorker(s, steps[0], w);
      }
      RunSpends(next, steps[1..], w);
    }
  }

  /** Once a worker has loaded, the length it would load makes no difference any more. */
  lemma {:induction false} LoadedStays(s: System, steps: seq<Step>, w: nat, loaded: nat)
    requires w < |s.workers| && !BeforeLoading(s.workers[w].pc) && Exec(s, steps).Some?
    ensures var s' := Exec(s, steps).value;
            var any := LoadsInRun(s, steps, w);
            && Fuel(s.workers[w].pc, loaded) == Fuel(s.workers[w].pc, any)
            && w < |s'.workers| && Fuel(s'.workers[w].pc, loaded) == Fuel(s'.workers[w].pc, any)
    decreases |steps|
  {
    LengthMattersBefore(s.workers[w].pc, loaded, LoadsInRun(s, steps, w));
    if steps != [] {
      if StepsWorker(steps[0], w) {
        WorkerFacts(s, w, steps[0].ok, steps[0].snapshot, steps[0].again);
      } else {
        OthersLeaveWorker(s, steps[0], w);
      }
      LoadedStays(Next(s, steps[0]).value, steps[1..], w, loaded);
    }
  }

  lemma {:induction false} SettleFuelIs(n: nat, left: nat)
    ensures SettleFuel(n, left) == left * (4 * n + 4) + 1
  {
    if left > 0 {
      SettleFuelIs(n, left - 1);
    }
  }

  /**
   A worker's work is bounded.  In any run in which it loads a list of `n` records, it takes at most
   132 n + 140 steps: 31 looks at up to four steps for each record, two rounds before them, and
   a constant.
   */
  lemma WorkIsBounded(s: System, steps: seq<Step>, w: nat)
    requires w < |s.workers| && s.workers[w].pc.Waiting? && Exec(s, steps).Some?
    ensures Turns(steps, w) <= 132 * LoadsInRun(s, steps, w) + 140
  {
    RunSpends(s, steps, w);
    SettleFuelIs(LoadsInRun(s, steps, w), SETTLE_ATTEMPTS);
  }

  // ---------------------------------------------------------------- giving up

  /** Retrying while groups are still loading. */
  predicate IsSettling(pc: WorkerPc) {
    InSettle(pc) || (InActivation(pc) && pc.round.Settling?)
  }

  /** The last look has been taken. */
  predicate OutOfLooks(pc: WorkerPc) {
    pc.SettleGate? && pc.left == 0
  }

  /** A look has failed, or shown something unsettled, when the deadline had passed. */
  predicate PastDeadline(pc: WorkerPc, again: bool) {
    (pc.SettleFetching? || pc.SettleFetched?) && !again
  }

  ghost predicate SettlesConflict(pc: WorkerPc) {
    IsSettling(pc) && Conflicting(pc.job.selected)
  }

  lemma ConflictStep(s: System, w: nat, ok: bool, snapshot: Proxies, again: bool)
    requires w < |s.workers| && Current(s, w) && SettlesConflict(s.workers[w].pc)
    ensures NextWorker(s, w, ok, snapshot, again).Some? ==>
              MovesOnly(s, NextWorker(s, w, ok, snapshot, again).value, w)
    ensures NextWorker(s, w, ok, snapshot, again).Some? ==>
            var pc, pc' := s.workers[w].pc, NextWorker(s, w, ok, snapshot, again).value.workers[w].pc;
            SettlesConflict(pc') || (pc'.Finished? && (PastDeadline(pc, again) || OutOfLooks(pc)))
  {
    WorkerFacts(s, w, ok, snapshot, again);
    if InSettle(s.workers[w].pc) {
      ConflictLook(s, w, ok, snapshot, again);
    } else {
      ConflictRound(s, w, ok);
    }
  }

  lemma ConflictLook(s: System, w: nat, ok: bool, snapshot: Proxies, again: bool)
    requires w < |s.workers| && Current(s, w) && InSettle(s.workers[w].pc) && Conflicting(s.workers[w].pc.job.selected)
    ensures NextSettle(s, w, ok, snapshot, again).Some? ==>
            var pc, pc' := s.workers[w].pc, NextSettle(s, w, ok, snapshot, again).value.workers[w].pc;
            SettlesConflict(pc') || (pc'.Finished? && (PastDeadline(pc, again) || OutOfLooks(pc)))
  {
    var pc := s.workers[w].pc;
    if pc.SettleFetched? {
      ConflictNeverSettles(pc.job.selected, pc.snapshot);
    }
  }

  lemma ConflictRound(s: System, w: nat, ok: bool)
    requires w < |s.workers| && Current(s, w) && SettlesConflict(s.workers[w].pc) && InActivation(s.workers[w].pc)
    ensures NextActivation(s, w, ok).Some? ==>
              SettlesConflict(NextActivation(s, w, ok).value.workers[w].pc)
  {}

  /** Under way, and as long as nothing newer has come, settling a list whose records disagree. */
  ghost predicate StuckOnConflict(s: System, w: nat) {
    && w < |s.workers| && !s.workers[w].pc.Finished?
    && s.workers[w].generation <= s.generation
    && (Current(s, w) ==> SettlesConflict(s.workers[w].pc))
  }

  /** The step at which such a worker ends, and why. */
  ghost predicate EndsAt(s: System, step: Step, w: nat) {
    && w < |s.workers| && !s.workers[w].pc.Finished?
    && StepsWorker(step, w) && Next(s, step).Some?
    && w < |Next(s, step).value.workers| && Next(s, step).value.workers[w].pc.Finished?
    && (!Current(s, w) || PastDeadline(s.workers[w].pc, step.again) || OutOfLooks(s.workers[w].pc))
  }

  lemma ConflictMoves(s: System, step: Step, w: nat)
    requires StuckOnConflict(s, w) && Next(s, step).Some?
    ensures StuckOnConflict(Next(s, step).value, w) || EndsAt(s, step, w)
  {
    OthersLeaveWorker(s, step, w);
    if StepsWorker(step, w) {
      WorkerFacts(s, w, step.ok, step.snapshot, step.again);
      if Current(s, w) {
        ConflictStep(s, w, step.ok, step.snapshot, step.again);
      }
    }
  }

  /**
   A startup restore of a list whose records disagree about a group never succeeds in settling it.  In
   every run in which such a worker ends, step `k` is the one that ends it, and it ends there because
   it has been superseded, because a look came after the deadline, or because all looks were taken.
   */
  lemma {:induction false} ConflictRunsOut(s: System, steps: seq<Step>, w: nat) returns (k: nat)
    requires StuckOnConflict(s, w) && Exec(s, steps).Some?
    requires w < |Exec(s, steps).value.workers| && Exec(s, steps).value.workers[w].pc.Finished?
    ensures k < |steps| && Exec(s, steps[..k]).Some? && EndsAt(Exec(s, steps[..k]).value, steps[k], w)
    decreases |steps|
  {
    ConflictMoves(s, steps[0], w);
    if EndsAt(s, steps[0], w) {
      k := 0;
    } else {
      var j := ConflictRunsOut(Next(s, steps[0]).value, steps[1..], w);
      k := j + 1;
      assert steps[..k][0] == steps[0] && steps[..k][1..] == steps[1..][..j];
    }
  }

  // ---------------------------------------------------------------- progress

  datatype Actor = AClerk(c: nat) | AWorker(w: nat)

  predicate Holds(s: System, a: Actor) {
    match a
    case AClerk(c) => c < |s.clerks| && ClerkHolds(s.clerks[c].pc)
    case AWorker(w) => w < |s.workers| && WorkerHolds(s.workers[w].pc)
  }

  /** The permit is taken exactly while someone holds it, and only one does. */
  ghost predicate PermitExact(s: System) {
    && (s.permit <==> exists a :: Holds(s, a))
    && forall a, b :: Holds(s, a) && Holds(s, b) ==> a == b
  }

  ghost predicate Going(s: System) {
    PermitExact(s) && forall w :: 0 <= w < |s.workers| ==> Ready(s.workers[w].pc)
  }

  lemma ClerkPermit(s: System, c: nat, ok: bool)
    requires c < |s.clerks|
    ensures NextClerk(s, c, ok).Some? ==>
            var s' := NextClerk(s, c, ok).value;
            && s'.workers == s.workers && |s'.clerks| == |s.clerks| && s'.clerks == s.clerks[c := s'.clerks[c]]
            && PermitStep(s.permit, ClerkHolds(s.clerks[c].pc), s'.permit, ClerkHolds(s'.clerks[c].pc))
  {}

  lemma PermitKept(s: System, s': System, a: Actor)
    requires PermitExact(s)
    requires forall b :: b != a ==> (Holds(s', b) <==> Holds(s, b))
    requires PermitStep(s.permit, Holds(s, a), s'.permit, Holds(s', a))
    ensures PermitExact(s')
  {
    if s.permit && s'.permit {
      var b :| Holds(s, b);
      assert Holds(s', b);
    }
    if b :| Holds(s', b) {
      assert b == a || Holds(s, b);
    }
  }

  lemma GoingKept(s: System, step: Step)
    requires Going(s) && Next(s, step).Some?
    ensures Going(Next(s, step).value)
  {
    var s' := Next(s, step).value;
    match step
    case StepWorker(w, ok, snapshot, again) =>
      WorkerFacts(s, w, ok, snapshot, again);
      PermitKept(s, s', AWorker(w));
    case StepClerk(c, ok) =>
      ClerkPermit(s, c, ok);
      PermitKept(s, s', AClerk(c));
    case Spawn(_) => PermitKept(s, s', AWorker(|s.workers|));
    case Arrive(_) => PermitKept(s, s', AClerk(|s.clerks|));
    case Supersede => PermitKept(s, s', AClerk(0));
    case Foreign(_) => PermitKept(s, s', AClerk(0));
  }

  lemma {:induction false} GoingAlong(s: System, steps: seq<Step>)
    requires Going(s) && Exec(s, steps).Some?
    ensures Going(Exec(s, steps).value)
    decreases |steps|
  {
    if steps != [] {
      GoingKept(s, steps[0]);
      GoingAlong(Next(s, steps[0]).value, steps[1..]);
    }
  }

  /** Only the queue behind another worker and the permit can hold a worker up. */
  lemma OnlyWaitingBlocks(s: System, w: nat, ok: bool, snapshot: Proxies, again: bool)
    requires w < |s.workers| && Ready(s.workers[w].pc) && !s.workers[w].pc.Finished?
    ensures NextWorker(s, w, ok, snapshot, again).Some? <==>
              && !(s.workers[w].pc.Waiting? && w > 0 && !s.workers[w - 1].pc.Finished?)
              && !(s.workers[w].pc.PersistQueued? && s.permit)
  {}

  lemma {:induction false} Mover(s: System, w: nat) returns (step: Step)
    requires Going(s) && w < |s.workers| && !s.workers[w].pc.Finished?
    ensures (step.StepWorker? || step.StepClerk?) && Next(s, step).Some?
    decreases w
  {
    var pc := s.workers[w].pc;
    OnlyWaitingBlocks(s, w, false, map[], false);
    if pc.Waiting? && w > 0 && !s.workers[w - 1].pc.Finished? {
      step := Mover(s, w - 1);
    } else if pc.PersistQueued? && s.permit {
      var a :| Holds(s, a);
      match a {
        case AClerk(c) => step := StepClerk(c, false);
        case AWorker(v) =>
          OnlyWaitingBlocks(s, v, false, map[], false);
          step := StepWorker(v, false, map[], false);
      }
    } else {
      step := StepWorker(w, false, map[], false);
    }
  }

  /** While any worker is unfinished, some worker or clerk can take a step, even if everything it asks for fails. */
  lemma RestoresAreNeverStuck(profiles: Profiles, steps: seq<Step>, s: System, w: nat) returns (step: Step)
    requires Exec(Init(profiles), steps) == Some(s)
    requires w < |s.workers| && !s.workers[w].pc.Finished?
    ensures (step.StepWorker? || step.StepClerk?) && Next(s, step).Some?
  {
    GoingAlong(Init(profiles), steps);
    step := Mover(s, w);
  }
}
