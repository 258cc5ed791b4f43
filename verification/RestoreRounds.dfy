/** What a restore does when nothing newer stops it: which selections it makes, and from which snapshots it plans. */
module RestoreRounds {
  import opened Common
  import opened SelectedNodes
  import opened SelectedNodesTheorems
  import opened ProfileList
  import opened RestoreProtocol
  import opened RestoreTheorems
  import opened RestoreProgress

  // ---------------------------------------------------------------- what is left to do

  predicate IsDone(done: Done, a: Activation) {
    a.0 in done && done[a.0] == a.1
  }

  /** What remains of a plan is, in order, exactly what has not been done. */
  lemma {:induction false} RemainingIsTheRest(acts: seq<Activation>, done: Done)
    ensures forall a :: a in Remaining(acts, done) <==> a in acts && !IsDone(done, a)
    ensures Subsequence(Remaining(acts, done), acts)
  {
    if acts != [] {
      var n := |acts| - 1;
      var rest := Remaining(acts[..n], done);
      RemainingIsTheRest(acts[..n], done);
      SubsequenceExtends(rest, acts[..n], acts[n]);
      assert acts == acts[..n] + [acts[n]];
      assert rest + [] == rest;
    }
  }

  lemma {:induction false} NothingDoneYet(acts: seq<Activation>)
    ensures Remaining(acts, map[]) == acts
  {
    if acts != [] {
      NothingDoneYet(acts[..|acts| - 1]);
      assert acts == acts[..|acts| - 1] + [acts[|acts| - 1]];
    }
  }

  // ---------------------------------------------------------------- a round

  /** The selection a step starts. */
  function StartsNow(s: System, step: Step): seq<Activation> {
    if step.StepWorker? && step.worker < |s.workers|
       && s.workers[step.worker].pc.Starting? && s.workers[step.worker].pc.todo != []
    then [s.workers[step.worker].pc.todo[0]] else []
  }

  /** The selections worker `w` starts in a run, in order. */
  function Started(s: System, steps: seq<Step>, w: nat): seq<Activation>
    decreases |steps|
  {
    if steps == [] || Next(s, steps[0]).None? then []
    else (if StepsWorker(steps[0], w) then StartsNow(s, steps[0]) else [])
         + Started(Next(s, steps[0]).value, steps[1..], w)
  }

  /** The selections a round has still to start. */
  function Pending(pc: WorkerPc): seq<Activation>
    requires InActivation(pc)
  {
    if pc.Selecting? && pc.todo != [] then pc.todo[1..] else pc.todo
  }

  /** One step of a round: it starts the next selection, or takes its answer, or ends with nothing left. */
  lemma RoundStep(s: System, w: nat, ok: bool)
    requires w < |s.workers| && Current(s, w) && InActivation(s.workers[w].pc) && Ready(s.workers[w].pc)
    ensures NextActivation(s, w, ok).Some? ==>
            var pc, pc' := s.workers[w].pc, NextActivation(s, w, ok).value.workers[w].pc;
            if InActivation(pc') then
              && Ready(pc') && Pending(pc) == (if pc.Starting? then [pc.todo[0]] else []) + Pending(pc')
              && pc'.done == if pc.Selecting? && ok then pc.done[pc.todo[0].0 := pc.todo[0].1] else pc.done
            else Pending(pc) == [] && pc.Acting?
  {}

  lemma {:induction false} GenerationsGrow(s: System, steps: seq<Step>, w: nat)
    requires w < |s.workers| && Exec(s, steps).Some?
    ensures var s' := Exec(s, steps).value;
            w < |s'.workers| && s.generation <= s'.generation && s'.workers[w].generation == s.workers[w].generation
    decreases |steps|
  {
    if steps != [] {
      OthersLeaveWorker(s, steps[0], w);
      if StepsWorker(steps[0], w) {
        WorkerFacts(s, w, steps[0].ok, steps[0].snapshot, steps[0].again);
      }
      GenerationsGrow(Next(s, steps[0]).value, steps[1..], w);
    }
  }

  /** In a round of a worker that may still be current. */
  predicate InRound(s: System, w: nat) {
    && w < |s.workers| && s.workers[w].generation <= s.generation
    && InActivation(s.workers[w].pc) && Ready(s.workers[w].pc)
  }

  /** Any step: what it starts, if the worker was current, is in front of what the round had still to start. */
  lemma StepInRound(s: System, step: Step, w: nat)
    requires InRound(s, w) && Next(s, step).Some? && (StepsWorker(step, w) ==> Current(s, w))
    ensures var next, now := Next(s, step).value, if StepsWorker(step, w) then StartsNow(s, step) else [];
            if InRound(next, w) then Pending(s.workers[w].pc) == now + Pending(next.workers[w].pc)
            else Pending(s.workers[w].pc) == []
  {
    OthersLeaveWorker(s, step, w);
    if StepsWorker(step, w) {
      WorkerFacts(s, w, step.ok, step.snapshot, step.again);
      RoundStep(s, w, step.ok);
    } else {
      assert [] + Pending(s.workers[w].pc) == Pending(s.workers[w].pc);
    }
  }

  /**
   A round is carried out.  If a worker has left a round and nothing newer has come, it has started
   every selection the round had still to start, in order.
   */
  lemma {:induction false} RoundIsCarriedOut(s: System, steps: seq<Step>, w: nat)
    requires InRound(s, w) && Exec(s, steps).Some?
    requires var s' := Exec(s, steps).value; w < |s'.workers| && Current(s', w) && !InActivation(s'.workers[w].pc)
    ensures Pending(s.workers[w].pc) <= Started(s, steps, w)
    decreases |steps|
  {
    var next := Next(s, steps[0]).value;
    GenerationsGrow(s, steps, w);
    StepInRound(s, steps[0], w);
    if InRound(next, w) {
      RoundIsCarriedOut(next, steps[1..], w);
    }
  }

  /** About to begin a round. */
  predicate BeforeRound(pc: WorkerPc) {
    pc.Fetched? || pc.Refetched? || pc.SettleFetched?
  }

  /** The plan a round is about: from the first look, from both looks, or from a later one. */
  function PlanOf(pc: WorkerPc): Plan
    requires BeforeRound(pc)
  {
    match pc
    case Fetched(job, first) => Reconcile(job.selected, None, first)
    case Refetched(job, first, second, _) => Reconcile(job.selected, Some(first), second)
    case SettleFetched(job, _, _, now) => Reconcile(job.selected, None, now)
  }

  function DoneBefore(pc: WorkerPc): Done
    requires BeforeRound(pc)
  {
    if pc.Fetched? then map[] else pc.done
  }

  lemma FirstRoundBegins(s: System, w: nat, ok: bool, snapshot: Proxies)
    requires w < |s.workers| && s.workers[w].pc.Fetched?
    ensures var pc, pc' := s.workers[w].pc, NextStartup(s, w, ok, snapshot).value.workers[w].pc;
            InActivation(pc') ==> pc'.Acting? && pc'.todo == Remaining(PlanOf(pc).activations, map[])
  {}

  lemma SecondRoundBegins(s: System, w: nat, ok: bool, snapshot: Proxies)
    requires w < |s.workers| && s.workers[w].pc.Refetched?
    ensures var pc, pc' := s.workers[w].pc, NextDecision(s, w, ok, snapshot).value.workers[w].pc;
            InActivation(pc') ==> pc'.Acting? && pc'.todo == Remaining(PlanOf(pc).activations, pc.done)
  {}

  lemma LaterRoundBegins(s: System, w: nat, ok: bool, snapshot: Proxies, again: bool)
    requires w < |s.workers| && s.workers[w].pc.SettleFetched?
    ensures var pc, pc' := s.workers[w].pc, NextSettle(s, w, ok, snapshot, again).value.workers[w].pc;
            InActivation(pc') ==> pc'.Acting? && pc'.todo == Remaining(PlanOf(pc).activations, pc.done)
  {}

  lemma RoundBegins(s: System, w: nat, ok: bool, snapshot: Proxies, again: bool)
    requires w < |s.workers| && BeforeRound(s.workers[w].pc)
    ensures NextWorker(s, w, ok, snapshot, again).Some? ==>
            var pc, pc' := s.workers[w].pc, NextWorker(s, w, ok, snapshot, again).value.workers[w].pc;
            InActivation(pc') ==> pc'.Acting? && pc'.todo == Remaining(PlanOf(pc).activations, DoneBefore(pc))
  {
    if s.workers[w].pc.Fetched? {
      FirstRoundBegins(s, w, ok, snapshot);
    } else if s.workers[w].pc.Refetched? {
      SecondRoundBegins(s, w, ok, snapshot);
    } else {
      LaterRoundBegins(s, w, ok, snapshot, again);
    }
  }

  /**
   Each round does its plan.  If a worker begins a round, later has left it, and nothing newer has come, then
   it has in between started, in the plan's order and before anything else, exactly the plan's activations that
   had not been done.
   */
  lemma RoundDoesItsPlan(s: System, step: Step, steps: seq<Step>, w: nat) returns (todo: seq<Activation>)
    requires w < |s.workers| && s.workers[w].generation <= s.generation && BeforeRound(s.workers[w].pc)
    requires StepsWorker(step, w) && Next(s, step).Some?
    requires var next := Next(s, step).value; w < |next.workers| && InActivation(next.workers[w].pc) && Exec(next, steps).Some?
    requires var s' := Exec(Next(s, step).value, steps).value;
             w < |s'.workers| && Current(s', w) && !InActivation(s'.workers[w].pc)
    ensures todo <= Started(Next(s, step).value, steps, w)
    ensures var pc := s.workers[w].pc;
            && Subsequence(todo, PlanOf(pc).activations)
            && forall a :: a in todo <==> a in PlanOf(pc).activations && !IsDone(DoneBefore(pc), a)
  {
    var pc, next := s.workers[w].pc, Next(s, step).value;
    todo := Remaining(PlanOf(pc).activations, DoneBefore(pc));
    WorkerFacts(s, w, step.ok, step.snapshot, step.again);
    RoundBegins(s, w, step.ok, step.snapshot, step.again);
    RemainingIsTheRest(PlanOf(pc).activations, DoneBefore(pc));
    RoundIsCarriedOut(next, steps, w);
  }

  // ---------------------------------------------------------------- snapshots

  ghost predicate SomeNeedsConfirmation(selected: seq<PrfSelected>, first: Proxies) {
    exists i :: 0 <= i < |selected| && NeedsConfirmation(selected[i], first)
  }

  /** A plan made of the snapshots the core has answered with: of one if that was enough, else of two. */
  ghost predicate PlanFrom(job: Job, plan: Plan, seen: seq<Proxies>) {
    if |seen| == 1 then plan == Reconcile(job.selected, None, seen[0]) && !SomeNeedsConfirmation(job.selected, seen[0])
    else |seen| == 2 && plan == Reconcile(job.selected, Some(seen[0]), seen[1]) && SomeNeedsConfirmation(job.selected, seen[0])
  }

  ghost predicate RoundSaw(job: Job, round: Round, seen: seq<Proxies>) {
    match round
    case First(first) => seen == [first]
    case Second(plan) => PlanFrom(job, plan, seen)
    case Settling(_) => true
  }

  /** What a worker carries comes from what it has seen. */
  ghost predicate Saw(pc: WorkerPc, seen: seq<Proxies>) {
    match pc
    case Waiting => seen == []
    case Gate => seen == []
    case Loading => seen == []
    case Fetching(_) => seen == []
    case Fetched(_, first) => seen == [first]
    case Acting(job, round, _, _) => RoundSaw(job, round, seen)
    case Starting(job, round, _, _) => RoundSaw(job, round, seen)
    case Selecting(job, round, _, _) => RoundSaw(job, round, seen)
    case Returned(job, round, _, _) => RoundSaw(job, round, seen)
    case Resting(job, first, _) => seen == [first] && SomeNeedsConfirmation(job.selected, first)
    case Refetching(job, first, _) => seen == [first] && SomeNeedsConfirmation(job.selected, first)
    case Refetched(job, first, second, _) => seen == [first, second] && SomeNeedsConfirmation(job.selected, first)
    case Deciding(job, plan, _) => PlanFrom(job, plan, seen)
    case PersistGate(job, plan) => PlanFrom(job, plan, seen)
    case PersistQueued(job, plan) => PlanFrom(job, plan, seen)
    case PersistWriting(job, plan, _, _) => PlanFrom(job, plan, seen)
    case PersistStoring(job, plan, _, _, _, _) => PlanFrom(job, plan, seen)
    case _ => true
  }

  /** The snapshot a step brings, before settling. */
  function SeesNow(pc: WorkerPc, ok: bool, snapshot: Proxies): seq<Proxies> {
    if (pc.Fetching? || pc.Refetching?) && ok then [snapshot] else []
  }

  function Seen(s: System, steps: seq<Step>, w: nat): seq<Proxies>
    decreases |steps|
  {
    if steps == [] || Next(s, steps[0]).None? then []
    else StepSees(s, steps[0], w) + Seen(Next(s, steps[0]).value, steps[1..], w)
  }

  lemma EarlySaw(s: System, w: nat, ok: bool, snapshot: Proxies, seen: seq<Proxies>)
    requires w < |s.workers| && Saw(s.workers[w].pc, seen)
    ensures NextStartup(s, w, ok, snapshot).Some? ==>
              Saw(NextStartup(s, w, ok, snapshot).value.workers[w].pc, seen + SeesNow(s.workers[w].pc, ok, snapshot))
  {
    assert [] + [snapshot] == [snapshot] && seen + [] == seen;
  }

  lemma RoundSees(s: System, w: nat, ok: bool, seen: seq<Proxies>)
    requires w < |s.workers| && Saw(s.workers[w].pc, seen)
    ensures NextActivation(s, w, ok).Some? ==> Saw(NextActivation(s, w, ok).value.workers[w].pc, seen)
  {}

  lemma DecisionSaw(s: System, w: nat, ok: bool, snapshot: Proxies, seen: seq<Proxies>)
    requires w < |s.workers| && Saw(s.workers[w].pc, seen)
    ensures NextDecision(s, w, ok, snapshot).Some? ==>
              Saw(NextDecision(s, w, ok, snapshot).value.workers[w].pc, seen + SeesNow(s.workers[w].pc, ok, snapshot))
  {
    assert seen + [] == seen;
  }

  lemma LateSaw(s: System, w: nat, ok: bool, snapshot: Proxies, again: bool, seen: seq<Proxies>)
    requires w < |s.workers| && Saw(s.workers[w].pc, seen)
    ensures NextSettle(s, w, ok, snapshot, again).Some? ==> Saw(NextSettle(s, w, ok, snapshot, again).value.workers[w].pc, seen)
  {}

  lemma QueueingSaw(s: System, w: nat, ok: bool, seen: seq<Proxies>)
    requires w < |s.workers| && Saw(s.workers[w].pc, seen)
    requires s.workers[w].pc.PersistGate? || s.workers[w].pc.PersistQueued?
    ensures NextPersist(s, w, ok).Some? ==> Saw(NextPersist(s, w, ok).value.workers[w].pc, seen)
  {}

  lemma WritingSaw(s: System, w: nat, ok: bool, seen: seq<Proxies>)
    requires w < |s.workers| && Saw(s.workers[w].pc, seen) && s.workers[w].pc.PersistWriting?
    ensures NextPersist(s, w, ok).Some? ==> Saw(NextPersist(s, w, ok).value.workers[w].pc, seen)
  {}

  lemma StoringSaw(s: System, w: nat, ok: bool, seen: seq<Proxies>)
    requires w < |s.workers| && (s.workers[w].pc.PersistStoring? || s.workers[w].pc.Finished?)
    ensures NextPersist(s, w, ok).Some? ==> Saw(NextPersist(s, w, ok).value.workers[w].pc, seen)
  {}

  predicate BeforeSettling(pc: WorkerPc) {
    InStartup(pc) || InActivation(pc) || InDecision(pc)
  }

  lemma PlanningSaw(s: System, w: nat, ok: bool, snapshot: Proxies, again: bool, seen: seq<Proxies>)
    requires w < |s.workers| && Saw(s.workers[w].pc, seen) && BeforeSettling(s.workers[w].pc)
    ensures NextWorker(s, w, ok, snapshot, again).Some? ==>
              Saw(NextWorker(s, w, ok, snapshot, again).value.workers[w].pc, seen + SeesNow(s.workers[w].pc, ok, snapshot))
  {
    var pc := s.workers[w].pc;
    assert seen + [] == seen;
    if InStartup(pc) {
      EarlySaw(s, w, ok, snapshot, seen);
    } else if InActivation(pc) {
      RoundSees(s, w, ok, seen);
    } else {
      DecisionSaw(s, w, ok, snapshot, seen);
    }
  }

  lemma EndingSaw(s: System, w: nat, ok: bool, snapshot: Proxies, again: bool, seen: seq<Proxies>)
    requires w < |s.workers| && Saw(s.workers[w].pc, seen) && !BeforeSettling(s.workers[w].pc)
    ensures NextWorker(s, w, ok, snapshot, again).Some? ==>
              Saw(NextWorker(s, w, ok, snapshot, again).value.workers[w].pc, seen + SeesNow(s.workers[w].pc, ok, snapshot))
  {
    var pc := s.workers[w].pc;
    assert seen + [] == seen;
    if InSettle(pc) {
      LateSaw(s, w, ok, snapshot, again, seen);
    } else if pc.PersistGate? || pc.PersistQueued? {
      QueueingSaw(s, w, ok, seen);
    } else if pc.PersistWriting? {
      WritingSaw(s, w, ok, seen);
    } else {
      StoringSaw(s, w, ok, seen);
    }
  }

  /** What worker `w` sees with one step of a run. */
  function StepSees(s: System, step: Step, w: nat): seq<Proxies> {
    if StepsWorker(step, w) && w < |s.workers| then SeesNow(s.workers[w].pc, step.ok, step.snapshot) else []
  }

  lemma StepSaw(s: System, step: Step, w: nat, seen: seq<Proxies>)
    requires w < |s.workers| && Saw(s.workers[w].pc, seen) && Next(s, step).Some?
    ensures w < |Next(s, step).value.workers|
    ensures Saw(Next(s, step).value.workers[w].pc, seen + StepSees(s, step, w))
  {
    OthersLeaveWorker(s, step, w);
    if StepsWorker(step, w) {
      if BeforeSettling(s.workers[w].pc) {
        PlanningSaw(s, w, step.ok, step.snapshot, step.again, seen);
      } else {
        EndingSaw(s, w, step.ok, step.snapshot, step.again, seen);
      }
    } else {
      assert seen + [] == seen;
    }
  }

  lemma {:induction false} SawAlong(s: System, steps: seq<Step>, w: nat, seen: seq<Proxies>)
    requires w < |s.workers| && Saw(s.workers[w].pc, seen) && Exec(s, steps).Some?
    ensures w < |Exec(s, steps).value.workers|
    ensures Saw(Exec(s, steps).value.workers[w].pc, seen + Seen(s, steps, w))
    decreases |steps|
  {
    if steps == [] {
      assert seen + [] == seen;
    } else {
      var now, rest := StepSees(s, steps[0], w), Seen(Next(s, steps[0]).value, steps[1..], w);
      StepSaw(s, steps[0], w, seen);
      SawAlong(Next(s, steps[0]).value, steps[1..], w, seen + now);
      Associative(seen, now, rest);
    }
  }

  /**
   Every plan that is written back was made of what the core answered this worker in this run: of the first
   snapshot alone if no record needed confirmation against it, and otherwise of the first and the second.
   */
  lemma RepairsComeFromSnapshots(s: System, steps: seq<Step>, w: nat, step: Step)
    requires w < |s.workers| && s.workers[w].pc.Waiting? && Exec(s, steps).Some?
    requires var s' := Exec(s, steps).value;
             && StepsWorker(step, w) && Next(s', step).Some? && |Next(s', step).value.repairs| > |s'.repairs|
    ensures var r := Next(Exec(s, steps).value, step).value.repairs;
            PlanFrom(r[|r| - 1].job, r[|r| - 1].plan, Seen(s, steps, w))
  {
    SawAlong(s, steps, w, []);
    assert [] + Seen(s, steps, w) == Seen(s, steps, w);
    OnlyPersistRepairs(Exec(s, steps).value, w, step.ok, step.snapshot, step.again);
  }

  lemma OnlyPersistRepairs(s: System, w: nat, ok: bool, snapshot: Proxies, again: bool)
    requires w < |s.workers| && NextWorker(s, w, ok, snapshot, again).Some?
    requires |NextWorker(s, w, ok, snapshot, again).value.repairs| > |s.repairs|
    ensures s.workers[w].pc.PersistStoring?
    ensures var r, pc := NextWorker(s, w, ok, snapshot, again).value.repairs, s.workers[w].pc;
            |r| == |s.repairs| + 1 && r[|r| - 1].job == pc.job && r[|r| - 1].plan == pc.plan
  {}

  // ---------------------------------------------------------------- stale selections

  /** The step starts a selection of worker `w` although something newer has come. */
  predicate StartsStale(s: System, step: Step, w: nat) {
    && StepsWorker(step, w) && w < |s.workers| && s.workers[w].pc.Starting?
    && s.workers[w].generation != s.generation
  }

  /** How often that happens in a run. */
  function StaleStarts(s: System, steps: seq<Step>, w: nat): nat
    decreases |steps|
  {
    if steps == [] || Next(s, steps[0]).None? then 0
    else (if StartsStale(s, steps[0], w) then 1 else 0) + StaleStarts(Next(s, steps[0]).value, steps[1..], w)
  }

  function StaleOf(s: System, w: nat): nat {
    if w < |s.workers| then s.workers[w].staleSelects else 0
  }

  lemma StartingCounts(s: System, w: nat, ok: bool)
    requires w < |s.workers| && s.workers[w].pc.Starting?
    ensures NextActivation(s, w, ok).Some? && |NextActivation(s, w, ok).value.workers| == |s.workers|
    ensures NextActivation(s, w, ok).value.workers[w].staleSelects == s.workers[w].staleSelects + if Current(s, w) then 0 else 1
  {}

  predicate Uncounted(s: System, s': System, w: nat) {
    w < |s.workers| == |s'.workers| && s'.workers[w].staleSelects == s.workers[w].staleSelects
  }

  lemma StartupDoesNotCount(s: System, w: nat, ok: bool, snapshot: Proxies)
    requires w < |s.workers|
    ensures NextStartup(s, w, ok, snapshot).Some? ==> Uncounted(s, NextStartup(s, w, ok, snapshot).value, w)
  {}

  lemma ActivationDoesNotCount(s: System, w: nat, ok: bool)
    requires w < |s.workers| && !s.workers[w].pc.Starting?
    ensures NextActivation(s, w, ok).Some? ==> Uncounted(s, NextActivation(s, w, ok).value, w)
  {}

  lemma DecisionDoesNotCount(s: System, w: nat, ok: bool, snapshot: Proxies)
    requires w < |s.workers|
    ensures NextDecision(s, w, ok, snapshot).Some? ==> Uncounted(s, NextDecision(s, w, ok, snapshot).value, w)
  {}

  lemma SettleDoesNotCount(s: System, w: nat, ok: bool, snapshot: Proxies, again: bool)
    requires w < |s.workers|
    ensures NextSettle(s, w, ok, snapshot, again).Some? ==> Uncounted(s, NextSettle(s, w, ok, snapshot, again).value, w)
  {}

  lemma PersistDoesNotCount(s: System, w: nat, ok: bool)
    requires w < |s.workers|
    ensures NextPersist(s, w, ok).Some? ==> Uncounted(s, NextPersist(s, w, ok).value, w)
  {}

  lemma OthersDoNotCount(s: System, w: nat, ok: bool, snapshot: Proxies, again: bool)
    requires w < |s.workers| && !s.workers[w].pc.Starting?
    ensures NextWorker(s, w, ok, snapshot, again).Some? ==> Uncounted(s, NextWorker(s, w, ok, snapshot, again).value, w)
  {
    var pc := s.workers[w].pc;
    if InStartup(pc) {
      StartupDoesNotCount(s, w, ok, snapshot);
    } else if InActivation(pc) {
      ActivationDoesNotCount(s, w, ok);
    } else if InDecision(pc) {
      DecisionDoesNotCount(s, w, ok, snapshot);
    } else if InSettle(pc) {
      SettleDoesNotCount(s, w, ok, snapshot, again);
    } else {
      PersistDoesNotCount(s, w, ok);
    }
  }

  lemma NewWorkersStartAtZero(s: System, step: Step, w: nat)
    requires Next(s, step).Some? && w >= |s.workers|
    ensures StaleOf(Next(s, step).value, w) == 0
  {
    if step.StepWorker? {
      WorkerFacts(s, step.worker, step.ok, step.snapshot, step.again);
    }
  }

  lemma StaleCounted(s: System, step: Step, w: nat)
    requires Next(s, step).Some?
    ensures StaleOf(Next(s, step).value, w) == StaleOf(s, w) + if StartsStale(s, step, w) then 1 else 0
  {
    if w >= |s.workers| {
      NewWorkersStartAtZero(s, step, w);
    } else if !StepsWorker(step, w) {
      OthersLeaveWorker(s, step, w);
    } else if s.workers[w].pc.Starting? {
      StartingCounts(s, w, step.ok);
    } else {
      OthersDoNotCount(s, w, step.ok, step.snapshot, step.again);
    }
  }

  lemma {:induction false} StaleAlong(s: System, steps: seq<Step>, w: nat)
    requires Exec(s, steps).Some?
    ensures StaleOf(Exec(s, steps).value, w) == StaleOf(s, w) + StaleStarts(s, steps, w)
    decreases |steps|
  {
    if steps != [] {
      StaleCounted(s, steps[0], w);
      StaleAlong(Next(s, steps[0]).value, steps[1..], w);
    }
  }

  /** Over any run, a worker starts at most one selection after something newer has come, and none while it is current. */
  lemma OneStaleSelectionAtMost(profiles: Profiles, steps: seq<Step>, s: System, w: nat)
    requires Exec(Init(profiles), steps) == Some(s)
    ensures StaleStarts(Init(profiles), steps, w) <= 1
    ensures w < |s.workers| && Current(s, w) ==> StaleStarts(Init(profiles), steps, w) == 0
  {
    StaleAlong(Init(profiles), steps, w);
    if w < |s.workers| {
      StaleWorkersStandDown(profiles, steps, s, w);
    }
  }

  // ---------------------------------------------------------------- superseding

  /** A committed choice, a new restore and a superseding stop every restore before them, and only a restore starts one. */
  lemma NewerThingsSupersede(profiles: Profiles, steps: seq<Step>, s: System, policy: Policy)
    requires Exec(Init(profiles), steps) == Some(s)
    ensures forall c: nat, ok: bool :: c < |s.clerks| && s.clerks[c].pc.Superseding? ==>
              && NextClerk(s, c, ok).Some? && NextClerk(s, c, ok).value.workers == s.workers
              && forall w :: 0 <= w < |s.workers| ==> !Current(NextClerk(s, c, ok).value, w)
    ensures var s' := Next(s, Supersede).value;
            s'.workers == s.workers && forall w :: 0 <= w < |s.workers| ==> !Current(s', w)
    ensures var s' := Next(s, Spawn(policy)).value;
            && |s'.workers| == |s.workers| + 1 && s'.workers[|s.workers|].policy == policy
            && forall w :: 0 <= w < |s'.workers| ==> (Current(s', w) <==> w == |s.workers|)
  {
    InvAlong(Init(profiles), steps);
    forall w | 0 <= w < |s.workers| ensures s.workers[w].generation <= s.generation {
      assert WorkerTrue(s.workers[w], s.generation, s.version, s.profiles);
    }
  }
}
