/** What holds in every run of a draft layer. */
module DraftTheorems {
  import opened Common
  import opened DraftCell
  import opened DraftProtocol

  /** The state a run from a fresh layer ends in, if all its steps can be taken. */
  ghost predicate Reaches<T>(edit: (TaskId, T) -> Option<T>, initial: T, at: Ptr, steps: seq<Step<T>>, s: System<T>) {
    Exec(edit, Init(initial, at), steps) == Some(s)
  }

  lemma ReachableInv<T>(edit: (TaskId, T) -> Option<T>, initial: T, at: Ptr, steps: seq<Step<T>>, s: System<T>)
    requires Reaches(edit, initial, at, steps, s)
    ensures Inv(edit, initial, s)
  {
    InvInitially(edit, initial, at);
    InvAlong(edit, initial, Init(initial, at), steps);
  }

  // ---------------------------------------------------------------- the permit

  /**
   Mutual exclusion, and no wake-up is lost: while a task is parked or about to park, the
   permit is held, a releaser has still to notify, a notification is stored, or a woken task
   has still to retry.
   */
  lemma PermitIsSafe<T>(edit: (TaskId, T) -> Option<T>, initial: T, at: Ptr, steps: seq<Step<T>>, s: System<T>)
    requires Reaches(edit, initial, at, steps, s)
    ensures forall t, u :: 0 <= t < |s.tasks| && 0 <= u < |s.tasks| && s.tasks[t].Holder() && s.tasks[u].Holder() ==> t == u
    ensures SomeoneWaits(s) ==> WakeupPending(s)
  {
    ReachableInv(edit, initial, at, steps, s);
  }

  /** An attempt wins the permit exactly if no task holds it, and the winner is then its only holder. */
  lemma PermitGoesToOne<T>(
    edit: (TaskId, T) -> Option<T>, initial: T, at: Ptr, steps: seq<Step<T>>, s: System<T>, t: TaskId, unused: Ptr)
    requires Reaches(edit, initial, at, steps, s)
    requires t < |s.tasks| && (s.tasks[t].FastTry? || s.tasks[t].Retry?)
    ensures RunTask(edit, s, t, unused).Some?
    ensures var s' := RunTask(edit, s, t, unused).value;
            && s'.shared == s.shared.(modifying := true)
            && (s'.tasks[t].Acquired? <==> forall u :: 0 <= u < |s.tasks| ==> !s.tasks[u].Holder())
            && (if s'.tasks[t].Acquired? then forall u :: 0 <= u < |s'.tasks| && s'.tasks[u].Holder() ==> u == t
                else s'.shared == s.shared && !s'.tasks[t].Holder())
  {
    ReachableInv(edit, initial, at, steps, s);
  }

  /** `t` can take its next step, whatever unused address the allocator would offer it. */
  ghost predicate CanRun<T>(edit: (TaskId, T) -> Option<T>, s: System<T>, t: TaskId) {
    t < |s.tasks| && forall at: Ptr :: at !in s.shared.heap ==> RunTask(edit, s, t, at).Some?
  }

  /** No held pointer dangles: only parked and finished tasks have no step. */
  lemma OnlyWaitingBlocks<T>(edit: (TaskId, T) -> Option<T>, s: System<T>, t: TaskId)
    requires CountsExact(s) && t < |s.tasks|
    ensures CanRun(edit, s, t) <==> !(s.tasks[t].Parked? || s.tasks[t].Done?)
  {
    HeldIsLive(s);
    if s.tasks[t].Parked? || s.tasks[t].Done? {
      var at := UnusedAddress(s.shared.heap.Keys);
      assert RunTask(edit, s, t, at).None?;
    }
  }

  lemma UnusedAddress(used: set<Ptr>) returns (at: Ptr)
    ensures at !in used
  {
    at := 0;
    var left := used;
    while at in used
      invariant forall p :: p in used && p >= at ==> p in left
      decreases left
    {
      left := left - {at};
      at := at + 1;
    }
  }

  /** While any task is unfinished, some task can move: the layer never deadlocks. */
  lemma SomeTaskCanRun<T>(
    edit: (TaskId, T) -> Option<T>, initial: T, at: Ptr, steps: seq<Step<T>>, s: System<T>, t: TaskId)
    returns (u: TaskId)
    requires Reaches(edit, initial, at, steps, s)
    requires t < |s.tasks| && !s.tasks[t].Done?
    ensures CanRun(edit, s, u)
  {
    ReachableInv(edit, initial, at, steps, s);
    u := t;
    if s.tasks[t].Parked? {
      assert SomeoneWaits(s);
      assert s.shared.storedPermit ==> s.shared.waiters == [];
      assert t in s.shared.waiters;
      if s.shared.modifying {
        u :| 0 <= u < |s.tasks| && s.tasks[u].Holder();
      } else if exists v :: 0 <= v < |s.tasks| && s.tasks[v].Notifying? {
        u :| 0 <= u < |s.tasks| && s.tasks[u].Notifying?;
      } else {
        u :| 0 <= u < |s.tasks| && s.tasks[u] == Retry(true);
      }
    }
    OnlyWaitingBlocks(edit, s, u);
  }

  /** If no task can move, every call has returned. */
  lemma QuiescentMeansDone<T>(
    edit: (TaskId, T) -> Option<T>, initial: T, at: Ptr, steps: seq<Step<T>>, s: System<T>)
    requires Reaches(edit, initial, at, steps, s)
    requires forall u :: 0 <= u < |s.tasks| ==> !CanRun(edit, s, u)
    ensures forall t :: 0 <= t < |s.tasks| ==> s.tasks[t].Done?
    ensures !s.shared.modifying && s.shared.waiters == []
  {
    ReachableInv(edit, initial, at, steps, s);
    assert s.shared.waiters == [] || s.tasks[s.shared.waiters[0]] == Parked;
    forall t | 0 <= t < |s.tasks| ensures s.tasks[t].Done? {
      if !s.tasks[t].Done? {
        var u := SomeTaskCanRun(edit, initial, at, steps, s, t);
        assert false;
      }
    }
  }

  // ---------------------------------------------------------------- every call returns

  function Weights<T>(tasks: seq<Pc<T>>): nat {
    if tasks == [] then 0 else Weights(tasks[..|tasks| - 1]) + tasks[|tasks| - 1].Weight()
  }

  /** Task steps still possible before everyone has returned. */
  function Potential<T>(s: System<T>): nat {
    Weights(s.tasks) + 2 * Bit(s.shared.storedPermit)
  }

  lemma {:induction false} WeightsUpdate<T>(tasks: seq<Pc<T>>, t: nat, pc: Pc<T>)
    requires t < |tasks|
    ensures Weights(tasks[t := pc]) + tasks[t].Weight() == Weights(tasks) + pc.Weight()
  {
    var n := |tasks| - 1;
    if t < n {
      WeightsUpdate(tasks[..n], t, pc);
      assert tasks[t := pc][..n] == tasks[..n][t := pc];
    } else {
      assert tasks[t := pc][..n] == tasks[..n];
    }
  }

  /** Every step of a task uses up potential, even one that wakes another task. */
  lemma RunSpends<T>(edit: (TaskId, T) -> Option<T>, s: System<T>, t: TaskId, at: Ptr)
    requires NotifierSound(s) && t < |s.tasks| && RunTask(edit, s, t, at).Some?
    ensures Potential(RunTask(edit, s, t, at).value) < Potential(s)
  {
    if s.tasks[t].Notifying? {
      NotifySpends(edit, s, t, at);
    } else {
      StepSpends(edit, s, t, at);
      WeightsUpdate(s.tasks, t, RunTask(edit, s, t, at).value.tasks[t]);
    }
  }

  lemma NotifySpends<T>(edit: (TaskId, T) -> Option<T>, s: System<T>, t: TaskId, at: Ptr)
    requires NotifierSound(s) && t < |s.tasks| && s.tasks[t].Notifying?
    ensures Potential(RunTask(edit, s, t, at).value) < Potential(s)
  {
    var done: Pc<T> := Done(s.tasks[t].outcome);
    WeightsUpdate(s.tasks, t, done);
    if s.shared.waiters != [] {
      WakingCosts(s.tasks[t := done], s.shared.waiters[0]);
    }
  }

  /** A woken task has two more steps to take than a parked one, which the notifier's own last steps pay for. */
  lemma WakingCosts<T>(tasks: seq<Pc<T>>, u: TaskId)
    requires u < |tasks| && tasks[u] == Parked
    ensures Weights(tasks[u := Retry(true)]) == Weights(tasks) + 2
  {
    WeightsUpdate(tasks, u, Retry(true));
  }

  lemma StepSpends<T>(edit: (TaskId, T) -> Option<T>, s: System<T>, t: TaskId, at: Ptr)
    requires t < |s.tasks| && !s.tasks[t].Notifying? && RunTask(edit, s, t, at).Some?
    ensures var s' := RunTask(edit, s, t, at).value;
            && |s'.tasks| == |s.tasks| && s'.tasks == s.tasks[t := s'.tasks[t]]
            && s'.tasks[t].Weight() + 2 * Bit(s'.shared.storedPermit) < s.tasks[t].Weight() + 2 * Bit(s.shared.storedPermit)
  {}

  /** Nobody else's step changes the potential, except that a new call brings ten. */
  lemma OthersSpendNothing<T>(edit: (TaskId, T) -> Option<T>, s: System<T>, step: Step<T>)
    requires !step.Run? && Next(edit, s, step).Some?
    ensures Potential(Next(edit, s, step).value) == Potential(s) + if step.Spawn? then 10 else 0
  {
    if step.Spawn? {
      assert (s.tasks + [FastTry])[..|s.tasks|] == s.tasks;
    }
  }

  function RunSteps<T>(steps: seq<Step<T>>): nat {
    if steps == [] then 0 else Bit(steps[0].Run?) + RunSteps(steps[1..])
  }

  function SpawnSteps<T>(steps: seq<Step<T>>): nat {
    if steps == [] then 0 else Bit(steps[0].Spawn?) + SpawnSteps(steps[1..])
  }

  lemma {:induction false} PotentialAlong<T>(
    edit: (TaskId, T) -> Option<T>, initial: T, s: System<T>, steps: seq<Step<T>>)
    requires Inv(edit, initial, s) && Exec(edit, s, steps).Some?
    ensures RunSteps(steps) + Potential(Exec(edit, s, steps).value) <= Potential(s) + 10 * SpawnSteps(steps)
    decreases |steps|
  {
    if steps != [] {
      var next := Next(edit, s, steps[0]).value;
      InvKept(edit, initial, s, steps[0]);
      PotentialAlong(edit, initial, next, steps[1..]);
      if steps[0].Run? {
        RunSpends(edit, s, steps[0].task, steps[0].at);
      } else {
        OthersSpendNothing(edit, s, steps[0]);
      }
    }
  }

  /**
   Under every schedule, fair or not, `n` calls take at most `10 * n` steps between them.  With
   `SomeTaskCanRun` this makes every call return: there are only finitely many steps to take,
   and until all calls are done one of them can be taken.
   */
  lemma WorkIsBounded<T>(edit: (TaskId, T) -> Option<T>, initial: T, at: Ptr, steps: seq<Step<T>>, s: System<T>)
    requires Reaches(edit, initial, at, steps, s)
    ensures RunSteps(steps) <= 10 * SpawnSteps(steps)
  {
    InvInitially(edit, initial, at);
    PotentialAlong(edit, initial, Init(initial, at), steps);
  }

  // ---------------------------------------------------------------- first come, first served

  ghost predicate Parks<T>(s: System<T>, s': System<T>, t: TaskId) {
    t < |s.tasks| && t < |s'.tasks| && !s.tasks[t].Parked? && s'.tasks[t].Parked?
  }

  ghost predicate Wakes<T>(s: System<T>, s': System<T>, t: TaskId) {
    t < |s.tasks| && t < |s'.tasks| && s.tasks[t].Parked? && !s'.tasks[t].Parked?
  }

  /** The task that parks with a step. */
  ghost function ParksNow<T>(s: System<T>, s': System<T>): seq<TaskId> {
    if t: TaskId :| Parks(s, s', t) then [t] else []
  }

  ghost function WakesNow<T>(s: System<T>, s': System<T>): seq<TaskId> {
    if t: TaskId :| Wakes(s, s', t) then [t] else []
  }

  /** The tasks that park in a run, in order. */
  ghost function ParkedIn<T>(edit: (TaskId, T) -> Option<T>, s: System<T>, steps: seq<Step<T>>): seq<TaskId>
    decreases |steps|
  {
    if steps == [] || Next(edit, s, steps[0]).None? then []
    else ParksNow(s, Next(edit, s, steps[0]).value) + ParkedIn(edit, Next(edit, s, steps[0]).value, steps[1..])
  }

  /** The tasks that are woken in a run, in order. */
  ghost function WokenIn<T>(edit: (TaskId, T) -> Option<T>, s: System<T>, steps: seq<Step<T>>): seq<TaskId>
    decreases |steps|
  {
    if steps == [] || Next(edit, s, steps[0]).None? then []
    else WakesNow(s, Next(edit, s, steps[0]).value) + WokenIn(edit, Next(edit, s, steps[0]).value, steps[1..])
  }

  lemma QueueStep<T>(edit: (TaskId, T) -> Option<T>, s: System<T>, step: Step<T>)
    requires NotifierSound(s) && Next(edit, s, step).Some?
    ensures var s' := Next(edit, s, step).value;
            s.shared.waiters + ParksNow(s, s') == WakesNow(s, s') + s'.shared.waiters
  {
    var s' := Next(edit, s, step).value;
    assert [] + s'.shared.waiters == s'.shared.waiters && s.shared.waiters + [] == s.shared.waiters;
    if step.Run? {
      RunQueues(edit, s, step.task, step.at);
    } else {
      assert forall t: TaskId :: !Parks(s, s', t) && !Wakes(s, s', t);
    }
  }

  lemma NotifyQueues<T>(edit: (TaskId, T) -> Option<T>, s: System<T>, t: TaskId, at: Ptr)
    requires NotifierSound(s) && t < |s.tasks| && s.tasks[t].Notifying?
    ensures var s' := RunTask(edit, s, t, at).value;
            s.shared.waiters + ParksNow(s, s') == WakesNow(s, s') + s'.shared.waiters
  {
    var s', was := RunTask(edit, s, t, at).value, s.shared.waiters;
    assert forall u: TaskId :: !Parks(s, s', u);
    if was == [] {
      assert forall u: TaskId :: !Wakes(s, s', u);
    } else {
      assert Wakes(s, s', was[0]);
      assert forall u: TaskId :: Wakes(s, s', u) ==> u == was[0];
      assert was == [was[0]] + was[1..];
    }
  }

  lemma ParkQueues<T>(edit: (TaskId, T) -> Option<T>, s: System<T>, t: TaskId, at: Ptr)
    requires t < |s.tasks| && s.tasks[t].AboutToPark?
    ensures var s' := RunTask(edit, s, t, at).value;
            s.shared.waiters + ParksNow(s, s') == WakesNow(s, s') + s'.shared.waiters
  {
    var s' := RunTask(edit, s, t, at).value;
    assert forall u: TaskId :: !Wakes(s, s', u);
    if s.shared.storedPermit {
      assert forall u: TaskId :: !Parks(s, s', u);
    } else {
      assert Parks(s, s', t);
      assert forall u: TaskId :: Parks(s, s', u) ==> u == t;
    }
  }

  lemma OthersLeaveQueue<T>(edit: (TaskId, T) -> Option<T>, s: System<T>, t: TaskId, at: Ptr)
    requires t < |s.tasks| && !s.tasks[t].Notifying? && !s.tasks[t].AboutToPark? && RunTask(edit, s, t, at).Some?
    ensures var s' := RunTask(edit, s, t, at).value;
            && s'.shared.waiters == s.shared.waiters
            && forall u: TaskId :: !Parks(s, s', u) && !Wakes(s, s', u)
  {}

  lemma RunQueues<T>(edit: (TaskId, T) -> Option<T>, s: System<T>, t: TaskId, at: Ptr)
    requires NotifierSound(s) && t < |s.tasks| && RunTask(edit, s, t, at).Some?
    ensures var s' := RunTask(edit, s, t, at).value;
            s.shared.waiters + ParksNow(s, s') == WakesNow(s, s') + s'.shared.waiters
  {
    if s.tasks[t].Notifying? {
      NotifyQueues(edit, s, t, at);
    } else if s.tasks[t].AboutToPark? {
      ParkQueues(edit, s, t, at);
    } else {
      var s' := RunTask(edit, s, t, at).value;
      OthersLeaveQueue(edit, s, t, at);
      assert ParksNow(s, s') == [] && WakesNow(s, s') == [];
      assert [] + s'.shared.waiters == s'.shared.waiters && s.shared.waiters + [] == s.shared.waiters;
    }
  }

  /**
   First come, first served.  In any run, those waiting before it and those that park in it are, in that order,
   those woken in it and those waiting behind it: nobody is woken before anyone who has waited longer.
   */
  lemma {:induction false} WokenInOrder<T>(edit: (TaskId, T) -> Option<T>, initial: T, s: System<T>, steps: seq<Step<T>>)
    requires Inv(edit, initial, s) && Exec(edit, s, steps).Some?
    ensures s.shared.waiters + ParkedIn(edit, s, steps) == WokenIn(edit, s, steps) + Exec(edit, s, steps).value.shared.waiters
    decreases |steps|
  {
    if steps != [] {
      var next := Next(edit, s, steps[0]).value;
      var parks, wakes := ParksNow(s, next), WakesNow(s, next);
      InvKept(edit, initial, s, steps[0]);
      QueueStep(edit, s, steps[0]);
      WokenInOrder(edit, initial, next, steps[1..]);
      Associative(s.shared.waiters, parks, ParkedIn(edit, next, steps[1..]));
      Associative(wakes, next.shared.waiters, ParkedIn(edit, next, steps[1..]));
      Associative(wakes, WokenIn(edit, next, steps[1..]), Exec(edit, next, steps[1..]).value.shared.waiters);
    }
  }

  // ---------------------------------------------------------------- serialisability

  /**
   The committed value is what a serial history of commits leaves.  Each commit starts from its
   predecessor's value, each `with_data_modify` commit is its edit applied to the value
   committed immediately before it, and exactly the calls that report success are in it, once.
   */
  lemma ModifyIsSerialisable<T>(edit: (TaskId, T) -> Option<T>, initial: T, at: Ptr, steps: seq<Step<T>>, s: System<T>)
    requires Reaches(edit, initial, at, steps, s)
    ensures s.shared.Valid() && s.Committed() == LastCommitted(initial, s.log)
    ensures Serial(edit, initial, s.log)
    ensures forall t :: 0 <= t < |s.tasks| ==> (s.tasks[t].HasOutcome(Succeeded) <==> Logged(s.log, t))
  {
    ReachableInv(edit, initial, at, steps, s);
    assert LogMatchesOutcomes(s);
  }

  /**
   No address is mistaken for its predecessor: a task's pointer equals the committed one exactly
   when nothing was committed since the task read it.
   */
  lemma PointerEqualityMeansNoCommit<T>(
    edit: (TaskId, T) -> Option<T>, initial: T, at: Ptr, steps: seq<Step<T>>, s: System<T>, t: TaskId)
    requires Reaches(edit, initial, at, steps, s)
    requires t < |s.tasks| && s.tasks[t].Editing?
    ensures s.shared.committed == s.tasks[t].original <==> |s.log| == s.tasks[t].commitsSeen
    ensures s.shared.committed == s.tasks[t].original ==> s.shared.Valid() && s.Committed() == s.tasks[t].local
  {
    ReachableInv(edit, initial, at, steps, s);
    assert EditKnows(s, s.tasks[t]);
  }

  /**
   How a call ends.  It fails with its own edit's error exactly when the edit fails; otherwise
   it reports the optimistic-lock error exactly when some `apply` committed a draft since it
   read; and unless it succeeds the committed value stays what it was.
   */
  lemma OutcomeIsExact<T>(
    edit: (TaskId, T) -> Option<T>, initial: T, at: Ptr, steps: seq<Step<T>>, s: System<T>, t: TaskId, unused: Ptr)
    requires Reaches(edit, initial, at, steps, s)
    requires t < |s.tasks| && s.tasks[t].Editing? && RunTask(edit, s, t, unused).Some?
    ensures var s' := RunTask(edit, s, t, unused).value;
            var pc, pc' := s.tasks[t], s'.tasks[t];
            && s.shared.Valid() && s'.shared.Valid()
            && (pc'.HasOutcome(EditFailed) <==> edit(t, pc.local).None?)
            && (pc'.HasOutcome(LockFailed) <==> edit(t, pc.local).Some? && s.applies > pc.appliesSeen)
            && (pc'.HasOutcome(Succeeded) <==> edit(t, pc.local).Some? && s.applies == pc.appliesSeen)
            && (if pc'.HasOutcome(Succeeded) then edit(t, s.Committed()) == Some(s'.Committed())
                else s'.Committed() == s.Committed())
  {
    ReachableInv(edit, initial, at, steps, s);
    assert EditKnows(s, s.tasks[t]);
    CommitStep(edit, s, Run(t, unused));
    EditEnds(edit, s, t, unused);
  }

  /** The end of an edit, from what the task knows. */
  lemma EditEnds<T>(edit: (TaskId, T) -> Option<T>, s: System<T>, t: TaskId, unused: Ptr)
    requires t < |s.tasks| && s.tasks[t].Editing? && EditKnows(s, s.tasks[t]) && s.shared.Valid()
    requires RunTask(edit, s, t, unused).Some?
    ensures var s' := RunTask(edit, s, t, unused).value;
            var pc, pc' := s.tasks[t], s'.tasks[t];
            && (pc'.HasOutcome(EditFailed) <==> edit(t, pc.local).None?)
            && (pc'.HasOutcome(LockFailed) <==> edit(t, pc.local).Some? && s.applies > pc.appliesSeen)
            && (pc'.HasOutcome(Succeeded) <==> edit(t, pc.local).Some? && s.applies == pc.appliesSeen)
            && (!pc'.HasOutcome(Succeeded) ==> s'.log == s.log)
  {}

  // ---------------------------------------------------------------- snapshots

  lemma {:induction false} ReadersOnlyDrop<T>(edit: (TaskId, T) -> Option<T>, s: System<T>, steps: seq<Step<T>>, r: nat)
    requires Exec(edit, s, steps).Some? && r < |s.readers|
    ensures var s' := Exec(edit, s, steps).value;
            r < |s'.readers| && (s'.readers[r] == s.readers[r] || s'.readers[r].None?)
    decreases |steps|
  {
    if steps != [] {
      var next := Next(edit, s, steps[0]).value;
      assert r < |next.readers| && (next.readers[r] == s.readers[r] || next.readers[r].None?) by {
        if steps[0].Run? {
          assert next.readers == s.readers;
        }
      }
      ReadersOnlyDrop(edit, next, steps[1..], r);
    }
  }

  /** A held snapshot shows the same value after any further run, and its cell stays live. */
  lemma SnapshotsNeverChange<T>(
    edit: (TaskId, T) -> Option<T>, initial: T, at: Ptr, steps: seq<Step<T>>, s: System<T>,
    more: seq<Step<T>>, s': System<T>, r: nat)
    requires Reaches(edit, initial, at, steps, s) && Exec(edit, s, more) == Some(s')
    requires r < |s.readers| && s.readers[r].Some?
    requires r < |s'.readers| && s'.readers[r].Some?
    ensures var p := s.readers[r].value.ptr;
            && s'.readers[r] == s.readers[r]
            && p in s.shared.heap && p in s'.shared.heap
            && s'.shared.heap[p].value == s.shared.heap[p].value
  {
    ReachableInv(edit, initial, at, steps, s);
    InvAlong(edit, initial, s, more);
    ReadersOnlyDrop(edit, s, more, r);
  }

  predicate StagesOnly<T>(step: Step<T>) {
    !step.Apply? && !step.Run?
  }

  /** Nothing but the list of readers, and one count, changes when a pointer is handed out. */
  ghost predicate HandsOut<T>(s: System<T>, s': System<T>, p: Ptr, value: T)
    requires p in s.shared.heap
  {
    && s'.readers == s.readers + [Some(Snapshot(p, value))]
    && s'.shared == s.shared.(heap := Retain(s.shared.heap, p))
    && s'.tasks == s.tasks && s'.log == s.log && s'.applies == s.applies
  }

  /**
   What readers get.  `data_arc` hands out the committed cell with the committed value, draft or no
   draft; `latest_arc` the draft's if there is one; and dropping a pointer gives back that one and no other.
   */
  lemma ReadersGetWhatIsThere<T>(edit: (TaskId, T) -> Option<T>, initial: T, s: System<T>)
    requires Inv(edit, initial, s)
    ensures s.shared.Valid()
    ensures Next(edit, s, DataArc).Some? && HandsOut(s, Next(edit, s, DataArc).value, s.shared.committed, s.Committed())
    ensures Next(edit, s, LatestArc).Some? &&
            HandsOut(s, Next(edit, s, LatestArc).value, s.shared.draft.GetOr(s.shared.committed),
                     Values(s).draft.GetOr(Values(s).committed))
    ensures forall i: nat :: i < |s.readers| && s.readers[i].Some? ==>
              Next(edit, s, DropReader(i)).Some? && Next(edit, s, DropReader(i)).value.readers == s.readers[i := None]
  {
    HeldIsLive(s);
  }

  lemma {:induction false} NoReaderHolds<T>(readers: seq<Option<Snapshot<T>>>, p: Ptr)
    requires forall i :: 0 <= i < |readers| ==> !ReaderHolds(readers[i], p)
    ensures ReaderRefs(readers, p) == 0
  {
    if readers != [] {
      NoReaderHolds(readers[..|readers| - 1], p);
    }
  }

  /** An edit copies exactly if there is no draft yet or a reader holds it; otherwise it is made where the draft is. */
  lemma EditCopiesExactlyIfShared<T>(edit: (TaskId, T) -> Option<T>, initial: T, s: System<T>, f: T -> T, into: Ptr)
    requires Inv(edit, initial, s) && Next(edit, s, EditDraft(f, into)).Some?
    ensures Next(edit, s, EditDraft(f, into)).value.shared.draft ==
            if s.shared.draft.Some? && forall i :: 0 <= i < |s.readers| ==> !ReaderHolds(s.readers[i], s.shared.draft.value)
            then s.shared.draft else Some(into)
  {
    HeldIsLive(s);
    if s.shared.draft.Some? {
      var d := s.shared.draft.value;
      NoTaskHolds(s.tasks, d);
      assert Refs(s.shared.heap, d) == Holders(s, d);
      if i: nat :| i < |s.readers| && ReaderHolds(s.readers[i], d) {
        SomeReaderHolds(s.readers, i, d);
      } else {
        NoReaderHolds(s.readers, d);
      }
    } else {
      assert Refs(s.shared.heap, s.shared.committed) == Holders(s, s.shared.committed);
    }
  }

  /** However the draft is edited and discarded, `data_arc` keeps handing out the same cell and value. */
  lemma {:induction false} StagingIsInvisible<T>(
    edit: (TaskId, T) -> Option<T>, initial: T, s: System<T>, more: seq<Step<T>>)
    requires Inv(edit, initial, s) && Exec(edit, s, more).Some?
    requires forall i :: 0 <= i < |more| ==> StagesOnly(more[i])
    ensures var s' := Exec(edit, s, more).value;
            && s.shared.Valid() && s'.shared.Valid()
            && s'.shared.committed == s.shared.committed && s'.Committed() == s.Committed()
            && Next(edit, s', DataArc).Some?
            && Next(edit, s', DataArc).value.readers == s'.readers + [Some(Snapshot(s.shared.committed, s.Committed()))]
    decreases |more|
  {
    HeldIsLive(s);
    if more == [] {
      ReadersGetWhatIsThere(edit, initial, s);
    } else {
      assert StagesOnly(more[0]);
      InvKept(edit, initial, s, more[0]);
      CommitStep(edit, s, more[0]);
      StagingIsInvisible(edit, initial, Next(edit, s, more[0]).value, more[1..]);
    }
  }

  /** Draft and committed value never share a cell, so editing one cannot show in the other. */
  lemma DraftNeverAliases<T>(edit: (TaskId, T) -> Option<T>, initial: T, at: Ptr, steps: seq<Step<T>>, s: System<T>)
    requires Reaches(edit, initial, at, steps, s)
    ensures s.shared.draft != Some(s.shared.committed)
  {
    ReachableInv(edit, initial, at, steps, s);
  }

  // ---------------------------------------------------------------- the value-level layer

  /** The layer as its users see it: two values and no addresses. */
  datatype Layer<+T> = Layer(committed: T, draft: Option<T>)

  function Values<T>(s: System<T>): Layer<T>
    requires s.shared.Valid()
  {
    Layer(s.Committed(), if s.shared.draft.None? then None else Some(s.shared.heap[s.shared.draft.value].value))
  }

  /** What each step does to the two values. */
  ghost function LayerNext<T>(layer: Layer<T>, step: Step<T>, replaced: Option<T>): Layer<T> {
    match step
    case EditDraft(f, _) => layer.(draft := Some(f(layer.draft.GetOr(layer.committed))))
    case Apply => if layer.draft.Some? then Layer(layer.draft.value, None) else layer
    case Discard => layer.(draft := None)
    case Run(_, _) => if replaced.Some? then layer.(committed := replaced.value) else layer
    case _ => layer
  }

  /** The value a step's `with_data_modify` commit installed, if it made one. */
  function ReplacedBy<T>(s: System<T>, s': System<T>): Option<T> {
    if |s'.log| > |s.log| && s'.log[|s.log|].Replaced? then Some(s'.log[|s.log|].after) else None
  }

  /** The reference-counted, copy-on-write layer behaves as the two plain values. */
  lemma CopyOnWriteRefinesValues<T>(edit: (TaskId, T) -> Option<T>, initial: T, s: System<T>, step: Step<T>)
    requires Inv(edit, initial, s) && Next(edit, s, step).Some?
    ensures var s' := Next(edit, s, step).value;
            && s.shared.Valid() && s'.shared.Valid()
            && Values(s') == LayerNext(Values(s), step, ReplacedBy(s, s'))
  {
    CommitStep(edit, s, step);
    if step.EditDraft? {
      EditRefinesValues(s, step.f, step.into);
    } else {
      CommittedRefines(edit, s, step);
      DraftRefines(edit, s, step);
    }
  }

  lemma CommittedRefines<T>(edit: (TaskId, T) -> Option<T>, s: System<T>, step: Step<T>)
    requires CountsExact(s) && NotifierSound(s) && DraftSeparate(s)
    requires !step.EditDraft? && Next(edit, s, step).Some?
    ensures s.shared.Valid() && Next(edit, s, step).value.shared.Valid()
    ensures var s' := Next(edit, s, step).value;
            s'.Committed() == LayerNext(Values(s), step, ReplacedBy(s, s')).committed
  {
    CommitStep(edit, s, step);
  }

  lemma DraftRefines<T>(edit: (TaskId, T) -> Option<T>, s: System<T>, step: Step<T>)
    requires CountsExact(s) && NotifierSound(s) && DraftSeparate(s)
    requires !step.EditDraft? && Next(edit, s, step).Some?
    ensures s.shared.Valid() && Next(edit, s, step).value.shared.Valid()
    ensures var s' := Next(edit, s, step).value;
            Values(s').draft == LayerNext(Values(s), step, ReplacedBy(s, s')).draft
  {
    var s' := Next(edit, s, step).value;
    CommitStep(edit, s, step);
    if s'.shared.draft.Some? {
      DraftUntouched(edit, s, step);
      ValueKept(edit, s, step, s.shared.draft.value);
    }
  }

  /** Copying or not, an edit in place leaves the edited value in the draft and the committed one alone. */
  lemma EditRefinesValues<T>(s: System<T>, f: T -> T, at: Ptr)
    requires CountsExact(s) && DraftSeparate(s) && s.shared.Valid() && at !in s.shared.heap
    ensures var s' := s.(shared := s.shared.EditDraft(f, at));
            s'.shared.Valid() && Values(s') == LayerNext(Values(s), EditDraft(f, at), None)
  {}

  lemma DraftUntouched<T>(edit: (TaskId, T) -> Option<T>, s: System<T>, step: Step<T>)
    requires !step.EditDraft? && Next(edit, s, step).Some?
    requires Next(edit, s, step).value.shared.draft.Some?
    ensures Next(edit, s, step).value.shared.draft == s.shared.draft
    ensures !step.Apply? && !step.Discard?
  {}
}
