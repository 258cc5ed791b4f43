/** A restore that nothing disturbs does all it is for. */
module RestoreAlone {
  import opened Common
  import opened SelectedNodes
  import opened SelectedNodesTheorems
  import opened ProfileList
  import opened RestoreProtocol
  import opened RestoreProgress
  import opened RestoreRounds
  import opened RestoreEffects

  /** Only this worker moves, and all it asks for succeeds in time. */
  predicate Alone(steps: seq<Step>, w: nat) {
    forall i :: 0 <= i < |steps| ==> StepsWorker(steps[i], w) && steps[i].ok && steps[i].again
  }

  lemma {:induction false} RunsJoin(s: System, a: seq<Step>, m: System, b: seq<Step>, w: nat)
    requires Exec(s, a) == Some(m)
    ensures Exec(s, a + b) == Exec(m, b)
    ensures Started(s, a + b, w) == Started(s, a, w) + Started(m, b, w)
    decreases |a|
  {
    if a == [] {
      assert a + b == b;
    } else {
      assert (a + b)[0] == a[0] && (a + b)[1..] == a[1..] + b;
      var next := Next(s, a[0]).value;
      RunsJoin(next, a[1..], m, b, w);
      Associative(if StepsWorker(a[0], w) then StartsNow(s, a[0]) else [], Started(next, a[1..], w), Started(m, b, w));
    }
  }

  /** Alone, a worker gets from one place to another, starting these selections on the way. */
  ghost predicate Gets(s: System, s': System, w: nat, acts: seq<Activation>) {
    exists steps :: Alone(steps, w) && Exec(s, steps) == Some(s') && Started(s, steps, w) == acts
  }

  lemma GetsOne(s: System, w: nat, snapshot: Proxies, s': System)
    requires Next(s, StepWorker(w, true, snapshot, true)) == Some(s')
    ensures Gets(s, s', w, StartsNow(s, StepWorker(w, true, snapshot, true)))
  {
    var step := StepWorker(w, true, snapshot, true);
    var steps := [step];
    assert steps[1..] == [] && Alone(steps, w);
    assert Exec(s, steps) == Exec(s', []) && Started(s, steps, w) == StartsNow(s, step) + Started(s', [], w);
    assert StartsNow(s, step) + [] == StartsNow(s, step);
  }

  lemma GetsBoth(s: System, m: System, s': System, w: nat, x: seq<Activation>, y: seq<Activation>)
    requires Gets(s, m, w, x) && Gets(m, s', w, y)
    ensures Gets(s, s', w, x + y)
  {
    var a :| Alone(a, w) && Exec(s, a) == Some(m) && Started(s, a, w) == x;
    var b :| Alone(b, w) && Exec(m, b) == Some(s') && Started(m, b, w) == y;
    RunsJoin(s, a, m, b, w);
    assert Alone(a + b, w);
  }

  lemma GetsNowhere(s: System, w: nat)
    ensures Gets(s, s, w, [])
  {
    var none: seq<Step> := [];
    assert Alone(none, w) && Exec(s, none) == Some(s) && Started(s, none, w) == [];
  }

  lemma GetsFurther(s: System, m: System, s': System, w: nat, acts: seq<Activation>)
    requires Gets(s, m, w, acts) && Gets(m, s', w, [])
    ensures Gets(s, s', w, acts)
  {
    GetsBoth(s, m, s', w, acts, []);
    assert acts + [] == acts;
  }

  /** A step that only takes the worker to another place, and starts no selection. */
  lemma Edge(s: System, w: nat, before: WorkerPc, snapshot: Proxies, after: WorkerPc)
    requires w < |s.workers| && !before.Starting?
    requires NextWorker(SetWorker(s, w, before), w, true, snapshot, true) == Some(SetWorker(SetWorker(s, w, before), w, after))
    ensures Gets(SetWorker(s, w, before), SetWorker(s, w, after), w, [])
  {
    var a, b := SetWorker(s, w, before), SetWorker(s, w, after);
    assert SetWorker(a, w, after).workers == b.workers;
    GetsOne(a, w, snapshot, b);
  }

  // ---------------------------------------------------------------- a round

  /** What has been done once these selections have been accepted too. */
  function Told(done: Done, todo: seq<Activation>): Done
    decreases |todo|
  {
    if todo == [] then done else Told(done[todo[0].0 := todo[0].1], todo[1..])
  }

  lemma StartOne(s: System, w: nat, job: Job, round: Round, todo: seq<Activation>, done: Done)
    requires w < |s.workers| && Current(s, w) && todo != []
    ensures Gets(SetWorker(s, w, Starting(job, round, todo, done)), SetWorker(s, w, Selecting(job, round, todo, done)), w, [todo[0]])
  {
    var a, b := SetWorker(s, w, Starting(job, round, todo, done)), SetWorker(s, w, Selecting(job, round, todo, done));
    assert NextActivation(a, w, true).value.workers == b.workers;
    GetsOne(a, w, map[], b);
  }

  lemma SelectOne(s: System, w: nat, job: Job, round: Round, todo: seq<Activation>, done: Done)
    requires w < |s.workers| && Current(s, w) && todo != []
    ensures Gets(SetWorker(s, w, Acting(job, round, todo, done)),
                 SetWorker(s, w, Acting(job, round, todo[1..], done[todo[0].0 := todo[0].1])), w, [todo[0]])
  {
    var rest, done' := todo[1..], done[todo[0].0 := todo[0].1];
    var a, b := Acting(job, round, todo, done), Starting(job, round, todo, done);
    var c, d, e := Selecting(job, round, todo, done), Returned(job, round, rest, done'), Acting(job, round, rest, done');
    Edge(s, w, a, map[], b);
    StartOne(s, w, job, round, todo, done);
    Edge(s, w, c, map[], d);
    Edge(s, w, d, map[], e);
    GetsBoth(SetWorker(s, w, a), SetWorker(s, w, b), SetWorker(s, w, c), w, [], [todo[0]]);
    assert [] + [todo[0]] == [todo[0]];
    GetsFurther(SetWorker(s, w, a), SetWorker(s, w, c), SetWorker(s, w, d), w, [todo[0]]);
    GetsFurther(SetWorker(s, w, a), SetWorker(s, w, d), SetWorker(s, w, e), w, [todo[0]]);
  }

  lemma {:induction false} SelectAll(s: System, w: nat, job: Job, round: Round, todo: seq<Activation>, done: Done)
    requires w < |s.workers| && Current(s, w)
    ensures Gets(SetWorker(s, w, Acting(job, round, todo, done)),
                 SetWorker(s, w, Acting(job, round, [], Told(done, todo))), w, todo)
    decreases |todo|
  {
    if todo == [] {
      GetsNowhere(SetWorker(s, w, Acting(job, round, todo, done)), w);
    } else {
      var done', rest := done[todo[0].0 := todo[0].1], todo[1..];
      SelectOne(s, w, job, round, todo, done);
      SelectAll(s, w, job, round, rest, done');
      GetsBoth(SetWorker(s, w, Acting(job, round, todo, done)), SetWorker(s, w, Acting(job, round, rest, done')),
               SetWorker(s, w, Acting(job, round, [], Told(done', rest))), w, [todo[0]], rest);
      assert [todo[0]] + rest == todo;
    }
  }

  // ---------------------------------------------------------------- from start to decision

  /** The plan an undisturbed restore ends with, given what the core answers to the first and the second look. */
  ghost function FinalPlan(records: seq<PrfSelected>, first: Proxies, second: Proxies): Plan {
    if SomeNeedsConfirmation(records, first) then Reconcile(records, Some(first), second) else Reconcile(records, None, first)
  }

  /** The selections it makes: the first plan's, and what the second adds. */
  ghost function FinalSelections(records: seq<PrfSelected>, first: Proxies, second: Proxies): seq<Activation> {
    var acts := Reconcile(records, None, first).activations;
    acts + if SomeNeedsConfirmation(records, first)
           then Remaining(Reconcile(records, Some(first), second).activations, Told(map[], acts)) else []
  }

  lemma Starts(s: System, w: nat, job: Job, first: Proxies)
    requires w < |s.workers| && Current(s, w) && s.workers[w].pc.Gate?
    requires s.profiles.current == Some(job.uid) && SelectedOf(s.profiles, job.uid) == job.selected != []
    ensures Gets(s, SetWorker(s, w, Fetched(job, first)), w, [])
  {
    assert SetWorker(s, w, Gate).workers == s.workers;
    Edge(s, w, Gate, map[], Loading);
    Edge(s, w, Loading, map[], Fetching(job));
    Edge(s, w, Fetching(job), first, Fetched(job, first));
    GetsFurther(s, SetWorker(s, w, Loading), SetWorker(s, w, Fetching(job)), w, []);
    GetsFurther(s, SetWorker(s, w, Fetching(job)), SetWorker(s, w, Fetched(job, first)), w, []);
  }

  lemma FirstRound(s: System, w: nat, job: Job, first: Proxies)
    requires w < |s.workers| && Current(s, w)
    ensures var acts := Reconcile(job.selected, None, first).activations;
            Gets(SetWorker(s, w, Fetched(job, first)), SetWorker(s, w, Acting(job, First(first), [], Told(map[], acts))), w, acts)
  {
    var acts := Reconcile(job.selected, None, first).activations;
    var a, b := Fetched(job, first), Acting(job, First(first), acts, map[]);
    NothingDoneYet(acts);
    Edge(s, w, a, map[], b);
    SelectAll(s, w, job, First(first), acts, map[]);
    GetsBoth(SetWorker(s, w, a), SetWorker(s, w, b), SetWorker(s, w, Acting(job, First(first), [], Told(map[], acts))), w, [], acts);
    assert [] + acts == acts;
  }

  lemma SecondLook(s: System, w: nat, job: Job, first: Proxies, second: Proxies, done: Done)
    requires w < |s.workers| && Current(s, w) && SomeNeedsConfirmation(job.selected, first)
    ensures Gets(SetWorker(s, w, Acting(job, First(first), [], done)), SetWorker(s, w, Refetched(job, first, second, done)), w, [])
  {
    var a, b := Acting(job, First(first), [], done), Resting(job, first, done);
    var c, d := Refetching(job, first, done), Refetched(job, first, second, done);
    Edge(s, w, a, map[], b);
    Edge(s, w, b, map[], c);
    Edge(s, w, c, second, d);
    GetsFurther(SetWorker(s, w, a), SetWorker(s, w, b), SetWorker(s, w, c), w, []);
    GetsFurther(SetWorker(s, w, a), SetWorker(s, w, c), SetWorker(s, w, d), w, []);
  }

  lemma SecondRound(s: System, w: nat, job: Job, first: Proxies, second: Proxies, done: Done)
    requires w < |s.workers| && Current(s, w)
    ensures var plan := Reconcile(job.selected, Some(first), second);
            var acts := Remaining(plan.activations, done);
            Gets(SetWorker(s, w, Refetched(job, first, second, done)), SetWorker(s, w, Deciding(job, plan, Told(done, acts))), w, acts)
  {
    var plan := Reconcile(job.selected, Some(first), second);
    var acts := Remaining(plan.activations, done);
    var a, b := Refetched(job, first, second, done), Acting(job, Second(plan), acts, done);
    var c, d := Acting(job, Second(plan), [], Told(done, acts)), Deciding(job, plan, Told(done, acts));
    Edge(s, w, a, map[], b);
    SelectAll(s, w, job, Second(plan), acts, done);
    Edge(s, w, c, map[], d);
    GetsBoth(SetWorker(s, w, a), SetWorker(s, w, b), SetWorker(s, w, c), w, [], acts);
    assert [] + acts == acts;
    GetsFurther(SetWorker(s, w, a), SetWorker(s, w, c), SetWorker(s, w, d), w, acts);
  }

  lemma FirstIsEnough(s: System, w: nat, job: Job, first: Proxies, done: Done)
    requires w < |s.workers| && Current(s, w) && !SomeNeedsConfirmation(job.selected, first)
    ensures Gets(SetWorker(s, w, Acting(job, First(first), [], done)),
                 SetWorker(s, w, Deciding(job, Reconcile(job.selected, None, first), done)), w, [])
  {
    Edge(s, w, Acting(job, First(first), [], done), map[], Deciding(job, Reconcile(job.selected, None, first), done));
  }

  lemma ToDecision(s: System, w: nat, job: Job, first: Proxies, second: Proxies) returns (done: Done)
    requires w < |s.workers| && Current(s, w) && s.workers[w].pc.Gate?
    requires s.profiles.current == Some(job.uid) && SelectedOf(s.profiles, job.uid) == job.selected != []
    ensures Gets(s, SetWorker(s, w, Deciding(job, FinalPlan(job.selected, first, second), done)), w,
                 FinalSelections(job.selected, first, second))
  {
    var acts := Reconcile(job.selected, None, first).activations;
    var soFar := Told(map[], acts);
    var acted := SetWorker(s, w, Acting(job, First(first), [], soFar));
    Starts(s, w, job, first);
    FirstRound(s, w, job, first);
    GetsBoth(s, SetWorker(s, w, Fetched(job, first)), acted, w, [], acts);
    assert [] + acts == acts;
    if SomeNeedsConfirmation(job.selected, first) {
      var refetched := SetWorker(s, w, Refetched(job, first, second, soFar));
      var plan := Reconcile(job.selected, Some(first), second);
      var more := Remaining(plan.activations, soFar);
      done := Told(soFar, more);
      SecondLook(s, w, job, first, second, soFar);
      GetsFurther(s, acted, refetched, w, acts);
      SecondRound(s, w, job, first, second, soFar);
      GetsBoth(s, refetched, SetWorker(s, w, Deciding(job, plan, done)), w, acts, more);
    } else {
      done := soFar;
      FirstIsEnough(s, w, job, first, done);
      GetsFurther(s, acted, SetWorker(s, w, Deciding(job, Reconcile(job.selected, None, first), done)), w, acts);
      assert acts + [] == acts;
    }
  }

  // ---------------------------------------------------------------- from decision to end

  function Held(s: System): System {
    s.(permit := true)
  }

  lemma Queues(s: System, w: nat, job: Job, plan: Plan, done: Done)
    requires w < |s.workers| && Current(s, w) && s.workers[w].policy.Prune? && plan.repaired > 0
    ensures Gets(SetWorker(s, w, Deciding(job, plan, done)), SetWorker(s, w, PersistQueued(job, plan)), w, [])
  {
    var a, b, c := Deciding(job, plan, done), PersistGate(job, plan), PersistQueued(job, plan);
    Edge(s, w, a, map[], b);
    Edge(s, w, b, map[], c);
    GetsFurther(SetWorker(s, w, a), SetWorker(s, w, b), SetWorker(s, w, c), w, []);
  }

  lemma Takes(s: System, w: nat, job: Job, plan: Plan)
    requires w < |s.workers| && !s.permit
    ensures Gets(SetWorker(s, w, PersistQueued(job, plan)),
                 SetWorker(Held(s), w, PersistWriting(job, plan, s.profiles, s.version)), w, [])
  {
    var a, b := SetWorker(s, w, PersistQueued(job, plan)), SetWorker(Held(s), w, PersistWriting(job, plan, s.profiles, s.version));
    assert NextPersist(a, w, true).value.workers == b.workers;
    GetsOne(a, w, map[], b);
  }

  lemma Writes(s: System, w: nat, job: Job, plan: Plan)
    requires w < |s.workers| && Current(s, w)
    requires s.profiles.current == Some(job.uid) && SelectedOf(s.profiles, job.uid) == job.selected != []
    ensures Gets(SetWorker(Held(s), w, PersistWriting(job, plan, s.profiles, s.version)),
                 SetWorker(Held(s), w, PersistStoring(job, plan, s.profiles,
                   WithSelected(s.profiles, job.uid, plan.selected), true, s.version)), w, [])
  {
    Edge(Held(s), w, PersistWriting(job, plan, s.profiles, s.version), map[],
         PersistStoring(job, plan, s.profiles, WithSelected(s.profiles, job.uid, plan.selected), true, s.version));
  }

  /** The system once the worker has written its plan back. */
  function Written(s: System, w: nat, job: Job, plan: Plan, edited: Profiles): System
    requires w < |s.workers|
  {
    SetWorker(s, w, Finished).(profiles := edited, version := s.version + 1, permit := false,
                               repairs := s.repairs + [Repair(job, plan, s.profiles, edited)])
  }

  lemma Stores(s: System, w: nat, job: Job, plan: Plan, edited: Profiles)
    requires w < |s.workers| && !s.permit
    ensures Gets(SetWorker(Held(s), w, PersistStoring(job, plan, s.profiles, edited, true, s.version)),
                 Written(s, w, job, plan, edited), w, [])
  {
    var a := SetWorker(Held(s), w, PersistStoring(job, plan, s.profiles, edited, true, s.version));
    assert NextPersist(a, w, true).value.workers == Written(s, w, job, plan, edited).workers;
    GetsOne(a, w, map[], Written(s, w, job, plan, edited));
  }

  lemma WritesBack(s: System, w: nat, job: Job, plan: Plan, done: Done) returns (s': System)
    requires w < |s.workers| && Current(s, w) && s.workers[w].policy.Prune? && !s.permit
    requires s.profiles.current == Some(job.uid) && SelectedOf(s.profiles, job.uid) == job.selected != []
    ensures Gets(SetWorker(s, w, Deciding(job, plan, done)), s', w, [])
    ensures w < |s'.workers| && s'.workers[w].pc.Finished?
    ensures s'.profiles == if plan.repaired > 0 then WithSelected(s.profiles, job.uid, plan.selected) else s.profiles
  {
    var a := SetWorker(s, w, Deciding(job, plan, done));
    if plan.repaired == 0 {
      s' := SetWorker(s, w, Finished);
      Edge(s, w, Deciding(job, plan, done), map[], Finished);
    } else {
      var edited := WithSelected(s.profiles, job.uid, plan.selected);
      var queued := SetWorker(s, w, PersistQueued(job, plan));
      var writing := SetWorker(Held(s), w, PersistWriting(job, plan, s.profiles, s.version));
      var storing := SetWorker(Held(s), w, PersistStoring(job, plan, s.profiles, edited, true, s.version));
      s' := Written(s, w, job, plan, edited);
      Queues(s, w, job, plan, done);
      Takes(s, w, job, plan);
      GetsFurther(a, queued, writing, w, []);
      Writes(s, w, job, plan);
      GetsFurther(a, writing, storing, w, []);
      Stores(s, w, job, plan, edited);
      GetsFurther(a, storing, s', w, []);
    }
  }

  /**
   A restore after a profile switch, left alone, with a core that answers `first` and, if it is asked again,
   `second`: it makes the first plan's selections and whatever the second adds, and it writes the final
   plan's records into the current profile, and into nothing else, if there is anything to repair.
   */
  lemma UndisturbedRestore(s: System, w: nat, uid: string, records: seq<PrfSelected>, first: Proxies, second: Proxies)
    returns (s': System, i: nat)
    requires w < |s.workers| && Current(s, w) && s.workers[w].pc.Gate? && s.workers[w].policy.Prune? && !s.permit
    requires s.profiles.current == Some(uid) && SelectedOf(s.profiles, uid) == records != []
    ensures Gets(s, s', w, FinalSelections(records, first, second))
    ensures w < |s'.workers| && s'.workers[w].pc.Finished?
    ensures Holding(s.profiles, uid, i, records)
    ensures var plan := FinalPlan(records, first, second);
            if plan.selected == records then s'.profiles == s.profiles else OnlyRecordsChange(s.profiles, s'.profiles, i, plan.selected)
  {
    var job, plan := Job(uid, records), FinalPlan(records, first, second);
    var acts := FinalSelections(records, first, second);
    var done := ToDecision(s, w, job, first, second);
    s' := WritesBack(s, w, job, plan, done);
    GetsBoth(s, SetWorker(s, w, Deciding(job, plan, done)), s', w, acts, []);
    assert acts + [] == acts;
    i := FirstHolds(s.profiles, uid);
    RepairCountIsExact(records, None, first);
    RepairCountIsExact(records, Some(first), second);
  }
}
