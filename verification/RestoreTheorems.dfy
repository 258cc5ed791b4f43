/** What holds in every run of restores, choices and commits. */
module RestoreTheorems {
  import opened Common
  import opened SelectedNodes
  import opened ProfileList
  import opened RestoreProtocol

  /** A plan computed from this list, against some snapshots of the core. */
  ghost predicate IsPlanFor(selected: seq<PrfSelected>, plan: Plan) {
    exists previous, proxies :: plan == Reconcile(selected, previous, proxies)
  }

  ghost predicate RoundTrue(job: Job, round: Round) {
    round.Second? ==> IsPlanFor(job.selected, round.plan)
  }

  /** The plan a worker carries belongs to the list its job carries. */
  ghost predicate PlanTrue(pc: WorkerPc) {
    match pc
    case Acting(job, round, _, _) => RoundTrue(job, round)
    case Starting(job, round, _, _) => RoundTrue(job, round)
    case Selecting(job, round, _, _) => RoundTrue(job, round)
    case Returned(job, round, _, _) => RoundTrue(job, round)
    case Deciding(job, plan, _) => IsPlanFor(job.selected, plan)
    case PersistGate(job, plan) => IsPlanFor(job.selected, plan)
    case PersistQueued(job, plan) => IsPlanFor(job.selected, plan)
    case PersistWriting(job, plan, _, _) => IsPlanFor(job.selected, plan)
    case PersistStoring(job, plan, _, _, _, _) => IsPlanFor(job.selected, plan)
    case _ => true
  }

  /** A superseded worker has started at most one selection since, and is on its way out. */
  ghost predicate StaleBounded(wk: Worker, generation: nat) {
    && wk.generation <= generation
    && wk.staleSelects <= 1
    && (wk.staleSelects == 1 ==>
          wk.generation < generation && (wk.pc.Selecting? || wk.pc.Returned? || wk.pc.Finished?))
  }

  /** The write-back replaces, for the job's profile, exactly the list the job was loaded from. */
  ghost predicate WriteBackTrue(job: Job, plan: Plan, before: Profiles, after: Profiles) {
    && before.current == Some(job.uid)
    && Listed(before.List(), Some(job.uid))
    && SelectedOf(before, job.uid) == job.selected
    && after == WithSelected(before, job.uid, plan.selected)
  }

  ghost predicate PersistTrue(pc: WorkerPc, version: nat, profiles: Profiles) {
    match pc
    case PersistWriting(_, _, local, seen) => seen <= version && (seen == version ==> local == profiles)
    case PersistStoring(job, plan, local, edited, changed, seen) =>
      && seen <= version && (seen == version ==> local == profiles)
      && (if changed then WriteBackTrue(job, plan, local, edited) else edited == local)
    case _ => true
  }

  ghost predicate WorkerTrue(wk: Worker, generation: nat, version: nat, profiles: Profiles) {
    PlanTrue(wk.pc) && StaleBounded(wk, generation) && PersistTrue(wk.pc, version, profiles)
  }

  ghost predicate ClerkTrue(c: Clerk, version: nat, profiles: Profiles) {
    match c.pc
    case Writing(local, seen) => seen <= version && (seen == version ==> local == profiles)
    case Storing(edited, changed, seen) =>
      && seen <= version
      && (seen == version ==>
            if changed then Choose(profiles, c.choice) == Some(edited)
            else Choose(profiles, c.choice) == None && edited == profiles)
    case _ => true
  }

  /** A worker that has left the queue finds every earlier one finished. */
  ghost predicate WorkersSerial(s: System) {
    forall i, j :: 0 <= j < i < |s.workers| && !s.workers[i].pc.Waiting? ==> s.workers[j].pc.Finished?
  }

  ghost predicate RepairTrue(r: Repair) {
    WriteBackTrue(r.job, r.plan, r.before, r.after) && IsPlanFor(r.job.selected, r.plan)
  }

  ghost predicate Inv(s: System) {
    && WorkersSerial(s)
    && (forall w :: 0 <= w < |s.workers| ==> WorkerTrue(s.workers[w], s.generation, s.version, s.profiles))
    && (forall c :: 0 <= c < |s.clerks| ==> ClerkTrue(s.clerks[c], s.version, s.profiles))
    && (forall r :: 0 <= r < |s.repairs| ==> RepairTrue(s.repairs[r]))
  }

  // ---------------------------------------------------------------- one worker's step

  lemma StartupMoves(s: System, w: nat, ok: bool, snapshot: Proxies)
    requires w < |s.workers| && NextStartup(s, w, ok, snapshot).Some?
    requires WorkerTrue(s.workers[w], s.generation, s.version, s.profiles)
    ensures var s' := NextStartup(s, w, ok, snapshot).value;
            && s' == s.(workers := s'.workers) && s'.workers == s.workers[w := s'.workers[w]]
            && WorkerTrue(s'.workers[w], s.generation, s.version, s.profiles)
            && !s'.workers[w].pc.Waiting?
            && (s.workers[w].pc.Waiting? ==> w == 0 || s.workers[w - 1].pc.Finished?)
  {}

  lemma ActivationMoves(s: System, w: nat, ok: bool)
    requires w < |s.workers| && NextActivation(s, w, ok).Some?
    requires WorkerTrue(s.workers[w], s.generation, s.version, s.profiles)
    ensures var s' := NextActivation(s, w, ok).value;
            && s' == s.(workers := s'.workers) && s'.workers == s.workers[w := s'.workers[w]]
            && WorkerTrue(s'.workers[w], s.generation, s.version, s.profiles)
            && !s'.workers[w].pc.Waiting?
  {}

  lemma DecisionMoves(s: System, w: nat, ok: bool, snapshot: Proxies)
    requires w < |s.workers| && NextDecision(s, w, ok, snapshot).Some?
    requires WorkerTrue(s.workers[w], s.generation, s.version, s.profiles)
    ensures var s' := NextDecision(s, w, ok, snapshot).value;
            && s' == s.(workers := s'.workers) && s'.workers == s.workers[w := s'.workers[w]]
            && WorkerTrue(s'.workers[w], s.generation, s.version, s.profiles)
            && !s'.workers[w].pc.Waiting?
  {
    var pc := s.workers[w].pc;
    if pc.Refetched? {
      assert IsPlanFor(pc.job.selected, Reconcile(pc.job.selected, Some(pc.first), pc.second));
    }
  }

  lemma SettleMoves(s: System, w: nat, ok: bool, snapshot: Proxies, again: bool)
    requires w < |s.workers| && NextSettle(s, w, ok, snapshot, again).Some?
    requires WorkerTrue(s.workers[w], s.generation, s.version, s.profiles)
    ensures var s' := NextSettle(s, w, ok, snapshot, again).value;
            && s' == s.(workers := s'.workers) && s'.workers == s.workers[w := s'.workers[w]]
            && WorkerTrue(s'.workers[w], s.generation, s.version, s.profiles)
            && !s'.workers[w].pc.Waiting?
  {}

  /** Up to the commit, persisting changes only the worker and the permit. */
  lemma PersistQueues(s: System, w: nat, ok: bool)
    requires w < |s.workers| && (s.workers[w].pc.PersistGate? || s.workers[w].pc.PersistQueued?)
    requires NextPersist(s, w, ok).Some?
    requires WorkerTrue(s.workers[w], s.generation, s.version, s.profiles)
    ensures var s' := NextPersist(s, w, ok).value;
            && s' == s.(workers := s'.workers, permit := s'.permit) && s'.workers == s.workers[w := s'.workers[w]]
            && WorkerTrue(s'.workers[w], s.generation, s.version, s.profiles)
            && !s'.workers[w].pc.Waiting?
  {}

  lemma WriteBackIsTrue(p: Profiles, job: Job, plan: Plan)
    requires WriteBack(p, job, plan).Write?
    ensures WriteBackTrue(job, plan, p, WriteBack(p, job, plan).edited)
  {}

  lemma PersistWrites(s: System, w: nat, ok: bool)
    requires w < |s.workers| && s.workers[w].pc.PersistWriting?
    requires WorkerTrue(s.workers[w], s.generation, s.version, s.profiles)
    ensures NextPersist(s, w, ok).Some?
    ensures var s' := NextPersist(s, w, ok).value;
            && s' == s.(workers := s'.workers, permit := s'.permit) && s'.workers == s.workers[w := s'.workers[w]]
            && WorkerTrue(s'.workers[w], s.generation, s.version, s.profiles)
            && !s'.workers[w].pc.Waiting?
  {
    var pc := s.workers[w].pc;
    var attempt := if Current(s, w) then WriteBack(pc.local, pc.job, pc.plan) else Skip;
    if attempt.Write? {
      WriteBackIsTrue(pc.local, pc.job, pc.plan);
    }
  }

  lemma PersistPrepares(s: System, w: nat, ok: bool)
    requires w < |s.workers| && !s.workers[w].pc.PersistStoring? && NextPersist(s, w, ok).Some?
    requires WorkerTrue(s.workers[w], s.generation, s.version, s.profiles)
    ensures var s' := NextPersist(s, w, ok).value;
            && s' == s.(workers := s'.workers, permit := s'.permit) && s'.workers == s.workers[w := s'.workers[w]]
            && WorkerTrue(s'.workers[w], s.generation, s.version, s.profiles)
            && !s'.workers[w].pc.Waiting?
  {
    if s.workers[w].pc.PersistWriting? {
      PersistWrites(s, w, ok);
    } else {
      PersistQueues(s, w, ok);
    }
  }

  /** The commit itself; if it changes the list, the repair it logs is a true one. */
  lemma PersistCommits(s: System, w: nat, ok: bool)
    requires w < |s.workers| && s.workers[w].pc.PersistStoring? && NextPersist(s, w, ok).Some?
    requires WorkerTrue(s.workers[w], s.generation, s.version, s.profiles)
    ensures var s' := NextPersist(s, w, ok).value;
            && s'.workers == s.workers[w := s'.workers[w]]
            && s'.generation == s.generation && s'.clerks == s.clerks
            && s.version <= s'.version && (s'.version == s.version ==> s'.profiles == s.profiles)
            && WorkerTrue(s'.workers[w], s'.generation, s'.version, s'.profiles)
            && s'.workers[w].pc.Finished?
            && ((s'.repairs == s.repairs && s'.profiles == s.profiles)
                || (exists r :: s'.repairs == s.repairs + [r] && RepairTrue(r) && r.before == s.profiles && r.after == s'.profiles))
  {
    var s' := NextPersist(s, w, ok).value;
    var pc := s.workers[w].pc;
    if s.version == pc.seen && pc.changed {
      assert s'.repairs == s.repairs + [Repair(pc.job, pc.plan, s.profiles, pc.edited)];
      assert RepairTrue(Repair(pc.job, pc.plan, s.profiles, pc.edited));
    }
  }

  // ---------------------------------------------------------------- every step

  /** What a worker knows survives anything that only moves the counters forward. */
  lemma WorkerFrame(wk: Worker, s: System, s': System)
    requires WorkerTrue(wk, s.generation, s.version, s.profiles)
    requires s.generation <= s'.generation && s.version <= s'.version
    requires s'.version == s.version ==> s'.profiles == s.profiles
    ensures WorkerTrue(wk, s'.generation, s'.version, s'.profiles)
  {}

  lemma ClerkFrame(c: Clerk, s: System, s': System)
    requires ClerkTrue(c, s.version, s.profiles)
    requires s.version <= s'.version
    requires s'.version == s.version ==> s'.profiles == s.profiles
    ensures ClerkTrue(c, s'.version, s'.profiles)
  {}

  lemma FramesKeep(s: System, s': System)
    requires Inv(s)
    requires s.generation <= s'.generation && s.version <= s'.version
    requires s'.version == s.version ==> s'.profiles == s.profiles
    ensures forall w :: 0 <= w < |s.workers| ==> WorkerTrue(s.workers[w], s'.generation, s'.version, s'.profiles)
    ensures forall c :: 0 <= c < |s.clerks| ==> ClerkTrue(s.clerks[c], s'.version, s'.profiles)
  {
    forall w | 0 <= w < |s.workers| ensures WorkerTrue(s.workers[w], s'.generation, s'.version, s'.profiles) {
      WorkerFrame(s.workers[w], s, s');
    }
    forall c | 0 <= c < |s.clerks| ensures ClerkTrue(s.clerks[c], s'.version, s'.profiles) {
      ClerkFrame(s.clerks[c], s, s');
    }
  }

  lemma ClerkMoves(s: System, c: nat, ok: bool)
    requires c < |s.clerks| && NextClerk(s, c, ok).Some?
    requires ClerkTrue(s.clerks[c], s.version, s.profiles)
    ensures var s' := NextClerk(s, c, ok).value;
            && s'.clerks == s.clerks[c := s'.clerks[c]] && s'.workers == s.workers && s'.repairs == s.repairs
            && s.generation <= s'.generation && s.version <= s'.version
            && (s'.version == s.version ==> s'.profiles == s.profiles)
            && ClerkTrue(s'.clerks[c], s'.version, s'.profiles)
  {}

  lemma SerialKept(s: System, s': System, w: nat)
    requires WorkersSerial(s) && w < |s.workers| == |s'.workers| && s'.workers == s.workers[w := s'.workers[w]]
    requires s.workers[w].pc.Waiting? ==> w == 0 || s.workers[w - 1].pc.Finished?
    requires s.workers[w].pc.Finished? ==> s'.workers[w].pc.Finished?
    ensures WorkersSerial(s')
  {
    forall i, j | 0 <= j < i < |s'.workers| && !s'.workers[i].pc.Waiting?
      ensures s'.workers[j].pc.Finished?
    {
      if i == w && s.workers[w].pc.Waiting? && j < w - 1 {
        assert !s.workers[w - 1].pc.Waiting?;
      }
    }
  }

  lemma WorkerStepKept(s: System, w: nat, ok: bool, snapshot: Proxies, again: bool)
    requires Inv(s) && w < |s.workers| && NextWorker(s, w, ok, snapshot, again).Some?
    ensures Inv(NextWorker(s, w, ok, snapshot, again).value)
  {
    var s' := NextWorker(s, w, ok, snapshot, again).value;
    var pc := s.workers[w].pc;
    if InStartup(pc) {
      StartupMoves(s, w, ok, snapshot);
    } else if InActivation(pc) {
      ActivationMoves(s, w, ok);
    } else if InDecision(pc) {
      DecisionMoves(s, w, ok, snapshot);
    } else if InSettle(pc) {
      SettleMoves(s, w, ok, snapshot, again);
    } else if pc.PersistStoring? {
      PersistCommits(s, w, ok);
    } else {
      PersistPrepares(s, w, ok);
    }
    FramesKeep(s, s');
    SerialKept(s, s', w);
  }

  lemma InvKept(s: System, step: Step)
    requires Inv(s) && Next(s, step).Some?
    ensures Inv(Next(s, step).value)
  {
    var s' := Next(s, step).value;
    match step
    case StepWorker(w, ok, snapshot, again) =>
      WorkerStepKept(s, w, ok, snapshot, again);
    case StepClerk(c, ok) =>
      ClerkMoves(s, c, ok);
      FramesKeep(s, s');
    case _ =>
      FramesKeep(s, s');
  }

  lemma {:induction false} InvAlong(s: System, steps: seq<Step>)
    requires Inv(s) && Exec(s, steps).Some?
    ensures Inv(Exec(s, steps).value)
    decreases |steps|
  {
    if steps != [] {
      InvKept(s, steps[0]);
      InvAlong(Next(s, steps[0]).value, steps[1..]);
    }
  }

  // ---------------------------------------------------------------- every run

  /**
   A restore never overwrites a newer choice.  Whenever a reconciled list was written back, the
   list it replaced was, at that very commit, the one its plan was computed from, it belonged
   to the profile then current, and nothing but that profile's records changed.
   */
  lemma RestoreNeverOverwrites(profiles: Profiles, steps: seq<Step>, s: System, r: nat)
    requires Exec(Init(profiles), steps) == Some(s) && r < |s.repairs|
    ensures var repair := s.repairs[r];
            && repair.before.current == Some(repair.job.uid)
            && SelectedOf(repair.before, repair.job.uid) == repair.job.selected
            && IsPlanFor(repair.job.selected, repair.plan)
            && repair.after == WithSelected(repair.before, repair.job.uid, repair.plan.selected)
  {
    InvAlong(Init(profiles), steps);
    assert RepairTrue(s.repairs[r]);
  }

  /** The repair log is true to the committed list: it grows with the commit it describes, and no worker changes the list otherwise. */
  lemma RepairsAreCommits(profiles: Profiles, steps: seq<Step>, s: System, step: Step)
    requires Exec(Init(profiles), steps) == Some(s) && Next(s, step).Some?
    ensures var s' := Next(s, step).value;
            if s'.repairs == s.repairs then step.StepWorker? ==> s'.profiles == s.profiles
            else && |s'.repairs| == |s.repairs| + 1
                 && s'.repairs[|s.repairs|].before == s.profiles && s'.repairs[|s.repairs|].after == s'.profiles
  {
    InvAlong(Init(profiles), steps);
    match step
    case StepWorker(w, ok, snapshot, again) =>
      var pc := s.workers[w].pc;
      assert WorkerTrue(s.workers[w], s.generation, s.version, s.profiles);
      if pc.PersistStoring? {
        PersistCommits(s, w, ok);
      } else if InStartup(pc) {
        StartupMoves(s, w, ok, snapshot);
      } else if InActivation(pc) {
        ActivationMoves(s, w, ok);
      } else if InDecision(pc) {
        DecisionMoves(s, w, ok, snapshot);
      } else if InSettle(pc) {
        SettleMoves(s, w, ok, snapshot, again);
      } else {
        PersistPrepares(s, w, ok);
      }
    case StepClerk(c, ok) =>
      ClerkMoves(s, c, ok);
    case _ =>
  }

  /** At most one worker is under way. */
  lemma WorkersNeverOverlap(profiles: Profiles, steps: seq<Step>, s: System, i: nat, j: nat)
    requires Exec(Init(profiles), steps) == Some(s)
    requires i < |s.workers| && !s.workers[i].pc.Waiting? && !s.workers[i].pc.Finished?
    requires j < |s.workers| && !s.workers[j].pc.Waiting? && !s.workers[j].pc.Finished?
    ensures i == j
  {
    InvAlong(Init(profiles), steps);
  }

  /** Once superseded, a worker starts at most one further selection before it ends. */
  lemma StaleWorkersStandDown(profiles: Profiles, steps: seq<Step>, s: System, w: nat)
    requires Exec(Init(profiles), steps) == Some(s) && w < |s.workers|
    ensures s.workers[w].staleSelects <= 1
    ensures s.workers[w].generation == s.generation ==> s.workers[w].staleSelects == 0
    ensures s.workers[w].staleSelects == 1 ==>
              s.workers[w].pc.Selecting? || s.workers[w].pc.Returned? || s.workers[w].pc.Finished?
  {
    InvAlong(Init(profiles), steps);
    assert WorkerTrue(s.workers[w], s.generation, s.version, s.profiles);
  }

  /**
   A choice is written into the list committed immediately before it, if it changes that list, and only
   then supersedes the restores; if anything was committed since it read, it does nothing.
   */
  lemma ChoicesAreSerialised(profiles: Profiles, steps: seq<Step>, s: System, c: nat, ok: bool)
    requires Exec(Init(profiles), steps) == Some(s)
    requires c < |s.clerks| && s.clerks[c].pc.Storing? && NextClerk(s, c, ok).Some?
    ensures var s' := NextClerk(s, c, ok).value;
            var choice := Choose(s.profiles, s.clerks[c].choice);
            && (s'.clerks[c].pc.Superseding? <==> s.version == s.clerks[c].pc.seen && choice.Some?)
            && s'.profiles == if s'.clerks[c].pc.Superseding? then choice.value else s.profiles
  {
    InvAlong(Init(profiles), steps);
    assert ClerkTrue(s.clerks[c], s.version, s.profiles);
  }
}
