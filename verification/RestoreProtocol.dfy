/**
 Restoring recorded selections in the background, against choices made meanwhile.

 Restore workers run one after another; clerks record or forget a choice; anyone may supersede
 the restores or commit something else to the profile list.  Changing the list is a
 `with_data_modify` call: it takes the permit, reads, edits, and commits if nothing was
 committed since it read.  `version` counts commits and stands for the pointer comparison,
 which `DraftTheorems.PointerEqualityMeansNoCommit` shows to be the same test.
 `staleSelects` and `repairs` record the history; no step reads them.
 */
module RestoreProtocol {
  import opened Common
  import opened SelectedNodes
  import opened ProfileList

  /** Settling looks at the groups at most this often: once, then once a second for 30 seconds. */
  const SETTLE_ATTEMPTS: nat := 31

  // ---------------------------------------------------------------- edits of the profile list

  function SelectedOf(p: Profiles, uid: string): seq<PrfSelected> {
    if Listed(p.List(), Some(uid)) then p.List()[Position(p.List(), Some(uid))].selected.GetOr([]) else []
  }

  /** Stores a profile's records; an empty list is stored as none. */
  function WithSelected(p: Profiles, uid: string, selected: seq<PrfSelected>): Profiles {
    var items, i := p.List(), Position(p.List(), Some(uid));
    if i == |items| then p
    else p.(items := Some(items[i := items[i].(selected := if selected == [] then None else Some(selected))]))
  }

  datatype Choice = Record(group: string, node: string) | Forget(group: string)

  function AfterChoice(selected: seq<PrfSelected>, choice: Choice): seq<PrfSelected> {
    match choice
    case Record(group, node) => Recorded(selected, group, node)
    case Forget(group) => Forgotten(selected, group)
  }

  /** The list after a choice was written down, or `None` if there is nothing to write. */
  function Choose(p: Profiles, choice: Choice): Option<Profiles> {
    if p.current.None? || !Listed(p.List(), p.current) then None
    else
      var before := SelectedOf(p, p.current.value);
      var after := AfterChoice(before, choice);
      if after == before then None else Some(WithSelected(p, p.current.value, after))
  }

  // ---------------------------------------------------------------- actors

  datatype ClerkPc =
    | Queued
    | Writing(local: Profiles, seen: nat)
    | Storing(edited: Profiles, changed: bool, seen: nat)
    | Superseding
    | Ended

  datatype Clerk = Clerk(choice: Choice, pc: ClerkPc)

  datatype Policy = Prune | KeepRecords

  /** What a worker restores: the current profile when it loaded, and its records. */
  datatype Job = Job(uid: string, selected: seq<PrfSelected>)

  /** Which snapshot the activations under way came from. */
  datatype Round = First(snapshot: Proxies) | Second(plan: Plan) | Settling(left: nat)

  type Done = map<string, string>

  datatype WorkerPc =
    | Waiting                                                             // for the previous worker
    | Gate
    | Loading
    | Fetching(job: Job)
    | Fetched(job: Job, first: Proxies)
    | Acting(job: Job, round: Round, todo: seq<Activation>, done: Done)     // about to check
    | Starting(job: Job, round: Round, todo: seq<Activation>, done: Done)   // check passed
    | Selecting(job: Job, round: Round, todo: seq<Activation>, done: Done)  // request in flight
    | Returned(job: Job, round: Round, todo: seq<Activation>, done: Done)   // about to check again
    | Resting(job: Job, first: Proxies, done: Done)
    | Refetching(job: Job, first: Proxies, done: Done)
    | Refetched(job: Job, first: Proxies, second: Proxies, done: Done)
    | Deciding(job: Job, plan: Plan, done: Done)
    | SettleGate(job: Job, done: Done, left: nat)
    | SettleFetching(job: Job, done: Done, left: nat)
    | SettleFetched(job: Job, done: Done, left: nat, snapshot: Proxies)
    | PersistGate(job: Job, plan: Plan)
    | PersistQueued(job: Job, plan: Plan)
    | PersistWriting(job: Job, plan: Plan, local: Profiles, seen: nat)
    | PersistStoring(job: Job, plan: Plan, local: Profiles, edited: Profiles, changed: bool, seen: nat)
    | Finished

  datatype Worker = Worker(generation: nat, policy: Policy, pc: WorkerPc, staleSelects: nat)

  /** A reconciled list that was written back, with the list it replaced. */
  datatype Repair = Repair(job: Job, plan: Plan, before: Profiles, after: Profiles)

  datatype System = System(
    profiles: Profiles,
    version: nat,
    permit: bool,
    generation: nat,
    workers: seq<Worker>,
    clerks: seq<Clerk>,
    repairs: seq<Repair>)

  datatype Step =
    | Spawn(policy: Policy)
    | Supersede
    | Foreign(profiles: Profiles)
    | Arrive(choice: Choice)
    | StepClerk(clerk: nat, ok: bool)
    | StepWorker(worker: nat, ok: bool, snapshot: Proxies, again: bool)

  function Init(profiles: Profiles): System {
    System(profiles, 0, false, 0, [], [], [])
  }

  function SetClerk(s: System, c: nat, pc: ClerkPc): System
    requires c < |s.clerks|
  {
    s.(clerks := s.clerks[c := s.clerks[c].(pc := pc)])
  }

  function SetWorker(s: System, w: nat, pc: WorkerPc): System
    requires w < |s.workers|
  {
    s.(workers := s.workers[w := s.workers[w].(pc := pc)])
  }

  predicate Current(s: System, w: nat)
    requires w < |s.workers|
  {
    s.generation == s.workers[w].generation
  }

  /** Goes on if no newer restore or choice superseded this one, and ends otherwise. */
  function IfCurrent(s: System, w: nat, pc: WorkerPc): System
    requires w < |s.workers|
  {
    SetWorker(s, w, if Current(s, w) then pc else Finished)
  }

  /** Activations whose group has not already been put on that node. */
  function Remaining(acts: seq<Activation>, done: Done): seq<Activation> {
    if acts == [] then []
    else
      var a := acts[|acts| - 1];
      Remaining(acts[..|acts| - 1], done) + if a.0 in done && done[a.0] == a.1 then [] else [a]
  }

  function NextClerk(s: System, c: nat, ok: bool): Option<System>
    requires c < |s.clerks|
  {
    match s.clerks[c].pc
    case Queued =>
      if s.permit then None else Some(SetClerk(s, c, Writing(s.profiles, s.version)).(permit := true))
    case Writing(local, seen) =>
      var edited := Choose(local, s.clerks[c].choice);
      if edited.None? then Some(SetClerk(s, c, Storing(local, false, seen)))
      else if ok then Some(SetClerk(s, c, Storing(edited.value, true, seen)))
      else Some(SetClerk(s, c, Ended).(permit := false))
    case Storing(edited, changed, seen) =>
      if s.version != seen then Some(SetClerk(s, c, Ended).(permit := false))
      else
        Some(SetClerk(s, c, if changed then Superseding else Ended)
               .(permit := false, profiles := edited, version := s.version + 1))
    case Superseding => Some(SetClerk(s, c, Ended).(generation := s.generation + 1))
    case Ended => None
  }

  /** Up to the first snapshot. */
  function NextStartup(s: System, w: nat, ok: bool, snapshot: Proxies): Option<System>
    requires w < |s.workers|
  {
    match s.workers[w].pc
    case Waiting =>
      if w > 0 && !s.workers[w - 1].pc.Finished? then None else Some(SetWorker(s, w, Gate))
    case Gate => Some(IfCurrent(s, w, Loading))
    case Loading =>
      var p := s.profiles;
      if p.current.None? || SelectedOf(p, p.current.value) == [] then Some(SetWorker(s, w, Finished))
      else Some(SetWorker(s, w, Fetching(Job(p.current.value, SelectedOf(p, p.current.value)))))
    case Fetching(job) => Some(SetWorker(s, w, if ok then Fetched(job, snapshot) else Finished))
    case Fetched(job, first) =>
      var acts := Reconcile(job.selected, None, first).activations;
      Some(IfCurrent(s, w, Acting(job, First(first), Remaining(acts, map[]), map[])))
    case _ => None
  }

  /** Making selections, checking before and after each. */
  function NextActivation(s: System, w: nat, ok: bool): Option<System>
    requires w < |s.workers|
  {
    match s.workers[w].pc
    case Acting(job, round, todo, done) =>
      if todo != [] then Some(IfCurrent(s, w, Starting(job, round, todo, done)))
      else
        Some(SetWorker(s, w,
          match round
          case First(first) =>
            if exists i :: 0 <= i < |job.selected| && NeedsConfirmation(job.selected[i], first)
            then Resting(job, first, done)
            else Deciding(job, Reconcile(job.selected, None, first), done)
          case Second(plan) => Deciding(job, plan, done)
          case Settling(left) => SettleGate(job, done, left)))
    case Starting(job, round, todo, done) =>
      Some(s.(workers := s.workers[w := s.workers[w].(
                pc := Selecting(job, round, todo, done),
                staleSelects := s.workers[w].staleSelects + if Current(s, w) then 0 else 1)]))
    case Selecting(job, round, todo, done) =>
      if todo == [] then None
      else if ok then
        Some(IfCurrent(s, w, Returned(job, round, todo[1..], done[todo[0].0 := todo[0].1])))
      else Some(SetWorker(s, w, Returned(job, round, todo[1..], done)))
    case Returned(job, round, todo, done) => Some(IfCurrent(s, w, Acting(job, round, todo, done)))
    case _ => None
  }

  /** The second look, and what to do with its plan. */
  function NextDecision(s: System, w: nat, ok: bool, snapshot: Proxies): Option<System>
    requires w < |s.workers|
  {
    match s.workers[w].pc
    case Resting(job, first, done) => Some(IfCurrent(s, w, Refetching(job, first, done)))
    case Refetching(job, first, done) =>
      Some(SetWorker(s, w, if ok then Refetched(job, first, snapshot, done) else Finished))
    case Refetched(job, first, second, done) =>
      var plan := Reconcile(job.selected, Some(first), second);
      Some(IfCurrent(s, w, Acting(job, Second(plan), Remaining(plan.activations, done), done)))
    case Deciding(job, plan, done) =>
      Some(IfCurrent(s, w,
        if s.workers[w].policy.KeepRecords? then SettleGate(job, done, SETTLE_ATTEMPTS)
        else if plan.repaired > 0 then PersistGate(job, plan)
        else Finished))
    case _ => None
  }

  /** Retrying while groups are still loading; `again` is false past the deadline. */
  function NextSettle(s: System, w: nat, ok: bool, snapshot: Proxies, again: bool): Option<System>
    requires w < |s.workers|
  {
    match s.workers[w].pc
    case SettleGate(job, done, left) =>
      if left == 0 then Some(SetWorker(s, w, Finished))
      else Some(IfCurrent(s, w, SettleFetching(job, done, left - 1)))
    case SettleFetching(job, done, left) =>
      Some(SetWorker(s, w,
        if ok then SettleFetched(job, done, left, snapshot)
        else if again then SettleGate(job, done, left)
        else Finished))
    case SettleFetched(job, done, left, now) =>
      var acts := Reconcile(job.selected, None, now).activations;
      if Unsettled(job.selected, now) == [] || !again then Some(SetWorker(s, w, Finished))
      else Some(IfCurrent(s, w, Acting(job, Settling(left), Remaining(acts, done), done)))
    case _ => None
  }

  datatype Attempt = Skip | Missing | Write(edited: Profiles)

  /** Whether, and how, a plan may be written into this list. */
  function WriteBack(p: Profiles, job: Job, plan: Plan): Attempt {
    if p.current != Some(job.uid) then Skip
    else if !Listed(p.List(), Some(job.uid)) then Missing
    else if SelectedOf(p, job.uid) != job.selected then Skip
    else Write(WithSelected(p, job.uid, plan.selected))
  }

  /** Writing the plan back, if the list is still the one it was computed from. */
  function NextPersist(s: System, w: nat, ok: bool): Option<System>
    requires w < |s.workers|
  {
    match s.workers[w].pc
    case PersistGate(job, plan) => Some(IfCurrent(s, w, PersistQueued(job, plan)))
    case PersistQueued(job, plan) =>
      if s.permit then None
      else Some(SetWorker(s, w, PersistWriting(job, plan, s.profiles, s.version)).(permit := true))
    case PersistWriting(job, plan, local, seen) =>
      Some(
        match if Current(s, w) then WriteBack(local, job, plan) else Skip
        case Skip => SetWorker(s, w, PersistStoring(job, plan, local, local, false, seen))
        case Missing => SetWorker(s, w, Finished).(permit := false)
        case Write(edited) =>
          if ok then SetWorker(s, w, PersistStoring(job, plan, local, edited, true, seen))
          else SetWorker(s, w, Finished).(permit := false))
    case PersistStoring(job, plan, local, edited, changed, seen) =>
      if s.version != seen then Some(SetWorker(s, w, Finished).(permit := false))
      else
        Some(SetWorker(s, w, Finished)
               .(permit := false, profiles := edited, version := s.version + 1,
                 repairs := s.repairs + if changed then [Repair(job, plan, s.profiles, edited)] else []))
    case _ => None
  }

  predicate InStartup(pc: WorkerPc) {
    pc.Waiting? || pc.Gate? || pc.Loading? || pc.Fetching? || pc.Fetched?
  }

  predicate InActivation(pc: WorkerPc) {
    pc.Acting? || pc.Starting? || pc.Selecting? || pc.Returned?
  }

  predicate InDecision(pc: WorkerPc) {
    pc.Resting? || pc.Refetching? || pc.Refetched? || pc.Deciding?
  }

  predicate InSettle(pc: WorkerPc) {
    pc.SettleGate? || pc.SettleFetching? || pc.SettleFetched?
  }

  function NextWorker(s: System, w: nat, ok: bool, snapshot: Proxies, again: bool): Option<System>
    requires w < |s.workers|
  {
    var pc := s.workers[w].pc;
    if InStartup(pc) then NextStartup(s, w, ok, snapshot)
    else if InActivation(pc) then NextActivation(s, w, ok)
    else if InDecision(pc) then NextDecision(s, w, ok, snapshot)
    else if InSettle(pc) then NextSettle(s, w, ok, snapshot, again)
    else NextPersist(s, w, ok)
  }

  function Next(s: System, step: Step): Option<System> {
    match step
    case Spawn(policy) =>
      Some(s.(generation := s.generation + 1,
              workers := s.workers + [Worker(s.generation + 1, policy, Waiting, 0)]))
    case Supersede => Some(s.(generation := s.generation + 1))
    case Foreign(profiles) => Some(s.(profiles := profiles, version := s.version + 1))
    case Arrive(choice) => Some(s.(clerks := s.clerks + [Clerk(choice, Queued)]))
    case StepClerk(c, ok) => if c < |s.clerks| then NextClerk(s, c, ok) else None
    case StepWorker(w, ok, snapshot, again) =>
      if w < |s.workers| then NextWorker(s, w, ok, snapshot, again) else None
  }

  function Exec(s: System, steps: seq<Step>): Option<System>
    decreases |steps|
  {
    if steps == [] then Some(s)
    else
      match Next(s, steps[0])
      case None => None
      case Some(next) => Exec(next, steps[1..])
  }
}
