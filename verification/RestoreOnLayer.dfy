/**
 The restore protocol counts commits where the layer below compares pointers.  Both are the same
 machine over the committed list: a value, a number of commits, and whether an update is under way.
 */
module RestoreOnLayer {
  import opened Common
  import opened ProfileList
  import D = DraftProtocol
  import R = RestoreProtocol
  import P = RestoreProgress
  import S = SelectedNodes

  /** What both protocols do to the list; `busy` from an update's read to its end. */
  datatype View<+T> = View(value: T, version: nat, busy: bool)

  /** `Finish` ends an update that read at `seen`; its result is missing if its edit failed. */
  datatype Move<+T> = Stay | Read | Finish(seen: nat, result: Option<T>) | Other(value: T)

  function Moved<T>(v: View<T>, move: Move<T>): Option<View<T>> {
    match move
    case Stay => Some(v)
    case Read => if v.busy then None else Some(v.(busy := true))
    case Finish(seen, result) =>
      if !v.busy then None
      else if result.Some? && v.version == seen then Some(View(result.value, v.version + 1, false))
      else Some(v.(busy := false))
    case Other(value) => Some(v.(value := value, version := v.version + 1))
  }

  // ---------------------------------------------------------------- the layer

  ghost predicate SomeoneEdits<T>(s: D.System<T>) {
    exists t :: 0 <= t < |s.tasks| && s.tasks[t].Editing?
  }

  ghost function LayerView<T>(s: D.System<T>): View<T>
    requires s.shared.Valid()
  {
    View(s.Committed(), |s.log|, SomeoneEdits(s))
  }

  function LayerMove<T>(edit: (nat, T) -> Option<T>, s: D.System<T>, step: D.Step<T>): Move<T>
    requires s.shared.Valid()
  {
    match step
    case Run(t, _) =>
      if t < |s.tasks| && s.tasks[t].Acquired? then Read
      else if t < |s.tasks| && s.tasks[t].Editing? then Finish(s.tasks[t].commitsSeen, edit(t, s.tasks[t].local))
      else Stay
    case Apply => if s.shared.draft.Some? then Other(s.shared.heap[s.shared.draft.value].value) else Stay
    case _ => Stay
  }

  lemma NoOneElseEdits<T>(s: D.System<T>, t: nat)
    requires D.PermitExclusive(s) && t < |s.tasks| && s.tasks[t].Holder()
    ensures forall u :: 0 <= u < |s.tasks| && u != t ==> !s.tasks[u].Editing?
  {}

  lemma RunningEditors<T>(edit: (nat, T) -> Option<T>, s: D.System<T>, t: nat, at: nat)
    requires D.NotifierSound(s) && t < |s.tasks| && D.RunTask(edit, s, t, at).Some?
    ensures var s' := D.RunTask(edit, s, t, at).value;
            && |s'.tasks| == |s.tasks|
            && (forall u :: 0 <= u < |s.tasks| && u != t ==> (s'.tasks[u].Editing? <==> s.tasks[u].Editing?))
            && (s'.tasks[t].Editing? <==> s.tasks[t].Acquired?)
  {}

  lemma OtherEditors<T>(edit: (nat, T) -> Option<T>, s: D.System<T>, step: D.Step<T>)
    requires !step.Run? && D.Next(edit, s, step).Some?
    ensures var s' := D.Next(edit, s, step).value;
            SomeoneEdits(s') <==> SomeoneEdits(s)
  {
    var s' := D.Next(edit, s, step).value;
    assert forall u :: 0 <= u < |s.tasks| ==> s'.tasks[u] == s.tasks[u];
  }

  /** Who is editing after a step. */
  lemma EditorMoves<T>(edit: (nat, T) -> Option<T>, s: D.System<T>, step: D.Step<T>)
    requires D.PermitExclusive(s) && D.NotifierSound(s) && s.shared.Valid() && D.Next(edit, s, step).Some?
    ensures SomeoneEdits(D.Next(edit, s, step).value) ==
            match LayerMove(edit, s, step)
            case Read => true
            case Finish(_, _) => false
            case _ => SomeoneEdits(s)
    ensures LayerMove(edit, s, step).Read? ==> !SomeoneEdits(s)
    ensures LayerMove(edit, s, step).Finish? ==> SomeoneEdits(s)
  {
    if step.Run? {
      var t, s' := step.task, D.Next(edit, s, step).value;
      RunningEditors(edit, s, t, step.at);
      if s.tasks[t].Acquired? || s.tasks[t].Editing? {
        NoOneElseEdits(s, t);
      } else {
        assert forall u :: 0 <= u < |s.tasks| ==> (s'.tasks[u].Editing? <==> s.tasks[u].Editing?);
      }
    } else {
      OtherEditors(edit, s, step);
    }
  }

  /** The layer is that machine: every step of every task, reader or editor is one of its moves. */
  lemma LayerIsTheMachine<T>(edit: (nat, T) -> Option<T>, initial: T, s: D.System<T>, step: D.Step<T>)
    requires D.Inv(edit, initial, s) && D.Next(edit, s, step).Some?
    ensures s.shared.Valid() && D.Next(edit, s, step).value.shared.Valid()
    ensures Moved(LayerView(s), LayerMove(edit, s, step)) == Some(LayerView(D.Next(edit, s, step).value))
    ensures LayerMove(edit, s, step).Read? ==>
              var pc' := D.Next(edit, s, step).value.tasks[step.task];
              pc'.Editing? && pc'.local == LayerView(s).value && pc'.commitsSeen == LayerView(s).version
  {
    D.CommitStep(edit, s, step);
    EditorMoves(edit, s, step);
    var s' := D.Next(edit, s, step).value;
    if step.Run? && s.tasks[step.task].Editing? {
      assert D.EditKnows(s, s.tasks[step.task]);
    }
  }

  // ---------------------------------------------------------------- the restore protocol

  function RestoreView(s: R.System): View<Profiles> {
    View(s.profiles, s.version, s.permit)
  }

  function RestoreMove(s: R.System, step: R.Step): Move<Profiles> {
    match step
    case Foreign(profiles) => Other(profiles)
    case StepClerk(c, ok) =>
      if c >= |s.clerks| then Stay
      else
        (match s.clerks[c].pc
         case Queued => Read
         case Writing(local, seen) => if R.Choose(local, s.clerks[c].choice).Some? && !ok then Finish(seen, None) else Stay
         case Storing(edited, _, seen) => Finish(seen, Some(edited))
         case _ => Stay)
    case StepWorker(w, ok, _, _) =>
      if w >= |s.workers| then Stay
      else
        (match s.workers[w].pc
         case PersistQueued(_, _) => Read
         case PersistWriting(job, plan, local, seen) =>
           var attempt := if R.Current(s, w) then R.WriteBack(local, job, plan) else R.Skip;
           if attempt.Missing? || (attempt.Write? && !ok) then Finish(seen, None) else Stay
         case PersistStoring(_, _, _, edited, _, seen) => Finish(seen, Some(edited))
         case _ => Stay)
    case _ => Stay
  }

  lemma ClerkIsTheMachine(s: R.System, c: nat, ok: bool)
    requires c < |s.clerks| && R.NextClerk(s, c, ok).Some? && (P.ClerkHolds(s.clerks[c].pc) ==> s.permit)
    ensures Moved(RestoreView(s), RestoreMove(s, R.StepClerk(c, ok))) == Some(RestoreView(R.NextClerk(s, c, ok).value))
  {}

  /** Before it persists a worker leaves the list alone. */
  lemma EarlyStays(s: R.System, w: nat, ok: bool, snapshot: map<string, S.Proxy>, again: bool)
    requires w < |s.workers|
    ensures R.NextStartup(s, w, ok, snapshot).Some? ==> RestoreView(R.NextStartup(s, w, ok, snapshot).value) == RestoreView(s)
    ensures R.NextActivation(s, w, ok).Some? ==> RestoreView(R.NextActivation(s, w, ok).value) == RestoreView(s)
    ensures R.NextDecision(s, w, ok, snapshot).Some? ==> RestoreView(R.NextDecision(s, w, ok, snapshot).value) == RestoreView(s)
    ensures R.NextSettle(s, w, ok, snapshot, again).Some? ==>
              RestoreView(R.NextSettle(s, w, ok, snapshot, again).value) == RestoreView(s)
  {}

  lemma PersistIsTheMachine(s: R.System, w: nat, ok: bool, snapshot: map<string, S.Proxy>, again: bool)
    requires w < |s.workers| && R.NextPersist(s, w, ok).Some? && (P.WorkerHolds(s.workers[w].pc) ==> s.permit)
    ensures Moved(RestoreView(s), RestoreMove(s, R.StepWorker(w, ok, snapshot, again)))
            == Some(RestoreView(R.NextPersist(s, w, ok).value))
  {}

  /**
   The restore protocol is the same machine: in every reachable state, each step moves the list as a
   move of the layer does, with the counter deciding where the layer compares pointers.
   */
  lemma RestoreIsTheMachine(profiles: Profiles, steps: seq<R.Step>, s: R.System, step: R.Step)
    requires R.Exec(R.Init(profiles), steps) == Some(s) && R.Next(s, step).Some?
    ensures Moved(RestoreView(s), RestoreMove(s, step)) == Some(RestoreView(R.Next(s, step).value))
  {
    P.GoingAlong(R.Init(profiles), steps);
    match step
    case StepClerk(c, ok) =>
      assert P.Holds(s, P.AClerk(c)) ==> s.permit;
      ClerkIsTheMachine(s, c, ok);
    case StepWorker(w, ok, snapshot, again) =>
      assert P.Holds(s, P.AWorker(w)) ==> s.permit;
      var pc := s.workers[w].pc;
      if R.InStartup(pc) || R.InActivation(pc) || R.InDecision(pc) || R.InSettle(pc) {
        EarlyStays(s, w, ok, snapshot, again);
      } else {
        PersistIsTheMachine(s, w, ok, snapshot, again);
      }
    case _ =>
  }
}
