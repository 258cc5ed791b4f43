/**
 Switching the current profile while other tasks update the list.

 A switch stages the new profile as a draft so that the core can validate it, then discards the
 draft and commits the change as one more `with_data_modify` update.  Any number of switch
 requests and updates run on the layer of `DraftProtocol`, step by step in any order.  Only
 the path on which the core accepts the configuration is covered, and nobody applies a draft.
 */
module ProfileSwitch {
  import opened Common
  import opened ProfileList
  import D = DraftProtocol
  import T = DraftTheorems

  type Edits = (nat, Profiles) -> Option<Profiles>

  datatype Pc =
    | Busy                 // another switch was under way
    | Claimed              // holds the switching flag
    | Staged               // draft edited, core being updated
    | Validated            // core accepted it
    | Discarded            // draft gone, about to commit
    | Modifying(task: nat) // waiting for its update
    | Returned(update: Option<nat>)

  datatype Request = Request(target: Option<string>, pc: Pc) {
    /** Between taking the switching flag and giving it back. */
    predicate Active() {
      pc.Claimed? || pc.Staged? || pc.Validated? || pc.Discarded? || pc.Modifying?
    }
  }

  datatype System = System(list: D.System<Profiles>, switching: bool, requests: seq<Request>)

  datatype Step =
    | Ask(target: Option<string>)
    | Advance(request: nat, at: nat)
    | Other(step: D.Step<Profiles>)

  function Init(profiles: Profiles, at: nat): System {
    System(D.Init(profiles, at), false, [])
  }

  /** Update `t` is the one a switch to `target` performs. */
  ghost predicate Patches(edit: Edits, t: nat, target: Option<string>) {
    forall p :: edit(t, p) == Some(Patch(p, target))
  }

  function Move(s: System, r: nat, pc: Pc): System
    requires r < |s.requests|
  {
    s.(requests := s.requests[r := s.requests[r].(pc := pc)])
  }

  /** A request's own step together with the layer step it performs. */
  function MoveWith(edit: Edits, s: System, r: nat, pc: Pc, step: D.Step<Profiles>): Option<System>
    requires r < |s.requests|
  {
    match D.Next(edit, s.list, step)
    case None => None
    case Some(list) => Some(Move(s, r, pc).(list := list))
  }

  ghost function AdvanceRequest(edit: Edits, s: System, r: nat, at: nat): Option<System>
    requires r < |s.requests|
  {
    var target := s.requests[r].target;
    match s.requests[r].pc
    case Claimed => MoveWith(edit, s, r, Staged, D.EditDraft((p: Profiles) => Patch(p, target), at))
    case Staged => Some(Move(s, r, Validated))
    case Validated =>
      var moved := MoveWith(edit, s, r, if target.Some? then Discarded else Returned(None), D.Discard);
      if moved.Some? && target.None? then Some(moved.value.(switching := false)) else moved
    case Discarded =>
      var t := |s.list.tasks|;
      if Patches(edit, t, target) then MoveWith(edit, s, r, Modifying(t), D.Spawn) else None
    case Modifying(t) =>
      if t < |s.list.tasks| && s.list.tasks[t].Done? then Some(Move(s, r, Returned(Some(t))).(switching := false))
      else None
    case _ => None
  }

  ghost function Next(edit: Edits, s: System, step: Step): Option<System> {
    match step
    case Ask(target) =>
      if s.switching then Some(s.(requests := s.requests + [Request(target, Busy)]))
      else Some(s.(switching := true, requests := s.requests + [Request(target, Claimed)]))
    case Advance(r, at) => if r < |s.requests| then AdvanceRequest(edit, s, r, at) else None
    case Other(step) =>
      if step.Apply? then None
      else
        match D.Next(edit, s.list, step)
        case None => None
        case Some(list) => Some(s.(list := list))
  }

  ghost function Exec(edit: Edits, s: System, steps: seq<Step>): Option<System>
    decreases |steps|
  {
    if steps == [] then Some(s)
    else
      match Next(edit, s, steps[0])
      case None => None
      case Some(next) => Exec(edit, next, steps[1..])
  }

  // ---------------------------------------------------------------- the invariant

  ghost predicate OneSwitch(s: System) {
    && (forall i, j :: 0 <= i < |s.requests| && 0 <= j < |s.requests| && s.requests[i].Active() && s.requests[j].Active() ==> i == j)
    && (s.switching <==> exists i :: 0 <= i < |s.requests| && s.requests[i].Active())
  }

  /**
   The request's update exists, does what the request asked, and has ended if the request has.  Only a request
   without a target has none.
   */
  ghost predicate RequestTrue(edit: Edits, list: D.System<Profiles>, r: Request) {
    match r.pc
    case Discarded => r.target.Some?
    case Modifying(t) => r.target.Some? && t < |list.tasks| && Patches(edit, t, r.target)
    case Returned(Some(t)) => r.target.Some? && t < |list.tasks| && Patches(edit, t, r.target) && list.tasks[t].Done?
    case Returned(None) => r.target.None?
    case _ => true
  }

  /** Without `apply`, no update is ever refused, and the log holds nothing but updates. */
  ghost predicate OnlyUpdates(list: D.System<Profiles>) {
    && list.applies == 0
    && (forall i :: 0 <= i < |list.log| ==> list.log[i].Replaced?)
    && (forall t :: 0 <= t < |list.tasks| ==> !list.tasks[t].HasOutcome(D.LockFailed))
  }

  /** A task that reports a failed edit had an edit that can fail. */
  ghost predicate FailuresTrue(edit: Edits, list: D.System<Profiles>) {
    forall t :: 0 <= t < |list.tasks| && list.tasks[t].HasOutcome(D.EditFailed) ==> exists p :: edit(t, p).None?
  }

  ghost predicate Inv(edit: Edits, initial: Profiles, s: System) {
    && ListSound(edit, initial, s.list)
    && OneSwitch(s)
    && forall r :: 0 <= r < |s.requests| ==> RequestTrue(edit, s.list, s.requests[r])
  }

  /** How one layer step other than `apply` may change what the tasks report. */
  lemma OutcomesMove(edit: Edits, list: D.System<Profiles>, step: D.Step<Profiles>, t: nat)
    requires D.EditsTracked(list) && D.NotifierSound(list) && list.shared.Valid()
    requires !step.Apply? && D.Next(edit, list, step).Some?
    requires OnlyUpdates(list) && FailuresTrue(edit, list)
    requires t < |D.Next(edit, list, step).value.tasks|
    ensures !D.Next(edit, list, step).value.tasks[t].HasOutcome(D.LockFailed)
    ensures D.Next(edit, list, step).value.tasks[t].HasOutcome(D.EditFailed) ==> exists p :: edit(t, p).None?
  {
    var pc' := D.Next(edit, list, step).value.tasks[t];
    if t < |list.tasks| && step.Run? && step.task == t && list.tasks[t].Editing? {
      T.EditEnds(edit, list, t, step.at);
      assert pc'.HasOutcome(D.EditFailed) ==> edit(t, list.tasks[t].local).None?;
    } else {
      OutcomesStay(edit, list, step, t);
    }
  }

  lemma OutcomesStay(edit: Edits, list: D.System<Profiles>, step: D.Step<Profiles>, t: nat)
    requires D.NotifierSound(list) && D.Next(edit, list, step).Some?
    requires t < |D.Next(edit, list, step).value.tasks|
    requires !(step.Run? && step.task == t && t < |list.tasks| && list.tasks[t].Editing?)
    ensures var pc' := D.Next(edit, list, step).value.tasks[t];
            forall o :: pc'.HasOutcome(o) ==> t < |list.tasks| && list.tasks[t].HasOutcome(o)
  {}

  lemma DoneStays(edit: Edits, list: D.System<Profiles>, step: D.Step<Profiles>)
    requires D.NotifierSound(list) && D.Next(edit, list, step).Some?
    ensures var list' := D.Next(edit, list, step).value;
            && |list'.tasks| >= |list.tasks|
            && forall t :: 0 <= t < |list.tasks| && list.tasks[t].Done? ==> list'.tasks[t].Done?
  {}

  lemma LogStaysUpdates(edit: Edits, list: D.System<Profiles>, step: D.Step<Profiles>)
    requires D.CountsExact(list) && D.NotifierSound(list) && D.DraftSeparate(list)
    requires !step.Apply? && D.Next(edit, list, step).Some?
    requires list.applies == 0 && forall i :: 0 <= i < |list.log| ==> list.log[i].Replaced?
    ensures var list' := D.Next(edit, list, step).value;
            list'.applies == 0 && forall i :: 0 <= i < |list'.log| ==> list'.log[i].Replaced?
  {
    var list' := D.Next(edit, list, step).value;
    D.CommitStep(edit, list, step);
    forall i | 0 <= i < |list'.log| ensures list'.log[i].Replaced? {
      assert i < |list.log| ==> list'.log[i] == list'.log[..|list.log|][i] || list'.log == list.log;
    }
  }

  lemma UpdatesKept(edit: Edits, initial: Profiles, list: D.System<Profiles>, step: D.Step<Profiles>)
    requires D.Inv(edit, initial, list) && !step.Apply? && D.Next(edit, list, step).Some?
    requires OnlyUpdates(list) && FailuresTrue(edit, list)
    ensures OnlyUpdates(D.Next(edit, list, step).value) && FailuresTrue(edit, D.Next(edit, list, step).value)
  {
    var list' := D.Next(edit, list, step).value;
    LogStaysUpdates(edit, list, step);
    forall t | 0 <= t < |list'.tasks|
      ensures !list'.tasks[t].HasOutcome(D.LockFailed)
      ensures list'.tasks[t].HasOutcome(D.EditFailed) ==> exists p :: edit(t, p).None?
    {
      OutcomesMove(edit, list, step, t);
    }
  }

  ghost predicate ListSound(edit: Edits, initial: Profiles, list: D.System<Profiles>) {
    D.Inv(edit, initial, list) && OnlyUpdates(list) && FailuresTrue(edit, list)
  }

  ghost predicate Continues(list: D.System<Profiles>, list': D.System<Profiles>) {
    && |list'.tasks| >= |list.tasks|
    && forall t :: 0 <= t < |list.tasks| && list.tasks[t].Done? ==> list'.tasks[t].Done?
  }

  lemma LayerKeeps(edit: Edits, initial: Profiles, list: D.System<Profiles>, step: D.Step<Profiles>)
    requires ListSound(edit, initial, list) && !step.Apply? && D.Next(edit, list, step).Some?
    ensures ListSound(edit, initial, D.Next(edit, list, step).value)
    ensures Continues(list, D.Next(edit, list, step).value)
  {
    UpdatesKept(edit, initial, list, step);
    DoneStays(edit, list, step);
    D.InvKept(edit, initial, list, step);
  }

  lemma RequestFrame(edit: Edits, list: D.System<Profiles>, list': D.System<Profiles>, r: Request)
    requires Continues(list, list') && RequestTrue(edit, list, r)
    ensures RequestTrue(edit, list', r)
  {}

  /** Other requests keep what they know when the list moves on. */
  lemma RequestsKeep(edit: Edits, s: System, list': D.System<Profiles>)
    requires Continues(s.list, list')
    requires forall r :: 0 <= r < |s.requests| ==> RequestTrue(edit, s.list, s.requests[r])
    ensures forall r :: 0 <= r < |s.requests| ==> RequestTrue(edit, list', s.requests[r])
  {
    forall r | 0 <= r < |s.requests| ensures RequestTrue(edit, list', s.requests[r]) {
      RequestFrame(edit, s.list, list', s.requests[r]);
    }
  }

  lemma RequestMoved(s: System, s': System, r: nat)
    requires OneSwitch(s) && r < |s.requests| == |s'.requests| && s.requests[r].Active()
    requires s'.requests == s.requests[r := s'.requests[r]]
    requires s'.switching == s'.requests[r].Active()
    ensures OneSwitch(s')
  {
    assert s'.requests[r].Active() ==> exists i :: 0 <= i < |s'.requests| && s'.requests[i].Active();
  }

  /** The layer step a request's step performs, if it performs one. */
  lemma AdvanceLayer(edit: Edits, initial: Profiles, s: System, r: nat, at: nat)
    requires Inv(edit, initial, s) && r < |s.requests| && AdvanceRequest(edit, s, r, at).Some?
    ensures var s' := AdvanceRequest(edit, s, r, at).value;
            ListSound(edit, initial, s'.list) && Continues(s.list, s'.list)
  {
    var target := s.requests[r].target;
    match s.requests[r].pc
    case Claimed => LayerKeeps(edit, initial, s.list, D.EditDraft((p: Profiles) => Patch(p, target), at));
    case Validated => LayerKeeps(edit, initial, s.list, D.Discard);
    case Discarded => LayerKeeps(edit, initial, s.list, D.Spawn);
    case _ =>
  }

  lemma AdvanceMoves(edit: Edits, s: System, r: nat, at: nat)
    requires OneSwitch(s) && r < |s.requests| && AdvanceRequest(edit, s, r, at).Some?
    requires RequestTrue(edit, s.list, s.requests[r])
    ensures var s' := AdvanceRequest(edit, s, r, at).value;
            && |s'.requests| == |s.requests| && s'.requests == s.requests[r := s'.requests[r]]
            && s.requests[r].Active() && s'.switching == s'.requests[r].Active()
            && RequestTrue(edit, s'.list, s'.requests[r])
  {
    assert s.requests[r].Active();
  }

  lemma AskKeeps(edit: Edits, s: System, target: Option<string>)
    requires OneSwitch(s) && forall r :: 0 <= r < |s.requests| ==> RequestTrue(edit, s.list, s.requests[r])
    ensures var s' := Next(edit, s, Ask(target)).value;
            OneSwitch(s') && forall r :: 0 <= r < |s'.requests| ==> RequestTrue(edit, s'.list, s'.requests[r])
  {
    var s' := Next(edit, s, Ask(target)).value;
    if s.switching {
      var i :| 0 <= i < |s.requests| && s.requests[i].Active();
      assert s'.requests[i].Active();
    } else {
      assert s'.requests[|s.requests|].Active();
    }
  }

  lemma InvKept(edit: Edits, initial: Profiles, s: System, step: Step)
    requires Inv(edit, initial, s) && Next(edit, s, step).Some?
    ensures Inv(edit, initial, Next(edit, s, step).value)
  {
    var s' := Next(edit, s, step).value;
    match step
    case Ask(target) =>
      AskKeeps(edit, s, target);
    case Other(layer) =>
      LayerKeeps(edit, initial, s.list, layer);
      RequestsKeep(edit, s, s'.list);
    case Advance(r, at) =>
      AdvanceLayer(edit, initial, s, r, at);
      AdvanceMoves(edit, s, r, at);
      RequestsKeep(edit, s, s'.list);
      RequestMoved(s, s', r);
  }

  lemma {:induction false} InvAlong(edit: Edits, initial: Profiles, s: System, steps: seq<Step>)
    requires Inv(edit, initial, s) && Exec(edit, s, steps).Some?
    ensures Inv(edit, initial, Exec(edit, s, steps).value)
    decreases |steps|
  {
    if steps != [] {
      InvKept(edit, initial, s, steps[0]);
      InvAlong(edit, initial, Next(edit, s, steps[0]).value, steps[1..]);
    }
  }

  lemma ReachableInv(edit: Edits, initial: Profiles, at: nat, steps: seq<Step>, s: System)
    requires Exec(edit, Init(initial, at), steps) == Some(s)
    ensures Inv(edit, initial, s)
  {
    D.InvInitially(edit, initial, at);
    InvAlong(edit, initial, Init(initial, at), steps);
  }

  // ---------------------------------------------------------------- every run

  /** Updates applied one after another. */
  function InOrder(edit: Edits, initial: Profiles, order: seq<nat>): Profiles {
    if order == [] then initial
    else
      var before := InOrder(edit, initial, order[..|order| - 1]);
      edit(order[|order| - 1], before).GetOr(before)
  }

  function Order(log: seq<D.Commit<Profiles>>): (order: seq<nat>)
    requires forall i :: 0 <= i < |log| ==> log[i].Replaced?
    ensures |order| == |log| && forall i :: 0 <= i < |log| ==> order[i] == log[i].task
  {
    seq(|log|, i requires 0 <= i < |log| => log[i].task)
  }

  lemma {:induction false} SerialIsInOrder(edit: Edits, initial: Profiles, log: seq<D.Commit<Profiles>>)
    requires D.Serial(edit, initial, log) && forall i :: 0 <= i < |log| ==> log[i].Replaced?
    ensures D.LastCommitted(initial, log) == InOrder(edit, initial, Order(log))
  {
    if log != [] {
      var n := |log| - 1;
      assert D.Serial(edit, initial, log[..n]) by {
        assert forall i :: 0 <= i < n ==> log[..n][..i] == log[..i];
      }
      SerialIsInOrder(edit, initial, log[..n]);
      assert Order(log)[..n] == Order(log[..n]);
      assert log[n].before == D.LastCommitted(initial, log[..n]);
    }
  }

  /**
   A switch that has returned took effect, and nothing else was lost.  There is one order of all
   the updates that reported success, the switch among them, such that the committed list is
   the initial one with those updates applied in that order.
   */
  lemma SwitchLosesNothing(edit: Edits, initial: Profiles, at: nat, steps: seq<Step>, s: System, r: nat)
    returns (order: seq<nat>)
    requires Exec(edit, Init(initial, at), steps) == Some(s)
    requires r < |s.requests| && s.requests[r].pc.Returned? && s.requests[r].target.Some?
    ensures s.requests[r].pc.update.Some?
    ensures s.list.shared.Valid() && s.list.Committed() == InOrder(edit, initial, order)
    ensures forall i, j :: 0 <= i < j < |order| ==> order[i] != order[j]
    ensures forall t: nat :: t in order <==> t < |s.list.tasks| && s.list.tasks[t].HasOutcome(D.Succeeded)
    ensures s.requests[r].pc.update.value in order
    ensures Patches(edit, s.requests[r].pc.update.value, s.requests[r].target)
  {
    ReachableInv(edit, initial, at, steps, s);
    var list := s.list;
    assert RequestTrue(edit, list, s.requests[r]);
    order := Order(list.log);
    SerialIsInOrder(edit, initial, list.log);
    forall t: nat | t < |list.tasks| && list.tasks[t].HasOutcome(D.Succeeded)
      ensures t in order
    {
      assert D.Logged(list.log, t);
      var i :| 0 <= i < |list.log| && list.log[i].Replaced? && list.log[i].task == t;
      assert order[i] == t;
    }
    forall t | t in order
      ensures t < |list.tasks| && list.tasks[t].HasOutcome(D.Succeeded)
    {
      var i :| 0 <= i < |order| && order[i] == t;
      assert list.log[i].task == t;
    }
    var t := s.requests[r].pc.update.value;
    assert RequestTrue(edit, list, s.requests[r]);
    assert !list.tasks[t].HasOutcome(D.LockFailed);
    assert list.tasks[t].HasOutcome(D.EditFailed) ==> exists p :: edit(t, p).None?;
    assert list.tasks[t].HasOutcome(D.Succeeded);
  }

  /**
   What a switch that has returned did: its one commit left every item as it was in the list
   committed immediately before, and made the target current if that list still had it.
   */
  lemma SwitchChangesOnlyCurrent(edit: Edits, initial: Profiles, at: nat, steps: seq<Step>, s: System, r: nat)
    returns (i: nat)
    requires Exec(edit, Init(initial, at), steps) == Some(s)
    requires r < |s.requests| && s.requests[r].pc.Returned? && s.requests[r].target.Some?
    ensures s.requests[r].pc.update.Some?
    ensures i < |s.list.log| && s.list.log[i].Replaced? && s.list.log[i].task == s.requests[r].pc.update.value
    ensures var before, after := s.list.log[i].before, s.list.log[i].after;
            && before == D.LastCommitted(initial, s.list.log[..i])
            && after.List() == before.List()
            && after.current == (if Listed(before.List(), s.requests[r].target) then s.requests[r].target else before.current)
  {
    var order := SwitchLosesNothing(edit, initial, at, steps, s, r);
    ReachableInv(edit, initial, at, steps, s);
    var t, log := s.requests[r].pc.update.value, s.list.log;
    assert D.Logged(log, t);
    i :| 0 <= i < |log| && log[i].Replaced? && log[i].task == t;
    assert edit(t, log[i].before) == Some(Patch(log[i].before, s.requests[r].target));
  }

  /** Two switches never run at once, and the flag is set exactly while one does. */
  lemma SwitchesAreExclusive(edit: Edits, initial: Profiles, at: nat, steps: seq<Step>, s: System)
    requires Exec(edit, Init(initial, at), steps) == Some(s)
    ensures forall i, j :: 0 <= i < |s.requests| && 0 <= j < |s.requests| && s.requests[i].Active() && s.requests[j].Active() ==> i == j
    ensures s.switching <==> exists i :: 0 <= i < |s.requests| && s.requests[i].Active()
  {
    ReachableInv(edit, initial, at, steps, s);
  }

  /** A request finds another one under way, and gives up, exactly if there is one. */
  lemma BusyExactlyIfActive(edit: Edits, initial: Profiles, at: nat, steps: seq<Step>, s: System, target: Option<string>)
    requires Exec(edit, Init(initial, at), steps) == Some(s)
    ensures Next(edit, s, Ask(target)).Some?
    ensures var s', busy := Next(edit, s, Ask(target)).value, exists i :: 0 <= i < |s.requests| && s.requests[i].Active();
            && s'.list == s.list && s'.requests == s.requests + [Request(target, if busy then Busy else Claimed)]
            && s'.switching
  {
    ReachableInv(edit, initial, at, steps, s);
  }

  // ---------------------------------------------------------------- the draft is the switch's

  /** Nobody but the switches edits the draft. */
  predicate Quiet(steps: seq<Step>) {
    forall i :: 0 <= i < |steps| ==> !(steps[i].Other? && steps[i].step.EditDraft?)
  }

  predicate Validating(pc: Pc) {
    pc.Staged? || pc.Validated?
  }

  ghost predicate SomeoneValidates(s: System) {
    exists r :: 0 <= r < |s.requests| && Validating(s.requests[r].pc)
  }

  function DraftOf(list: D.System<Profiles>): Option<Profiles>
    requires list.shared.Valid()
  {
    T.Values(list).draft
  }

  /** A layer step that neither edits nor applies the draft keeps it, or discards it. */
  lemma DraftKept(edit: Edits, initial: Profiles, list: D.System<Profiles>, step: D.Step<Profiles>)
    requires D.Inv(edit, initial, list) && D.Next(edit, list, step).Some? && !step.EditDraft? && !step.Apply?
    ensures list.shared.Valid() && D.Next(edit, list, step).value.shared.Valid()
    ensures DraftOf(D.Next(edit, list, step).value) == if step.Discard? then None else DraftOf(list)
  {
    T.CopyOnWriteRefinesValues(edit, initial, list, step);
  }

  lemma DraftStaged(edit: Edits, initial: Profiles, list: D.System<Profiles>, target: Option<string>, at: nat)
    requires D.Inv(edit, initial, list) && list.shared.Valid() && DraftOf(list).None?
    requires D.Next(edit, list, D.EditDraft((p: Profiles) => Patch(p, target), at)).Some?
    ensures var list' := D.Next(edit, list, D.EditDraft((p: Profiles) => Patch(p, target), at)).value;
            list'.shared.Valid() && DraftOf(list') == Some(Patch(list.Committed(), target))
  {
    T.CopyOnWriteRefinesValues(edit, initial, list, D.EditDraft((p: Profiles) => Patch(p, target), at));
  }

  ghost predicate DraftAccounted(s: System) {
    s.list.shared.draft.Some? ==> SomeoneValidates(s)
  }

  lemma OneDraftKept(edit: Edits, initial: Profiles, s: System, step: Step)
    requires Inv(edit, initial, s) && DraftAccounted(s) && Quiet([step]) && Next(edit, s, step).Some?
    ensures DraftAccounted(Next(edit, s, step).value)
  {
    var s' := Next(edit, s, step).value;
    assert !([step][0].Other? && [step][0].step.EditDraft?);
    match step
    case Ask(target) =>
      if r :| 0 <= r < |s.requests| && Validating(s.requests[r].pc) {
        assert s'.requests[r] == s.requests[r];
      }
    case Other(layer) =>
      DraftKept(edit, initial, s.list, layer);
    case Advance(r, at) =>
      OneDraftAdvances(edit, initial, s, r, at);
  }

  lemma OneDraftAdvances(edit: Edits, initial: Profiles, s: System, r: nat, at: nat)
    requires Inv(edit, initial, s) && DraftAccounted(s) && r < |s.requests| && AdvanceRequest(edit, s, r, at).Some?
    ensures DraftAccounted(AdvanceRequest(edit, s, r, at).value)
  {
    var s' := AdvanceRequest(edit, s, r, at).value;
    assert s.requests[r].Active();
    if s.requests[r].pc.Claimed? || s.requests[r].pc.Staged? {
      assert Validating(s'.requests[r].pc);
    } else if s.requests[r].pc.Validated? {
      DraftKept(edit, initial, s.list, D.Discard);
    } else {
      assert !SomeoneValidates(s);
      if s.requests[r].pc.Discarded? {
        DraftKept(edit, initial, s.list, D.Spawn);
      }
    }
  }

  lemma {:induction false} DraftAlong(edit: Edits, initial: Profiles, s: System, steps: seq<Step>)
    requires Inv(edit, initial, s) && DraftAccounted(s) && Quiet(steps) && Exec(edit, s, steps).Some?
    ensures Inv(edit, initial, Exec(edit, s, steps).value) && DraftAccounted(Exec(edit, s, steps).value)
    decreases |steps|
  {
    if steps != [] {
      InvKept(edit, initial, s, steps[0]);
      OneDraftKept(edit, initial, s, steps[0]);
      DraftAlong(edit, initial, Next(edit, s, steps[0]).value, steps[1..]);
    }
  }

  /**
   The layer has a draft only while a switch is being validated: a switch that is over has left none behind,
   so that everyone who asks for the latest list then gets the committed one.
   */
  lemma NoDraftIsLeftBehind(edit: Edits, initial: Profiles, at: nat, steps: seq<Step>, s: System)
    requires Exec(edit, Init(initial, at), steps) == Some(s) && Quiet(steps)
    ensures (forall r :: 0 <= r < |s.requests| ==> !Validating(s.requests[r].pc)) ==>
              s.list.shared.draft.None? && s.list.shared.Latest() == s.list.shared.committed
  {
    D.InvInitially(edit, initial, at);
    DraftAlong(edit, initial, Init(initial, at), steps);
  }

  /** What is validated, once it has been staged. */
  ghost predicate Shows(s: System, r: nat, staged: Profiles) {
    && r < |s.requests| && Validating(s.requests[r].pc) && s.list.shared.Valid()
    && (DraftOf(s.list).Some? ==> DraftOf(s.list).value == staged)
  }

  predicate Past(s: System, r: nat) {
    r < |s.requests| && !s.requests[r].pc.Claimed? && !Validating(s.requests[r].pc)
  }

  lemma PastStays(edit: Edits, s: System, step: Step, r: nat)
    requires Past(s, r) && Next(edit, s, step).Some?
    ensures Past(Next(edit, s, step).value, r)
  {}

  lemma ShownOrPast(edit: Edits, initial: Profiles, s: System, step: Step, r: nat, staged: Profiles)
    requires Inv(edit, initial, s) && Shows(s, r, staged) && Quiet([step]) && Next(edit, s, step).Some?
    ensures Shows(Next(edit, s, step).value, r, staged) || Past(Next(edit, s, step).value, r)
    ensures DraftOf(s.list).Some? && Shows(Next(edit, s, step).value, r, staged) && !(step.Other? && step.step.Discard?)
            ==> DraftOf(Next(edit, s, step).value.list).Some?
  {
    assert !([step][0].Other? && [step][0].step.EditDraft?);
    assert s.requests[r].Active();
    match step
    case Ask(target) =>
    case Other(layer) => DraftKept(edit, initial, s.list, layer);
    case Advance(q, at) => assert s.requests[q].Active();
  }

  predicate Discards(steps: seq<Step>) {
    exists i :: 0 <= i < |steps| && steps[i].Other? && steps[i].step.Discard?
  }

  lemma {:induction false} PastAlong(edit: Edits, s: System, steps: seq<Step>, r: nat)
    requires Past(s, r) && Exec(edit, s, steps).Some?
    ensures Past(Exec(edit, s, steps).value, r)
    decreases |steps|
  {
    if steps != [] {
      PastStays(edit, s, steps[0], r);
      PastAlong(edit, Next(edit, s, steps[0]).value, steps[1..], r);
    }
  }

  lemma {:induction false} ShownAlong(edit: Edits, initial: Profiles, s: System, steps: seq<Step>, r: nat, staged: Profiles)
    requires Inv(edit, initial, s) && Shows(s, r, staged) && Quiet(steps) && Exec(edit, s, steps).Some?
    requires var s' := Exec(edit, s, steps).value; r < |s'.requests| && Validating(s'.requests[r].pc)
    ensures Shows(Exec(edit, s, steps).value, r, staged)
    ensures DraftOf(s.list).Some? && !Discards(steps) ==> DraftOf(Exec(edit, s, steps).value.list).Some?
    decreases |steps|
  {
    if steps != [] {
      var next, rest := Next(edit, s, steps[0]).value, steps[1..];
      InvKept(edit, initial, s, steps[0]);
      ShownOrPast(edit, initial, s, steps[0], r, staged);
      if Past(next, r) {
        PastAlong(edit, next, rest, r);
      }
      ShownAlong(edit, initial, next, rest, r, staged);
      assert Discards(rest) ==> Discards(steps) by {
        if i :| 0 <= i < |rest| && rest[i].Other? && rest[i].step.Discard? {
          assert steps[i + 1] == rest[i];
        }
      }
    }
  }

  /** The same items, with the target current if it is the uid of one of them. */
  ghost predicate Switched(before: Profiles, after: Profiles, target: Option<string>) {
    && after.items == Some(before.List())
    && after.current == if target.Some? && exists x :: x in before.List() && x.uid == target then target else before.current
  }

  lemma PatchSwitches(p: Profiles, target: Option<string>)
    ensures Switched(p, Patch(p, target), target)
  {
    var items := p.List();
    if x :| x in items && x.uid == target {
      var i :| 0 <= i < |items| && items[i] == x;
    }
    if Listed(items, target) {
      assert items[Position(items, target)] in items;
    }
  }

  /**
   What the core validates is the switch alone.  However updates are committed meanwhile, as long as request
   `r` is being validated the draft is the list committed when it was staged with the target made current:
   nothing of an earlier switch is in it, and it is there unless somebody else discarded it.
   */
  lemma ValidatesTheSwitch(
    edit: Edits, initial: Profiles, at: nat, steps: seq<Step>, s: System, r: nat, into: nat, mid: seq<Step>, s': System)
    requires Exec(edit, Init(initial, at), steps) == Some(s) && Quiet(steps) && Quiet(mid)
    requires r < |s.requests| && s.requests[r].pc.Claimed? && Next(edit, s, Advance(r, into)).Some?
    requires Exec(edit, Next(edit, s, Advance(r, into)).value, mid) == Some(s')
    requires r < |s'.requests| && Validating(s'.requests[r].pc)
    ensures s.list.shared.Valid() && s'.list.shared.Valid()
    ensures DraftOf(s'.list).Some? ==> Switched(s.list.Committed(), DraftOf(s'.list).value, s.requests[r].target)
    ensures !Discards(mid) ==> DraftOf(s'.list).Some?
  {
    var staged := Next(edit, s, Advance(r, into)).value;
    D.InvInitially(edit, initial, at);
    DraftAlong(edit, initial, Init(initial, at), steps);
    InvKept(edit, initial, s, Advance(r, into));
    assert s.requests[r].Active();
    assert !SomeoneValidates(s);
    DraftStaged(edit, initial, s.list, s.requests[r].target, into);
    PatchSwitches(s.list.Committed(), s.requests[r].target);
    ShownAlong(edit, initial, staged, mid, r, Patch(s.list.Committed(), s.requests[r].target));
  }
}
