/**
 What becomes of a transaction when something outside it touches a layer it has claimed.  Claims
 guard nothing but other claims, so such a step is always possible; here is exactly when the
 transaction still gives back what it promised.
 */
module TransactionOutsiders {
  import opened Common
  import opened TransactionProtocol

  /** What a transaction has still to do to a layer before it gives it back. */
  datatype Pending = WillApply | WillDiscard | WillRelease

  function PendingAt<T>(tx: Tx<T>, slot: nat, committing: bool): Pending
    requires tx.Live? || tx.Applying? || tx.Dropping?
  {
    match tx
    case Live(_, _) => if committing then WillApply else WillDiscard
    case Applying(_, _, applied) => if applied <= slot then WillApply else WillRelease
    case Dropping(_, commits, _, discarded, left) =>
      if commits || (discarded && slot == |left|) then WillRelease else WillDiscard
  }

  function Delivered<T>(layer: Layer<T>, pending: Pending): Layer<T> {
    match pending
    case WillApply => Layer(layer.Latest(), None, false)
    case WillDiscard => Layer(layer.committed, None, false)
    case WillRelease => layer.(claimed := false)
  }

  /** The outside step changes nothing that is still to be delivered. */
  ghost predicate Harmless<T>(layer: Layer<T>, pending: Pending, foreign: Foreign<T>) {
    match foreign
    case Edit(f) =>
      (match pending
       case WillApply => f(layer.Latest()) == layer.Latest()
       case WillDiscard => true
       case WillRelease => layer.draft == Some(f(layer.Latest())))
    case Apply => if pending.WillDiscard? then layer.Latest() == layer.committed else pending.WillApply? || layer.draft.None?
    case Discard => if pending.WillApply? then layer.Latest() == layer.committed else pending.WillDiscard? || layer.draft.None?
    case Replace(value) => value == layer.committed || (pending.WillApply? && layer.draft.Some?)
  }

  lemma HarmlessExactly<T>(layer: Layer<T>, pending: Pending, foreign: Foreign<T>)
    ensures Delivered(Touch(layer, foreign), pending) == Delivered(layer, pending) <==> Harmless(layer, pending, foreign)
  {}

  // ---------------------------------------------------------------- what a finishing transaction delivers

  ghost predicate HasSlot<T>(s: System<T>, t: nat, slot: nat) {
    && t < |s.txs| && s.txs[t].WellFormed() && !s.txs[t].Refused?
    && slot < |s.txs[t].want| && s.txs[t].want[slot] < |s.layers|
  }

  /** The layer a finishing transaction has given back, or will if nothing interferes. */
  ghost function Fate<T>(s: System<T>, t: nat, slot: nat): Layer<T>
    requires HasSlot(s, t, slot) && Finishing(s.txs[t])
  {
    var tx := s.txs[t];
    if tx.Ended? || (tx.Dropping? && slot < |tx.left|) then tx.left[slot]
    else Delivered(s.layers[tx.want[slot]], PendingAt(tx, slot, true))
  }

  /** A layer someone owns is changed by its owner only. */
  lemma OwnedUntouched<T>(s: System<T>, step: Step<T>, t: nat, l: nat)
    requires ClaimsExclusive(s) && Disciplined(s, step) && Next(s, step).Some?
    requires t < |s.txs| && Owns(s, t, l) && l < |s.layers|
    requires step != Advance(t) && (step.Stage? ==> step.tx != t)
    ensures l < |Next(s, step).value.layers| && Next(s, step).value.layers[l] == s.layers[l]
  {
    assert SomeoneOwns(s, l);
    match step
    case Advance(u) =>
      if s.txs[u].Claiming? {
        assert s.layers[l].claimed;
      } else {
        TouchedIsOwned(s, u, l);
      }
    case Stage(u, slot, f) =>
      OwnedAt(s.txs[u], slot);
      assert Owns(s, u, s.txs[u].want[slot]);
    case _ =>
  }

  lemma TouchedIsOwned<T>(s: System<T>, u: nat, l: nat)
    requires ClaimsExclusive(s) && u < |s.txs| && !s.txs[u].Claiming? && AdvanceTx(s, u).Some? && l < |s.layers|
    ensures l < |AdvanceTx(s, u).value.layers|
    ensures AdvanceTx(s, u).value.layers[l] == s.layers[l] || Owns(s, u, l)
  {
    match s.txs[u]
    case Unclaiming(want, base, given) =>
      if given < |base| {
        OwnedAt(s.txs[u], given);
      }
    case Applying(want, _, applied) =>
      if applied < |want| {
        OwnedAt(s.txs[u], applied);
      }
    case Dropping(want, _, _, _, left) =>
      if |left| < |want| {
        OwnedAt(s.txs[u], |left|);
      }
    case _ =>
  }

  lemma OthersKeepTx<T>(s: System<T>, step: Step<T>, t: nat)
    requires Next(s, step).Some? && t < |s.txs|
    requires step != Advance(t) && step != Commit(t) && step != Rollback(t)
    ensures t < |Next(s, step).value.txs| && Next(s, step).value.txs[t] == s.txs[t]
    ensures |Next(s, step).value.layers| == |s.layers|
  {}

  lemma OwnStepKeepsFate<T>(s: System<T>, t: nat, slot: nat)
    requires ClaimsExclusive(s) && HasSlot(s, t, slot) && Finishing(s.txs[t]) && AdvanceTx(s, t).Some?
    ensures HasSlot(AdvanceTx(s, t).value, t, slot) && Finishing(AdvanceTx(s, t).value.txs[t])
    ensures Fate(AdvanceTx(s, t).value, t, slot) == Fate(s, t, slot)
  {
    var tx := s.txs[t];
    assert Distinct(tx.Owned());
    if tx.Applying? {
      assert tx.Owned() == tx.want;
      assert tx.applied < |tx.want| && tx.applied != slot ==> tx.want[tx.applied] != tx.want[slot];
    } else if slot > |tx.left| {
      assert tx.Owned()[0] == tx.want[|tx.left|] && tx.Owned()[slot - |tx.left|] == tx.want[slot];
    }
  }

  lemma FateKept<T>(s: System<T>, step: Step<T>, t: nat, slot: nat)
    requires ClaimsExclusive(s) && Disciplined(s, step) && Next(s, step).Some?
    requires HasSlot(s, t, slot) && Finishing(s.txs[t])
    ensures var s' := Next(s, step).value;
            HasSlot(s', t, slot) && Finishing(s'.txs[t]) && Fate(s', t, slot) == Fate(s, t, slot)
  {
    if step == Advance(t) {
      OwnStepKeepsFate(s, t, slot);
    } else {
      OthersKeepTx(s, step, t);
      var tx := s.txs[t];
      if !(tx.Ended? || (tx.Dropping? && slot < |tx.left|)) {
        OwnedAt(tx, slot);
        OwnedUntouched(s, step, t, tx.want[slot]);
      }
    }
  }

  lemma {:induction false} FateAlong<T>(s: System<T>, more: seq<Step<T>>, t: nat, slot: nat)
    requires ClaimsExclusive(s) && DisciplinedRun(s, more) && Exec(s, more).Some?
    requires HasSlot(s, t, slot) && Finishing(s.txs[t])
    ensures var s' := Exec(s, more).value;
            HasSlot(s', t, slot) && Finishing(s'.txs[t]) && Fate(s', t, slot) == Fate(s, t, slot)
    decreases |more|
  {
    if more != [] {
      FateKept(s, more[0], t, slot);
      ClaimsKept(s, more[0]);
      FateAlong(Next(s, more[0]).value, more[1..], t, slot);
    }
  }

  // ---------------------------------------------------------------- a live transaction

  lemma LiveStep<T>(s: System<T>, step: Step<T>, t: nat, slot: nat)
    requires ClaimsExclusive(s) && Disciplined(s, step) && Next(s, step).Some?
    requires HasSlot(s, t, slot) && s.txs[t].Live? && step != Commit(t) && step != Rollback(t)
    ensures var s' := Next(s, step).value;
            && HasSlot(s', t, slot) && s'.txs[t] == s.txs[t]
            && s'.layers[s.txs[t].want[slot]].committed == s.layers[s.txs[t].want[slot]].committed
  {
    assert step != Advance(t);
    OthersKeepTx(s, step, t);
    OwnedAt(s.txs[t], slot);
    if !(step.Stage? && step.tx == t) {
      OwnedUntouched(s, step, t, s.txs[t].want[slot]);
    }
  }

  /** As long as a transaction is live, what is committed in its layers stays. */
  lemma {:induction false} LiveCommittedStays<T>(s: System<T>, steps: seq<Step<T>>, t: nat, slot: nat)
    requires ClaimsExclusive(s) && DisciplinedRun(s, steps) && Exec(s, steps).Some?
    requires HasSlot(s, t, slot) && s.txs[t].Live?
    requires t < |Exec(s, steps).value.txs| && Exec(s, steps).value.txs[t].Live?
    ensures var s' := Exec(s, steps).value;
            && ClaimsExclusive(s') && HasSlot(s', t, slot) && s'.txs[t] == s.txs[t]
            && s'.layers[s.txs[t].want[slot]].committed == s.layers[s.txs[t].want[slot]].committed
    decreases |steps|
  {
    if steps != [] {
      var next := Next(s, steps[0]).value;
      ClaimsKept(s, steps[0]);
      if steps[0] == Commit(t) || steps[0] == Rollback(t) {
        FinishingIsFixed(next, steps[1..], t);
      } else {
        LiveStep(s, steps[0], t, slot);
        LiveCommittedStays(next, steps[1..], t, slot);
      }
    }
  }

  // ---------------------------------------------------------------- outcomes

  /** A disciplined run to `s`, in which `t` owns the layer in `slot`. */
  ghost predicate Reaches<T>(start: System<T>, steps: seq<Step<T>>, s: System<T>) {
    Initial(start) && DisciplinedRun(start, steps) && Exec(start, steps) == Some(s)
  }

  /** After one outside step on the layer in `slot`; nothing ever stops it. */
  ghost function Interfered<T>(s: System<T>, t: nat, slot: nat, foreign: Foreign<T>): System<T>
    requires HasSlot(s, t, slot)
  {
    Next(s, Outside(s.txs[t].want[slot], foreign)).value
  }

  /** From `s` a disciplined run leads to `s'`, where `t` has ended. */
  ghost predicate EndsAt<T>(s: System<T>, more: seq<Step<T>>, s': System<T>, t: nat) {
    DisciplinedRun(s, more) && Exec(s, more) == Some(s') && t < |s'.txs| && s'.txs[t].Ended?
  }

  lemma InterferedClaims<T>(s: System<T>, t: nat, slot: nat, foreign: Foreign<T>)
    requires ClaimsExclusive(s) && HasSlot(s, t, slot)
    ensures var s' := Interfered(s, t, slot, foreign);
            && ClaimsExclusive(s') && HasSlot(s', t, slot) && s'.txs == s.txs
            && s'.layers[s.txs[t].want[slot]] == Touch(s.layers[s.txs[t].want[slot]], foreign)
  {
    ClaimsKept(s, Outside(s.txs[t].want[slot], foreign));
  }

  /**
   Interference, then rollback.  A layer of a live transaction is touched from outside; later, the
   owner having staged what it likes, the transaction rolls back.  The layer comes back as it was
   when claimed exactly if the step was an edit or a discard, an apply that had nothing new to
   install, or a replacement by the same value.
   */
  lemma RollbackAfterInterference<T>(
    start: System<T>, steps: seq<Step<T>>, s: System<T>, t: nat, slot: nat, foreign: Foreign<T>,
    between: seq<Step<T>>, s2: System<T>, more: seq<Step<T>>, s': System<T>)
    requires Reaches(start, steps, s) && HasSlot(s, t, slot) && s.txs[t].Live?
    requires DisciplinedRun(Interfered(s, t, slot, foreign), between)
    requires Exec(Interfered(s, t, slot, foreign), between) == Some(s2)
    requires t < |s2.txs| && s2.txs[t].Live? && EndsAt(Next(s2, Rollback(t)).value, more, s', t)
    ensures slot < |s.txs[t].base| && slot < |s'.txs[t].left|
    ensures s'.txs[t].left[slot] == Layer(s.txs[t].base[slot], None, false)
            <==> Harmless(s.layers[s.txs[t].want[slot]], WillDiscard, foreign)
  {
    TransactionProtocol.ReachableInv(start, steps, s);
    var s1, l := Interfered(s, t, slot, foreign), s.txs[t].want[slot];
    assert Promise(s.layers, s.txs[t]);
    InterferedClaims(s, t, slot, foreign);
    LiveCommittedStays(s1, between, t, slot);
    ClaimsKept(s2, Rollback(t));
    FateAlong(Next(s2, Rollback(t)).value, more, t, slot);
    assert s'.txs[t].left[slot] == Delivered(s1.layers[l], WillDiscard);
    HarmlessExactly(s.layers[l], WillDiscard, foreign);
  }

  /**
   Interference, then commit.  The layer is delivered with the value it had before the step, as
   staged by the owner, exactly if the step left that value the latest.
   */
  lemma CommitAfterInterference<T>(
    start: System<T>, steps: seq<Step<T>>, s: System<T>, t: nat, slot: nat, foreign: Foreign<T>,
    more: seq<Step<T>>, s': System<T>)
    requires Reaches(start, steps, s) && HasSlot(s, t, slot) && s.txs[t].Live?
    requires Next(Interfered(s, t, slot, foreign), Commit(t)).Some?
    requires EndsAt(Next(Interfered(s, t, slot, foreign), Commit(t)).value, more, s', t)
    ensures slot < |s'.txs[t].left|
    ensures s'.txs[t].left[slot] == Layer(s.layers[s.txs[t].want[slot]].Latest(), None, false)
            <==> Harmless(s.layers[s.txs[t].want[slot]], WillApply, foreign)
  {
    TransactionProtocol.ReachableInv(start, steps, s);
    var s1, l := Interfered(s, t, slot, foreign), s.txs[t].want[slot];
    InterferedClaims(s, t, slot, foreign);
    ClaimsKept(s1, Commit(t));
    FateAlong(Next(s1, Commit(t)).value, more, t, slot);
    assert s'.txs[t].left[slot] == Delivered(s1.layers[l], WillApply);
    HarmlessExactly(s.layers[l], WillApply, foreign);
  }

  lemma FateAsPromised<T>(s: System<T>, t: nat, slot: nat)
    requires Inv(s) && HasSlot(s, t, slot) && Finishing(s.txs[t])
    ensures slot < |Promised(s.txs[t])| && Fate(s, t, slot) == Layer(Promised(s.txs[t])[slot], None, false)
  {
    assert Promise(s.layers, s.txs[t]);
  }

  /**
   Interference while a transaction is applying or giving back.  A layer it still owns comes back as
   promised exactly if the step is harmless for what the transaction has still to do to it:
   apply its draft, discard it, or only release it.
   */
  lemma FinishAfterInterference<T>(
    start: System<T>, steps: seq<Step<T>>, s: System<T>, t: nat, slot: nat, foreign: Foreign<T>,
    more: seq<Step<T>>, s': System<T>)
    requires Reaches(start, steps, s) && HasSlot(s, t, slot)
    requires s.txs[t].Applying? || (s.txs[t].Dropping? && |s.txs[t].left| <= slot)
    requires EndsAt(Interfered(s, t, slot, foreign), more, s', t)
    ensures slot < |Promised(s.txs[t])| && slot < |s'.txs[t].left|
    ensures s'.txs[t].left[slot] == Layer(Promised(s.txs[t])[slot], None, false)
            <==> Harmless(s.layers[s.txs[t].want[slot]], PendingAt(s.txs[t], slot, true), foreign)
  {
    TransactionProtocol.ReachableInv(start, steps, s);
    var s1, l := Interfered(s, t, slot, foreign), s.txs[t].want[slot];
    FateAsPromised(s, t, slot);
    InterferedClaims(s, t, slot, foreign);
    FateAlong(s1, more, t, slot);
    HarmlessExactly(s.layers[l], PendingAt(s.txs[t], slot, true), foreign);
  }

  // ---------------------------------------------------------------- any interference with a live transaction

  /** What the owner's edits of `slot` and the outside steps on layer `l` make of it, in the order of a run. */
  function Folded<T>(layer: Layer<T>, steps: seq<Step<T>>, t: nat, slot: nat, l: nat): Layer<T>
    decreases |steps|
  {
    if steps == [] then layer
    else
      var next := match steps[0]
                  case Stage(u, k, f) => if u == t && k == slot then Touch(layer, Edit(f)) else layer
                  case Outside(m, foreign) => if m == l then Touch(layer, foreign) else layer
                  case _ => layer;
      Folded(next, steps[1..], t, slot, l)
  }

  lemma LiveStepFolds<T>(s: System<T>, step: Step<T>, t: nat, slot: nat)
    requires ClaimsExclusive(s) && Next(s, step).Some?
    requires HasSlot(s, t, slot) && s.txs[t].Live? && step != Commit(t) && step != Rollback(t)
    ensures var s', l := Next(s, step).value, s.txs[t].want[slot];
            && HasSlot(s', t, slot) && s'.txs[t] == s.txs[t]
            && s'.layers[l] == Folded(s.layers[l], [step], t, slot, l)
  {
    var l := s.txs[t].want[slot];
    assert step != Advance(t);
    OthersKeepTx(s, step, t);
    OwnedAt(s.txs[t], slot);
    if step.Stage? && step.tx == t {
      assert Distinct(s.txs[t].Owned());
      assert step.slot == slot || s.txs[t].want[step.slot] != l;
    } else if !step.Outside? {
      OwnedUntouched(s, step, t, l);
    }
  }

  /** As long as a transaction is live, its owner and outsiders alone make its layers what they are. */
  lemma {:induction false} LiveLayerFolds<T>(s: System<T>, steps: seq<Step<T>>, t: nat, slot: nat)
    requires ClaimsExclusive(s) && HasSlot(s, t, slot) && s.txs[t].Live? && Exec(s, steps).Some?
    requires t < |Exec(s, steps).value.txs| && Exec(s, steps).value.txs[t].Live?
    ensures var s', l := Exec(s, steps).value, s.txs[t].want[slot];
            && ClaimsExclusive(s') && HasSlot(s', t, slot) && s'.txs[t] == s.txs[t]
            && s'.layers[l] == Folded(s.layers[l], steps, t, slot, l)
    decreases |steps|
  {
    if steps != [] {
      var next := Next(s, steps[0]).value;
      ClaimsKept(s, steps[0]);
      if steps[0] == Commit(t) || steps[0] == Rollback(t) {
        FinishingIsFixed(next, steps[1..], t);
      } else {
        LiveStepFolds(s, steps[0], t, slot);
        LiveLayerFolds(next, steps[1..], t, slot);
      }
    }
  }

  /**
   Any number of outside steps, between any steps of the owner and of others: the layer is given back with
   exactly what those on it and the owner's edits of it make of it in order, the latest value after a
   commit and the committed one after a rollback.
   */
  lemma DeliveredAfterAnyInterference<T>(
    s: System<T>, between: seq<Step<T>>, s2: System<T>, t: nat, slot: nat, commits: bool, more: seq<Step<T>>, s': System<T>)
    requires ClaimsExclusive(s) && HasSlot(s, t, slot) && s.txs[t].Live?
    requires Exec(s, between) == Some(s2) && t < |s2.txs| && s2.txs[t].Live?
    requires var ending := if commits then Commit(t) else Rollback(t);
             Next(s2, ending).Some? && EndsAt(Next(s2, ending).value, more, s', t)
    ensures var l := s.txs[t].want[slot];
            var layer := Folded(s.layers[l], between, t, slot, l);
            slot < |s'.txs[t].left| && s'.txs[t].left[slot] == Layer(if commits then layer.Latest() else layer.committed, None, false)
  {
    var ending := if commits then Commit(t) else Rollback(t);
    LiveLayerFolds(s, between, t, slot);
    ClaimsKept(s2, ending);
    FateAlong(Next(s2, ending).value, more, t, slot);
  }

  // ---------------------------------------------------------------- two runs

  const ZERO: System<int> := System([Layer(0, None, false)], [])

  /** A transaction claims the only layer and stages 7 over 0; then comes `foreign`, and the ending. */
  function Interrupted(foreign: Foreign<int>, ending: seq<Step<int>>): seq<Step<int>> {
    [Begin([0]), Advance(0), Advance(0), Stage(0, 0, (x: int) => 7), Outside(0, foreign)] + ending
  }

  /** One step of a run with one layer and one transaction. */
  lemma ExecFrom<T>(s: System<T>, steps: seq<Step<T>>, i: nat, next: System<T>)
    requires i < |steps| && Next(s, steps[i]).Some? && |next.layers| == |next.txs| == 1
    requires var n := Next(s, steps[i]).value;
             |n.layers| == |n.txs| == 1 && n.layers[0] == next.layers[0] && n.txs[0] == next.txs[0]
    ensures Exec(s, steps[i..]) == Exec(next, steps[i + 1..])
  {
    var n := Next(s, steps[i]).value;
    assert n.layers == next.layers && n.txs == next.txs;
    assert steps[i..][1..] == steps[i + 1..];
  }

  lemma ClaimingTheLayer(steps: seq<Step<int>>)
    requires |steps| >= 3 && steps[0] == Begin([0]) && steps[1] == Advance(0) && steps[2] == Advance(0)
    ensures Exec(ZERO, steps) == Exec(System([Layer(0, None, true)], [Live([0], [0])]), steps[3..])
  {
    assert steps[0..] == steps;
    ExecFrom(ZERO, steps, 0, System([Layer(0, None, false)], [Claiming([0], [])]));
    BecomingLive(steps);
  }

  lemma BecomingLive(steps: seq<Step<int>>)
    requires |steps| >= 3 && steps[1] == Advance(0) && steps[2] == Advance(0)
    ensures Exec(System([Layer(0, None, false)], [Claiming([0], [])]), steps[1..]) ==
            Exec(System([Layer(0, None, true)], [Live([0], [0])]), steps[3..])
  {
    var claimed := System([Layer(0, None, true)], [Claiming([0], [0])]);
    assert [] + [0] == [0];
    ExecFrom(System([Layer(0, None, false)], [Claiming([0], [])]), steps, 1, claimed);
    ExecFrom(claimed, steps, 2, System([Layer(0, None, true)], [Live([0], [0])]));
  }

  lemma UpToTheStep(foreign: Foreign<int>, ending: seq<Step<int>>)
    ensures Exec(ZERO, Interrupted(foreign, ending)) ==
            Exec(System([Touch(Layer(0, Some(7), true), foreign)], [Live([0], [0])]), ending)
  {
    var steps := Interrupted(foreign, ending);
    var s3 := System([Layer(0, None, true)], [Live([0], [0])]);
    var s4 := System([Layer(0, Some(7), true)], [Live([0], [0])]);
    ClaimingTheLayer(steps);
    ExecFrom(s3, steps, 3, s4);
    ExecFrom(s4, steps, 4, System([Touch(Layer(0, Some(7), true), foreign)], [Live([0], [0])]));
    assert steps[5..] == ending;
  }

  lemma CommittingZero()
    ensures Exec(System([Layer(0, None, true)], [Live([0], [0])]), [Commit(0), Advance(0), Advance(0)] + [Advance(0), Advance(0)])
            == Exec(System([Layer(0, None, true)], [Dropping([0], true, [0], false, [])]), [Advance(0), Advance(0)])
  {
    var ending: seq<Step<int>> := [Commit(0), Advance(0), Advance(0)] + [Advance(0), Advance(0)];
    var live := System([Layer(0, None, true)], [Live([0], [0])]);
    assert LatestOf(live.layers, [0]) == [0];
    assert ending[0..] == ending && ending[3..] == [Advance(0), Advance(0)];
    ExecFrom(live, ending, 0, System([Layer(0, None, true)], [Applying([0], [0], 0)]));
    ApplyingZero(ending);
  }

  lemma ApplyingZero(ending: seq<Step<int>>)
    requires |ending| >= 3 && ending[1] == Advance(0) && ending[2] == Advance(0)
    ensures Exec(System([Layer(0, None, true)], [Applying([0], [0], 0)]), ending[1..])
            == Exec(System([Layer(0, None, true)], [Dropping([0], true, [0], false, [])]), ending[3..])
  {
    var applied := System([Layer(0, None, true)], [Applying([0], [0], 1)]);
    ExecFrom(System([Layer(0, None, true)], [Applying([0], [0], 0)]), ending, 1, applied);
    ExecFrom(applied, ending, 2, System([Layer(0, None, true)], [Dropping([0], true, [0], false, [])]));
  }

  /** The staged 7 is discarded from outside: the commit succeeds and delivers 0. */
  lemma DiscardLosesTheStagedValue()
    ensures Exec(ZERO, Interrupted(Discard, [Commit(0), Advance(0), Advance(0)] + [Advance(0), Advance(0)]))
            == Some(System([Layer(0, None, false)], [Ended([0], true, [0], [Layer(0, None, false)])]))
  {
    UpToTheStep(Discard, [Commit(0), Advance(0), Advance(0)] + [Advance(0), Advance(0)]);
    CommittingZero();
    var ending: seq<Step<int>> := [Advance(0), Advance(0)];
    var s0 := System([Layer(0, None, true)], [Dropping([0], true, [0], false, [])]);
    var s1 := System([Layer(0, None, false)], [Dropping([0], true, [0], false, [Layer(0, None, false)])]);
    var s2 := System([Layer(0, None, false)], [Ended([0], true, [0], [Layer(0, None, false)])]);
    assert [] + [Layer(0, None, false)] == [Layer(0, None, false)];
    assert ending[0..] == ending;
    ExecFrom(s0, ending, 0, s1);
    ExecFrom(s1, ending, 1, s2);
  }

  lemma DiscardingNothing()
    ensures Exec(System([Layer(7, None, true)], [Live([0], [0])]), [Rollback(0), Advance(0)] + [Advance(0), Advance(0)])
            == Exec(System([Layer(7, None, true)], [Dropping([0], false, [0], true, [])]), [Advance(0), Advance(0)])
  {
    var ending: seq<Step<int>> := [Rollback(0), Advance(0)] + [Advance(0), Advance(0)];
    var dropping := System([Layer(7, None, true)], [Dropping([0], false, [0], false, [])]);
    assert ending[0..] == ending && ending[2..] == [Advance(0), Advance(0)];
    ExecFrom(System([Layer(7, None, true)], [Live([0], [0])]), ending, 0, dropping);
    ExecFrom(dropping, ending, 1, System([Layer(7, None, true)], [Dropping([0], false, [0], true, [])]));
  }

  /** The staged 7 is applied from outside: the rollback leaves it committed. */
  lemma ApplyOutlivesTheRollback()
    ensures Exec(ZERO, Interrupted(Apply, [Rollback(0), Advance(0)] + [Advance(0), Advance(0)]))
            == Some(System([Layer(7, None, false)], [Ended([0], false, [0], [Layer(7, None, false)])]))
  {
    UpToTheStep(Apply, [Rollback(0), Advance(0)] + [Advance(0), Advance(0)]);
    DiscardingNothing();
    var ending: seq<Step<int>> := [Advance(0), Advance(0)];
    var discarded := System([Layer(7, None, true)], [Dropping([0], false, [0], true, [])]);
    var released := System([Layer(7, None, false)], [Dropping([0], false, [0], false, [Layer(7, None, false)])]);
    assert [] + [Layer(7, None, false)] == [Layer(7, None, false)];
    assert ending[0..] == ending;
    ExecFrom(discarded, ending, 0, released);
    ExecFrom(released, ending, 1, System([Layer(7, None, false)], [Ended([0], false, [0], [Layer(7, None, false)])]));
  }
}
