/** When a claim fails, whom a refusal names, and that no transaction is ever stuck. */
module TransactionProgress {
  import opened Common
  import opened TransactionProtocol

  // ---------------------------------------------------------------- claims

  /** Some transaction has claimed this layer and not given it back. */
  ghost predicate Taken<T>(s: System<T>, l: nat) {
    exists u :: 0 <= u < |s.txs| && s.txs[u].WellFormed() && l in s.txs[u].Owned()
  }

  /**
   A claim succeeds exactly if no transaction owns the layer.  Then the layer is claimed as it is, and what it
   holds is recorded; otherwise nothing is touched and what was claimed before it will be given back.
   */
  lemma ClaimSucceedsExactlyIfFree<T>(start: System<T>, steps: seq<Step<T>>, s: System<T>, t: nat)
    requires Initial(start) && Exec(start, steps) == Some(s)
    requires t < |s.txs| && s.txs[t].Claiming? && |s.txs[t].base| < |s.txs[t].want|
    ensures Next(s, Advance(t)).Some?
    ensures var tx, s' := s.txs[t], Next(s, Advance(t)).value;
            var l := tx.want[|tx.base|];
            && l < |s.layers|
            && if Taken(s, l) then s'.layers == s.layers && s'.txs[t] == Unclaiming(tx.want, tx.base, 0)
               else && s'.txs[t] == Claiming(tx.want, tx.base + [s.layers[l].committed])
                    && s'.layers == s.layers[l := s.layers[l].(claimed := true)]
  {
    ClaimsAlong(start, steps);
    var l := s.txs[t].want[|s.txs[t].base|];
    assert InRange(s, s.txs[t].want);
    assert s.layers[l].claimed <==> SomeoneOwns(s, l);
    TakenIsOwned(s, l);
  }

  lemma TakenIsOwned<T>(s: System<T>, l: nat)
    requires WantsKnown(s)
    ensures Taken(s, l) <==> SomeoneOwns(s, l)
  {
    forall u | 0 <= u < |s.txs| ensures Owns(s, u, l) <==> s.txs[u].WellFormed() && l in s.txs[u].Owned() {}
  }

  /** It was refused because of entry `k` of its list, or will be. */
  predicate RefusedFor<T>(s: System<T>, t: nat, want: seq<nat>, k: nat)
    requires k < |want|
  {
    && t < |s.txs|
    && (s.txs[t] == Refused(want[k]) || (s.txs[t].Unclaiming? && s.txs[t].want == want && |s.txs[t].base| == k))
  }

  lemma {:induction false} RefusedAlong<T>(s: System<T>, steps: seq<Step<T>>, t: nat, want: seq<nat>, k: nat)
    requires k < |want| && RefusedFor(s, t, want, k) && Exec(s, steps).Some?
    ensures RefusedFor(Exec(s, steps).value, t, want, k)
    decreases |steps|
  {
    if steps != [] {
      RefusedAlong(Next(s, steps[0]).value, steps[1..], t, want, k);
    }
  }

  /** A refusal names the layer whose claim failed: the first one of its list that was taken when its turn came. */
  lemma RefusalNamesTheTakenLayer<T>(
    start: System<T>, steps: seq<Step<T>>, s: System<T>, t: nat, more: seq<Step<T>>, s': System<T>)
    requires Initial(start) && Exec(start, steps) == Some(s)
    requires t < |s.txs| && s.txs[t].Claiming? && |s.txs[t].base| < |s.txs[t].want|
    requires Taken(s, s.txs[t].want[|s.txs[t].base|])
    requires Exec(s, [Advance(t)] + more) == Some(s')
    ensures t < |s'.txs|
    ensures s'.txs[t].Unclaiming? || s'.txs[t] == Refused(s.txs[t].want[|s.txs[t].base|])
  {
    ClaimSucceedsExactlyIfFree(start, steps, s, t);
    var all: seq<Step<T>> := [Advance(t)] + more;
    assert all[0] == Advance(t) && all[1..] == more;
    RefusedAlong(Next(s, Advance(t)).value, more, t, s.txs[t].want, |s.txs[t].base|);
  }

  // ---------------------------------------------------------------- progress

  /** Layer operations, begin to drop, a transaction can still take. */
  function Left<T>(tx: Tx<T>): nat
    requires tx.WellFormed()
  {
    match tx
    case Claiming(want, base) => (|want| - |base|) + 3 * |want| + 5
    case Unclaiming(want, base, given) => |base| - given + 1
    case Refused(_) => 0
    case Live(want, _) => 3 * |want| + 4
    case Applying(want, _, applied) => (|want| - applied) + 2 * |want| + 2
    case Dropping(want, committing, _, discarded, left) => 2 * (|want| - |left|) + (if discarded then 0 else 1)
    case Ended(_, _, _, _) => 0
  }

  /** The step is one of this transaction's own. */
  predicate OwnStep<T>(step: Step<T>, t: nat) {
    (step.Advance? || step.Commit? || step.Rollback?) && step.tx == t
  }

  /** Besides `WellFormed`, a refusal always has a layer to blame, and nothing is discarded behind the last layer. */
  ghost predicate Sound<T>(s: System<T>) {
    && WantsKnown(s) && WantsInRange(s)
    && forall t :: 0 <= t < |s.txs| && s.txs[t].Dropping? && |s.txs[t].left| == |s.txs[t].want| ==> !s.txs[t].discarded
  }

  lemma OwnStepSpends<T>(s: System<T>, step: Step<T>, t: nat)
    requires Sound(s) && OwnStep(step, t) && Next(s, step).Some?
    ensures t < |s.txs| == |Next(s, step).value.txs|
    ensures var tx' := Next(s, step).value.txs[t]; tx'.WellFormed() && Left(tx') < Left(s.txs[t])
  {}

  lemma OtherStepsSpendNothing<T>(s: System<T>, step: Step<T>, t: nat)
    requires t < |s.txs| && !OwnStep(step, t) && Next(s, step).Some?
    ensures t < |Next(s, step).value.txs| && Next(s, step).value.txs[t] == s.txs[t]
  {}

  lemma SoundKept<T>(s: System<T>, step: Step<T>)
    requires ClaimsExclusive(s) && Sound(s) && Next(s, step).Some?
    ensures ClaimsExclusive(Next(s, step).value) && Sound(Next(s, step).value)
  {
    ClaimsKept(s, step);
  }

  function OwnSteps<T>(steps: seq<Step<T>>, t: nat): nat {
    if steps == [] then 0 else (if OwnStep(steps[0], t) then 1 else 0) + OwnSteps(steps[1..], t)
  }

  lemma {:induction false} SpendsAlong<T>(s: System<T>, steps: seq<Step<T>>, t: nat)
    requires ClaimsExclusive(s) && Sound(s) && t < |s.txs| && Exec(s, steps).Some?
    ensures var s' := Exec(s, steps).value;
            && ClaimsExclusive(s') && Sound(s') && t < |s'.txs|
            && OwnSteps(steps, t) + Left(s'.txs[t]) <= Left(s.txs[t])
    decreases |steps|
  {
    if steps != [] {
      var next := Next(s, steps[0]).value;
      SoundKept(s, steps[0]);
      if OwnStep(steps[0], t) {
        OwnStepSpends(s, steps[0], t);
      } else {
        OtherStepsSpendNothing(s, steps[0], t);
      }
      SpendsAlong(next, steps[1..], t);
    }
  }

  lemma {:induction false} SoundAlong<T>(s: System<T>, steps: seq<Step<T>>)
    requires ClaimsExclusive(s) && Sound(s) && Exec(s, steps).Some?
    ensures ClaimsExclusive(Exec(s, steps).value) && Sound(Exec(s, steps).value)
    decreases |steps|
  {
    if steps != [] {
      SoundKept(s, steps[0]);
      SoundAlong(Next(s, steps[0]).value, steps[1..]);
    }
  }

  /**
   No transaction is ever stuck or runs on.  Whatever the others do, one that is neither live nor over can take
   its next layer operation, a live one can be committed and rolled back, and one over `n` layers takes
   at most `4 * n + 5` steps of its own.
   */
  lemma TransactionsAreNeverStuck<T>(
    start: System<T>, steps: seq<Step<T>>, s: System<T>, want: seq<nat>, more: seq<Step<T>>, s': System<T>)
    requires Initial(start) && Exec(start, steps) == Some(s)
    requires Next(s, Begin(want)).Some? && Exec(Next(s, Begin(want)).value, more) == Some(s')
    ensures var t := |s.txs|;
            && t < |s'.txs| && OwnSteps(more, t) <= 4 * |want| + 5
            && match s'.txs[t]
               case Live(_, _) => Next(s', Commit(t)).Some? && Next(s', Rollback(t)).Some?
               case Refused(_) => true
               case Ended(_, _, _, _) => true
               case _ => Next(s', Advance(t)).Some?
  {
    SoundAlong(start, steps);
    SoundKept(s, Begin(want));
    SpendsAlong(Next(s, Begin(want)).value, more, |s.txs|);
    CanStep(s', |s.txs|);
  }

  lemma CanStep<T>(s: System<T>, t: nat)
    requires Sound(s) && t < |s.txs|
    ensures match s.txs[t]
            case Live(_, _) => Next(s, Commit(t)).Some? && Next(s, Rollback(t)).Some?
            case Refused(_) => true
            case Ended(_, _, _, _) => true
            case _ => Next(s, Advance(t)).Some?
  {
    assert s.txs[t].WellFormed() && (!s.txs[t].Refused? ==> InRange(s, s.txs[t].want));
  }
}
