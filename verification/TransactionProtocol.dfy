/**
 Transactions over shared layers, one layer operation at a time, in any interleaving.

 Layers are numbered.  A transaction's `base` records what was committed in each layer when the
 transaction claimed it, `goal` what each layer was to become when `commit` was called, and
 `left` what each layer held when the transaction gave it back; no step reads them.
 */
module TransactionProtocol {
  import opened Common

  datatype Layer<+T> = Layer(committed: T, draft: Option<T>, claimed: bool) {
    function Latest(): T {
      draft.GetOr(committed)
    }

    function Apply(): Layer<T> {
      Layer(Latest(), None, claimed)
    }
  }

  datatype Tx<+T> =
    | Claiming(want: seq<nat>, base: seq<T>)
    | Unclaiming(want: seq<nat>, base: seq<T>, given: nat)     // the claim after `base` failed
    | Refused(busy: nat)
    | Live(want: seq<nat>, base: seq<T>)
    | Applying(want: seq<nat>, goal: seq<T>, applied: nat)
    | Dropping(want: seq<nat>, committing: bool, promise: seq<T>, discarded: bool, left: seq<Layer<T>>)
    | Ended(want: seq<nat>, committing: bool, promise: seq<T>, left: seq<Layer<T>>)
  {
    /** The layers this transaction has claimed and not given back. */
    function Owned(): seq<nat>
      requires WellFormed()
    {
      match this
      case Claiming(want, base) => want[..|base|]
      case Unclaiming(want, base, given) => want[given..|base|]
      case Live(want, _) => want
      case Applying(want, _, _) => want
      case Dropping(want, _, _, _, left) => want[|left|..]
      case _ => []
    }

    predicate WellFormed() {
      match this
      case Claiming(want, base) => |base| <= |want|
      case Unclaiming(want, base, given) => given <= |base| < |want|
      case Refused(_) => true
      case Live(want, base) => |base| == |want|
      case Applying(want, goal, applied) => |goal| == |want| && applied <= |want|
      case Dropping(want, _, promise, _, left) => |promise| == |want| && |left| <= |want|
      case Ended(want, _, promise, left) => |promise| == |want| == |left|
    }
  }

  datatype System<+T> = System(layers: seq<Layer<T>>, txs: seq<Tx<T>>)

  /** Something outside any transaction that changes a layer; none of these looks at claims. */
  datatype Foreign<!T> = Edit(f: T -> T) | Apply | Discard | Replace(value: T)

  datatype Step<!T> =
    | Begin(wanted: seq<nat>)
    | Advance(tx: nat)                       // the next layer operation of begin, commit or drop
    | Stage(tx: nat, slot: nat, f: T -> T)   // the owner edits a claimed layer's draft
    | Commit(tx: nat)
    | Rollback(tx: nat)
    | Outside(layer: nat, foreign: Foreign<T>)

  function Touch<T>(layer: Layer<T>, foreign: Foreign<T>): (r: Layer<T>)
    ensures r.claimed == layer.claimed
  {
    match foreign
    case Edit(f) => layer.(draft := Some(f(layer.Latest())))
    case Apply => layer.Apply()
    case Discard => layer.(draft := None)
    case Replace(value) => layer.(committed := value)
  }

  predicate InRange<T>(s: System<T>, want: seq<nat>) {
    forall i :: 0 <= i < |want| ==> want[i] < |s.layers|
  }

  function Set<T>(s: System<T>, t: nat, tx: Tx<T>): System<T>
    requires t < |s.txs|
  {
    s.(txs := s.txs[t := tx])
  }

  function AdvanceTx<T>(s: System<T>, t: nat): Option<System<T>>
    requires t < |s.txs|
  {
    match s.txs[t]
    case Claiming(want, base) =>
      if |base| < |want| && want[|base|] < |s.layers| then
        var layer := s.layers[want[|base|]];
        if layer.claimed then Some(Set(s, t, Unclaiming(want, base, 0)))
        else Some(Set(s, t, Claiming(want, base + [layer.committed]))
                    .(layers := s.layers[want[|base|] := layer.(claimed := true)]))
      else if |base| == |want| then Some(Set(s, t, Live(want, base)))
      else None
    case Unclaiming(want, base, given) =>
      if given < |base| && given < |want| && want[given] < |s.layers| then
        Some(Set(s, t, Unclaiming(want, base, given + 1))
               .(layers := s.layers[want[given] := s.layers[want[given]].(claimed := false)]))
      else if given == |base| < |want| then Some(Set(s, t, Refused(want[given])))
      else None
    case Applying(want, goal, applied) =>
      if applied < |want| && want[applied] < |s.layers| then
        Some(Set(s, t, Applying(want, goal, applied + 1))
               .(layers := s.layers[want[applied] := s.layers[want[applied]].Apply()]))
      else if applied == |want| then Some(Set(s, t, Dropping(want, true, goal, false, [])))
      else None
    case Dropping(want, committing, promise, discarded, left) =>
      if |left| < |want| && want[|left|] < |s.layers| then
        var layer := s.layers[want[|left|]];
        if !committing && !discarded then
          Some(Set(s, t, Dropping(want, committing, promise, true, left))
                 .(layers := s.layers[want[|left|] := layer.(draft := None)]))
        else
          Some(Set(s, t, Dropping(want, committing, promise, false, left + [layer.(claimed := false)]))
                 .(layers := s.layers[want[|left|] := layer.(claimed := false)]))
      else if |left| == |want| then Some(Set(s, t, Ended(want, committing, promise, left)))
      else None
    case _ => None
  }

  function LatestOf<T>(layers: seq<Layer<T>>, want: seq<nat>): (r: seq<T>)
    requires forall i :: 0 <= i < |want| ==> want[i] < |layers|
    ensures |r| == |want|
  {
    seq(|want|, i requires 0 <= i < |want| => layers[want[i]].Latest())
  }

  function Next<T>(s: System<T>, step: Step<T>): Option<System<T>> {
    match step
    case Begin(want) =>
      if InRange(s, want) then Some(s.(txs := s.txs + [Claiming(want, [])])) else None
    case Advance(t) => if t < |s.txs| then AdvanceTx(s, t) else None
    case Stage(t, slot, f) =>
      if t < |s.txs| && s.txs[t].Live? && slot < |s.txs[t].want| && s.txs[t].want[slot] < |s.layers| then
        var l := s.txs[t].want[slot];
        Some(s.(layers := s.layers[l := Touch(s.layers[l], Edit(f))]))
      else None
    case Commit(t) =>
      if t < |s.txs| && s.txs[t].Live? && InRange(s, s.txs[t].want) then
        Some(Set(s, t, Applying(s.txs[t].want, LatestOf(s.layers, s.txs[t].want), 0)))
      else None
    case Rollback(t) =>
      if t < |s.txs| && s.txs[t].Live? then
        Some(Set(s, t, Dropping(s.txs[t].want, false, s.txs[t].base, false, [])))
      else None
    case Outside(l, foreign) =>
      if l < |s.layers| then Some(s.(layers := s.layers[l := Touch(s.layers[l], foreign)])) else None
  }

  function Exec<T>(s: System<T>, steps: seq<Step<T>>): Option<System<T>>
    decreases |steps|
  {
    if steps == [] then Some(s)
    else
      match Next(s, steps[0])
      case None => None
      case Some(next) => Exec(next, steps[1..])
  }

  /** A system before its first transaction: nothing is claimed. */
  ghost predicate Initial<T>(s: System<T>) {
    s.txs == [] && forall l :: 0 <= l < |s.layers| ==> !s.layers[l].claimed
  }

  // ---------------------------------------------------------------- claims

  ghost predicate WantsKnown<T>(s: System<T>) {
    forall t :: 0 <= t < |s.txs| ==>
                  && s.txs[t].WellFormed()
                  && forall l :: l in s.txs[t].Owned() ==> l < |s.layers|
  }

  ghost predicate WantsInRange<T>(s: System<T>) {
    forall t :: 0 <= t < |s.txs| && !s.txs[t].Refused? ==> InRange(s, s.txs[t].want)
  }

  ghost predicate Owns<T>(s: System<T>, t: nat, l: nat)
    requires t < |s.txs| && s.txs[t].WellFormed()
  {
    l in s.txs[t].Owned()
  }

  ghost predicate SomeoneOwns<T>(s: System<T>, l: nat)
    requires WantsKnown(s)
  {
    exists t :: 0 <= t < |s.txs| && Owns(s, t, l)
  }

  /** A claim flag is set exactly while some transaction owns the layer, and only one does. */
  ghost predicate ClaimsExclusive<T>(s: System<T>) {
    && WantsKnown(s)
    && WantsInRange(s)
    && (forall t :: 0 <= t < |s.txs| ==> Distinct(s.txs[t].Owned()))
    && (forall t, u, l :: 0 <= t < |s.txs| && 0 <= u < |s.txs| && Owns(s, t, l) && Owns(s, u, l) ==> t == u)
    && (forall l :: 0 <= l < |s.layers| ==> (s.layers[l].claimed <==> SomeoneOwns(s, l)))
  }

  /** Everything but who owns what: shapes, ranges and distinct claims. */
  ghost predicate Shaped<T>(s: System<T>) {
    && WantsKnown(s)
    && WantsInRange(s)
    && (forall t :: 0 <= t < |s.txs| ==> Distinct(s.txs[t].Owned()))
  }

  /** Only layer `l`'s flag and transaction `t` may change between the two systems. */
  ghost predicate Local<T>(s: System<T>, s': System<T>, t: nat, l: nat) {
    && t < |s.txs| == |s'.txs|
    && s'.txs == s.txs[t := s'.txs[t]]
    && l < |s.layers| == |s'.layers|
    && (forall k :: 0 <= k < |s.layers| && k != l ==> s'.layers[k].claimed == s.layers[k].claimed)
    && s'.txs[t].WellFormed()
    && (!s'.txs[t].Refused? ==> InRange(s', s'.txs[t].want))
  }

  lemma ClaimTaken<T>(s: System<T>, s': System<T>, t: nat, l: nat)
    requires ClaimsExclusive(s) && Local(s, s', t, l)
    requires s'.txs[t].Owned() == s.txs[t].Owned() + [l]
    requires !s.layers[l].claimed && s'.layers[l].claimed
    ensures ClaimsExclusive(s')
  {
    assert !SomeoneOwns(s, l);
    assert !Owns(s, t, l);
    assert Shaped(s');
    forall u, k | 0 <= u < |s.txs|
      ensures Owns(s', u, k) <==> Owns(s, u, k) || (u == t && k == l)
    {
      assert u != t ==> s'.txs[u] == s.txs[u];
    }
    FlagsFollow(s, s', t, l, true);
  }

  lemma WithoutFirst(owned: seq<nat>, rest: seq<nat>, l: nat)
    requires Distinct(owned) && owned == [l] + rest
    ensures Distinct(rest)
    ensures forall k :: k in rest <==> k in owned && k != l
  {
    assert forall i :: 0 <= i < |rest| ==> rest[i] == owned[i + 1];
    assert owned[0] == l;
  }

  lemma ClaimGiven<T>(s: System<T>, s': System<T>, t: nat, l: nat)
    requires ClaimsExclusive(s) && Local(s, s', t, l)
    requires s.txs[t].Owned() == [l] + s'.txs[t].Owned()
    requires !s'.layers[l].claimed
    ensures ClaimsExclusive(s')
  {
    WithoutFirst(s.txs[t].Owned(), s'.txs[t].Owned(), l);
    assert Owns(s, t, l);
    assert Shaped(s');
    forall u, k | 0 <= u < |s.txs|
      ensures Owns(s', u, k) <==> Owns(s, u, k) && k != l
    {
      assert u != t ==> s'.txs[u] == s.txs[u];
    }
    FlagsFollow(s, s', t, l, false);
  }

  lemma ClaimsStill<T>(s: System<T>, s': System<T>, t: nat)
    requires ClaimsExclusive(s)
    requires |s'.layers| == |s.layers|
    requires forall k :: 0 <= k < |s.layers| ==> s'.layers[k].claimed == s.layers[k].claimed
    requires t < |s.txs| == |s'.txs| && s'.txs == s.txs[t := s'.txs[t]]
    requires s'.txs[t].WellFormed() && (!s'.txs[t].Refused? ==> InRange(s', s'.txs[t].want))
    requires s'.txs[t].Owned() == s.txs[t].Owned()
    ensures ClaimsExclusive(s')
  {
    assert Shaped(s');
    assert forall u, k :: 0 <= u < |s.txs| ==> (Owns(s', u, k) <==> Owns(s, u, k));
    forall k | 0 <= k < |s.layers|
      ensures s'.layers[k].claimed <==> SomeoneOwns(s', k)
    {
      FlagsFollow(s, s', t, k, s.layers[k].claimed);
    }
  }

  /** Flags match ownership again once `l`'s flag and owner have changed together. */
  lemma FlagsFollow<T>(s: System<T>, s': System<T>, t: nat, l: nat, owned: bool)
    requires ClaimsExclusive(s) && WantsKnown(s') && |s'.txs| == |s.txs|
    requires l < |s.layers| == |s'.layers| && s'.layers[l].claimed == owned
    requires forall k :: 0 <= k < |s.layers| && k != l ==> s'.layers[k].claimed == s.layers[k].claimed
    requires forall u, k :: 0 <= u < |s.txs| && k != l ==> (Owns(s', u, k) <==> Owns(s, u, k))
    requires SomeoneOwns(s', l) <==> owned
    ensures forall k :: 0 <= k < |s'.layers| ==> (s'.layers[k].claimed <==> SomeoneOwns(s', k))
  {
    forall k | 0 <= k < |s'.layers| && k != l
      ensures s'.layers[k].claimed <==> SomeoneOwns(s', k)
    {
      if SomeoneOwns(s, k) {
        var u :| 0 <= u < |s.txs| && Owns(s, u, k);
        assert Owns(s', u, k);
      }
      if SomeoneOwns(s', k) {
        var u :| 0 <= u < |s'.txs| && Owns(s', u, k);
        assert Owns(s, u, k);
      }
    }
  }

  lemma ClaimsKept<T>(s: System<T>, step: Step<T>)
    requires ClaimsExclusive(s) && Next(s, step).Some?
    ensures ClaimsExclusive(Next(s, step).value)
  {
    var s' := Next(s, step).value;
    match step
    case Begin(want) =>
      BeginKeepsClaims(s, want);
    case Advance(t) =>
      if s.txs[t].Claiming? {
        ClaimingKeepsClaims(s, t);
      } else if s.txs[t].Unclaiming? {
        UnclaimingKeepsClaims(s, t);
      } else if s.txs[t].Dropping? {
        DroppingKeepsClaims(s, t);
      } else {
        ClaimsStill(s, s', t);
      }
    case Stage(t, slot, f) => ClaimsStill(s, s', t);
    case Commit(t) => ClaimsStill(s, s', t);
    case Rollback(t) => ClaimsStill(s, s', t);
    case Outside(l, foreign) => OutsideKeepsClaims(s, l, foreign);
  }

  lemma BeginKeepsClaims<T>(s: System<T>, want: seq<nat>)
    requires ClaimsExclusive(s) && InRange(s, want)
    ensures ClaimsExclusive(s.(txs := s.txs + [Claiming(want, [])]))
  {
    var s' := s.(txs := s.txs + [Claiming(want, [])]);
    assert forall u, k :: 0 <= u < |s.txs| ==> (Owns(s', u, k) <==> Owns(s, u, k));
    forall k | 0 <= k < |s.layers| ensures SomeoneOwns(s', k) <==> SomeoneOwns(s, k) {
      if SomeoneOwns(s, k) {
        var u :| 0 <= u < |s.txs| && Owns(s, u, k);
        assert Owns(s', u, k);
      }
    }
  }

  lemma OutsideKeepsClaims<T>(s: System<T>, l: nat, foreign: Foreign<T>)
    requires ClaimsExclusive(s) && l < |s.layers|
    ensures ClaimsExclusive(s.(layers := s.layers[l := Touch(s.layers[l], foreign)]))
  {
    var s' := s.(layers := s.layers[l := Touch(s.layers[l], foreign)]);
    assert forall u, k :: 0 <= u < |s.txs| ==> (Owns(s', u, k) <==> Owns(s, u, k));
    forall k | 0 <= k < |s.layers| ensures SomeoneOwns(s', k) <==> SomeoneOwns(s, k) {
      if SomeoneOwns(s, k) {
        var u :| 0 <= u < |s.txs| && Owns(s, u, k);
        assert Owns(s', u, k);
      }
    }
  }

  lemma ClaimingKeepsClaims<T>(s: System<T>, t: nat)
    requires ClaimsExclusive(s) && t < |s.txs| && s.txs[t].Claiming? && AdvanceTx(s, t).Some?
    ensures ClaimsExclusive(AdvanceTx(s, t).value)
  {
    var s' := AdvanceTx(s, t).value;
    var want, base := s.txs[t].want, s.txs[t].base;
    if |base| < |want| && !s.layers[want[|base|]].claimed {
      assert want[..|base| + 1] == want[..|base|] + [want[|base|]];
      ClaimTaken(s, s', t, want[|base|]);
    } else {
      assert |base| == |want| ==> want[..|base|] == want;
      assert want[..|base|] == want[0..|base|];
      ClaimsStill(s, s', t);
    }
  }

  lemma UnclaimingKeepsClaims<T>(s: System<T>, t: nat)
    requires ClaimsExclusive(s) && t < |s.txs| && s.txs[t].Unclaiming? && AdvanceTx(s, t).Some?
    ensures ClaimsExclusive(AdvanceTx(s, t).value)
  {
    var s' := AdvanceTx(s, t).value;
    var want, base, given := s.txs[t].want, s.txs[t].base, s.txs[t].given;
    if given < |base| {
      assert want[given..|base|] == [want[given]] + want[given + 1..|base|];
      ClaimGiven(s, s', t, want[given]);
    } else {
      ClaimsStill(s, s', t);
    }
  }

  lemma DroppingKeepsClaims<T>(s: System<T>, t: nat)
    requires ClaimsExclusive(s) && t < |s.txs| && s.txs[t].Dropping? && AdvanceTx(s, t).Some?
    ensures ClaimsExclusive(AdvanceTx(s, t).value)
  {
    var s' := AdvanceTx(s, t).value;
    var tx := s.txs[t];
    var j := |tx.left|;
    if j < |tx.want| && (tx.committing || tx.discarded) {
      assert tx.want[j..] == [tx.want[j]] + tx.want[j + 1..];
      ClaimGiven(s, s', t, tx.want[j]);
    } else {
      ClaimsStill(s, s', t);
    }
  }

  lemma {:induction false} ClaimsAlong<T>(s: System<T>, steps: seq<Step<T>>)
    requires ClaimsExclusive(s) && Exec(s, steps).Some?
    ensures ClaimsExclusive(Exec(s, steps).value)
    decreases |steps|
  {
    if steps != [] {
      ClaimsKept(s, steps[0]);
      ClaimsAlong(Next(s, steps[0]).value, steps[1..]);
    }
  }

  /**
   In every run: a claim flag is set exactly while one beginning, live or finishing transaction
   owns the layer; two transactions never own the same layer; and a refused or ended
   transaction owns nothing, so a failed `begin` has given back all it took and only that.
   */
  lemma ClaimsAreExclusive<T>(start: System<T>, steps: seq<Step<T>>, s: System<T>)
    requires Initial(start) && Exec(start, steps) == Some(s)
    ensures WantsKnown(s)
    ensures forall l :: 0 <= l < |s.layers| ==> (s.layers[l].claimed <==> SomeoneOwns(s, l))
    ensures forall t, u, l :: 0 <= t < |s.txs| && 0 <= u < |s.txs| && Owns(s, t, l) && Owns(s, u, l) ==> t == u
    ensures forall t :: 0 <= t < |s.txs| && (s.txs[t].Refused? || s.txs[t].Ended?) ==> s.txs[t].Owned() == []
    ensures forall t :: 0 <= t < |s.txs| && s.txs[t].Live? ==> Distinct(s.txs[t].want)
  {
    assert forall l :: 0 <= l < |start.layers| ==> !SomeoneOwns(start, l);
    ClaimsAlong(start, steps);
    assert forall t :: 0 <= t < |s.txs| && s.txs[t].Live? ==> s.txs[t].Owned() == s.txs[t].want;
  }

  // ---------------------------------------------------------------- values

  /** Outsiders leave claimed layers alone.  The code relies on this; it does not check it. */
  ghost predicate Disciplined<T>(s: System<T>, step: Step<T>) {
    step.Outside? && step.layer < |s.layers| ==> !s.layers[step.layer].claimed
  }

  ghost predicate DisciplinedRun<T>(s: System<T>, steps: seq<Step<T>>)
    decreases |steps|
  {
    steps != [] ==>
      && Disciplined(s, steps[0])
      && (Next(s, steps[0]).Some? ==> DisciplinedRun(Next(s, steps[0]).value, steps[1..]))
  }

  ghost predicate Settled<T>(layer: Layer<T>, value: T) {
    layer.committed == value && layer.draft.None?
  }

  /** What a transaction may count on about the layers it owns, and what it left behind. */
  ghost predicate Promise<T>(layers: seq<Layer<T>>, tx: Tx<T>)
    requires tx.WellFormed() && (!tx.Refused? ==> forall i :: 0 <= i < |tx.want| ==> tx.want[i] < |layers|)
  {
    match tx
    case Claiming(want, base) => forall i :: 0 <= i < |base| ==> layers[want[i]].committed == base[i]
    case Unclaiming(want, base, given) => forall i :: given <= i < |base| ==> layers[want[i]].committed == base[i]
    case Live(want, base) => forall i :: 0 <= i < |want| ==> layers[want[i]].committed == base[i]
    case Refused(_) => true
    case Applying(want, goal, applied) =>
      && (forall i :: 0 <= i < applied ==> Settled(layers[want[i]], goal[i]))
      && (forall i :: applied <= i < |want| ==> layers[want[i]].Latest() == goal[i])
    case Dropping(want, committing, promise, discarded, left) =>
      && (forall i :: |left| <= i < |want| ==> layers[want[i]].committed == promise[i])
      && (forall i :: |left| <= i < |want| && committing ==> layers[want[i]].draft.None?)
      && (discarded && |left| < |want| ==> layers[want[|left|]].draft.None?)
      && (forall i :: 0 <= i < |left| ==> left[i] == Layer(promise[i], None, false))
    case Ended(want, _, promise, left) =>
      forall i :: 0 <= i < |want| ==> left[i] == Layer(promise[i], None, false)
  }

  ghost predicate Inv<T>(s: System<T>) {
    && ClaimsExclusive(s)
    && forall t :: 0 <= t < |s.txs| ==> Promise(s.layers, s.txs[t])
  }

  ghost predicate SameValues<T>(a: Layer<T>, b: Layer<T>) {
    a.committed == b.committed && a.draft == b.draft
  }

  /** The positions of `want` a transaction owns. */
  ghost function OwnedFrom<T>(tx: Tx<T>): nat {
    match tx
    case Unclaiming(_, _, given) => given
    case Dropping(_, _, _, _, left) => |left|
    case Ended(_, _, _, left) => |left|
    case _ => 0
  }

  ghost function OwnedTo<T>(tx: Tx<T>): nat {
    match tx
    case Claiming(_, base) => |base|
    case Unclaiming(_, base, _) => |base|
    case Refused(_) => 0
    case _ => |tx.want|
  }

  lemma OwnedAt<T>(tx: Tx<T>, i: nat)
    requires tx.WellFormed() && !tx.Refused? && OwnedFrom(tx) <= i < OwnedTo(tx)
    ensures i < |tx.want| && tx.want[i] in tx.Owned()
  {
    assert tx.Owned()[i - OwnedFrom(tx)] == tx.want[i];
  }

  /** A promise only speaks about owned layers. */
  lemma PromiseFrame<T>(layers: seq<Layer<T>>, layers': seq<Layer<T>>, tx: Tx<T>)
    requires tx.WellFormed() && |layers'| == |layers|
    requires !tx.Refused? ==> forall i :: 0 <= i < |tx.want| ==> tx.want[i] < |layers|
    requires Promise(layers, tx)
    requires forall l :: 0 <= l < |layers| && l in tx.Owned() ==> SameValues(layers[l], layers'[l])
    ensures Promise(layers', tx)
  {
    if !tx.Refused? {
      OwnedStay(layers, layers', tx);
      PromiseMoves(layers, layers', tx);
    }
  }

  /** The owned layers, by position, keep their values. */
  ghost predicate OwnedSame<T>(layers: seq<Layer<T>>, layers': seq<Layer<T>>, tx: Tx<T>)
    requires |layers'| == |layers| && !tx.Refused?
    requires forall i :: 0 <= i < |tx.want| ==> tx.want[i] < |layers|
  {
    forall i :: OwnedFrom(tx) <= i < OwnedTo(tx) && i < |tx.want| ==>
                  SameValues(layers[tx.want[i]], layers'[tx.want[i]])
  }

  lemma OwnedStay<T>(layers: seq<Layer<T>>, layers': seq<Layer<T>>, tx: Tx<T>)
    requires tx.WellFormed() && |layers'| == |layers| && !tx.Refused?
    requires forall i :: 0 <= i < |tx.want| ==> tx.want[i] < |layers|
    requires forall l :: 0 <= l < |layers| && l in tx.Owned() ==> SameValues(layers[l], layers'[l])
    ensures OwnedSame(layers, layers', tx)
  {
    forall i | OwnedFrom(tx) <= i < OwnedTo(tx) && i < |tx.want|
      ensures SameValues(layers[tx.want[i]], layers'[tx.want[i]])
    {
      OwnedAt(tx, i);
    }
  }

  lemma PromiseMoves<T>(layers: seq<Layer<T>>, layers': seq<Layer<T>>, tx: Tx<T>)
    requires tx.WellFormed() && |layers'| == |layers| && !tx.Refused?
    requires forall i :: 0 <= i < |tx.want| ==> tx.want[i] < |layers|
    requires Promise(layers, tx) && OwnedSame(layers, layers', tx)
    ensures Promise(layers', tx)
  {}

  /** Everyone but the transaction that moved keeps its promise. */
  lemma BystandersKeep<T>(s: System<T>, s': System<T>, t: nat, l: nat)
    requires Inv(s) && |s'.layers| == |s.layers| && |s'.txs| == |s.txs|
    requires l < |s.layers| && t < |s.txs| && Owns(s, t, l)
    requires forall k :: 0 <= k < |s.layers| && k != l ==> s'.layers[k] == s.layers[k]
    requires forall u :: 0 <= u < |s.txs| && u != t ==> s'.txs[u] == s.txs[u]
    ensures forall u :: 0 <= u < |s.txs| && u != t ==> Promise(s'.layers, s'.txs[u])
  {
    forall u | 0 <= u < |s.txs| && u != t
      ensures Promise(s'.layers, s'.txs[u])
    {
      assert !Owns(s, u, l);
      PromiseFrame(s.layers, s'.layers, s.txs[u]);
    }
  }

  /** Changing only claim flags keeps every promise. */
  lemma FlagsDoNotMatter<T>(s: System<T>, s': System<T>, t: nat)
    requires Inv(s) && |s'.layers| == |s.layers| && |s'.txs| == |s.txs|
    requires forall k :: 0 <= k < |s.layers| ==> SameValues(s.layers[k], s'.layers[k])
    requires forall u :: 0 <= u < |s.txs| && u != t ==> s'.txs[u] == s.txs[u]
    ensures forall u :: 0 <= u < |s.txs| && u != t ==> Promise(s'.layers, s'.txs[u])
  {
    forall u | 0 <= u < |s.txs| && u != t
      ensures Promise(s'.layers, s'.txs[u])
    {
      PromiseFrame(s.layers, s'.layers, s.txs[u]);
    }
  }

  lemma InvKept<T>(s: System<T>, step: Step<T>)
    requires Inv(s) && Disciplined(s, step) && Next(s, step).Some?
    ensures Inv(Next(s, step).value)
  {
    var s' := Next(s, step).value;
    ClaimsKept(s, step);
    match step
    case Begin(want) =>
      assert Promise(s'.layers, s'.txs[|s.txs|]);
    case Advance(t) =>
      if s.txs[t].Applying? {
        ApplyingKeeps(s, t);
      } else if s.txs[t].Dropping? {
        DroppingKeeps(s, t);
      } else {
        BeginningKeeps(s, t);
      }
    case Stage(t, slot, f) =>
      StagingKeeps(s, t, slot, f);
    case Commit(t) =>
      EndingKeeps(s, step, t);
    case Rollback(t) =>
      EndingKeeps(s, step, t);
    case Outside(l, foreign) =>
      OutsideKeeps(s, l, foreign);
  }

  lemma EndingKeeps<T>(s: System<T>, step: Step<T>, t: nat)
    requires Inv(s) && (step == Commit(t) || step == Rollback(t)) && Next(s, step).Some?
    requires ClaimsExclusive(Next(s, step).value)
    ensures Inv(Next(s, step).value)
  {
    var s' := Next(s, step).value;
    FlagsDoNotMatter(s, s', t);
    assert Promise(s.layers, s.txs[t]);
    assert Promise(s'.layers, s'.txs[t]);
  }

  lemma OutsideKeeps<T>(s: System<T>, l: nat, foreign: Foreign<T>)
    requires Inv(s) && l < |s.layers| && !s.layers[l].claimed
    requires ClaimsExclusive(Next(s, Outside(l, foreign)).value)
    ensures Inv(Next(s, Outside(l, foreign)).value)
  {
    var s' := Next(s, Outside(l, foreign)).value;
    forall u | 0 <= u < |s.txs|
      ensures Promise(s'.layers, s'.txs[u])
    {
      assert !SomeoneOwns(s, l);
      assert !Owns(s, u, l);
      PromiseFrame(s.layers, s'.layers, s.txs[u]);
    }
  }

  lemma BeginningKeeps<T>(s: System<T>, t: nat)
    requires Inv(s) && t < |s.txs| && (s.txs[t].Claiming? || s.txs[t].Unclaiming?)
    requires AdvanceTx(s, t).Some? && ClaimsExclusive(AdvanceTx(s, t).value)
    ensures Inv(AdvanceTx(s, t).value)
  {
    BeginningPromise(s, t);
    FlagsDoNotMatter(s, AdvanceTx(s, t).value, t);
  }

  /** The transaction's own share of `BeginningKeeps`: beginning changes flags only. */
  lemma BeginningPromise<T>(s: System<T>, t: nat)
    requires t < |s.txs| && (s.txs[t].Claiming? || s.txs[t].Unclaiming?) && AdvanceTx(s, t).Some?
    requires s.txs[t].WellFormed() && InRange(s, s.txs[t].want) && Promise(s.layers, s.txs[t])
    ensures var s' := AdvanceTx(s, t).value;
            && |s'.layers| == |s.layers| && |s'.txs| == |s.txs|
            && (forall u :: 0 <= u < |s.txs| && u != t ==> s'.txs[u] == s.txs[u])
            && (forall k :: 0 <= k < |s.layers| ==> SameValues(s.layers[k], s'.layers[k]))
            && s'.txs[t].WellFormed() && Promise(s'.layers, s'.txs[t])
  {}

  lemma StagingKeeps<T>(s: System<T>, t: nat, slot: nat, f: T -> T)
    requires Inv(s) && Next(s, Stage(t, slot, f)).Some?
    requires ClaimsExclusive(Next(s, Stage(t, slot, f)).value)
    ensures Inv(Next(s, Stage(t, slot, f)).value)
  {
    var s' := Next(s, Stage(t, slot, f)).value;
    assert Owns(s, t, s.txs[t].want[slot]);
    BystandersKeep(s, s', t, s.txs[t].want[slot]);
    assert Promise(s.layers, s.txs[t]);
  }

  lemma ApplyingKeeps<T>(s: System<T>, t: nat)
    requires Inv(s) && t < |s.txs| && s.txs[t].Applying? && AdvanceTx(s, t).Some?
    requires ClaimsExclusive(AdvanceTx(s, t).value)
    ensures Inv(AdvanceTx(s, t).value)
  {
    var s' := AdvanceTx(s, t).value;
    var tx := s.txs[t];
    assert Distinct(tx.Owned());
    ApplyingPromise(s, t);
    if tx.applied < |tx.want| {
      assert Owns(s, t, tx.want[tx.applied]);
      BystandersKeep(s, s', t, tx.want[tx.applied]);
    } else {
      FlagsDoNotMatter(s, s', t);
    }
  }

  lemma ApplyingPromise<T>(s: System<T>, t: nat)
    requires t < |s.txs| && s.txs[t].Applying? && AdvanceTx(s, t).Some?
    requires s.txs[t].WellFormed() && InRange(s, s.txs[t].want) && Distinct(s.txs[t].want)
    requires Promise(s.layers, s.txs[t])
    ensures var s' := AdvanceTx(s, t).value;
            && s'.txs[t].WellFormed() && InRange(s', s'.txs[t].want)
            && Promise(s'.layers, s'.txs[t])
  {
    var s' := AdvanceTx(s, t).value;
    var tx := s.txs[t];
    if tx.applied < |tx.want| {
      forall i | 0 <= i < |tx.want| && i != tx.applied
        ensures s'.layers[tx.want[i]] == s.layers[tx.want[i]]
      {
        assert i < tx.applied || tx.applied < i;
      }
    } else {
      assert forall i :: 0 <= i < |tx.want| ==> Settled(s.layers[tx.want[i]], tx.goal[i]);
    }
  }

  lemma DroppingKeeps<T>(s: System<T>, t: nat)
    requires Inv(s) && t < |s.txs| && s.txs[t].Dropping? && AdvanceTx(s, t).Some?
    requires ClaimsExclusive(AdvanceTx(s, t).value)
    ensures Inv(AdvanceTx(s, t).value)
  {
    var s' := AdvanceTx(s, t).value;
    var tx := s.txs[t];
    assert Promise(s.layers, tx);
    if |tx.left| < |tx.want| && !tx.committing && !tx.discarded {
      assert tx.Owned()[0] == tx.want[|tx.left|];
      assert Owns(s, t, tx.want[|tx.left|]);
      BystandersKeep(s, s', t, tx.want[|tx.left|]);
    } else {
      FlagsDoNotMatter(s, s', t);
      assert forall k :: 0 <= k < |s.layers| ==> SameValues(s.layers[k], s'.layers[k]);
    }
    assert Promise(s'.layers, s'.txs[t]);
  }

  lemma {:induction false} InvAlong<T>(s: System<T>, steps: seq<Step<T>>)
    requires Inv(s) && Exec(s, steps).Some? && DisciplinedRun(s, steps)
    ensures Inv(Exec(s, steps).value)
    decreases |steps|
  {
    if steps != [] {
      InvKept(s, steps[0]);
      InvAlong(Next(s, steps[0]).value, steps[1..]);
    }
  }

  ghost predicate Finishing<T>(tx: Tx<T>) {
    tx.Applying? || tx.Dropping? || tx.Ended?
  }

  ghost function Committing<T>(tx: Tx<T>): bool
    requires Finishing(tx)
  {
    tx.Applying? || tx.committing
  }

  ghost function Promised<T>(tx: Tx<T>): seq<T>
    requires Finishing(tx)
  {
    if tx.Applying? then tx.goal else tx.promise
  }

  lemma {:induction false} FinishingIsFixed<T>(s: System<T>, more: seq<Step<T>>, t: nat)
    requires Exec(s, more).Some? && t < |s.txs| && Finishing(s.txs[t])
    ensures var s' := Exec(s, more).value;
            && t < |s'.txs| && Finishing(s'.txs[t])
            && s'.txs[t].want == s.txs[t].want
            && Committing(s'.txs[t]) == Committing(s.txs[t])
            && Promised(s'.txs[t]) == Promised(s.txs[t])
    decreases |more|
  {
    if more != [] {
      FinishingIsFixed(Next(s, more[0]).value, more[1..], t);
    }
  }

  lemma ReachableInv<T>(start: System<T>, steps: seq<Step<T>>, s: System<T>)
    requires Initial(start) && DisciplinedRun(start, steps) && Exec(start, steps) == Some(s)
    ensures Inv(s)
  {
    assert forall l :: 0 <= l < |start.layers| ==> !SomeoneOwns(start, l);
    InvAlong(start, steps);
  }

  /**
   `commit`: whatever else runs meanwhile, when the transaction has ended it has given back each
   layer with the value that layer's draft had at the call (its committed value if it had none),
   no draft, and no claim.
   */
  lemma CommitDeliversEveryDraft<T>(
    start: System<T>, steps: seq<Step<T>>, s: System<T>, t: nat, more: seq<Step<T>>, s': System<T>)
    requires Initial(start) && DisciplinedRun(start, steps) && Exec(start, steps) == Some(s)
    requires t < |s.txs| && s.txs[t].Live?
    requires Next(s, Commit(t)).Some? && DisciplinedRun(Next(s, Commit(t)).value, more)
    requires Exec(Next(s, Commit(t)).value, more) == Some(s')
    requires t < |s'.txs| && s'.txs[t].Ended?
    ensures var want := s.txs[t].want;
            && (forall i :: 0 <= i < |want| ==> want[i] < |s.layers|)
            && |s'.txs[t].left| == |want|
            && forall i :: 0 <= i < |want| ==> s'.txs[t].left[i] == Layer(s.layers[want[i]].Latest(), None, false)
  {
    ReachableInv(start, steps, s);
    InvKept(s, Commit(t));
    InvAlong(Next(s, Commit(t)).value, more);
    FinishingIsFixed(Next(s, Commit(t)).value, more, t);
    assert Promise(s'.layers, s'.txs[t]);
  }

  /**
   Any other ending gives back every layer with the committed value it had, which is the value
   it had when the transaction claimed it, and with no draft.
   */
  lemma RollbackRestoresEveryLayer<T>(
    start: System<T>, steps: seq<Step<T>>, s: System<T>, t: nat, more: seq<Step<T>>, s': System<T>)
    requires Initial(start) && DisciplinedRun(start, steps) && Exec(start, steps) == Some(s)
    requires t < |s.txs| && s.txs[t].Live?
    requires Next(s, Rollback(t)).Some? && DisciplinedRun(Next(s, Rollback(t)).value, more)
    requires Exec(Next(s, Rollback(t)).value, more) == Some(s')
    requires t < |s'.txs| && s'.txs[t].Ended?
    ensures var want, base := s.txs[t].want, s.txs[t].base;
            && (forall i :: 0 <= i < |want| ==> want[i] < |s.layers|)
            && |base| == |s'.txs[t].left| == |want|
            && forall i :: 0 <= i < |want| ==>
                 s.layers[want[i]].committed == base[i] && s'.txs[t].left[i] == Layer(base[i], None, false)
  {
    ReachableInv(start, steps, s);
    assert Promise(s.layers, s.txs[t]);
    InvKept(s, Rollback(t));
    InvAlong(Next(s, Rollback(t)).value, more);
    FinishingIsFixed(Next(s, Rollback(t)).value, more, t);
    assert Promise(s'.layers, s'.txs[t]);
  }

  /** Listing a layer twice can never succeed: such a transaction never becomes live. */
  lemma RepeatedLayerIsRefused<T>(start: System<T>, steps: seq<Step<T>>, s: System<T>, t: nat)
    requires Initial(start) && Exec(start, steps) == Some(s)
    requires t < |s.txs| && !s.txs[t].Refused? && !Distinct(s.txs[t].want)
    ensures s.txs[t].Claiming? || s.txs[t].Unclaiming?
  {
    assert forall l :: 0 <= l < |start.layers| ==> !SomeoneOwns(start, l);
    WantsStayDistinct(start, steps);
  }

  ghost predicate StartedDistinct<T>(s: System<T>) {
    forall t :: 0 <= t < |s.txs| && (s.txs[t].Live? || Finishing(s.txs[t])) ==> Distinct(s.txs[t].want)
  }

  lemma DistinctKept<T>(s: System<T>, step: Step<T>, t: nat)
    requires StartedDistinct(s) && Next(s, step).Some? && t < |Next(s, step).value.txs|
    requires ClaimsExclusive(Next(s, step).value)
    requires var tx := Next(s, step).value.txs[t]; tx.Live? || Finishing(tx)
    ensures Distinct(Next(s, step).value.txs[t].want)
  {
    var next := Next(s, step).value;
    if next.txs[t].Live? {
      assert Distinct(next.txs[t].Owned());
    } else {
      FinishingWasStarted(s, step, t);
    }
  }

  lemma FinishingWasStarted<T>(s: System<T>, step: Step<T>, t: nat)
    requires Next(s, step).Some? && t < |Next(s, step).value.txs| && Finishing(Next(s, step).value.txs[t])
    ensures t < |s.txs| && (s.txs[t].Live? || Finishing(s.txs[t]))
    ensures s.txs[t].want == Next(s, step).value.txs[t].want
  {}

  lemma {:induction false} WantsStayDistinct<T>(s: System<T>, steps: seq<Step<T>>)
    requires ClaimsExclusive(s) && StartedDistinct(s) && Exec(s, steps).Some?
    ensures StartedDistinct(Exec(s, steps).value)
    decreases |steps|
  {
    if steps != [] {
      var next := Next(s, steps[0]).value;
      ClaimsKept(s, steps[0]);
      forall t | 0 <= t < |next.txs| && (next.txs[t].Live? || Finishing(next.txs[t]))
        ensures Distinct(next.txs[t].want)
      {
        DistinctKept(s, steps[0], t);
      }
      WantsStayDistinct(next, steps[1..]);
    }
  }
}
