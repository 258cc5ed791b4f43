/**
 Commands with the same identity run one at a time, in the order they were asked for.  Each call
 leaves a promise under its identity and waits for the one it found there.  A promise is named by
 the number of the call that made it; every stretch of a call between two waits is one step.
 */
module MutateQueue {
  import opened Common

  datatype Outcome = Fulfilled | Busy | Failed

  datatype Phase = Waiting | Invoking | Revalidating | Settled(outcome: Outcome)

  datatype Call = Call(id: string, previous: Option<nat>, phase: Phase)

  datatype Event = Begun(call: nat) | Ended(call: nat, outcome: Outcome)

  datatype State = State(calls: seq<Call>, inFlight: map<string, nat>, log: seq<Event>)

  /**
   `Answer` is the command's own result; a fulfilled one may have queries to revalidate, and a
   callback that throws counts as failed.
   */
  datatype Step =
    | Request(id: string)
    | Wake(call: nat)
    | Answer(call: nat, outcome: Outcome, revalidate: bool)
    | Revalidated(call: nat, ok: bool)

  const INITIAL := State([], map[], [])

  /** What a new call finds under its identity. */
  function Previous(inFlight: map<string, nat>, id: string): Option<nat> {
    if id in inFlight then Some(inFlight[id]) else None
  }

  /** A settled call takes its promise away, unless a later call has put another in its place. */
  function Cleaned(inFlight: map<string, nat>, id: string, call: nat): map<string, nat> {
    if id in inFlight && inFlight[id] == call then inFlight - {id} else inFlight
  }

  /** The promises in flight, as the program keeps them. */
  class InFlight {
    var promises: map<string, nat>

    constructor ()
      ensures promises == map[]
    {
      promises := map[];
    }

    method Enter(id: string, settled: nat) returns (previous: Option<nat>)
      modifies this
      ensures previous == Previous(old(promises), id)
      ensures promises == old(promises)[id := settled]
    {
      previous := None;
      if id in promises {
        previous := Some(promises[id]);
      }
      promises := promises[id := settled];
    }

    method Leave(id: string, settled: nat)
      modifies this
      ensures promises == Cleaned(old(promises), id, settled)
    {
      if id in promises && promises[id] == settled {
        promises := promises - {id};
      }
    }
  }

  function SetPhase(s: State, c: nat, phase: Phase): (r: State)
    requires c < |s.calls|
    ensures |r.calls| == |s.calls| && r.inFlight == s.inFlight && r.log == s.log
  {
    s.(calls := s.calls[c := s.calls[c].(phase := phase)])
  }

  function Begin(s: State, c: nat): State
    requires c < |s.calls|
  {
    SetPhase(s, c, Invoking).(log := s.log + [Begun(c)])
  }

  function Settle(s: State, c: nat, outcome: Outcome): State
    requires c < |s.calls|
  {
    SetPhase(s, c, Settled(outcome)).(
      inFlight := Cleaned(s.inFlight, s.calls[c].id, c),
      log := s.log + [Ended(c, outcome)])
  }

  predicate Is(s: State, c: nat, phase: Phase) {
    c < |s.calls| && s.calls[c].phase == phase
  }

  predicate IsSettled(s: State, c: nat) {
    c < |s.calls| && s.calls[c].phase.Settled?
  }

  function Next(s: State, step: Step): Option<State> {
    match step
    case Request(id) =>
      var c, previous := |s.calls|, Previous(s.inFlight, id);
      var entered := s.(calls := s.calls + [Call(id, previous, Waiting)], inFlight := s.inFlight[id := c]);
      Some(if previous.None? then Begin(entered, c) else entered)
    case Wake(c) =>
      if Is(s, c, Waiting) && s.calls[c].previous.Some? && IsSettled(s, s.calls[c].previous.value) then Some(Begin(s, c))
      else None
    case Answer(c, outcome, revalidate) =>
      if !Is(s, c, Invoking) then None
      else if outcome.Fulfilled? && revalidate then Some(SetPhase(s, c, Revalidating))
      else Some(Settle(s, c, outcome))
    case Revalidated(c, ok) =>
      if Is(s, c, Revalidating) then Some(Settle(s, c, if ok then Fulfilled else Failed)) else None
  }

  function Exec(steps: seq<Step>): Option<State> {
    if steps == [] then Some(INITIAL)
    else
      var n := |steps| - 1;
      var before := Exec(steps[..n]);
      if before.None? then None else Next(before.value, steps[n])
  }

  // ---------------------------------------------------------------- invariant

  predicate SameId(s: State, b: nat, c: nat) {
    b < |s.calls| && c < |s.calls| && s.calls[b].id == s.calls[c].id
  }

  /** A call waits for the last one before it with its identity. */
  ghost predicate Linked(s: State) {
    forall c: nat | c < |s.calls| && s.calls[c].previous.Some? ::
      && s.calls[c].previous.value < c
      && SameId(s, s.calls[c].previous.value, c)
      && forall b: nat | b < c && SameId(s, b, c) :: b <= s.calls[c].previous.value
  }

  ghost predicate WaitersLinked(s: State) {
    forall c: nat | Is(s, c, Waiting) :: s.calls[c].previous.Some?
  }

  /** A call that has begun comes after nothing unsettled of its identity. */
  ghost predicate InOrder(s: State) {
    forall b: nat, c: nat | b < c && SameId(s, b, c) && !Is(s, c, Waiting) :: IsSettled(s, b)
  }

  /** The entry under an identity is its last call, and is not settled. */
  ghost predicate EntriesLast(s: State) {
    forall id | id in s.inFlight ::
      && s.inFlight[id] < |s.calls|
      && s.calls[s.inFlight[id]].id == id
      && !IsSettled(s, s.inFlight[id])
      && forall b: nat | SameId(s, b, s.inFlight[id]) :: b <= s.inFlight[id]
  }

  ghost predicate UnsettledEntered(s: State) {
    forall c: nat | c < |s.calls| && !IsSettled(s, c) :: s.calls[c].id in s.inFlight
  }

  ghost predicate Inv(s: State) {
    Linked(s) && WaitersLinked(s) && InOrder(s) && EntriesLast(s) && UnsettledEntered(s)
  }

  /** What a new call changes. */
  predicate Joined(s: State, s': State, id: string) {
    var previous := Previous(s.inFlight, id);
    && s'.calls == s.calls + [Call(id, previous, if previous.None? then Invoking else Waiting)]
    && s'.inFlight == s.inFlight[id := |s.calls|]
  }

  lemma JoinedLinks(s: State, s': State, id: string)
    requires Inv(s) && Joined(s, s', id)
    ensures Linked(s') && WaitersLinked(s')
  {
    forall c: nat | c < |s'.calls| && s'.calls[c].previous.Some?
      ensures s'.calls[c].previous.value < c
      ensures SameId(s', s'.calls[c].previous.value, c)
      ensures forall b: nat | b < c && SameId(s', b, c) :: b <= s'.calls[c].previous.value
    {
      if c < |s.calls| {
        assert SameId(s, s.calls[c].previous.value, c);
        forall b: nat | b < c && SameId(s', b, c) ensures b <= s'.calls[c].previous.value {
          assert SameId(s, b, c);
        }
      } else {
        forall b: nat | b < c && SameId(s', b, c) ensures b <= s.inFlight[id] {
          assert SameId(s, b, s.inFlight[id]);
        }
      }
    }
    forall c: nat | Is(s', c, Waiting) ensures s'.calls[c].previous.Some? {
      assert c < |s.calls| ==> Is(s, c, Waiting);
    }
  }

  lemma JoinedOrder(s: State, s': State, id: string)
    requires Inv(s) && Joined(s, s', id)
    ensures InOrder(s')
  {
    forall b: nat, c: nat | b < c && SameId(s', b, c) && !Is(s', c, Waiting) ensures IsSettled(s', b) {
      if c < |s.calls| {
        assert SameId(s, b, c) && !Is(s, c, Waiting);
      }
      assert IsSettled(s, b);
    }
  }

  lemma JoinedEntries(s: State, s': State, id: string)
    requires Inv(s) && Joined(s, s', id)
    ensures EntriesLast(s') && UnsettledEntered(s')
  {
    forall other | other in s'.inFlight
      ensures s'.inFlight[other] < |s'.calls| && s'.calls[s'.inFlight[other]].id == other
      ensures !IsSettled(s', s'.inFlight[other])
      ensures forall b: nat | SameId(s', b, s'.inFlight[other]) :: b <= s'.inFlight[other]
    {
      if other != id {
        var last := s.inFlight[other];
        assert !IsSettled(s, last);
        forall b: nat | SameId(s', b, last) ensures b <= last {
          assert SameId(s, b, last);
        }
      }
    }
    forall c: nat | c < |s'.calls| && !IsSettled(s', c) ensures s'.calls[c].id in s'.inFlight {
      assert c < |s.calls| ==> !IsSettled(s, c);
    }
  }

  lemma RequestKeeps(s: State, id: string)
    requires Inv(s)
    ensures Inv(Next(s, Request(id)).value)
  {
    var s' := Next(s, Request(id)).value;
    RequestJoins(s, id);
    JoinedLinks(s, s', id);
    JoinedOrder(s, s', id);
    JoinedEntries(s, s', id);
  }

  lemma RequestJoins(s: State, id: string)
    ensures Joined(s, Next(s, Request(id)).value, id)
  {}

  /** A phase may only move on once everything before it has settled. */
  lemma PhaseKeeps(s: State, c: nat, phase: Phase, log: seq<Event>)
    requires Inv(s) && c < |s.calls| && !IsSettled(s, c) && phase != Waiting && !phase.Settled?
    requires forall b: nat | b < c && SameId(s, b, c) :: IsSettled(s, b)
    ensures Inv(SetPhase(s, c, phase).(log := log))
  {
    var s' := SetPhase(s, c, phase).(log := log);
    forall b: nat, d: nat ensures SameId(s', b, d) <==> SameId(s, b, d) {}
    forall d: nat ensures IsSettled(s', d) <==> IsSettled(s, d) {}
  }

  lemma SettleKeeps(s: State, c: nat, outcome: Outcome)
    requires Inv(s) && c < |s.calls| && !IsSettled(s, c) && !Is(s, c, Waiting)
    ensures Inv(Settle(s, c, outcome))
  {
    var s' := Settle(s, c, outcome);
    forall b: nat, d: nat ensures SameId(s', b, d) <==> SameId(s, b, d) {}
    forall d: nat ensures IsSettled(s', d) <==> IsSettled(s, d) || d == c {}
    forall d: nat | d < |s'.calls| && !IsSettled(s', d) ensures s'.calls[d].id in s'.inFlight {
      if s.inFlight[s.calls[d].id] == c {
        assert SameId(s, d, c);
      }
    }
  }

  lemma AllBeforeSettled(s: State, c: nat)
    requires Inv(s) && c < |s.calls| && s.calls[c].previous.Some? && IsSettled(s, s.calls[c].previous.value)
    ensures forall b: nat | b < c && SameId(s, b, c) :: IsSettled(s, b)
  {
    var p := s.calls[c].previous.value;
    forall b: nat | b < c && SameId(s, b, c) ensures IsSettled(s, b) {
      if b < p {
        assert SameId(s, b, p) && !Is(s, p, Waiting);
      }
    }
  }

  lemma InvokingIsNext(s: State, c: nat)
    requires InOrder(s) && c < |s.calls| && !Is(s, c, Waiting)
    ensures forall b: nat | b < c && SameId(s, b, c) :: IsSettled(s, b)
  {}

  lemma InvKept(s: State, step: Step)
    requires Inv(s) && Next(s, step).Some?
    ensures Inv(Next(s, step).value)
  {
    match step
    case Request(id) => RequestKeeps(s, id);
    case Wake(c) =>
      AllBeforeSettled(s, c);
      PhaseKeeps(s, c, Invoking, Begin(s, c).log);
    case Answer(c, outcome, revalidate) =>
      if outcome.Fulfilled? && revalidate {
        InvokingIsNext(s, c);
        PhaseKeeps(s, c, Revalidating, s.log);
      } else {
        SettleKeeps(s, c, outcome);
      }
    case Revalidated(c, ok) => SettleKeeps(s, c, if ok then Fulfilled else Failed);
  }

  lemma {:induction false} InvAlong(steps: seq<Step>)
    requires Exec(steps).Some?
    ensures Inv(Exec(steps).value)
  {
    if steps != [] {
      InvAlong(steps[..|steps| - 1]);
      InvKept(Exec(steps[..|steps| - 1]).value, steps[|steps| - 1]);
    }
  }
}
