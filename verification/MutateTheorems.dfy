/** What the command queue promises over every run. */
module MutateTheorems {
  import opened Common
  import opened MutateQueue

  // ---------------------------------------------------------------- order

  /** The part of a log that belongs to one identity. */
  function Own(log: seq<Event>, calls: seq<Call>, id: string): seq<Event> {
    if log == [] then []
    else
      var n := |log| - 1;
      var c := log[n].call;
      Own(log[..n], calls, id) + if c < |calls| && calls[c].id == id then [log[n]] else []
  }

  /** What one call leaves in the log. */
  function Mark(c: nat, phase: Phase): seq<Event> {
    match phase
    case Waiting => []
    case Invoking => [Begun(c)]
    case Revalidating => [Begun(c)]
    case Settled(outcome) => [Begun(c), Ended(c, outcome)]
  }

  /** The log of running the calls of an identity one after another, in the order they were requested. */
  function OneByOne(calls: seq<Call>, id: string): seq<Event> {
    if calls == [] then []
    else
      var n := |calls| - 1;
      OneByOne(calls[..n], id) + if calls[n].id == id then Mark(n, calls[n].phase) else []
  }

  ghost predicate LogNamesCalls(s: State) {
    forall e | e in s.log :: e.call < |s.calls|
  }

  ghost predicate Serial(s: State) {
    LogNamesCalls(s) && forall id :: Own(s.log, s.calls, id) == OneByOne(s.calls, id)
  }

  lemma {:induction false} OwnByIdentity(log: seq<Event>, calls: seq<Call>, calls': seq<Call>, id: string)
    requires |calls| <= |calls'| && forall c: nat | c < |calls| :: calls'[c].id == calls[c].id
    requires forall e | e in log :: e.call < |calls|
    ensures Own(log, calls', id) == Own(log, calls, id)
  {
    if log != [] {
      OwnByIdentity(log[..|log| - 1], calls, calls', id);
    }
  }

  lemma {:induction false} OneByOneMoves(calls: seq<Call>, c: nat, phase: Phase, news: seq<Event>, id: string)
    requires c < |calls| && Mark(c, phase) == Mark(c, calls[c].phase) + news
    requires forall d: nat | c < d < |calls| && calls[d].id == calls[c].id :: calls[d].phase == Waiting
    ensures OneByOne(calls[c := calls[c].(phase := phase)], id) == OneByOne(calls, id) + if calls[c].id == id then news else []
  {
    var n, calls' := |calls| - 1, calls[c := calls[c].(phase := phase)];
    if c == n {
      assert calls'[..n] == calls[..n];
    } else {
      assert calls'[..n] == calls[..n][c := calls[c].(phase := phase)];
      OneByOneMoves(calls[..n], c, phase, news, id);
    }
  }

  lemma LaterCallsWait(s: State, c: nat)
    requires InOrder(s) && c < |s.calls| && !IsSettled(s, c)
    ensures forall d: nat | c < d < |s.calls| && s.calls[d].id == s.calls[c].id :: s.calls[d].phase == Waiting
  {
    forall d: nat | c < d < |s.calls| && s.calls[d].id == s.calls[c].id ensures s.calls[d].phase == Waiting {
      assert SameId(s, c, d);
    }
  }

  /** One call moves on and writes its events. */
  lemma MoveStaysSerial(s: State, s': State, c: nat, phase: Phase, news: seq<Event>)
    requires Serial(s) && InOrder(s) && c < |s.calls| && !IsSettled(s, c)
    requires Mark(c, phase) == Mark(c, s.calls[c].phase) + news && |news| <= 1
    requires news != [] ==> news[0].call == c
    requires s'.calls == s.calls[c := s.calls[c].(phase := phase)] && s'.log == s.log + news
    ensures Serial(s')
  {
    LaterCallsWait(s, c);
    forall id ensures Own(s'.log, s'.calls, id) == OneByOne(s'.calls, id) {
      OneByOneMoves(s.calls, c, phase, news, id);
      OwnByIdentity(s.log, s.calls, s'.calls, id);
      if news == [] {
        assert s'.log == s.log;
      } else {
        assert s'.log[..|s.log|] == s.log;
      }
    }
  }

  lemma CallStaysSerial(s: State, s': State, call: Call)
    requires Serial(s) && call.phase == Waiting
    requires s'.calls == s.calls + [call] && s'.log == s.log
    ensures Serial(s')
  {
    forall id ensures Own(s'.log, s'.calls, id) == OneByOne(s'.calls, id) {
      OwnByIdentity(s.log, s.calls, s'.calls, id);
      assert s'.calls[..|s.calls|] == s.calls;
    }
  }

  lemma RequestStaysSerial(s: State, id: string)
    requires Serial(s) && InOrder(s)
    ensures Serial(Next(s, Request(id)).value)
  {
    var c, previous := |s.calls|, Previous(s.inFlight, id);
    var entered := s.(calls := s.calls + [Call(id, previous, Waiting)], inFlight := s.inFlight[id := c]);
    CallStaysSerial(s, entered, Call(id, previous, Waiting));
    if previous.None? {
      forall b: nat, d: nat | b < d && SameId(entered, b, d) && !Is(entered, d, Waiting) ensures IsSettled(entered, b) {
        assert SameId(s, b, d) && !Is(s, d, Waiting);
      }
      MoveStaysSerial(entered, Begin(entered, c), c, Invoking, [Begun(c)]);
    }
  }

  lemma StepStaysSerial(s: State, step: Step)
    requires Serial(s) && InOrder(s) && Next(s, step).Some?
    ensures Serial(Next(s, step).value)
  {
    var s' := Next(s, step).value;
    match step
    case Request(id) => RequestStaysSerial(s, id);
    case Wake(c) => MoveStaysSerial(s, s', c, Invoking, [Begun(c)]);
    case Answer(c, outcome, revalidate) =>
      if outcome.Fulfilled? && revalidate {
        MoveStaysSerial(s, s', c, Revalidating, []);
      } else {
        MoveStaysSerial(s, s', c, Settled(outcome), [Ended(c, outcome)]);
      }
    case Revalidated(c, ok) =>
      var outcome := if ok then Fulfilled else Failed;
      MoveStaysSerial(s, s', c, Settled(outcome), [Ended(c, outcome)]);
  }

  /**
   Commands with the same identity never overlap and run in the order they were requested, whether
   earlier ones were fulfilled, failed or found the backend busy: their part of the log is that
   of running them one after another.
   */
  lemma {:induction false} CommandsRunOneByOne(steps: seq<Step>, id: string)
    requires Exec(steps).Some?
    ensures var s := Exec(steps).value;
            Own(s.log, s.calls, id) == OneByOne(s.calls, id)
  {
    RunIsSerial(steps);
  }

  /** No call begins before every earlier call of its identity has settled. */
  lemma EarlierCallsHaveSettled(steps: seq<Step>, b: nat, c: nat)
    requires Exec(steps).Some?
    ensures var s := Exec(steps).value;
            b < c && SameId(s, b, c) && !Is(s, c, Waiting) ==> IsSettled(s, b)
  {
    InvAlong(steps);
  }

  lemma {:induction false} RunIsSerial(steps: seq<Step>)
    requires Exec(steps).Some?
    ensures Serial(Exec(steps).value)
  {
    if steps != [] {
      RunIsSerial(steps[..|steps| - 1]);
      InvAlong(steps[..|steps| - 1]);
      StepStaysSerial(Exec(steps[..|steps| - 1]).value, steps[|steps| - 1]);
    }
  }

  /** An identity has an entry exactly while a call with it is unsettled, and the entry is its last call. */
  lemma EntryExactlyWhileUnsettled(steps: seq<Step>, id: string)
    requires Exec(steps).Some?
    ensures var s := Exec(steps).value;
            && (id in s.inFlight <==> exists c: nat :: c < |s.calls| && s.calls[c].id == id && !IsSettled(s, c))
            && (id in s.inFlight ==> forall c: nat | c < |s.calls| && s.calls[c].id == id :: c <= s.inFlight[id])
  {
    InvAlong(steps);
    var s := Exec(steps).value;
    if id in s.inFlight {
      assert !IsSettled(s, s.inFlight[id]);
      forall c: nat | c < |s.calls| && s.calls[c].id == id ensures c <= s.inFlight[id] {
        assert SameId(s, c, s.inFlight[id]);
      }
    }
  }

  // ---------------------------------------------------------------- progress

  lemma {:induction false} Mover(s: State, c: nat) returns (step: Step)
    requires Inv(s) && c < |s.calls| && !IsSettled(s, c)
    ensures !step.Request? && step.call <= c && step.call < |s.calls| && s.calls[step.call].id == s.calls[c].id
    ensures Next(s, step).Some?
    decreases c
  {
    match s.calls[c].phase
    case Waiting =>
      assert Is(s, c, Waiting);
      var p := s.calls[c].previous.value;
      if IsSettled(s, p) {
        step := Wake(c);
      } else {
        step := Mover(s, p);
      }
    case Invoking => step := Answer(c, Failed, false);
    case Revalidating => step := Revalidated(c, false);
  }

  /** Nobody waits for ever on a queue that cannot move: while a call is unsettled, some call of its identity can take a step. */
  lemma QueueIsNeverStuck(steps: seq<Step>, c: nat)
    requires Exec(steps).Some? && c < |Exec(steps).value.calls| && !IsSettled(Exec(steps).value, c)
    ensures var s := Exec(steps).value;
            exists step: Step :: !step.Request? && step.call < |s.calls|
                                 && s.calls[step.call].id == s.calls[c].id && Next(s, step).Some?
  {
    InvAlong(steps);
    var step := Mover(Exec(steps).value, c);
  }

  function Spent(phase: Phase): nat {
    match phase
    case Waiting => 1
    case Invoking => 2
    case Revalidating => 3
    case Settled(_) => 4
  }

  function Work(calls: seq<Call>): (n: nat)
    ensures n <= 4 * |calls|
  {
    if calls == [] then 0 else Work(calls[..|calls| - 1]) + Spent(calls[|calls| - 1].phase)
  }

  lemma {:induction false} WorkMoves(calls: seq<Call>, c: nat, phase: Phase)
    requires c < |calls|
    ensures Work(calls[c := calls[c].(phase := phase)]) == Work(calls) - Spent(calls[c].phase) + Spent(phase)
  {
    var n, calls' := |calls| - 1, calls[c := calls[c].(phase := phase)];
    if c == n {
      assert calls'[..n] == calls[..n];
    } else {
      assert calls'[..n] == calls[..n][c := calls[c].(phase := phase)];
      WorkMoves(calls[..n], c, phase);
    }
  }

  lemma StepWorks(s: State, step: Step)
    requires Next(s, step).Some?
    ensures Work(Next(s, step).value.calls) > Work(s.calls)
  {
    match step
    case Request(id) =>
      assert Next(s, step).value.calls[..|s.calls|] == s.calls;
    case Wake(c) => WorkMoves(s.calls, c, Invoking);
    case Answer(c, outcome, revalidate) =>
      WorkMoves(s.calls, c, if outcome.Fulfilled? && revalidate then Revalidating else Settled(outcome));
    case Revalidated(c, ok) => WorkMoves(s.calls, c, Settled(if ok then Fulfilled else Failed));
  }

  /** Every run is short: at most four steps for each call, so a run that takes every step it can settles them all. */
  lemma {:induction false} WorkIsBounded(steps: seq<Step>)
    requires Exec(steps).Some?
    ensures |steps| <= Work(Exec(steps).value.calls) <= 4 * |Exec(steps).value.calls|
  {
    if steps != [] {
      WorkIsBounded(steps[..|steps| - 1]);
      StepWorks(Exec(steps[..|steps| - 1]).value, steps[|steps| - 1]);
    }
  }

  // ---------------------------------------------------------------- independence

  /** The calls of one identity on their own, by phase, as a queue. */
  function Lane(calls: seq<Call>, id: string): seq<Phase> {
    if calls == [] then []
    else
      var n := |calls| - 1;
      Lane(calls[..n], id) + if calls[n].id == id then [calls[n].phase] else []
  }

  /** What a step does to its own queue. */
  datatype LaneStep = Ask | Advance(place: nat, from: Phase, to: Phase)

  /** Only the first call that has not settled may begin. */
  predicate CanAdvance(lane: seq<Phase>, place: nat, from: Phase) {
    place < |lane| && lane[place] == from && (from.Waiting? && place > 0 ==> lane[place - 1].Settled?)
  }

  /** A queue served in order: a new call begins at once if everything before it has settled. */
  function LaneNext(lane: seq<Phase>, step: LaneStep): Option<seq<Phase>> {
    match step
    case Ask => Some(lane + [if lane == [] || lane[|lane| - 1].Settled? then Invoking else Waiting])
    case Advance(place, from, to) => if CanAdvance(lane, place, from) then Some(lane[place := to]) else None
  }

  function Place(calls: seq<Call>, c: nat): nat
    requires c < |calls|
  {
    |Lane(calls[..c], calls[c].id)|
  }

  /** The identity a step belongs to. */
  function IdOf(s: State, step: Step): string
    requires !step.Request? ==> step.call < |s.calls|
  {
    if step.Request? then step.id else s.calls[step.call].id
  }

  function AsLaneStep(s: State, step: Step): LaneStep
    requires !step.Request? ==> step.call < |s.calls|
  {
    match step
    case Request(_) => Ask
    case Wake(c) => Advance(Place(s.calls, c), Waiting, Invoking)
    case Answer(c, outcome, revalidate) =>
      Advance(Place(s.calls, c), Invoking, if outcome.Fulfilled? && revalidate then Revalidating else Settled(outcome))
    case Revalidated(c, ok) => Advance(Place(s.calls, c), Revalidating, Settled(if ok then Fulfilled else Failed))
  }

  lemma {:induction false} LaneAt(calls: seq<Call>, c: nat)
    requires c < |calls|
    ensures Place(calls, c) < |Lane(calls, calls[c].id)|
    ensures Lane(calls, calls[c].id)[Place(calls, c)] == calls[c].phase
  {
    var n := |calls| - 1;
    if c < n {
      LaneAt(calls[..n], c);
      assert calls[..n][..c] == calls[..c];
    }
  }

  lemma {:induction false} LaneMoves(calls: seq<Call>, c: nat, phase: Phase, id: string)
    requires c < |calls|
    ensures Place(calls, c) < |Lane(calls, calls[c].id)|
    ensures Lane(calls[c := calls[c].(phase := phase)], id)
            == if calls[c].id == id then Lane(calls, id)[Place(calls, c) := phase] else Lane(calls, id)
  {
    var n, calls' := |calls| - 1, calls[c := calls[c].(phase := phase)];
    LaneAt(calls, c);
    if c == n {
      assert calls'[..n] == calls[..n];
    } else {
      assert calls'[..n] == calls[..n][c := calls[c].(phase := phase)];
      LaneMoves(calls[..n], c, phase, id);
      assert calls[..n][..c] == calls[..c];
    }
  }

  lemma {:induction false} SkipOthers(calls: seq<Call>, from: nat, id: string)
    requires from <= |calls| && forall b: nat | from <= b < |calls| :: calls[b].id != id
    ensures Lane(calls, id) == Lane(calls[..from], id)
  {
    if from < |calls| {
      SkipOthers(calls[..|calls| - 1], from, id);
      assert calls[..|calls| - 1][..from] == calls[..from];
    } else {
      assert calls[..from] == calls;
    }
  }

  /** A call's predecessor in its queue is the call whose promise it waits for. */
  lemma PreviousIsNeighbour(s: State, c: nat)
    requires Linked(s) && c < |s.calls| && s.calls[c].previous.Some?
    ensures s.calls[c].previous.value < c && Place(s.calls, c) == Place(s.calls, s.calls[c].previous.value) + 1
  {
    var p, before := s.calls[c].previous.value, s.calls[..c];
    forall b: nat | p + 1 <= b < |before| ensures before[b].id != s.calls[c].id {
      assert !SameId(s, b, c);
    }
    SkipOthers(before, p + 1, s.calls[c].id);
    assert before[..p + 1][..p] == s.calls[..p];
  }

  /** An identity is free exactly when the last call of its queue, if any, has settled. */
  lemma FreeExactlyWhenLastSettled(s: State, id: string)
    requires Inv(s)
    ensures var lane := Lane(s.calls, id);
            id !in s.inFlight <==> lane == [] || lane[|lane| - 1].Settled?
  {
    var last := LastOfLane(s.calls, id);
    if id in s.inFlight {
      assert SameId(s, last.value, s.inFlight[id]);
    } else if last.Some? {
      assert IsSettled(s, last.value);
    }
  }

  lemma {:induction false} LastOfLane(calls: seq<Call>, id: string) returns (last: Option<nat>)
    ensures last.None? ==> Lane(calls, id) == [] && forall c: nat | c < |calls| :: calls[c].id != id
    ensures last.Some? ==>
              && last.value < |calls| && calls[last.value].id == id
              && (forall c: nat | last.value < c < |calls| :: calls[c].id != id)
              && Lane(calls, id) != [] && Lane(calls, id)[|Lane(calls, id)| - 1] == calls[last.value].phase
  {
    last := None;
    if calls != [] {
      var n := |calls| - 1;
      if calls[n].id == id {
        last := Some(n);
      } else {
        last := LastOfLane(calls[..n], id);
        forall c: nat | c < n ensures calls[c].id == calls[..n][c].id {}
      }
    }
  }

  lemma RequestExtendsItsLane(s: State, id: string, other: string)
    requires Inv(s)
    ensures Lane(Next(s, Request(id)).value.calls, other)
            == if other == id then LaneNext(Lane(s.calls, id), Ask).value else Lane(s.calls, other)
  {
    FreeExactlyWhenLastSettled(s, id);
    RequestJoins(s, id);
    var calls' := Next(s, Request(id)).value.calls;
    assert calls'[..|s.calls|] == s.calls;
  }

  lemma CanMoveExactlyInItsLane(s: State, step: Step)
    requires Inv(s) && (!step.Request? ==> step.call < |s.calls|)
    ensures Next(s, step).Some? <==> LaneNext(Lane(s.calls, IdOf(s, step)), AsLaneStep(s, step)).Some?
  {
    if !step.Request? {
      var c := step.call;
      LaneAt(s.calls, c);
      if step.Wake? && Is(s, c, Waiting) {
        assert s.calls[c].previous.Some?;
        PreviousIsNeighbour(s, c);
        LaneAt(s.calls, s.calls[c].previous.value);
      }
    }
  }

  /**
   Identities are independent.  Whether a step can be taken depends on the queue of its own
   identity alone, it does to that queue what serving it in order would do, and it leaves every other
   queue as it was.
   */
  lemma IdentitiesAreIndependent(s: State, step: Step, id: string)
    requires Inv(s) && (!step.Request? ==> step.call < |s.calls|)
    ensures var own, lane := IdOf(s, step), LaneNext(Lane(s.calls, IdOf(s, step)), AsLaneStep(s, step));
            && (Next(s, step).Some? <==> lane.Some?)
            && (lane.Some? ==> Lane(Next(s, step).value.calls, id) == if own == id then lane.value else Lane(s.calls, id))
  {
    CanMoveExactlyInItsLane(s, step);
    match step
    case Request(own) => RequestExtendsItsLane(s, own, id);
    case Wake(c) => LaneMoves(s.calls, c, Invoking, id);
    case Answer(c, outcome, revalidate) =>
      LaneMoves(s.calls, c, if outcome.Fulfilled? && revalidate then Revalidating else Settled(outcome), id);
    case Revalidated(c, ok) => LaneMoves(s.calls, c, Settled(if ok then Fulfilled else Failed), id);
  }

  /** The steps of a run that belong to one identity, as steps of its queue. */
  function OwnSteps(steps: seq<Step>, id: string): seq<LaneStep>
    requires Exec(steps).Some?
  {
    if steps == [] then []
    else
      var n := |steps| - 1;
      var s := Exec(steps[..n]).value;
      OwnSteps(steps[..n], id) + if IdOf(s, steps[n]) == id then [AsLaneStep(s, steps[n])] else []
  }

  function LaneExec(steps: seq<LaneStep>): Option<seq<Phase>> {
    if steps == [] then Some([])
    else
      var before := LaneExec(steps[..|steps| - 1]);
      if before.None? then None else LaneNext(before.value, steps[|steps| - 1])
  }

  /** Over any run, each identity is served as if the others did not exist. */
  lemma {:induction false} EachIdentityIsItsOwnQueue(steps: seq<Step>, id: string)
    requires Exec(steps).Some?
    ensures LaneExec(OwnSteps(steps, id)) == Some(Lane(Exec(steps).value.calls, id))
  {
    if steps != [] {
      var n := |steps| - 1;
      var s, own := Exec(steps[..n]).value, OwnSteps(steps[..n], id);
      EachIdentityIsItsOwnQueue(steps[..n], id);
      InvAlong(steps[..n]);
      IdentitiesAreIndependent(s, steps[n], id);
      if IdOf(s, steps[n]) == id {
        assert OwnSteps(steps, id)[..|own|] == own;
      } else {
        assert OwnSteps(steps, id) == own;
      }
    }
  }
}
