/** What the sampler costs over any run, and what its queries return. */
module TrafficSamplerTheorems {
  import opened Common
  import opened TrafficSampler

  // ---------------------------------------------------------------- one buffer

  /**
   A buffer with its history: everything put in since the last clear, and how many elements it
   has received, stepped over and copied in all.
   */
  datatype Kept<T> = Kept(buffer: Buffer<T>, all: seq<T>, received: nat, advanced: nat, copied: nat) {
    function Cleared(): Kept<T> {
      this.(buffer := Buffer([], 0), all := [])
    }
  }

  /** New elements are put in and the front is trimmed. */
  function Feed<T>(k: Kept<T>, time: T -> real, news: seq<T>, cutoff: real, slack: nat): (r: Kept<T>)
    requires k.buffer.Valid()
    ensures r.buffer.Valid()
  {
    var items := k.buffer.items + news;
    var head := Skip(items, time, k.buffer.head, cutoff);
    Kept(
      Trim(k.buffer.Extend(news), time, cutoff, slack),
      k.all + news,
      k.received + |news|,
      k.advanced + head - k.buffer.head,
      k.copied + if MustCompact(head, |items|, slack) then |items| - head else 0)
  }

  /** Each element is stepped over at most once, and copying is paid for by stepping. */
  ghost predicate Paid<T>(k: Kept<T>, slack: nat) {
    var b := k.buffer;
    && b.Valid()
    && k.copied + b.head <= k.advanced
    && k.advanced + (|b.items| - b.head) <= k.received
    && (b.head <= slack || b.head <= |b.items| - b.head)
  }

  lemma FeedPays<T>(k: Kept<T>, time: T -> real, news: seq<T>, cutoff: real, slack: nat)
    requires Paid(k, slack)
    ensures Paid(Feed(k, time, news, cutoff, slack), slack)
  {}

  /** What is live is the end of what was put in; what is not was too old by `bound`. */
  ghost predicate Tracks<T>(k: Kept<T>, time: T -> real, bound: real) {
    && k.buffer.Valid()
    && var live, dead := k.buffer.Live(), |k.all| - |k.buffer.Live()|;
    && 0 <= dead
    && k.all == k.all[..dead] + live
    && forall i :: 0 <= i < dead ==> time(k.all[i]) <= bound
  }

  lemma SkipDrops<T>(k: Kept<T>, time: T -> real, bound: real, cutoff: real)
    requires Tracks(k, time, bound) && bound <= cutoff
    ensures var head := Skip(k.buffer.items, time, k.buffer.head, cutoff);
            Tracks(k.(buffer := Buffer(k.buffer.items, head)), time, cutoff)
  {
    var b := k.buffer;
    var head := Skip(b.items, time, b.head, cutoff);
    var dead, more := |k.all| - |b.Live()|, head - b.head;
    assert b.Live()[more..] == b.items[head..];
    assert k.all == k.all[..dead + more] + b.items[head..];
    forall i | 0 <= i < dead + more ensures time(k.all[i]) <= cutoff {
      if i >= dead {
        assert k.all[i] == b.Live()[i - dead] == b.items[b.head + i - dead];
      }
    }
  }

  lemma FeedTracks<T>(k: Kept<T>, time: T -> real, news: seq<T>, bound: real, cutoff: real, slack: nat)
    requires Tracks(k, time, bound) && bound <= cutoff
    ensures Tracks(Feed(k, time, news, cutoff, slack), time, cutoff)
  {
    var fed := k.(buffer := k.buffer.Extend(news), all := k.all + news);
    var dead := |k.all| - |k.buffer.Live()|;
    assert fed.all == fed.all[..dead] + fed.buffer.Live();
    SkipDrops(fed, time, bound, cutoff);
    var head := Skip(fed.buffer.items, time, fed.buffer.head, cutoff);
    assert Buffer(fed.buffer.items[head..], 0).Live() == fed.buffer.items[head..];
  }

  ghost predicate Ordered<T>(items: seq<T>, time: T -> real) {
    forall i, j :: 0 <= i < j < |items| ==> time(items[i]) <= time(items[j])
  }

  /** The elements newer than a cutoff. */
  function NewerThan<T>(items: seq<T>, time: T -> real, cutoff: real): seq<T> {
    if items == [] then []
    else
      var n := |items| - 1;
      NewerThan(items[..n], time, cutoff) + if time(items[n]) > cutoff then [items[n]] else []
  }

  lemma {:induction false} NewerIsSuffix<T>(items: seq<T>, time: T -> real, k: nat, cutoff: real)
    requires k <= |items|
    requires forall i :: 0 <= i < k ==> time(items[i]) <= cutoff
    requires forall i :: k <= i < |items| ==> time(items[i]) > cutoff
    ensures NewerThan(items, time, cutoff) == items[k..]
  {
    if items != [] {
      var n := |items| - 1;
      var front := items[..n];
      assert forall i :: 0 <= i < n ==> front[i] == items[i];
      if k <= n {
        NewerIsSuffix(front, time, k, cutoff);
        assert items[k..] == front[k..] + [items[n]];
      } else {
        NewerIsSuffix(front, time, n, cutoff);
        assert front[n..] + [] == items[k..];
      }
    }
  }

  /** `part` is the end of these points, and it is all of them that are newer than the cutoff. */
  ghost predicate NewerPoints(part: seq<Point>, points: seq<Point>, cutoff: real) {
    var k := |points| - |part|;
    && k >= 0 && part == points[k..]
    && forall i :: 0 <= i < |points| ==> (i >= k <==> points[i].timestamp > cutoff)
  }

  ghost predicate NewerBlocks(part: seq<Block>, blocks: seq<Block>, cutoff: real) {
    var k := |blocks| - |part|;
    && k >= 0 && part == blocks[k..]
    && forall i :: 0 <= i < |blocks| ==> (i >= k <==> blocks[i].timestamp > cutoff)
  }

  /** With ordered elements, a buffer's answer is exactly the elements ever put in that are newer. */
  lemma SinceIsExact<T>(k: Kept<T>, time: T -> real, bound: real, cutoff: real)
    requires Tracks(k, time, bound) && bound <= cutoff && Ordered(k.all, time)
    ensures Since(k.buffer, time, cutoff) == NewerThan(k.all, time, cutoff)
  {
    SkipDrops(k, time, bound, cutoff);
    var since := Since(k.buffer, time, cutoff);
    var dead := |k.all| - |since|;
    assert k.all[dead..] == since;
    forall i | dead <= i < |k.all| ensures time(k.all[i]) > cutoff {
      assert k.all[dead] == since[0];
    }
    NewerIsSuffix(k.all, time, dead, cutoff);
  }

  /** Even of what is no longer complete, a buffer's answer is exactly the newer part of what it still holds. */
  lemma SinceOfLive<T>(k: Kept<T>, time: T -> real, bound: real, cutoff: real)
    requires Tracks(k, time, bound) && Ordered(k.all, time)
    ensures Since(k.buffer, time, cutoff) == NewerThan(k.buffer.Live(), time, cutoff)
  {
    var live, dead := k.buffer.Live(), |k.all| - |k.buffer.Live()|;
    forall i, j | 0 <= i < j < |live| ensures time(live[i]) <= time(live[j]) {
      assert time(k.all[dead + i]) <= time(k.all[dead + j]);
    }
    var alone := k.(all := live);
    assert live == live[..0] + live;
    assert Tracks(alone, time, cutoff);
    SinceIsExact(alone, time, cutoff, cutoff);
  }

  // ---------------------------------------------------------------- runs

  datatype Event = Added(point: Point, now: real, later: real) | Cleared

  /** The sampler with the history of both buffers and the last clock reading. */
  datatype Trace = Trace(raw: Kept<Point>, blocks: Kept<Block>, queue: seq<Point>, clock: real) {
    predicate Valid() {
      raw.buffer.Valid() && blocks.buffer.Valid()
    }

    function Sampler(): Sampler {
      TrafficSampler.Sampler(raw.buffer, blocks.buffer, queue)
    }
  }

  function Observe(t: Trace, cfg: Config, e: Event): (r: Trace)
    requires t.Valid()
    ensures r.Valid()
  {
    match e
    case Cleared => Trace(t.raw.Cleared(), t.blocks.Cleared(), [], t.clock)
    case Added(point, now, later) =>
      var queue := t.queue + [point];
      Trace(
        Feed(t.raw, PointTime, [point], Cutoff(now, cfg.rawMinutes), RAW_SLACK),
        Feed(t.blocks, BlockTime, Emitted(cfg, queue), Cutoff(later, cfg.compressedMinutes), BLOCK_SLACK),
        if QueueFull(cfg, queue) then [] else queue,
        later)
  }

  function Start(clock: real): (t: Trace)
    ensures t.Valid() && t.Sampler() == EMPTY
  {
    Trace(Kept(Buffer([], 0), [], 0, 0, 0), Kept(Buffer([], 0), [], 0, 0, 0), [], clock)
  }

  function Run(cfg: Config, t: Trace, events: seq<Event>): (r: Trace)
    requires t.Valid()
    ensures r.Valid()
    decreases |events|
  {
    if events == [] then t else Run(cfg, Observe(t, cfg, events[0]), events[1..])
  }

  /** The sampler itself, without the history. */
  function Replay(cfg: Config, s: Sampler, events: seq<Event>): (r: Sampler)
    requires s.Valid()
    ensures r.Valid()
    decreases |events|
  {
    if events == [] then s
    else
      match events[0]
      case Cleared => Replay(cfg, EMPTY, events[1..])
      case Added(point, now, later) => Replay(cfg, Add(s, cfg, point, now, later), events[1..])
  }

  /** Keeping the history changes nothing of the sampler. */
  lemma {:induction false} HistoryIsInvisible(cfg: Config, t: Trace, events: seq<Event>)
    requires t.Valid()
    ensures Run(cfg, t, events).Sampler() == Replay(cfg, t.Sampler(), events)
    decreases |events|
  {
    if events != [] {
      HistoryIsInvisible(cfg, Observe(t, cfg, events[0]), events[1..]);
    }
  }

  // ---------------------------------------------------------------- cost

  ghost predicate AllPaid(t: Trace) {
    Paid(t.raw, RAW_SLACK) && Paid(t.blocks, BLOCK_SLACK) && t.blocks.received <= t.raw.received
  }

  lemma ObservePays(t: Trace, cfg: Config, e: Event)
    requires AllPaid(t)
    ensures AllPaid(Observe(t, cfg, e))
  {
    if e.Added? {
      FeedPays(t.raw, PointTime, [e.point], Cutoff(e.now, cfg.rawMinutes), RAW_SLACK);
      FeedPays(t.blocks, BlockTime, Emitted(cfg, t.queue + [e.point]), Cutoff(e.later, cfg.compressedMinutes), BLOCK_SLACK);
    }
  }

  lemma {:induction false} RunPays(cfg: Config, t: Trace, events: seq<Event>)
    requires AllPaid(t)
    ensures AllPaid(Run(cfg, t, events))
    decreases |events|
  {
    if events != [] {
      ObservePays(t, cfg, events[0]);
      RunPays(cfg, Observe(t, cfg, events[0]), events[1..]);
    }
  }

  function Max(a: nat, b: nat): nat { if a < b then b else a }

  /**
   Constant cost per point on average, and space in proportion to what is live.  Over any run the
   elements copied by compaction and the head advances are each at most the points pushed, and
   neither buffer is ever longer than its live part plus the larger of that and its slack.
   */
  lemma CostIsAmortised(cfg: Config, start: real, events: seq<Event>)
    ensures var t, s := Run(cfg, Start(start), events), Replay(cfg, EMPTY, events);
            && t.Sampler() == s
            && t.raw.copied <= t.raw.advanced <= t.raw.received
            && t.blocks.copied <= t.blocks.advanced <= t.blocks.received <= t.raw.received
            && |s.raw.items| <= |s.raw.Live()| + Max(512, |s.raw.Live()|)
            && |s.blocks.items| <= |s.blocks.Live()| + Max(256, |s.blocks.Live()|)
  {
    RunPays(cfg, Start(start), events);
    HistoryIsInvisible(cfg, Start(start), events);
  }

  // ---------------------------------------------------------------- sums

  function WeightedUp(blocks: seq<Block>): real {
    if blocks == [] then 0.0
    else WeightedUp(blocks[..|blocks| - 1]) + blocks[|blocks| - 1].up * blocks[|blocks| - 1].samples as real
  }

  function WeightedDown(blocks: seq<Block>): real {
    if blocks == [] then 0.0
    else WeightedDown(blocks[..|blocks| - 1]) + blocks[|blocks| - 1].down * blocks[|blocks| - 1].samples as real
  }

  lemma DivideBack(total: real, n: real)
    requires n != 0.0
    ensures (total / n) * n == total
  {}

  /** A block stands for the totals of its points. */
  lemma EmittedTotals(cfg: Config, queue: seq<Point>, emitted: seq<Block>)
    ensures var left := if QueueFull(cfg, queue) then [] else queue;
            && WeightedUp(emitted + Emitted(cfg, queue)) + SumUp(left) == WeightedUp(emitted) + SumUp(queue)
            && WeightedDown(emitted + Emitted(cfg, queue)) + SumDown(left) == WeightedDown(emitted) + SumDown(queue)
  {
    if QueueFull(cfg, queue) {
      assert (emitted + [Average(queue)])[..|emitted|] == emitted;
      DivideBack(SumUp(queue), |queue| as real);
      DivideBack(SumDown(queue), |queue| as real);
    } else {
      assert emitted + [] == emitted;
    }
  }

  lemma SumsExtend(points: seq<Point>, point: Point)
    ensures SumUp(points + [point]) == SumUp(points) + point.up
    ensures SumDown(points + [point]) == SumDown(points) + point.down
  {
    assert (points + [point])[..|points|] == points;
  }

  ghost predicate Conserved(t: Trace) {
    && WeightedUp(t.blocks.all) + SumUp(t.queue) == SumUp(t.raw.all)
    && WeightedDown(t.blocks.all) + SumDown(t.queue) == SumDown(t.raw.all)
  }

  lemma ObserveConserves(t: Trace, cfg: Config, e: Event)
    requires t.Valid() && Conserved(t)
    ensures Conserved(Observe(t, cfg, e))
  {
    if e.Added? {
      SumsExtend(t.queue, e.point);
      SumsExtend(t.raw.all, e.point);
      EmittedTotals(cfg, t.queue + [e.point], t.blocks.all);
    }
  }

  lemma {:induction false} RunConserves(cfg: Config, t: Trace, events: seq<Event>)
    requires t.Valid() && Conserved(t)
    ensures Conserved(Run(cfg, t, events))
    decreases |events|
  {
    if events != [] {
      ObserveConserves(t, cfg, events[0]);
      RunConserves(cfg, Observe(t, cfg, events[0]), events[1..]);
    }
  }

  function Total<T>(items: seq<T>, value: T -> real): real {
    if items == [] then 0.0 else Total(items[..|items| - 1], value) + value(items[|items| - 1])
  }

  lemma {:induction false} SumsAreTotals(points: seq<Point>)
    ensures SumUp(points) == Total(points, (p: Point) => p.up)
    ensures SumDown(points) == Total(points, (p: Point) => p.down)
    ensures SumTime(points) == Total(points, (p: Point) => p.timestamp)
  {
    if points != [] {
      SumsAreTotals(points[..|points| - 1]);
    }
  }

  lemma {:induction false} WeightedAreTotals(blocks: seq<Block>)
    ensures WeightedUp(blocks) == Total(blocks, (b: Block) => b.up * b.samples as real)
    ensures WeightedDown(blocks) == Total(blocks, (b: Block) => b.down * b.samples as real)
  {
    if blocks != [] {
      WeightedAreTotals(blocks[..|blocks| - 1]);
    }
  }

  /** Averaging loses no traffic: weighted by their samples, blocks and queue add up to every point added. */
  lemma TotalsAreConserved(cfg: Config, start: real, events: seq<Event>)
    ensures var t := Run(cfg, Start(start), events);
            && Total(t.blocks.all, (b: Block) => b.up * b.samples as real) + Total(t.queue, (p: Point) => p.up)
               == Total(t.raw.all, (p: Point) => p.up)
            && Total(t.blocks.all, (b: Block) => b.down * b.samples as real) + Total(t.queue, (p: Point) => p.down)
               == Total(t.raw.all, (p: Point) => p.down)
  {
    var t := Run(cfg, Start(start), events);
    RunConserves(cfg, Start(start), events);
    WeightedAreTotals(t.blocks.all);
    SumsAreTotals(t.queue);
    SumsAreTotals(t.raw.all);
  }

  // ---------------------------------------------------------------- what a block stands for

  function Concatenated<T>(parts: seq<seq<T>>): seq<T> {
    if parts == [] then [] else Concatenated(parts[..|parts| - 1]) + parts[|parts| - 1]
  }

  /** A block has the number of these points, and their averages. */
  ghost predicate Averages(block: Block, points: seq<Point>) {
    && block.samples == |points| > 0
    && block.up * |points| as real == Total(points, (p: Point) => p.up)
    && block.down * |points| as real == Total(points, (p: Point) => p.down)
    && block.timestamp * |points| as real == Total(points, (p: Point) => p.timestamp)
  }

  /** As many points as make a block: the first number, from one on, that reaches the ratio. */
  ghost predicate Reaches(n: nat, ratio: real) {
    n >= 1 && n as real >= ratio && (n == 1 || (n - 1) as real < ratio)
  }

  ghost predicate Stands(cfg: Config, t: Trace, parts: seq<seq<Point>>) {
    && Concatenated(parts) + t.queue == t.raw.all
    && |parts| == |t.blocks.all|
    && (forall i :: 0 <= i < |parts| ==> Averages(t.blocks.all[i], parts[i]) && Reaches(|parts[i]|, cfg.ratio))
    && (t.queue == [] || |t.queue| as real < cfg.ratio)
  }

  lemma AverageAverages(points: seq<Point>)
    requires points != []
    ensures Averages(Average(points), points)
  {
    var n := |points| as real;
    SumsAreTotals(points);
    DivideBack(SumUp(points), n);
    DivideBack(SumDown(points), n);
    DivideBack(SumTime(points), n);
  }

  lemma PartEnds(parts: seq<seq<Point>>, blocks: seq<Block>, queue: seq<Point>, cfg: Config)
    requires |parts| == |blocks| && queue != []
    requires forall i :: 0 <= i < |parts| ==> Averages(blocks[i], parts[i]) && Reaches(|parts[i]|, cfg.ratio)
    requires Reaches(|queue|, cfg.ratio)
    ensures Concatenated(parts + [queue]) + [] == Concatenated(parts) + queue
    ensures var parts', blocks' := parts + [queue], blocks + [Average(queue)];
            forall i :: 0 <= i < |parts'| ==> Averages(blocks'[i], parts'[i]) && Reaches(|parts'[i]|, cfg.ratio)
  {
    assert (parts + [queue])[..|parts|] == parts;
    AverageAverages(queue);
  }

  lemma ObserveStands(t: Trace, cfg: Config, e: Event, parts: seq<seq<Point>>) returns (parts': seq<seq<Point>>)
    requires t.Valid() && Stands(cfg, t, parts)
    ensures Stands(cfg, Observe(t, cfg, e), parts')
  {
    if e.Cleared? {
      parts' := [];
    } else {
      var queue := t.queue + [e.point];
      Associative(Concatenated(parts), t.queue, [e.point]);
      if QueueFull(cfg, queue) {
        parts' := parts + [queue];
        PartEnds(parts, t.blocks.all, queue, cfg);
      } else {
        parts' := parts;
        assert t.blocks.all + [] == t.blocks.all;
      }
    }
  }

  lemma {:induction false} RunStands(cfg: Config, t: Trace, events: seq<Event>, parts: seq<seq<Point>>)
    returns (parts': seq<seq<Point>>)
    requires t.Valid() && Stands(cfg, t, parts)
    ensures Stands(cfg, Run(cfg, t, events), parts')
    decreases |events|
  {
    if events == [] {
      parts' := parts;
    } else {
      parts' := ObserveStands(t, cfg, events[0], parts);
      parts' := RunStands(cfg, Observe(t, cfg, events[0]), events[1..], parts');
    }
  }

  /**
   Every block is the average of its own points.  The points added since the last clear fall into consecutive
   parts and the queue; each block averages one part, up, down and time, and counts it; and each part is as
   long as the ratio asks for, and the queue shorter.
   */
  lemma BlocksAverageTheirPoints(cfg: Config, start: real, events: seq<Event>) returns (parts: seq<seq<Point>>)
    ensures var t := Run(cfg, Start(start), events);
            && Concatenated(parts) + t.queue == t.raw.all
            && |parts| == |t.blocks.all|
            && (forall i :: 0 <= i < |parts| ==> Averages(t.blocks.all[i], parts[i]) && Reaches(|parts[i]|, cfg.ratio))
            && (t.queue == [] || |t.queue| as real < cfg.ratio)
            && t.Sampler() == Replay(cfg, EMPTY, events)
  {
    HistoryIsInvisible(cfg, Start(start), events);
    parts := RunStands(cfg, Start(start), events, []);
  }

  // ---------------------------------------------------------------- order

  /** The clock does not go back, and points come in order. */
  ghost predicate Timely(t: Trace, e: Event) {
    e.Added? ==>
      && t.clock <= e.now <= e.later
      && (t.raw.all != [] ==> t.raw.all[|t.raw.all| - 1].timestamp <= e.point.timestamp)
  }

  ghost predicate TimelyRun(cfg: Config, t: Trace, events: seq<Event>)
    requires t.Valid()
    decreases |events|
  {
    events != [] ==> Timely(t, events[0]) && TimelyRun(cfg, Observe(t, cfg, events[0]), events[1..])
  }

  lemma {:induction false} SumTimeBounds(points: seq<Point>, low: real, high: real)
    requires forall i :: 0 <= i < |points| ==> low <= points[i].timestamp <= high
    ensures |points| as real * low <= SumTime(points) <= |points| as real * high
  {
    if points != [] {
      SumTimeBounds(points[..|points| - 1], low, high);
    }
  }

  lemma Cancel(a: real, b: real, n: real)
    requires n > 0.0 && a * n <= b * n
    ensures a <= b
  {}

  lemma AverageIsBetween(points: seq<Point>)
    requires points != [] && Ordered(points, PointTime)
    ensures points[0].timestamp <= Average(points).timestamp <= points[|points| - 1].timestamp
  {
    var n, low, high := |points| as real, points[0].timestamp, points[|points| - 1].timestamp;
    forall i | 0 <= i < |points| ensures low <= points[i].timestamp <= high {
      assert PointTime(points[0]) <= PointTime(points[i]) <= PointTime(points[|points| - 1]);
    }
    SumTimeBounds(points, low, high);
    DivideBack(SumTime(points), n);
    Cancel(low, SumTime(points) / n, n);
    Cancel(SumTime(points) / n, high, n);
  }

  /** The queue holds the last points added, and every block is no newer than the points before it. */
  ghost predicate QueueTracks(added: seq<Point>, queue: seq<Point>, blocks: seq<Block>) {
    && Ordered(added, PointTime) && Ordered(blocks, BlockTime)
    && |queue| <= |added|
    && added == added[..|added| - |queue|] + queue
    && (blocks != [] ==> |queue| < |added|)
    && forall i :: 0 <= i < |blocks| ==> blocks[i].timestamp <= added[|added| - |queue| - 1].timestamp
  }

  lemma PointExtends(added: seq<Point>, queue: seq<Point>, blocks: seq<Block>, point: Point)
    requires QueueTracks(added, queue, blocks)
    requires added != [] ==> added[|added| - 1].timestamp <= point.timestamp
    ensures QueueTracks(added + [point], queue + [point], blocks)
  {
    PointAtEnd(added, point);
    var k := |added| - |queue|;
    assert (added + [point])[..k] == added[..k];
    assert added[..k] + (queue + [point]) == (added[..k] + queue) + [point];
    assert forall i :: 0 <= i < |added| ==> (added + [point])[i] == added[i];
  }

  lemma QueueIsOrdered(added: seq<Point>, queue: seq<Point>)
    requires Ordered(added, PointTime) && |queue| <= |added| && added == added[..|added| - |queue|] + queue
    ensures Ordered(queue, PointTime)
  {
    var k := |added| - |queue|;
    forall i, j | 0 <= i < j < |queue| ensures PointTime(queue[i]) <= PointTime(queue[j]) {
      assert PointTime(added[k + i]) <= PointTime(added[k + j]);
    }
  }

  lemma BlocksExtend(blocks: seq<Block>, block: Block)
    requires Ordered(blocks, BlockTime)
    requires forall i :: 0 <= i < |blocks| ==> blocks[i].timestamp <= block.timestamp
    ensures Ordered(blocks + [block], BlockTime)
  {}

  lemma BlockExtends(added: seq<Point>, queue: seq<Point>, blocks: seq<Block>)
    requires QueueTracks(added, queue, blocks) && queue != []
    ensures QueueTracks(added, [], blocks + [Average(queue)])
  {
    var k := |added| - |queue|;
    assert added[k] == queue[0] && added[|added| - 1] == queue[|queue| - 1];
    QueueIsOrdered(added, queue);
    AverageIsBetween(queue);
    var block := Average(queue);
    assert k > 0 ==> PointTime(added[k - 1]) <= PointTime(added[k]);
    forall i | 0 <= i < |blocks| ensures blocks[i].timestamp <= block.timestamp {}
    BlocksExtend(blocks, block);
    assert added == added[..|added|] + [];
  }

  lemma ObserveTracksQueue(t: Trace, cfg: Config, e: Event)
    requires t.Valid() && QueueTracks(t.raw.all, t.queue, t.blocks.all) && Timely(t, e)
    ensures var r := Observe(t, cfg, e);
            QueueTracks(r.raw.all, r.queue, r.blocks.all)
  {
    if e.Added? {
      PointExtends(t.raw.all, t.queue, t.blocks.all, e.point);
      if QueueFull(cfg, t.queue + [e.point]) {
        BlockExtends(t.raw.all + [e.point], t.queue + [e.point], t.blocks.all);
      } else {
        assert t.blocks.all + [] == t.blocks.all;
      }
    }
  }

  lemma NoBlockIsNewer(added: seq<Point>, queue: seq<Point>, blocks: seq<Block>)
    requires QueueTracks(added, queue, blocks)
    ensures forall b :: b in blocks ==> added != [] && b.timestamp <= added[|added| - 1].timestamp
  {
    if blocks != [] {
      assert PointTime(added[|added| - |queue| - 1]) <= PointTime(added[|added| - 1]);
    }
  }

  /** Blocks are in order of time, and none is newer than the newest point. */
  ghost predicate InTime(blocks: seq<Block>, points: seq<Point>) {
    && (forall i, j :: 0 <= i < j < |blocks| ==> blocks[i].timestamp <= blocks[j].timestamp)
    && forall i :: 0 <= i < |blocks| ==> points != [] && blocks[i].timestamp <= points[|points| - 1].timestamp
  }

  lemma BlocksOfTrace(t: Trace, cfg: Config)
    requires AllTrack(t, cfg)
    ensures InTime(t.blocks.all, t.raw.all)
  {
    var blocks := t.blocks.all;
    NoBlockIsNewer(t.raw.all, t.queue, blocks);
    forall i, j | 0 <= i < j < |blocks| ensures blocks[i].timestamp <= blocks[j].timestamp {
      assert BlockTime(blocks[i]) <= BlockTime(blocks[j]);
    }
  }

  /** However they are averaged, blocks come out in order of time, and none is newer than the newest point. */
  lemma BlocksAreOrdered(cfg: Config, start: real, events: seq<Event>)
    requires TimelyRun(cfg, Start(start), events)
    ensures InTime(Run(cfg, Start(start), events).blocks.all, Run(cfg, Start(start), events).raw.all)
  {
    TracksFromStart(cfg, start, events);
    BlocksOfTrace(Run(cfg, Start(start), events), cfg);
  }

  // ---------------------------------------------------------------- queries

  ghost predicate AllTrack(t: Trace, cfg: Config) {
    && QueueTracks(t.raw.all, t.queue, t.blocks.all)
    && Tracks(t.raw, PointTime, Cutoff(t.clock, cfg.rawMinutes))
    && Tracks(t.blocks, BlockTime, Cutoff(t.clock, cfg.compressedMinutes))
  }

  lemma Loosen<T>(k: Kept<T>, time: T -> real, bound: real, bound': real)
    requires Tracks(k, time, bound) && bound <= bound'
    ensures Tracks(k, time, bound')
  {}

  lemma ObserveTracks(t: Trace, cfg: Config, e: Event)
    requires AllTrack(t, cfg) && Timely(t, e)
    ensures AllTrack(Observe(t, cfg, e), cfg)
  {
    ObserveTracksQueue(t, cfg, e);
    if e.Added? {
      var rawCutoff, blockCutoff := Cutoff(e.now, cfg.rawMinutes), Cutoff(e.later, cfg.compressedMinutes);
      FeedTracks(t.raw, PointTime, [e.point], Cutoff(t.clock, cfg.rawMinutes), rawCutoff, RAW_SLACK);
      FeedTracks(t.blocks, BlockTime, Emitted(cfg, t.queue + [e.point]),
                 Cutoff(t.clock, cfg.compressedMinutes), blockCutoff, BLOCK_SLACK);
      Loosen(Observe(t, cfg, e).raw, PointTime, rawCutoff, Cutoff(e.later, cfg.rawMinutes));
    }
  }

  lemma {:induction false} RunTracks(cfg: Config, t: Trace, events: seq<Event>)
    requires AllTrack(t, cfg) && TimelyRun(cfg, t, events)
    ensures AllTrack(Run(cfg, t, events), cfg)
    decreases |events|
  {
    if events != [] {
      ObserveTracks(t, cfg, events[0]);
      RunTracks(cfg, Observe(t, cfg, events[0]), events[1..]);
    }
  }

  lemma StartTracks(cfg: Config, start: real)
    ensures AllTrack(Start(start), cfg)
  {}

  lemma TracksFromStart(cfg: Config, start: real, events: seq<Event>)
    requires TimelyRun(cfg, Start(start), events)
    ensures AllTrack(Run(cfg, Start(start), events), cfg)
  {
    StartTracks(cfg, start);
    RunTracks(cfg, Start(start), events);
  }

  lemma CutoffGrows(now: real, later: real, wide: real, narrow: real)
    requires now <= later && narrow <= wide
    ensures Cutoff(now, wide) <= Cutoff(later, narrow)
  {}

  /**
   The raw window is exact: asked about no more than the raw window, the sampler returns exactly
   the points added since the last clear that are newer than the cutoff, in order: the end of what was
   added, and all of it that is newer.
   */
  lemma RecentQueryIsExact(cfg: Config, start: real, events: seq<Event>, minutes: real, now: real, later: real)
    requires TimelyRun(cfg, Start(start), events)
    requires Run(cfg, Start(start), events).clock <= now && minutes <= cfg.rawMinutes
    ensures NewerPoints(Range(Replay(cfg, EMPTY, events), cfg, minutes, now, later),
                        Run(cfg, Start(start), events).raw.all, now - minutes * 60000.0)
  {
    HistoryIsInvisible(cfg, Start(start), events);
    RecentAfterRun(cfg, start, events, minutes, now, later);
  }

  lemma RecentAfterRun(cfg: Config, start: real, events: seq<Event>, minutes: real, now: real, later: real)
    requires TimelyRun(cfg, Start(start), events)
    requires Run(cfg, Start(start), events).clock <= now && minutes <= cfg.rawMinutes
    ensures var t := Run(cfg, Start(start), events);
            NewerPoints(Range(t.Sampler(), cfg, minutes, now, later), t.raw.all, now - minutes * 60000.0)
  {
    TracksFromStart(cfg, start, events);
    RecentIsNewer(Run(cfg, Start(start), events), cfg, minutes, now, later);
  }

  lemma RecentIsNewer(t: Trace, cfg: Config, minutes: real, now: real, later: real)
    requires AllTrack(t, cfg) && t.clock <= now && minutes <= cfg.rawMinutes
    ensures NewerPoints(Range(t.Sampler(), cfg, minutes, now, later), t.raw.all, now - minutes * 60000.0)
  {
    RecentIsExact(t, cfg, minutes, now, later);
    PointsEnd(t.raw.all, Cutoff(now, minutes));
  }

  /** Of ordered elements, the newer ones are the end. */
  lemma NewerIsTheEnd<T>(items: seq<T>, time: T -> real, cutoff: real)
    requires Ordered(items, time)
    ensures var newer := NewerThan(items, time, cutoff);
            var k := |items| - |newer|;
            && k >= 0 && newer == items[k..]
            && forall i :: 0 <= i < |items| ==> (i >= k <==> time(items[i]) > cutoff)
  {
    var k := Skip(items, time, 0, cutoff);
    forall i | k <= i < |items| ensures time(items[i]) > cutoff {
      assert time(items[k]) <= time(items[i]);
    }
    NewerIsSuffix(items, time, k, cutoff);
  }

  lemma PointsEnd(points: seq<Point>, cutoff: real)
    requires Ordered(points, PointTime)
    ensures NewerPoints(NewerThan(points, PointTime, cutoff), points, cutoff)
  {
    NewerIsTheEnd(points, PointTime, cutoff);
    var k := |points| - |NewerThan(points, PointTime, cutoff)|;
    forall i | 0 <= i < |points| ensures i >= k <==> points[i].timestamp > cutoff {
      assert PointTime(points[i]) == points[i].timestamp;
    }
  }

  lemma BlocksEnd(blocks: seq<Block>, cutoff: real)
    requires Ordered(blocks, BlockTime)
    ensures NewerBlocks(NewerThan(blocks, BlockTime, cutoff), blocks, cutoff)
  {
    NewerIsTheEnd(blocks, BlockTime, cutoff);
    var k := |blocks| - |NewerThan(blocks, BlockTime, cutoff)|;
    forall i | 0 <= i < |blocks| ensures i >= k <==> blocks[i].timestamp > cutoff {
      assert BlockTime(blocks[i]) == blocks[i].timestamp;
    }
  }

  lemma RecentIsExact(t: Trace, cfg: Config, minutes: real, now: real, later: real)
    requires AllTrack(t, cfg) && t.clock <= now && minutes <= cfg.rawMinutes
    ensures Range(t.Sampler(), cfg, minutes, now, later) == NewerThan(t.raw.all, PointTime, Cutoff(now, minutes))
  {
    CutoffGrows(t.clock, now, cfg.rawMinutes, minutes);
    SinceIsExact(t.raw, PointTime, Cutoff(t.clock, cfg.rawMinutes), Cutoff(now, minutes));
  }

  /** Right after a trim a buffer holds exactly what is newer than the cutoff, of all that was ever put in. */
  lemma TrimmedIsExact<T>(k: Kept<T>, time: T -> real, news: seq<T>, bound: real, cutoff: real, slack: nat)
    requires Tracks(k, time, bound) && bound <= cutoff && Ordered(k.all + news, time)
    ensures Feed(k, time, news, cutoff, slack).buffer.Live() == NewerThan(k.all + news, time, cutoff)
  {
    var fed := Feed(k, time, news, cutoff, slack);
    FeedTracks(k, time, news, bound, cutoff, slack);
    SinceIsExact(fed, time, cutoff, cutoff);
  }

  lemma StatsOfTrace(t: Trace, cfg: Config, e: Event)
    requires AllTrack(t, cfg) && Timely(t, e) && e.Added?
    ensures Observe(t, cfg, e).Sampler() == Add(t.Sampler(), cfg, e.point, e.now, e.later)
    ensures var r := Observe(t, cfg, e);
            && r.raw.buffer.Live() == NewerThan(r.raw.all, PointTime, Cutoff(e.now, cfg.rawMinutes))
            && r.blocks.buffer.Live() == NewerThan(r.blocks.all, BlockTime, Cutoff(e.later, cfg.compressedMinutes))
  {
    ObserveTracks(t, cfg, e);
    TrimmedIsExact(t.raw, PointTime, [e.point], Cutoff(t.clock, cfg.rawMinutes), Cutoff(e.now, cfg.rawMinutes), RAW_SLACK);
    TrimmedIsExact(t.blocks, BlockTime, Emitted(cfg, t.queue + [e.point]), Cutoff(t.clock, cfg.compressedMinutes),
                   Cutoff(e.later, cfg.compressedMinutes), BLOCK_SLACK);
  }

  lemma StatsAreNewer(t: Trace, cfg: Config, e: Event)
    requires AllTrack(t, cfg) && Timely(t, e) && e.Added?
    ensures Observe(t, cfg, e).Sampler() == Add(t.Sampler(), cfg, e.point, e.now, e.later)
    ensures var r := Observe(t, cfg, e);
            && NewerPoints(r.raw.buffer.Live(), r.raw.all, Cutoff(e.now, cfg.rawMinutes))
            && NewerBlocks(r.blocks.buffer.Live(), r.blocks.all, Cutoff(e.later, cfg.compressedMinutes))
  {
    var r := Observe(t, cfg, e);
    StatsOfTrace(t, cfg, e);
    ObserveTracksQueue(t, cfg, e);
    PointsEnd(r.raw.all, Cutoff(e.now, cfg.rawMinutes));
    BlocksEnd(r.blocks.all, Cutoff(e.later, cfg.compressedMinutes));
  }

  lemma SameWindows(points: seq<Point>, added: seq<Point>, blocks: seq<Block>, made: seq<Block>, a: real, b: real, a': real, b': real)
    requires NewerPoints(points, added, a) && NewerBlocks(blocks, made, b) && a == a' && b == b'
    ensures NewerPoints(points, added, a') && NewerBlocks(blocks, made, b')
  {}

  lemma WindowsInMilliseconds(
    points: seq<Point>, added: seq<Point>, blocks: seq<Block>, made: seq<Block>, cfg: Config, now: real, later: real)
    requires NewerPoints(points, added, Cutoff(now, cfg.rawMinutes))
    requires NewerBlocks(blocks, made, Cutoff(later, cfg.compressedMinutes))
    ensures NewerPoints(points, added, now - cfg.rawMinutes * 60000.0)
    ensures NewerBlocks(blocks, made, later - cfg.compressedMinutes * 60000.0)
  {
    SameWindows(points, added, blocks, made, Cutoff(now, cfg.rawMinutes), Cutoff(later, cfg.compressedMinutes),
                now - cfg.rawMinutes * 60000.0, later - cfg.compressedMinutes * 60000.0);
  }

  lemma StatsAreExact(t: Trace, cfg: Config, e: Event)
    requires AllTrack(t, cfg) && Timely(t, e) && e.Added?
    ensures Observe(t, cfg, e).Sampler() == Add(t.Sampler(), cfg, e.point, e.now, e.later)
    ensures var r := Observe(t, cfg, e);
            && NewerPoints(r.raw.buffer.Live(), r.raw.all, e.now - cfg.rawMinutes * 60000.0)
            && NewerBlocks(r.blocks.buffer.Live(), r.blocks.all, e.later - cfg.compressedMinutes * 60000.0)
  {
    var r := Observe(t, cfg, e);
    StatsAreNewer(t, cfg, e);
    WindowsInMilliseconds(r.raw.buffer.Live(), r.raw.all, r.blocks.buffer.Live(), r.blocks.all, cfg, e.now, e.later);
  }

  /**
   What the statistics count.  After any run that ends with a point, the live parts whose sizes they
   report are exactly the points and blocks since the last clear that are inside the two windows;
   nothing older is kept and nothing newer is missing.
   */
  lemma StatsCountTheWindows(cfg: Config, start: real, events: seq<Event>, e: Event)
    requires TimelyRun(cfg, Start(start), events) && Timely(Run(cfg, Start(start), events), e) && e.Added?
    ensures var r := Observe(Run(cfg, Start(start), events), cfg, e);
            && r.Sampler() == Add(Replay(cfg, EMPTY, events), cfg, e.point, e.now, e.later)
            && NewerPoints(r.Sampler().raw.Live(), r.raw.all, e.now - cfg.rawMinutes * 60000.0)
            && NewerBlocks(r.Sampler().blocks.Live(), r.blocks.all, e.later - cfg.compressedMinutes * 60000.0)
  {
    var t := Run(cfg, Start(start), events);
    TracksFromStart(cfg, start, events);
    HistoryIsInvisible(cfg, Start(start), events);
    assert t.Sampler() == Replay(cfg, EMPTY, events);
    StatsAreExact(t, cfg, e);
  }

  lemma PointAtEnd(sorted: seq<Point>, point: Point)
    requires Ordered(sorted, PointTime)
    requires sorted == [] || sorted[|sorted| - 1].timestamp <= point.timestamp
    ensures Ordered(sorted + [point], PointTime)
  {
    forall i | 0 <= i < |sorted| ensures PointTime(sorted[i]) <= PointTime(point) {
      assert PointTime(sorted[i]) <= PointTime(sorted[|sorted| - 1]);
    }
  }

  lemma InsertedBefore(sorted: seq<Point>, last: Point, point: Point)
    requires Ordered(Insert(sorted, point), PointTime) && Ordered(sorted + [last], PointTime)
    requires multiset(Insert(sorted, point)) == multiset(sorted) + multiset{point}
    requires point.timestamp <= last.timestamp
    ensures Ordered(Insert(sorted, point) + [last], PointTime)
  {
    var front := Insert(sorted, point);
    if front != [] {
      var newest := front[|front| - 1];
      assert newest in multiset(front);
      if newest != point {
        assert newest in sorted;
        var i :| 0 <= i < |sorted| && sorted[i] == newest;
        assert PointTime((sorted + [last])[i]) <= PointTime((sorted + [last])[|sorted|]);
      }
    }
    PointAtEnd(front, last);
  }

  lemma {:induction false} InsertSorts(sorted: seq<Point>, point: Point)
    requires Ordered(sorted, PointTime)
    ensures Ordered(Insert(sorted, point), PointTime)
    ensures multiset(Insert(sorted, point)) == multiset(sorted) + multiset{point}
  {
    if sorted != [] && sorted[|sorted| - 1].timestamp > point.timestamp {
      var n := |sorted| - 1;
      InsertSorts(sorted[..n], point);
      assert sorted == sorted[..n] + [sorted[n]];
      InsertedBefore(sorted[..n], sorted[n], point);
    } else {
      PointAtEnd(sorted, point);
    }
  }

  lemma {:induction false} SortSorts(points: seq<Point>)
    ensures Ordered(Sort(points), PointTime)
    ensures multiset(Sort(points)) == multiset(points)
  {
    if points != [] {
      var n := |points| - 1;
      SortSorts(points[..n]);
      InsertSorts(Sort(points[..n]), points[n]);
      assert Sort(points) == Insert(Sort(points[..n]), points[n]);
      assert multiset(points) == multiset(points[..n]) + multiset{points[n]} by {
        assert points == points[..n] + [points[n]];
      }
    }
  }

  /** The points stamped with one time, in order. */
  function AtTime(points: seq<Point>, time: real): seq<Point> {
    if points == [] then []
    else
      var n := |points| - 1;
      AtTime(points[..n], time) + if points[n].timestamp == time then [points[n]] else []
  }

  lemma AtTimeExtends(points: seq<Point>, point: Point, time: real)
    ensures AtTime(points + [point], time) == AtTime(points, time) + if point.timestamp == time then [point] else []
  {
    assert (points + [point])[..|points|] == points;
  }

  lemma {:induction false} InsertIsStable(sorted: seq<Point>, point: Point, time: real)
    ensures AtTime(Insert(sorted, point), time)
            == AtTime(sorted, time) + if point.timestamp == time then [point] else []
  {
    if sorted == [] || sorted[|sorted| - 1].timestamp <= point.timestamp {
      AtTimeExtends(sorted, point, time);
    } else {
      var n := |sorted| - 1;
      InsertIsStable(sorted[..n], point, time);
      AtTimeExtends(Insert(sorted[..n], point), sorted[n], time);
    }
  }

  /** Points with the same time keep the order they came in. */
  lemma {:induction false} SortIsStable(points: seq<Point>, time: real)
    ensures AtTime(Sort(points), time) == AtTime(points, time)
  {
    if points != [] {
      var n := |points| - 1;
      SortIsStable(points[..n], time);
      InsertIsStable(Sort(points[..n]), points[n], time);
    }
  }

  /** How many elements there are of a kind. */
  function Count<T>(items: seq<T>, which: T -> bool): (n: nat)
    ensures n == |set i: nat | i < |items| && which(items[i])|
  {
    if items == [] then
      0
    else
      var last := |items| - 1;
      assert (set i: nat | i < |items| && which(items[i]))
          == (set i: nat | i < last && which(items[..last][i])) + if which(items[last]) then {last} else {};
      Count(items[..last], which) + if which(items[last]) then 1 else 0
  }

  /** Each point newer than the cutoff is there as often as it was. */
  lemma {:induction false} NewerPointsCount(points: seq<Point>, cutoff: real, q: Point)
    ensures multiset(NewerThan(points, PointTime, cutoff))[q]
            == Count(points, (p: Point) => p.timestamp > cutoff && p == q)
  {
    if points != [] {
      NewerPointsCount(points[..|points| - 1], cutoff, q);
    }
  }

  lemma UpToNext(blocks: seq<Block>, b: Block, upper: real)
    ensures UpTo(blocks + [b], upper) == UpTo(blocks, upper) + if b.timestamp <= upper then [Point(b.up, b.down, b.timestamp)] else []
  {
    assert (blocks + [b])[..|blocks|] == blocks;
  }

  /** Each block between the cutoffs is there once, with its values and its time. */
  lemma {:induction false} BlocksBetweenCount(blocks: seq<Block>, cutoff: real, upper: real, q: Point)
    ensures multiset(UpTo(NewerThan(blocks, BlockTime, cutoff), upper))[q]
            == Count(blocks, (b: Block) => cutoff < b.timestamp <= upper && Point(b.up, b.down, b.timestamp) == q)
  {
    if blocks != [] {
      var n := |blocks| - 1;
      var newer := NewerThan(blocks[..n], BlockTime, cutoff);
      BlocksBetweenCount(blocks[..n], cutoff, upper, q);
      if blocks[n].timestamp > cutoff {
        UpToNext(newer, blocks[n], upper);
      } else {
        assert newer + [] == newer;
      }
    }
  }

  /**
   A longer query is ordered by time and returns, each as often as it is there, the blocks still kept that are
   newer than the cutoff but outside the raw window, with their own values and time, and the raw points still
   kept that are newer than the cutoff.  Inside the compressed window no such block has been given up.
   */
  lemma LongQueryIsMerged(cfg: Config, start: real, events: seq<Event>, minutes: real, now: real, later: real)
    requires TimelyRun(cfg, Start(start), events)
    requires Run(cfg, Start(start), events).clock <= now && cfg.rawMinutes < minutes
    ensures var s := Replay(cfg, EMPTY, events);
            && Merges(Range(s, cfg, minutes, now, later), s.blocks.Live(), s.raw.Live(),
                      now - minutes * 60000.0, later - cfg.rawMinutes * 60000.0)
            && (minutes <= cfg.compressedMinutes ==>
                  KeepsNewer(s.blocks.Live(), Run(cfg, Start(start), events).blocks.all, now - minutes * 60000.0))
  {
    var t := Run(cfg, Start(start), events);
    TracksFromStart(cfg, start, events);
    HistoryIsInvisible(cfg, Start(start), events);
    LongMerges(t, cfg, minutes, now, later);
    InMilliseconds(Range(t.Sampler(), cfg, minutes, now, later), t.blocks.buffer.Live(), t.raw.buffer.Live(),
                   cfg, minutes, now, later);
    if minutes <= cfg.compressedMinutes {
      LongKeeps(t, cfg, minutes, now);
    }
  }

  /** The result of a longer query, from the blocks and points kept. */
  ghost predicate Merges(result: seq<Point>, blocks: seq<Block>, points: seq<Point>, cutoff: real, upper: real) {
    && (forall i, j :: 0 <= i < j < |result| ==> result[i].timestamp <= result[j].timestamp)
    && (forall q :: multiset(result)[q] ==
          Count(blocks, (b: Block) => cutoff < b.timestamp <= upper && Point(b.up, b.down, b.timestamp) == q)
          + Count(points, (p: Point) => p.timestamp > cutoff && p == q))
  }

  /** Only what is not newer than the cutoff has been given up. */
  ghost predicate KeepsNewer(kept: seq<Block>, all: seq<Block>, cutoff: real) {
    var k := |all| - |kept|;
    k >= 0 && kept == all[k..] && forall i :: 0 <= i < k ==> all[i].timestamp <= cutoff
  }

  lemma LongMerges(t: Trace, cfg: Config, minutes: real, now: real, later: real)
    requires AllTrack(t, cfg) && t.clock <= now && cfg.rawMinutes < minutes
    ensures Merges(Range(t.Sampler(), cfg, minutes, now, later), t.blocks.buffer.Live(), t.raw.buffer.Live(),
                   Cutoff(now, minutes), Cutoff(later, cfg.rawMinutes))
  {
    LongIsMerged(t, cfg, minutes, now, later);
    PartsMerge(Range(t.Sampler(), cfg, minutes, now, later), t.blocks.buffer.Live(), t.raw.buffer.Live(),
               Cutoff(now, minutes), Cutoff(later, cfg.rawMinutes));
  }

  lemma SameCutoffs(result: seq<Point>, blocks: seq<Block>, points: seq<Point>, cutoff: real, upper: real, cutoff': real, upper': real)
    requires Merges(result, blocks, points, cutoff, upper) && cutoff == cutoff' && upper == upper'
    ensures Merges(result, blocks, points, cutoff', upper')
  {}

  /** The cutoffs are so many milliseconds ago. */
  lemma InMilliseconds(
    result: seq<Point>, blocks: seq<Block>, points: seq<Point>, cfg: Config, minutes: real, now: real, later: real)
    requires Merges(result, blocks, points, Cutoff(now, minutes), Cutoff(later, cfg.rawMinutes))
    ensures Merges(result, blocks, points, now - minutes * 60000.0, later - cfg.rawMinutes * 60000.0)
  {
    SameCutoffs(result, blocks, points, Cutoff(now, minutes), Cutoff(later, cfg.rawMinutes),
                now - minutes * 60000.0, later - cfg.rawMinutes * 60000.0);
  }

  lemma LongKeeps(t: Trace, cfg: Config, minutes: real, now: real)
    requires AllTrack(t, cfg) && t.clock <= now && minutes <= cfg.compressedMinutes
    ensures KeepsNewer(t.blocks.buffer.Live(), t.blocks.all, now - minutes * 60000.0)
  {
    CutoffGrows(t.clock, now, cfg.compressedMinutes, minutes);
    GivenUp(t.blocks, Cutoff(t.clock, cfg.compressedMinutes), Cutoff(now, minutes));
  }

  lemma GivenUp(k: Kept<Block>, bound: real, cutoff: real)
    requires Tracks(k, BlockTime, bound) && bound <= cutoff
    ensures KeepsNewer(k.buffer.Live(), k.all, cutoff)
  {
    var dead := |k.all| - |k.buffer.Live()|;
    forall i | 0 <= i < dead ensures k.all[i].timestamp <= cutoff {
      assert BlockTime(k.all[i]) <= bound;
    }
  }

  lemma PartsMerge(result: seq<Point>, blocks: seq<Block>, points: seq<Point>, cutoff: real, upper: real)
    requires Blends(result, blocks, points, cutoff, upper)
    ensures Merges(result, blocks, points, cutoff, upper)
  {
    OrderedByTime(result);
    forall q: Point ensures multiset(result)[q] ==
        Count(blocks, (b: Block) => cutoff < b.timestamp <= upper && Point(b.up, b.down, b.timestamp) == q)
        + Count(points, (p: Point) => p.timestamp > cutoff && p == q)
    {
      BlocksBetweenCount(blocks, cutoff, upper, q);
      NewerPointsCount(points, cutoff, q);
    }
  }

  lemma OrderedByTime(points: seq<Point>)
    requires Ordered(points, PointTime)
    ensures forall i, j :: 0 <= i < j < |points| ==> points[i].timestamp <= points[j].timestamp
  {
    forall i, j | 0 <= i < j < |points| ensures points[i].timestamp <= points[j].timestamp {
      assert PointTime(points[i]) <= PointTime(points[j]);
    }
  }

  ghost predicate Blends(result: seq<Point>, blocks: seq<Block>, points: seq<Point>, cutoff: real, upper: real) {
    && Ordered(result, PointTime)
    && multiset(result) ==
       multiset(UpTo(NewerThan(blocks, BlockTime, cutoff), upper)) + multiset(NewerThan(points, PointTime, cutoff))
  }

  lemma LongIsMerged(t: Trace, cfg: Config, minutes: real, now: real, later: real)
    requires AllTrack(t, cfg) && t.clock <= now && cfg.rawMinutes < minutes
    ensures Blends(Range(t.Sampler(), cfg, minutes, now, later), t.blocks.buffer.Live(), t.raw.buffer.Live(),
                   Cutoff(now, minutes), Cutoff(later, cfg.rawMinutes))
  {
    var cutoff, bound := Cutoff(now, minutes), Cutoff(t.clock, cfg.compressedMinutes);
    SinceOfLive(t.blocks, BlockTime, bound, cutoff);
    SinceOfLive(t.raw, PointTime, Cutoff(t.clock, cfg.rawMinutes), cutoff);
    SortSorts(UpTo(Since(t.blocks.buffer, BlockTime, cutoff), Cutoff(later, cfg.rawMinutes)) + Since(t.raw.buffer, PointTime, cutoff));
  }
}
