/**
 The traffic sampler: recent points kept as they are in a buffer with a moving head, older ones
 averaged into blocks kept in a second such buffer.  Numbers are reals; the readings of the
 clock are parameters.
 */
module TrafficSampler {
  datatype Point = Point(up: real, down: real, timestamp: real)

  datatype Block = Block(up: real, down: real, timestamp: real, samples: nat) {
    function AsPoint(): Point {
      Point(up, down, timestamp)
    }
  }

  datatype Config = Config(rawMinutes: real, compressedMinutes: real, ratio: real)

  /** A list whose front is dead up to a moving head. */
  datatype Buffer<T> = Buffer(items: seq<T>, head: nat) {
    predicate Valid() {
      head <= |items|
    }

    function Live(): seq<T>
      requires Valid()
    {
      items[head..]
    }

    function Extend(news: seq<T>): (r: Buffer<T>)
      ensures Valid() ==> r.Valid() && r.Live() == Live() + news
    {
      Buffer(items + news, head)
    }
  }

  /** The sampler's fields as a value. */
  datatype Sampler = Sampler(raw: Buffer<Point>, blocks: Buffer<Block>, queue: seq<Point>) {
    predicate Valid() {
      raw.Valid() && blocks.Valid()
    }
  }

  const RAW_SLACK: nat := 512
  const BLOCK_SLACK: nat := 256

  const EMPTY := Sampler(Buffer([], 0), Buffer([], 0), [])

  function PointTime(point: Point): real {
    point.timestamp
  }

  function BlockTime(block: Block): real {
    block.timestamp
  }

  function Cutoff(now: real, minutes: real): real {
    now - minutes * 60.0 * 1000.0
  }

  /** Where the head comes to rest: past everything that is not newer than the cutoff. */
  function Skip<T>(items: seq<T>, time: T -> real, head: nat, cutoff: real): (r: nat)
    requires head <= |items|
    ensures head <= r <= |items|
    ensures forall i :: head <= i < r ==> time(items[i]) <= cutoff
    ensures r < |items| ==> time(items[r]) > cutoff
    decreases |items| - head
  {
    if head < |items| && time(items[head]) <= cutoff then Skip(items, time, head + 1, cutoff) else head
  }

  /** The dead prefix is worth cutting off. */
  predicate MustCompact(head: nat, length: nat, slack: nat) {
    head > slack && 2 * head > length
  }

  function Trim<T>(b: Buffer<T>, time: T -> real, cutoff: real, slack: nat): (r: Buffer<T>)
    requires b.Valid()
    ensures r.Valid()
  {
    var head := Skip(b.items, time, b.head, cutoff);
    if MustCompact(head, |b.items|, slack) then Buffer(b.items[head..], 0) else Buffer(b.items, head)
  }

  /** What a buffer holds that is newer than a cutoff, found without moving the head. */
  function Since<T>(b: Buffer<T>, time: T -> real, cutoff: real): seq<T>
    requires b.Valid()
  {
    b.items[Skip(b.items, time, b.head, cutoff)..]
  }

  function SumUp(points: seq<Point>): real {
    if points == [] then 0.0 else SumUp(points[..|points| - 1]) + points[|points| - 1].up
  }

  function SumDown(points: seq<Point>): real {
    if points == [] then 0.0 else SumDown(points[..|points| - 1]) + points[|points| - 1].down
  }

  function SumTime(points: seq<Point>): real {
    if points == [] then 0.0 else SumTime(points[..|points| - 1]) + points[|points| - 1].timestamp
  }

  function Average(points: seq<Point>): Block
    requires points != []
  {
    var n := |points| as real;
    Block(SumUp(points) / n, SumDown(points) / n, SumTime(points) / n, |points|)
  }

  predicate QueueFull(cfg: Config, queue: seq<Point>) {
    queue != [] && |queue| as real >= cfg.ratio
  }

  /** The block a full queue makes, if it is full. */
  function Emitted(cfg: Config, queue: seq<Point>): seq<Block> {
    if QueueFull(cfg, queue) then [Average(queue)] else []
  }

  /** One added point; the clock is read once for each buffer. */
  function Add(s: Sampler, cfg: Config, point: Point, now: real, later: real): (r: Sampler)
    requires s.Valid()
    ensures r.Valid()
  {
    var queue := s.queue + [point];
    Sampler(
      Trim(s.raw.Extend([point]), PointTime, Cutoff(now, cfg.rawMinutes), RAW_SLACK),
      Trim(s.blocks.Extend(Emitted(cfg, queue)), BlockTime, Cutoff(later, cfg.compressedMinutes), BLOCK_SLACK),
      if QueueFull(cfg, queue) then [] else queue)
  }

  /** The blocks not newer than `upper`, as points. */
  function UpTo(blocks: seq<Block>, upper: real): seq<Point> {
    if blocks == [] then []
    else
      var last := blocks[|blocks| - 1];
      UpTo(blocks[..|blocks| - 1], upper) + if last.timestamp <= upper then [last.AsPoint()] else []
  }

  /** Puts a point behind every point that is not newer. */
  function Insert(sorted: seq<Point>, point: Point): seq<Point> {
    if sorted == [] || sorted[|sorted| - 1].timestamp <= point.timestamp then sorted + [point]
    else Insert(sorted[..|sorted| - 1], point) + [sorted[|sorted| - 1]]
  }

  /** A stable sort by timestamp. */
  function Sort(points: seq<Point>): seq<Point> {
    if points == [] then [] else Insert(Sort(points[..|points| - 1]), points[|points| - 1])
  }

  function Range(s: Sampler, cfg: Config, minutes: real, now: real, later: real): seq<Point>
    requires s.Valid()
  {
    var cutoff := Cutoff(now, minutes);
    if minutes <= cfg.rawMinutes then Since(s.raw, PointTime, cutoff)
    else
      Sort(UpTo(Since(s.blocks, BlockTime, cutoff), Cutoff(later, cfg.rawMinutes)) + Since(s.raw, PointTime, cutoff))
  }

  // ---------------------------------------------------------------- the object

  class TrafficDataSampler {
    const config: Config
    var rawBuffer: seq<Point>
    var rawHead: nat
    var compressedBuffer: seq<Block>
    var compressedHead: nat
    var compressionQueue: seq<Point>

    ghost function View(): Sampler
      reads this
    {
      Sampler(Buffer(rawBuffer, rawHead), Buffer(compressedBuffer, compressedHead), compressionQueue)
    }

    constructor (config: Config)
      ensures this.config == config && View() == EMPTY
    {
      this.config := config;
      rawBuffer, rawHead, compressedBuffer, compressedHead, compressionQueue := [], 0, [], 0, [];
    }

    method TrimRawBuffer(cutoff: real)
      requires View().Valid()
      modifies this`rawBuffer, this`rawHead
      ensures View() == old(View()).(raw := Trim(old(View()).raw, PointTime, cutoff, RAW_SLACK))
    {
      while rawHead < |rawBuffer| && rawBuffer[rawHead].timestamp <= cutoff
        invariant rawHead <= |rawBuffer| && rawBuffer == old(rawBuffer)
        invariant Skip(rawBuffer, PointTime, rawHead, cutoff) == Skip(rawBuffer, PointTime, old(rawHead), cutoff)
      {
        rawHead := rawHead + 1;
      }
      if rawHead > RAW_SLACK && 2 * rawHead > |rawBuffer| {
        rawBuffer := rawBuffer[rawHead..];
        rawHead := 0;
      }
    }

    method TrimCompressedBuffer(cutoff: real)
      requires View().Valid()
      modifies this`compressedBuffer, this`compressedHead
      ensures View() == old(View()).(blocks := Trim(old(View()).blocks, BlockTime, cutoff, BLOCK_SLACK))
    {
      while compressedHead < |compressedBuffer| && compressedBuffer[compressedHead].timestamp <= cutoff
        invariant compressedHead <= |compressedBuffer| && compressedBuffer == old(compressedBuffer)
        invariant Skip(compressedBuffer, BlockTime, compressedHead, cutoff) ==
                  Skip(compressedBuffer, BlockTime, old(compressedHead), cutoff)
      {
        compressedHead := compressedHead + 1;
      }
      if compressedHead > BLOCK_SLACK && 2 * compressedHead > |compressedBuffer| {
        compressedBuffer := compressedBuffer[compressedHead..];
        compressedHead := 0;
      }
    }

    method CompressData()
      modifies this`compressedBuffer, this`compressionQueue
      ensures View() == if old(compressionQueue) == [] then old(View())
                        else old(View()).(blocks := old(View()).blocks.Extend([Average(old(compressionQueue))]), queue := [])
    {
      if |compressionQueue| == 0 {
        return;
      }
      var queue := compressionQueue;
      var up, down, time := 0.0, 0.0, 0.0;
      for i := 0 to |queue|
        invariant up == SumUp(queue[..i]) && down == SumDown(queue[..i]) && time == SumTime(queue[..i])
      {
        assert queue[..i + 1][..i] == queue[..i];
        up, down, time := up + queue[i].up, down + queue[i].down, time + queue[i].timestamp;
      }
      assert queue[..|queue|] == queue;
      var n := |queue| as real;
      compressedBuffer := compressedBuffer + [Block(up / n, down / n, time / n, |queue|)];
      compressionQueue := [];
    }

    method AddDataPoint(point: Point, now: real, later: real)
      requires View().Valid()
      modifies this
      ensures View().Valid() && View() == Add(old(View()), config, point, now, later)
    {
      ghost var was := View();
      rawBuffer := rawBuffer + [point];
      TrimRawBuffer(Cutoff(now, config.rawMinutes));
      compressionQueue := compressionQueue + [point];
      ghost var queue := compressionQueue;
      assert View().blocks == was.blocks && queue == was.queue + [point];
      if |compressionQueue| as real >= config.ratio {
        CompressData();
      }
      assert was.blocks.Extend([]) == was.blocks;
      assert View().blocks == was.blocks.Extend(Emitted(config, queue));
      TrimCompressedBuffer(Cutoff(later, config.compressedMinutes));
    }

    method GetDataForTimeRange(minutes: real, now: real, later: real) returns (data: seq<Point>)
      requires View().Valid()
      ensures data == Range(View(), config, minutes, now, later)
    {
      var cutoff := Cutoff(now, minutes);
      var rawStart := rawHead;
      while rawStart < |rawBuffer| && rawBuffer[rawStart].timestamp <= cutoff
        invariant rawHead <= rawStart <= |rawBuffer|
        invariant Skip(rawBuffer, PointTime, rawStart, cutoff) == Skip(rawBuffer, PointTime, rawHead, cutoff)
      {
        rawStart := rawStart + 1;
      }
      var rawData := rawBuffer[rawStart..];
      if minutes <= config.rawMinutes {
        return rawData;
      }
      var upper := Cutoff(later, config.rawMinutes);
      var start := compressedHead;
      while start < |compressedBuffer| && compressedBuffer[start].timestamp <= cutoff
        invariant compressedHead <= start <= |compressedBuffer|
        invariant Skip(compressedBuffer, BlockTime, start, cutoff) ==
                  Skip(compressedBuffer, BlockTime, compressedHead, cutoff)
      {
        start := start + 1;
      }
      var window, compressed := compressedBuffer[start..], [];
      for i := 0 to |window|
        invariant compressed == UpTo(window[..i], upper)
      {
        assert window[..i + 1][..i] == window[..i];
        if window[i].timestamp <= upper {
          compressed := compressed + [window[i].AsPoint()];
        }
      }
      assert window[..|window|] == window;
      data := Sort(compressed + rawData);
    }

    method GetStats() returns (raw: nat, compressed: nat, queued: nat, total: nat)
      requires View().Valid()
      ensures raw == |View().raw.Live()| && compressed == |View().blocks.Live()| && queued == |View().queue|
      ensures total == raw + compressed
    {
      raw, compressed := |rawBuffer| - rawHead, |compressedBuffer| - compressedHead;
      queued, total := |compressionQueue|, raw + compressed;
    }

    method Clear()
      modifies this
      ensures View() == EMPTY
    {
      rawBuffer, rawHead, compressedBuffer, compressedHead, compressionQueue := [], 0, [], 0, [];
    }
  }
}
