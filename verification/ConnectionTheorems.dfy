/** What the connection table keeps over a whole run of snapshots and clears. */
module ConnectionTheorems {
  import opened Common
  import opened ConnectionHistory

  datatype Event = Snapshot(payload: Payload) | Clear

  /** The table with everything that ever opened, everything that ever closed, and where the last clear was. */
  datatype Trace = Trace(table: Monitor, openings: seq<Item>, closures: seq<Item>, cleared: nat)

  function Rows(payload: Payload): seq<Received> {
    payload.connections.GetOr([])
  }

  predicate DistinctIds(next: seq<Received>) {
    forall i, j :: 0 <= i < j < |next| ==> next[i].id != next[j].id
  }

  ghost predicate DistinctItems(items: seq<Item>) {
    forall i, j :: 0 <= i < j < |items| ==> items[i].id != items[j].id
  }

  predicate Proper(e: Event) {
    e.Snapshot? ==> DistinctIds(Rows(e.payload))
  }

  /** The rows whose identity had no row before. */
  function Opened(active: seq<Item>, next: seq<Item>): seq<Item> {
    if next == [] then []
    else
      var n := |next| - 1;
      Opened(active, next[..n]) + if Latest(active, next[n].id).None? then [next[n]] else []
  }

  /** The rows whose identity is received again. */
  function Continuing(active: seq<Item>, next: seq<Received>): seq<Item> {
    if active == [] then []
    else
      var n := |active| - 1;
      Continuing(active[..n], next) + if Named(next, active[n].id) then [active[n]] else []
  }

  function Observe(t: Trace, e: Event): Trace {
    match e
    case Clear => t.(table := ClearClosed(t.table), cleared := |t.closures|)
    case Snapshot(payload) =>
      var table := Merge(payload, t.table);
      Trace(
        table,
        t.openings + Opened(t.table.active, table.active),
        t.closures + Gone(t.table.active, Rows(payload)),
        t.cleared)
  }

  const FRESH := Trace(NO_CONNECTIONS, [], [], 0)

  function Run(t: Trace, events: seq<Event>): Trace
    decreases |events|
  {
    if events == [] then t else Run(Observe(t, events[0]), events[1..])
  }

  // ---------------------------------------------------------------- the bounded history

  function LastOf<T>(items: seq<T>, n: nat): seq<T> {
    if |items| <= n then items else items[|items| - n..]
  }

  /** All that has gone fits, or no identity was twice among it. */
  predicate FitsOrDistinct(closed: seq<Item>, gone: seq<Item>, n: nat) {
    |closed| + |gone| <= 500 || (n == |gone| && gone != [])
  }

  lemma HistoryIsLast(closed: seq<Item>, gone: seq<Item>, n: nat)
    requires n <= |gone| && (n == 0 ==> gone == [])
    ensures History(closed, gone, n) == LastOf(closed + gone, 500) <==> FitsOrDistinct(closed, gone, n)
    ensures |History(closed, gone, n)| <= 500 <==> FitsOrDistinct(closed, gone, n)
  {
    if FitsOrDistinct(closed, gone, n) {
      assert History(closed, gone, n) == LastOf(closed + gone, 500);
    } else {
      assert |History(closed, gone, n)| > 500;
    }
  }

  /**
   What one merge leaves of the history, for any payload and any table, duplicates included: the last 500
   of the old history and the closures, and no more than 500, exactly if all of them fit or no
   identity was twice among those that have gone.
   */
  lemma HistoryKeepsTheLast(payload: Payload, m: Monitor)
    ensures var gone, ids := Gone(m.active, Rows(payload)), GoneIds(m.active, Rows(payload));
            && (Merge(payload, m).closed == LastOf(m.closed + gone, 500) <==> FitsOrDistinct(m.closed, gone, |ids|))
            && (|Merge(payload, m).closed| <= 500 <==> FitsOrDistinct(m.closed, gone, |ids|))
  {
    GoneAreCounted(m.active, Rows(payload));
    HistoryIsLast(m.closed, Gone(m.active, Rows(payload)), |GoneIds(m.active, Rows(payload))|);
  }

  lemma {:induction false} AllGone(active: seq<Item>)
    ensures Gone(active, []) == active
  {
    if active != [] {
      AllGone(active[..|active| - 1]);
      assert active == active[..|active| - 1] + [active[|active| - 1]];
    }
  }

  lemma OneIdGone(active: seq<Item>, id: string)
    requires forall c | c in active :: c.id == id
    ensures |GoneIds(active, [])| <= 1
  {
    forall other | other in GoneIds(active, []) ensures other == id {
      GoneIdsAre(active, [], other);
    }
    assert GoneIds(active, []) <= {id};
    if id in GoneIds(active, []) {
      assert GoneIds(active, []) == {id};
    } else {
      assert GoneIds(active, []) == {};
    }
  }

  const NO_METADATA := Metadata(None, None, None, None, None, None, None, None, None, None)

  function Many(n: nat): Payload {
    Payload(None, None, Some(seq(n, _ => Received("x", NO_METADATA, None, None, None, None, None, None))))
  }

  /** Two snapshots, 501 rows of one identity and then none: the history holds more than 500. */
  lemma TwiceTheSameOverflows()
    ensures var t := Run(FRESH, [Snapshot(Many(501)), Snapshot(Many(0))]);
            |t.table.closed| > 500
  {
    var first, second := Snapshot(Many(501)), Snapshot(Many(0));
    var t := Observe(FRESH, first);
    assert [first, second][1..] == [second] && [second][1..] == [];
    assert Rows(Many(0)) == [];
    var active := t.table.active;
    assert |active| == 501;
    forall c | c in active ensures c.id == "x" {
      var i :| 0 <= i < |active| && active[i] == c;
      assert Rows(Many(501))[i].id == "x";
    }
    AllGone(active);
    OneIdGone(active, "x");
    HistoryKeepsTheLast(Many(0), t.table);
  }

  lemma {:induction false} GoneAreCounted(active: seq<Item>, next: seq<Received>)
    ensures |GoneIds(active, next)| <= |Gone(active, next)|
    ensures GoneIds(active, next) == {} ==> Gone(active, next) == []
    ensures DistinctItems(active) ==> |GoneIds(active, next)| == |Gone(active, next)|
  {
    if active != [] {
      var n := |active| - 1;
      GoneAreCounted(active[..n], next);
      GoneIdsAre(active[..n], next, active[n].id);
    }
  }

  lemma RowsStayDistinct(active: seq<Item>, next: seq<Received>)
    requires DistinctIds(next)
    ensures DistinctItems(Rebuild(active, next))
  {
    var r := Rebuild(active, next);
    assert forall i :: 0 <= i < |r| ==> r[i].id == next[i].id;
  }

  ghost predicate Bounded(t: Trace) {
    && DistinctItems(t.table.active)
    && t.cleared <= |t.closures|
    && t.table.closed == LastOf(t.closures[t.cleared..], 500)
  }

  lemma LastOfLast<T>(a: seq<T>, b: seq<T>, n: nat)
    ensures LastOf(LastOf(a, n) + b, n) == LastOf(a + b, n)
  {}

  lemma ObserveStaysBounded(t: Trace, e: Event)
    requires Bounded(t) && Proper(e)
    ensures Bounded(Observe(t, e))
  {
    match e
    case Clear =>
      assert t.closures[|t.closures|..] == [];
    case Snapshot(payload) =>
      var next := Rows(payload);
      RowsStayDistinct(t.table.active, next);
      GoneAreCounted(t.table.active, next);
      HistoryGrows(t.closures, t.cleared, t.table.closed, Gone(t.table.active, next));
  }

  lemma HistoryGrows(closures: seq<Item>, cleared: nat, closed: seq<Item>, gone: seq<Item>)
    requires cleared <= |closures| && closed == LastOf(closures[cleared..], 500)
    ensures History(closed, gone, |gone|) == LastOf((closures + gone)[cleared..], 500)
  {
    var since := closures[cleared..];
    assert |closed| <= 500;
    HistoryIsLast(closed, gone, |gone|);
    assert FitsOrDistinct(closed, gone, |gone|);
    LastOfLast(since, gone, 500);
    SliceBehind(closures, gone, cleared);
  }

  lemma SliceBehind<T>(a: seq<T>, b: seq<T>, k: nat)
    requires k <= |a|
    ensures (a + b)[k..] == a[k..] + b
  {
  }

  lemma {:induction false} RunStaysBounded(t: Trace, events: seq<Event>)
    requires Bounded(t) && forall e | e in events :: Proper(e)
    ensures Bounded(Run(t, events))
    decreases |events|
  {
    if events != [] {
      ObserveStaysBounded(t, events[0]);
      RunStaysBounded(Observe(t, events[0]), events[1..]);
    }
  }

  /** The history is exactly the last 500 closures since the last clear, in closing order. */
  lemma HistoryIsTheLastClosures(events: seq<Event>)
    requires forall e | e in events :: Proper(e)
    ensures var t := Run(FRESH, events);
            t.cleared <= |t.closures| && t.table.closed == LastOf(t.closures[t.cleared..], 500)
  {
    RunStaysBounded(FRESH, events);
  }

  // ---------------------------------------------------------------- nothing lost or duplicated

  lemma {:induction false} RowsSplit(active: seq<Item>, next: seq<Received>)
    ensures multiset(active) == multiset(Continuing(active, next)) + multiset(Gone(active, next))
    ensures forall c | c in Continuing(active, next) :: Named(next, c.id)
    ensures forall c | c in Gone(active, next) :: !Named(next, c.id)
  {
    if active != [] {
      var n := |active| - 1;
      RowsSplit(active[..n], next);
      assert active == active[..n] + [active[n]];
    }
  }

  /** A merge splits the rows before, as they were, into those that continue and those that have gone, in order. */
  lemma MergeSplits(active: seq<Item>, next: seq<Received>)
    ensures Subsequence(Continuing(active, next), active) && Subsequence(Gone(active, next), active)
    ensures multiset(active) == multiset(Continuing(active, next)) + multiset(Gone(active, next))
    ensures forall c | c in Continuing(active, next) :: Named(next, c.id)
    ensures forall c | c in Gone(active, next) :: !Named(next, c.id)
  {
    RowsSplit(active, next);
    PartsInOrder(active, next);
  }

  lemma {:induction false} PartsInOrder(active: seq<Item>, next: seq<Received>)
    ensures Subsequence(Continuing(active, next), active) && Subsequence(Gone(active, next), active)
  {
    if active != [] {
      var n := |active| - 1;
      var on, off := Continuing(active[..n], next), Gone(active[..n], next);
      PartsInOrder(active[..n], next);
      SubsequenceExtends(on, active[..n], active[n]);
      SubsequenceExtends(off, active[..n], active[n]);
      assert active[..n] + [active[n]] == active;
      assert on + [] == on && off + [] == off;
    }
  }

  /** How many items carry an identity. */
  function Count(items: seq<Item>, id: string): nat {
    if items == [] then 0
    else
      var n := |items| - 1;
      Count(items[..n], id) + if items[n].id == id then 1 else 0
  }

  lemma {:induction false} CountSplits(a: seq<Item>, b: seq<Item>, id: string)
    ensures Count(a + b, id) == Count(a, id) + Count(b, id)
  {
    if b == [] {
      assert a + b == a;
    } else {
      var n := |b| - 1;
      CountSplits(a, b[..n], id);
      assert (a + b)[..|a| + n] == a + b[..n];
    }
  }

  lemma {:induction false} DistinctCount(items: seq<Item>, id: string)
    requires DistinctItems(items)
    ensures Count(items, id) == if Latest(items, id).Some? then 1 else 0
  {
    if items != [] {
      var n := |items| - 1;
      DistinctCount(items[..n], id);
    }
  }

  lemma {:induction false} CountGone(active: seq<Item>, next: seq<Received>, id: string)
    ensures Count(Gone(active, next), id) == if Named(next, id) then 0 else Count(active, id)
  {
    if active != [] {
      var n := |active| - 1;
      CountGone(active[..n], next, id);
      var front := Gone(active[..n], next);
      assert (front + [active[n]])[..|front|] == front;
      assert front + [] == front;
    }
  }

  lemma {:induction false} CountOpened(active: seq<Item>, rows: seq<Item>, id: string)
    ensures Count(Opened(active, rows), id) == if Latest(active, id).None? then Count(rows, id) else 0
  {
    if rows != [] {
      var n := |rows| - 1;
      CountOpened(active, rows[..n], id);
      var front := Opened(active, rows[..n]);
      assert (front + [rows[n]])[..|front|] == front;
      assert front + [] == front;
    }
  }

  lemma RowsCarryTheNames(active: seq<Item>, next: seq<Received>, id: string)
    ensures Named(next, id) <==> Latest(Rebuild(active, next), id).Some?
  {
    var rows := Rebuild(active, next);
    if Named(next, id) {
      var i :| 0 <= i < |next| && next[i].id == id;
      assert rows[i] in rows && rows[i].id == id;
    }
    if Latest(rows, id).Some? {
      var i :| 0 <= i < |rows| && rows[i] == Latest(rows, id).value;
      assert next[i] in next && next[i].id == id;
    }
  }

  /** One snapshot, by identity: what opens and what continues are the new rows, what was and does not continue has gone. */
  lemma SnapshotBalances(active: seq<Item>, next: seq<Received>, id: string)
    requires DistinctIds(next) && DistinctItems(active)
    ensures var rows := Rebuild(active, next);
            Count(active, id) + Count(Opened(active, rows), id) == Count(rows, id) + Count(Gone(active, next), id)
  {
    var rows := Rebuild(active, next);
    CountGone(active, next, id);
    CountOpened(active, rows, id);
    RowsStayDistinct(active, next);
    DistinctCount(active, id);
    DistinctCount(rows, id);
    RowsCarryTheNames(active, next, id);
  }

  ghost predicate Balanced(t: Trace, id: string) {
    Count(t.openings, id) == Count(t.table.active, id) + Count(t.closures, id)
  }

  lemma ObserveStaysBalanced(t: Trace, e: Event, id: string)
    requires Bounded(t) && Balanced(t, id) && Proper(e)
    ensures Balanced(Observe(t, e), id)
  {
    if e.Snapshot? {
      var next, active := Rows(e.payload), t.table.active;
      SnapshotBalances(active, next, id);
      CountSplits(t.openings, Opened(active, Rebuild(active, next)), id);
      CountSplits(t.closures, Gone(active, next), id);
    }
  }

  lemma {:induction false} RunStaysBalanced(t: Trace, events: seq<Event>, id: string)
    requires Bounded(t) && Balanced(t, id) && forall e | e in events :: Proper(e)
    ensures Balanced(Run(t, events), id)
    decreases |events|
  {
    if events != [] {
      ObserveStaysBounded(t, events[0]);
      ObserveStaysBalanced(t, events[0], id);
      RunStaysBalanced(Observe(t, events[0]), events[1..], id);
    }
  }

  /** Over a whole run, an identity has opened exactly as often as it is now active or has closed. */
  lemma NothingIsLostOrDuplicated(events: seq<Event>, id: string)
    requires forall e | e in events :: Proper(e)
    ensures var t := Run(FRESH, events);
            Count(t.openings, id) == Count(t.table.active, id) + Count(t.closures, id)
  {
    RunStaysBalanced(FRESH, events, id);
  }

  // ---------------------------------------------------------------- what a row shows

  /** A text is shown as received, and as empty if it is missing. */
  predicate ShowsText(shown: string, received: Option<string>) {
    if received.Some? then shown == received.value else shown == ""
  }

  predicate ShowsField(shown: Option<string>, received: Option<string>) {
    shown.Some? && ShowsText(shown.value, received)
  }

  predicate ShowsNumber(shown: int, received: Option<int>) {
    if received.Some? then shown == received.value else shown == 0
  }

  predicate ShowsMetadata(shown: Metadata, received: Metadata) {
    && ShowsField(shown.network, received.network) && ShowsField(shown.kind, received.kind)
    && ShowsField(shown.host, received.host)
    && ShowsField(shown.sourceIP, received.sourceIP) && ShowsField(shown.sourcePort, received.sourcePort)
    && ShowsField(shown.destinationPort, received.destinationPort)
    && ShowsField(shown.destinationIP, received.destinationIP)
    && ShowsField(shown.remoteDestination, received.remoteDestination)
    && ShowsField(shown.process, received.process) && ShowsField(shown.processPath, received.processPath)
  }

  predicate ShowsReceived(row: Item, r: Received) {
    && row.id == r.id && ShowsMetadata(row.metadata, r.metadata)
    && row.chains == (if r.chains.Some? then r.chains.value else [])
    && ShowsNumber(row.upload, r.upload) && ShowsNumber(row.download, r.download)
    && ShowsText(row.start, r.start) && ShowsText(row.rule, r.rule) && ShowsText(row.rulePayload, r.rulePayload)
  }

  /** Row `k` is the last one of this identity. */
  predicate IsLastOf(active: seq<Item>, k: nat, id: string) {
    k < |active| && active[k].id == id && forall l :: k < l < |active| ==> active[l].id != id
  }

  /** The first row received under an identity shows the difference to the last row before, any other row no speed. */
  ghost predicate ShowsSpeed(row: Item, active: seq<Item>, next: seq<Received>, i: nat)
    requires i < |next|
  {
    var first, known := forall j :: 0 <= j < i ==> next[j].id != next[i].id, exists k: nat :: IsLastOf(active, k, next[i].id);
    if first && known then
      var k: nat :| IsLastOf(active, k, next[i].id);
      row.curUpload == row.upload - active[k].upload && row.curDownload == row.download - active[k].download
    else row.curUpload == 0 && row.curDownload == 0
  }

  lemma {:induction false} LatestIsLast(active: seq<Item>, id: string, k: nat)
    requires IsLastOf(active, k, id)
    ensures Latest(active, id) == Some(active[k])
  {
    var n := |active| - 1;
    if k < n {
      assert forall l :: k < l < n ==> active[..n][l] == active[l];
      LatestIsLast(active[..n], id, k);
    }
  }

  lemma {:induction false} LatestIsSome(active: seq<Item>, id: string) returns (k: nat)
    requires Latest(active, id).Some?
    ensures IsLastOf(active, k, id)
  {
    var n := |active| - 1;
    if active[n].id == id {
      k := n;
    } else {
      k := LatestIsSome(active[..n], id);
      assert forall l :: k < l < n ==> active[..n][l] == active[l];
    }
  }

  lemma RowShowsSpeed(active: seq<Item>, next: seq<Received>, i: nat)
    requires i < |next|
    ensures ShowsSpeed(Rebuild(active, next)[i], active, next, i)
  {
    var id := next[i].id;
    assert Named(next[..i], id) <==> exists j :: 0 <= j < i && next[j].id == id by {
      if j :| 0 <= j < i && next[j].id == id {
        assert next[..i][j] == next[j];
      }
    }
    if k: nat :| IsLastOf(active, k, id) {
      forall k: nat | IsLastOf(active, k, id) ensures Latest(active, id) == Some(active[k]) {
        LatestIsLast(active, id, k);
      }
    } else if Latest(active, id).Some? {
      var k := LatestIsSome(active, id);
    }
  }

  /**
   The table shows what was received: the two totals, and one row for each connection, in order, with its own
   fields, and with the difference to the row before as its speed.
   */
  lemma TableShowsWhatWasReceived(payload: Payload, m: Monitor)
    ensures var next, table := Rows(payload), Merge(payload, m);
            && ShowsNumber(table.uploadTotal, payload.uploadTotal) && ShowsNumber(table.downloadTotal, payload.downloadTotal)
            && |table.active| == |next|
            && forall i :: 0 <= i < |next| ==> ShowsReceived(table.active[i], next[i]) && ShowsSpeed(table.active[i], m.active, next, i)
  {
    var next := Rows(payload);
    forall i | 0 <= i < |next|
      ensures ShowsReceived(Rebuild(m.active, next)[i], next[i]) && ShowsSpeed(Rebuild(m.active, next)[i], m.active, next, i)
    {
      RowShowsSpeed(m.active, next, i);
    }
  }

  // ---------------------------------------------------------------- speeds

  function Apply(m: Monitor, e: Event): Monitor {
    match e
    case Clear => ClearClosed(m)
    case Snapshot(payload) => Merge(payload, m)
  }

  function After(m: Monitor, events: seq<Event>): Monitor {
    if events == [] then m else Apply(After(m, events[..|events| - 1]), events[|events| - 1])
  }

  /** The sum of the speeds shown for an identity, one for each snapshot. */
  function UpShown(m: Monitor, events: seq<Event>, id: string): int {
    if events == [] then 0
    else
      var shown := Latest(After(m, events).active, id);
      UpShown(m, events[..|events| - 1], id)
      + if events[|events| - 1].Snapshot? && shown.Some? then shown.value.curUpload else 0
  }

  function DownShown(m: Monitor, events: seq<Event>, id: string): int {
    if events == [] then 0
    else
      var shown := Latest(After(m, events).active, id);
      DownShown(m, events[..|events| - 1], id)
      + if events[|events| - 1].Snapshot? && shown.Some? then shown.value.curDownload else 0
  }

  /** An identity's row shows the difference to the row before, or no speed if there was none. */
  lemma RowShowsTheDifference(m: Monitor, payload: Payload, id: string)
    requires DistinctIds(Rows(payload)) && Named(Rows(payload), id)
    ensures var was, row := Latest(m.active, id), Latest(Merge(payload, m).active, id);
            && row.Some?
            && row.value.curUpload == (if was.Some? then row.value.upload - was.value.upload else 0)
            && row.value.curDownload == (if was.Some? then row.value.download - was.value.download else 0)
  {
    var next := Rows(payload);
    var rows := Rebuild(m.active, next);
    RowsCarryTheNames(m.active, next, id);
    var i :| 0 <= i < |rows| && rows[i] == Latest(rows, id).value;
    assert !Named(next[..i], id);
  }

  ghost predicate Continues(events: seq<Event>, id: string) {
    forall e | e in events && e.Snapshot? :: DistinctIds(Rows(e.payload)) && Named(Rows(e.payload), id)
  }

  /**
   While a connection is in every snapshot, the speeds shown for it add up to its last totals less
   its first, whatever comes and goes beside it and whenever the history is cleared.
   */
  lemma {:induction false} SpeedsTelescope(m: Monitor, events: seq<Event>, id: string)
    requires Latest(m.active, id).Some? && Continues(events, id)
    ensures var first, last := Latest(m.active, id).value, Latest(After(m, events).active, id);
            && last.Some?
            && UpShown(m, events, id) == last.value.upload - first.upload
            && DownShown(m, events, id) == last.value.download - first.download
  {
    if events != [] {
      var n := |events| - 1;
      SpeedsTelescope(m, events[..n], id);
      if events[n].Snapshot? {
        RowShowsTheDifference(After(m, events[..n]), events[n].payload, id);
      }
    }
  }
}
