/**
 The connection table: each snapshot from the core is merged into the last one.  Objects that have
 not changed are kept, speeds are differences of totals, and connections that have
 gone are put in a bounded history.  Byte totals are integers.
 */
module ConnectionHistory {
  import opened Common

  datatype Metadata = Metadata(
    network: Option<string>,
    kind: Option<string>,
    host: Option<string>,
    sourceIP: Option<string>,
    sourcePort: Option<string>,
    destinationPort: Option<string>,
    destinationIP: Option<string>,
    remoteDestination: Option<string>,
    process: Option<string>,
    processPath: Option<string>)

  /** A connection as the core sends it; any field but the identity may be missing. */
  datatype Received = Received(
    id: string,
    metadata: Metadata,
    chains: Option<seq<string>>,
    upload: Option<int>,
    download: Option<int>,
    start: Option<string>,
    rule: Option<string>,
    rulePayload: Option<string>)

  /** A connection as the table shows it. */
  datatype Item = Item(
    id: string,
    metadata: Metadata,
    chains: seq<string>,
    upload: int,
    download: int,
    start: string,
    rule: string,
    rulePayload: string,
    curUpload: int,
    curDownload: int)

  datatype Payload = Payload(uploadTotal: Option<int>, downloadTotal: Option<int>, connections: Option<seq<Received>>)

  datatype Monitor = Monitor(uploadTotal: int, downloadTotal: int, active: seq<Item>, closed: seq<Item>)

  const MAX_CLOSED: nat := 500

  const NO_CONNECTIONS := Monitor(0, 0, [], [])

  // ---------------------------------------------------------------- what a merge shows

  function Text(value: Option<string>): string {
    value.GetOr("")
  }

  /** Missing metadata reads as the empty string. */
  function Plain(m: Metadata): Metadata {
    Metadata(
      Some(Text(m.network)), Some(Text(m.kind)), Some(Text(m.host)), Some(Text(m.sourceIP)),
      Some(Text(m.sourcePort)), Some(Text(m.destinationPort)), Some(Text(m.destinationIP)),
      Some(Text(m.remoteDestination)), Some(Text(m.process)), Some(Text(m.processPath)))
  }

  predicate SameMetadata(left: Metadata, right: Metadata)
    ensures SameMetadata(left, right) <==> Plain(left) == Plain(right)
  {
    && Text(left.network) == Text(right.network)
    && Text(left.kind) == Text(right.kind)
    && Text(left.host) == Text(right.host)
    && Text(left.sourceIP) == Text(right.sourceIP)
    && Text(left.sourcePort) == Text(right.sourcePort)
    && Text(left.destinationPort) == Text(right.destinationPort)
    && Text(left.destinationIP) == Text(right.destinationIP)
    && Text(left.remoteDestination) == Text(right.remoteDestination)
    && Text(left.process) == Text(right.process)
    && Text(left.processPath) == Text(right.processPath)
  }

  /** A connection made anew from what was received; only the speeds depend on the one before. */
  function Rebuilt(r: Received, previous: Option<Item>): Item {
    var upload, download := r.upload.GetOr(0), r.download.GetOr(0);
    Item(
      r.id, Plain(r.metadata), r.chains.GetOr([]), upload, download,
      Text(r.start), Text(r.rule), Text(r.rulePayload),
      if previous.Some? then upload - previous.value.upload else 0,
      if previous.Some? then download - previous.value.download else 0)
  }

  predicate Named(next: seq<Received>, id: string) {
    exists r | r in next :: r.id == id
  }

  /** The last connection with an identity. */
  function Latest(items: seq<Item>, id: string): (r: Option<Item>)
    ensures r.Some? ==> r.value in items && r.value.id == id
    ensures r.None? ==> forall c | c in items :: c.id != id
  {
    if items == [] then None
    else
      var n := |items| - 1;
      if items[n].id == id then Some(items[n]) else Latest(items[..n], id)
  }

  /** Only the first connection received under an identity continues the one before. */
  function Before(active: seq<Item>, next: seq<Received>, i: nat): Option<Item>
    requires i < |next|
  {
    if Named(next[..i], next[i].id) then None else Latest(active, next[i].id)
  }

  function Rebuild(active: seq<Item>, next: seq<Received>): (r: seq<Item>)
    ensures |r| == |next| && forall i :: 0 <= i < |r| ==> r[i] == Rebuilt(next[i], Before(active, next, i))
  {
    seq(|next|, i requires 0 <= i < |next| => Rebuilt(next[i], Before(active, next, i)))
  }

  /** The connections that are received no more. */
  function Gone(active: seq<Item>, next: seq<Received>): (r: seq<Item>)
    ensures |r| <= |active|
  {
    if active == [] then []
    else
      var n := |active| - 1;
      Gone(active[..n], next) + if Named(next, active[n].id) then [] else [active[n]]
  }

  function GoneIds(active: seq<Item>, next: seq<Received>): set<string> {
    if active == [] then {}
    else
      var n := |active| - 1;
      GoneIds(active[..n], next) + if Named(next, active[n].id) then {} else {active[n].id}
  }

  lemma {:induction false} GoneIdsAre(active: seq<Item>, next: seq<Received>, id: string)
    ensures id in GoneIds(active, next) <==> Latest(active, id).Some? && !Named(next, id)
  {
    if active != [] {
      GoneIdsAre(active[..|active| - 1], next, id);
    }
  }

  function Skip<T>(items: seq<T>, n: nat): seq<T> {
    if n >= |items| then [] else items[n..]
  }

  function AtLeast0(n: int): nat {
    if n < 0 then 0 else n
  }

  /** What of the history stays when `n` connections are to be added. */
  function Kept<T>(closed: seq<T>, n: nat): seq<T> {
    Skip(closed, AtLeast0(|closed| + n - MAX_CLOSED))
  }

  /** The bounded history; `n` is the number of identities that have gone. */
  function History(closed: seq<Item>, gone: seq<Item>, n: nat): seq<Item> {
    if n == 0 then closed
    else Kept(closed, n) + Skip(gone, AtLeast0(n - (MAX_CLOSED - |Kept(closed, n)|)))
  }

  function Merge(payload: Payload, previous: Monitor): Monitor {
    var next := payload.connections.GetOr([]);
    Monitor(
      payload.uploadTotal.GetOr(0), payload.downloadTotal.GetOr(0),
      Rebuild(previous.active, next),
      History(previous.closed, Gone(previous.active, next), |GoneIds(previous.active, next)|))
  }

  function ClearClosed(m: Monitor): Monitor {
    m.(closed := [])
  }

  // ---------------------------------------------------------------- objects

  class MetadataObject {
    const value: Metadata

    constructor (value: Metadata)
      ensures this.value == value
    {
      this.value := value;
    }
  }

  class Chains {
    const names: seq<string>

    constructor (names: seq<string>)
      ensures this.names == names
    {
      this.names := names;
    }
  }

  class Connection {
    const id: string
    const metadata: MetadataObject
    const chains: Chains
    const upload: int
    const download: int
    const start: string
    const rule: string
    const rulePayload: string
    const curUpload: int
    const curDownload: int

    constructor (r: Received, metadata: MetadataObject, chains: Chains, curUpload: int, curDownload: int)
      ensures View() == Item(r.id, metadata.value, chains.names, r.upload.GetOr(0), r.download.GetOr(0),
                             Text(r.start), Text(r.rule), Text(r.rulePayload), curUpload, curDownload)
      ensures this.metadata == metadata && this.chains == chains
    {
      id, this.metadata, this.chains := r.id, metadata, chains;
      upload, download, start := r.upload.GetOr(0), r.download.GetOr(0), Text(r.start);
      rule, rulePayload := Text(r.rule), Text(r.rulePayload);
      this.curUpload, this.curDownload := curUpload, curDownload;
    }

    function View(): Item {
      Item(id, metadata.value, chains.names, upload, download, start, rule, rulePayload, curUpload, curDownload)
    }
  }

  function ViewOf(previous: Connection?): Option<Item> {
    if previous == null then None else Some(previous.View())
  }

  function Views(objects: seq<Connection>): (r: seq<Item>)
    ensures |r| == |objects| && forall i :: 0 <= i < |r| ==> r[i] == objects[i].View()
  {
    seq(|objects|, i requires 0 <= i < |objects| => objects[i].View())
  }

  method NormalizeMetadata(metadata: Metadata, previous: MetadataObject?) returns (r: MetadataObject)
    ensures Plain(r.value) == Plain(metadata)
    ensures r == previous || (fresh(r) && r.value == Plain(metadata))
    ensures r == previous <==> previous != null && SameMetadata(previous.value, metadata)
  {
    if previous != null && SameMetadata(previous.value, metadata) {
      return previous;
    }
    r := new MetadataObject(Plain(metadata));
  }

  method NormalizeChains(chains: seq<string>, previous: Chains?) returns (r: Chains)
    ensures r.names == chains
    ensures r == previous || fresh(r)
    ensures r == previous <==> previous != null && previous.names == chains
  {
    if previous != null {
      var same := SameChains(previous.names, chains);
      if same {
        return previous;
      }
    }
    r := new Chains(chains);
  }

  method SameChains(left: seq<string>, right: seq<string>) returns (same: bool)
    ensures same <==> left == right
  {
    if |left| != |right| {
      return false;
    }
    for i := 0 to |left|
      invariant left[..i] == right[..i]
    {
      if left[i] != right[i] {
        return false;
      }
      assert left[..i + 1] == left[..i] + [left[i]] && right[..i + 1] == right[..i] + [right[i]];
    }
    assert left[..|left|] == left && right[..|left|] == right;
    return true;
  }

  predicate IsPlain(item: Item) {
    Plain(item.metadata) == item.metadata
  }

  /** What the table shows is what rebuilding would show, and the object before is kept exactly if that changes nothing. */
  method NormalizeConnection(connection: Received, previous: Connection?) returns (r: Connection)
    requires previous != null ==> previous.id == connection.id && IsPlain(previous.View())
    ensures r.View() == Rebuilt(connection, ViewOf(previous))
    ensures r == previous || fresh(r)
    ensures r == previous <==> previous != null && previous.View() == Rebuilt(connection, ViewOf(previous))
  {
    var metadata := NormalizeMetadata(connection.metadata, if previous == null then null else previous.metadata);
    var chains := NormalizeChains(connection.chains.GetOr([]), if previous == null then null else previous.chains);
    var upload, download := connection.upload.GetOr(0), connection.download.GetOr(0);
    var curUpload := if previous == null then 0 else upload - previous.upload;
    var curDownload := if previous == null then 0 else download - previous.download;
    if
      && previous != null
      && previous.metadata == metadata
      && previous.chains == chains
      && previous.upload == upload
      && previous.download == download
      && previous.curUpload == curUpload
      && previous.curDownload == curDownload
      && previous.rule == Text(connection.rule)
      && previous.rulePayload == Text(connection.rulePayload)
      && previous.start == Text(connection.start)
    {
      return previous;
    }
    r := new Connection(connection, metadata, chains, curUpload, curDownload);
  }

  /** The table as the program keeps it. */
  datatype Data = Data(uploadTotal: int, downloadTotal: int, active: seq<Connection>, closed: seq<Connection>) {
    function View(): Monitor {
      Monitor(uploadTotal, downloadTotal, Views(active), Views(closed))
    }

    predicate Plain() {
      forall c | c in active :: IsPlain(c.View())
    }
  }

  /** The previous connections by identity, less those already received again. */
  ghost predicate Index(known: map<string, Connection>, active: seq<Connection>, next: seq<Received>) {
    && (forall id :: id in known <==> Latest(Views(active), id).Some? && !Named(next, id))
    && (forall id | id in known :: known[id] in active && known[id].id == id)
    && (forall id | id in known :: Some(known[id].View()) == Latest(Views(active), id))
  }

  lemma NamedExtends(next: seq<Received>, i: nat, id: string)
    requires i < |next|
    ensures Named(next[..i + 1], id) <==> Named(next[..i], id) || next[i].id == id
  {
    assert next[..i + 1] == next[..i] + [next[i]];
  }

  method IndexById(active: seq<Connection>) returns (known: map<string, Connection>)
    ensures Index(known, active, [])
  {
    known := map[];
    for i := 0 to |active|
      invariant Index(known, active[..i], [])
    {
      assert Views(active[..i + 1])[..i] == Views(active[..i]);
      known := known[active[i].id := active[i]];
    }
    assert active[..|active|] == active;
  }

  /** Takes the connection before, if no earlier one has taken it. */
  method TakePrevious(active: seq<Connection>, next: seq<Received>, i: nat, index: map<string, Connection>)
    returns (previous: Connection?, known: map<string, Connection>)
    requires i < |next| && Index(index, active, next[..i])
    ensures ViewOf(previous) == Before(Views(active), next, i)
    ensures previous != null ==> previous in active && previous.id == next[i].id
    ensures Index(known, active, next[..i + 1])
  {
    previous, known := null, index;
    if next[i].id in known {
      previous := known[next[i].id];
      known := known - {next[i].id};
    }
    forall id ensures Named(next[..i + 1], id) <==> Named(next[..i], id) || next[i].id == id {
      NamedExtends(next, i, id);
    }
  }

  /** A row and the connection before it: what is shown is what rebuilding shows, and an object is kept exactly if nothing changed. */
  ghost predicate RowOf(row: Connection, active: seq<Connection>, next: seq<Received>, i: nat)
    requires i < |next|
  {
    var before := Before(Views(active), next, i);
    row.View() == Rebuilt(next[i], before) && (row in active <==> before == Some(row.View()))
  }

  method RebuildAll(active: seq<Connection>, next: seq<Received>, index: map<string, Connection>)
    returns (rows: seq<Connection>, known: map<string, Connection>)
    requires Index(index, active, []) && forall c | c in active :: IsPlain(c.View())
    ensures |rows| == |next| && forall i :: 0 <= i < |rows| ==> RowOf(rows[i], active, next, i)
    ensures Index(known, active, next)
  {
    rows, known := [], index;
    for i := 0 to |next|
      invariant |rows| == i && Index(known, active, next[..i])
      invariant forall k :: 0 <= k < i ==> RowOf(rows[k], active, next, k)
    {
      var previous;
      previous, known := TakePrevious(active, next, i, known);
      var row := NormalizeConnection(next[i], previous);
      assert RowOf(row, active, next, i);
      rows := rows + [row];
    }
    assert next[..|next|] == next;
  }

  lemma ViewsExtend(objects: seq<Connection>, c: Connection)
    ensures Views(objects + [c]) == Views(objects) + [c.View()]
  {}

  lemma GoneExtends(active: seq<Connection>, next: seq<Received>, i: nat)
    requires i < |active|
    ensures Gone(Views(active[..i + 1]), next)
            == Gone(Views(active[..i]), next) + if Named(next, active[i].id) then [] else [active[i].View()]
  {
    assert active[..i + 1] == active[..i] + [active[i]];
    ViewsExtend(active[..i], active[i]);
    var views := Views(active[..i]) + [active[i].View()];
    assert views[..i] == Views(active[..i]) && views[i] == active[i].View();
  }

  lemma ViewsConcat(a: seq<Connection>, b: seq<Connection>)
    ensures Views(a + b) == Views(a) + Views(b)
  {}

  lemma ViewsSkip(objects: seq<Connection>, n: nat)
    ensures Views(Skip(objects, n)) == Skip(Views(objects), n)
  {}

  lemma ViewsKept(closed: seq<Connection>, n: nat)
    ensures Views(Kept(closed, n)) == Kept(Views(closed), n)
  {
    ViewsSkip(closed, AtLeast0(|closed| + n - MAX_CLOSED));
  }

  lemma SkipExtends<T>(kept: seq<T>, items: seq<T>, x: T, n: nat)
    ensures kept + Skip(items + [x], n) == kept + Skip(items, n) + if |items| < n then [] else [x]
    ensures AtLeast0(n - |items + [x]|) == if |items| < n then AtLeast0(n - |items|) - 1 else 0
  {}

  lemma IndexedExactlyIfGone(known: map<string, Connection>, active: seq<Connection>, next: seq<Received>)
    requires Index(known, active, next)
    ensures forall i :: 0 <= i < |active| ==> (active[i].id in known <==> !Named(next, active[i].id))
  {
    forall i | 0 <= i < |active| ensures active[i].id in known <==> !Named(next, active[i].id) {
      assert Views(active)[i] in Views(active);
    }
  }

  lemma RetiredNext(kept: seq<Connection>, gone: seq<Connection>, c: Connection, excess: nat)
    ensures kept + Skip(gone + [c], excess) == kept + Skip(gone, excess) + if |gone| < excess then [] else [c]
    ensures AtLeast0(excess - |gone + [c]|) == if |gone| < excess then AtLeast0(excess - |gone|) - 1 else 0
    ensures Views(gone + [c]) == Views(gone) + [c.View()]
  {
    SkipExtends(kept, gone, c, excess);
    ViewsExtend(gone, c);
  }

  /** Puts what has gone at the end of the history, behind what is kept of it. */
  method Retire(kept: seq<Connection>, active: seq<Connection>, known: map<string, Connection>, excess: nat, ghost next: seq<Received>)
    returns (r: seq<Connection>)
    requires forall i :: 0 <= i < |active| ==> (active[i].id in known <==> !Named(next, active[i].id))
    ensures Views(r) == Views(kept) + Skip(Gone(Views(active), next), excess)
  {
    r := kept;
    var skip := excess;
    ghost var gone := [];
    for i := 0 to |active|
      invariant Views(gone) == Gone(Views(active[..i]), next)
      invariant skip == AtLeast0(excess - |gone|)
      invariant r == kept + Skip(gone, excess)
    {
      GoneExtends(active, next, i);
      if active[i].id in known {
        RetiredNext(kept, gone, active[i], excess);
        gone := gone + [active[i]];
        if skip > 0 {
          skip := skip - 1;
        } else {
          r := r + [active[i]];
        }
      }
    }
    assert active[..|active|] == active;
    ViewsSkip(gone, excess);
    ViewsConcat(kept, Skip(gone, excess));
  }

  method RetireGone(closed: seq<Connection>, active: seq<Connection>, known: map<string, Connection>, ghost next: seq<Received>)
    returns (r: seq<Connection>)
    requires forall i :: 0 <= i < |active| ==> (active[i].id in known <==> !Named(next, active[i].id))
    ensures Views(r) == History(Views(closed), Gone(Views(active), next), |known|)
  {
    var removed := |known|;
    if removed == 0 {
      return closed;
    }
    var kept := Kept(closed, removed);
    ViewsKept(closed, removed);
    r := Retire(kept, active, known, AtLeast0(removed - (MAX_CLOSED - |kept|)), next);
  }

  lemma IndexKeys(known: map<string, Connection>, active: seq<Connection>, next: seq<Received>)
    requires Index(known, active, next)
    ensures |known| == |GoneIds(Views(active), next)|
  {
    forall id ensures id in known.Keys <==> id in GoneIds(Views(active), next) {
      GoneIdsAre(Views(active), next, id);
    }
    assert known.Keys == GoneIds(Views(active), next);
  }

  /**
   Reuse of objects cannot be seen: a merge shows what rebuilding every row would show.  A row is an
   object from before exactly if rebuilding would have made the same again.
   */
  method MergeConnectionSnapshot(payload: Payload, previous: Data) returns (r: Data)
    requires previous.Plain()
    ensures r.Plain()
    ensures r.View() == Merge(payload, previous.View())
    ensures forall i :: 0 <= i < |r.active| ==>
              (r.active[i] in previous.active <==>
               Before(Views(previous.active), payload.connections.GetOr([]), i) == Some(r.active[i].View()))
  {
    var next := payload.connections.GetOr([]);
    var index := IndexById(previous.active);
    var active, known := RebuildAll(previous.active, next, index);
    assert Views(active) == Rebuild(Views(previous.active), next);
    IndexKeys(known, previous.active, next);
    IndexedExactlyIfGone(known, previous.active, next);
    var closed := RetireGone(previous.closed, previous.active, known, next);
    r := Data(payload.uploadTotal.GetOr(0), payload.downloadTotal.GetOr(0), active, closed);
  }

  /** The module's state. */
  class ConnectionStore {
    var data: Data

    constructor ()
      ensures data.View() == NO_CONNECTIONS && data.Plain()
    {
      data := Data(0, 0, [], []);
    }

    method Flush(payload: Payload)
      requires data.Plain()
      modifies this
      ensures data.Plain() && data.View() == Merge(payload, old(data.View()))
    {
      data := MergeConnectionSnapshot(payload, data);
    }

    method ClearClosedConnectionData() returns (changed: bool)
      requires data.Plain()
      modifies this
      ensures data.Plain() && data.View() == ClearClosed(old(data.View()))
      ensures data.closed == [] && data.active == old(data.active)
      ensures data.uploadTotal == old(data.uploadTotal) && data.downloadTotal == old(data.downloadTotal)
      ensures changed <==> old(data.closed) != []
    {
      changed := |data.closed| != 0;
      if changed {
        data := data.(closed := []);
      }
    }
  }
}
