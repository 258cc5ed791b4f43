/** What rebuilding a chain writes, when reading it back ends, and what it returns. */
module ProxyChainTheorems {
  import opened Common
  import opened ProxyChain

  // ---------------------------------------------------------------- rebuilding

  lemma {:induction false} LinkKeepsNames(proxies: seq<Value>, chain: seq<Value>)
    ensures forall k :: 0 <= k < |proxies| ==> Link(proxies, chain)[k].Get("name") == proxies[k].Get("name")
    ensures forall k :: 0 <= k < |proxies| ==> Link(proxies, chain)[k].WithoutLink() == proxies[k].WithoutLink()
  {
    if chain != [] {
      var n := |chain| - 1;
      LinkKeepsNames(proxies, chain[..n]);
      var before := Link(proxies, chain[..n]);
      var k := FindNamed(before, chain[n]);
      if k < |before| && n > 0 {
        assert before[k].WithLink(chain[n - 1]).WithoutLink() == before[k].WithoutLink();
      }
    }
  }

  lemma StripKeepsNames(proxies: seq<Value>)
    ensures forall k :: 0 <= k < |proxies| ==> Strip(proxies)[k].Get("name") == proxies[k].Get("name")
    ensures forall k :: 0 <= k < |proxies| ==> Strip(proxies)[k].WithoutLink() == proxies[k].WithoutLink()
    ensures forall k :: 0 <= k < |proxies| ==> Strip(proxies)[k].Get("dialer-proxy") == None
  {
    forall k | 0 <= k < |proxies| && proxies[k].Mapping?
      ensures Strip(proxies)[k].WithoutLink() == proxies[k].WithoutLink()
    {
      var fields := proxies[k].fields;
      assert fields - {"dialer-proxy"} - {"dialer-proxy"} == fields - {"dialer-proxy"};
    }
  }

  /** A rebuild touches nothing but `dialer-proxy` fields. */
  lemma RebuildChangesOnlyLinks(proxies: seq<Value>, chain: Option<Value>)
    ensures var rebuilt := Rebuild(proxies, chain);
            && |rebuilt| == |proxies|
            && Strip(rebuilt) == Strip(proxies)
            && forall k :: 0 <= k < |proxies| ==> rebuilt[k].Get("name") == proxies[k].Get("name")
  {
    StripKeepsNames(proxies);
    if chain.Some? && chain.value.Sequence? {
      LinkKeepsNames(Strip(proxies), chain.value.items);
    }
  }

  /** A rebuild leaves no trace of the one before it. */
  lemma LaterRebuildOverrides(proxies: seq<Value>, earlier: Option<Value>, later: Option<Value>)
    ensures Rebuild(Rebuild(proxies, earlier), later) == Rebuild(proxies, later)
  {
    RebuildChangesOnlyLinks(proxies, earlier);
  }

  /** The last position of the chain, other than the first, that names the proxy at `k`. */
  function LastLink(proxies: seq<Value>, chain: seq<Value>, k: nat): (r: Option<nat>)
    ensures r.Some? ==> 0 < r.value < |chain| && FindNamed(proxies, chain[r.value]) == k
    ensures r.Some? ==> forall i :: r.value < i < |chain| ==> FindNamed(proxies, chain[i]) != k
    ensures r.None? ==> forall i :: 0 < i < |chain| ==> FindNamed(proxies, chain[i]) != k
  {
    if chain == [] then None
    else
      var n := |chain| - 1;
      if n > 0 && FindNamed(proxies, chain[n]) == k then Some(n) else LastLink(proxies, chain[..n], k)
  }

  lemma {:induction false} SameNamesSameFind(a: seq<Value>, b: seq<Value>, name: Value)
    requires |a| == |b| && forall k :: 0 <= k < |a| ==> a[k].Get("name") == b[k].Get("name")
    ensures FindNamed(a, name) == FindNamed(b, name)
  {
    var i, j := FindNamed(a, name), FindNamed(b, name);
    assert forall m :: 0 <= m < j ==> a[m].Get("name") != Some(name);
    assert j < |a| ==> a[j].Get("name") == Some(name);
  }

  /** What the last entry of a chain writes. */
  lemma LinkStep(proxies: seq<Value>, chain: seq<Value>, k: nat)
    requires k < |proxies| && chain != []
    ensures var n := |chain| - 1;
            Link(proxies, chain)[k].Get("dialer-proxy") ==
              if n > 0 && FindNamed(proxies, chain[n]) == k then Some(chain[n - 1])
              else Link(proxies, chain[..n])[k].Get("dialer-proxy")
  {
    var n := |chain| - 1;
    LinkKeepsNames(proxies, chain[..n]);
    SameNamesSameFind(Link(proxies, chain[..n]), proxies, chain[n]);
  }

  /** What each proxy's link is after linking a chain. */
  lemma {:induction false} LinkWrites(proxies: seq<Value>, chain: seq<Value>, k: nat)
    requires k < |proxies|
    ensures Link(proxies, chain)[k].Get("dialer-proxy") ==
            match LastLink(proxies, chain, k)
            case Some(i) => Some(chain[i - 1])
            case None => proxies[k].Get("dialer-proxy")
  {
    if chain != [] {
      LinkWrites(proxies, chain[..|chain| - 1], k);
      LinkStep(proxies, chain, k);
    }
  }

  // ---------------------------------------------------------------- when the walk ends

  /** The positions the walk visits. */
  function Trail(proxies: seq<Value>, name: Option<Option<string>>, n: nat): (r: seq<nat>)
    requires StopsWithin(proxies, name, n)
    ensures |r| <= n && forall i :: 0 <= i < |r| ==> r[i] < |proxies|
    decreases n
  {
    var k := FindLinked(proxies, name);
    if k == |proxies| then [] else [k] + Trail(proxies, Target(proxies[k]), n - 1)
  }

  lemma {:induction false} VisitedAlong(proxies: seq<Value>, name: Option<Option<string>>, n: nat)
    requires StopsWithin(proxies, name, n)
    ensures |Visited(proxies, name, n)| == |Trail(proxies, name, n)|
    ensures forall i :: 0 <= i < |Visited(proxies, name, n)| ==>
                          Visited(proxies, name, n)[i] == proxies[Trail(proxies, name, n)[i]]
    decreases n
  {
    var k := FindLinked(proxies, name);
    if k < |proxies| {
      VisitedAlong(proxies, Target(proxies[k]), n - 1);
    }
  }

  lemma {:induction false} MoreStepsStillStop(proxies: seq<Value>, name: Option<Option<string>>, n: nat, m: nat)
    requires StopsWithin(proxies, name, n) && n <= m
    ensures StopsWithin(proxies, name, m)
    ensures Trail(proxies, name, m) == Trail(proxies, name, n)
    decreases n
  {
    var k := FindLinked(proxies, name);
    if k < |proxies| {
      MoreStepsStillStop(proxies, Target(proxies[k]), n - 1, m - 1);
    }
  }

  lemma {:induction false} StopsWithinTrail(proxies: seq<Value>, name: Option<Option<string>>, n: nat)
    requires StopsWithin(proxies, name, n)
    ensures StopsWithin(proxies, name, |Trail(proxies, name, n)|)
    decreases n
  {
    var k := FindLinked(proxies, name);
    if k < |proxies| {
      StopsWithinTrail(proxies, Target(proxies[k]), n - 1);
    }
  }

  /** From a visited position the rest of the walk is determined. */
  lemma {:induction false} TrailTail(proxies: seq<Value>, name: Option<Option<string>>, n: nat, i: nat)
    requires StopsWithin(proxies, name, n) && i < |Trail(proxies, name, n)|
    ensures proxies[Trail(proxies, name, n)[i]].Get("dialer-proxy").Some?
    ensures StopsWithin(proxies, Target(proxies[Trail(proxies, name, n)[i]]), n)
    ensures |Trail(proxies, Target(proxies[Trail(proxies, name, n)[i]]), n)| == |Trail(proxies, name, n)| - i - 1
    decreases n
  {
    var next := Target(proxies[FindLinked(proxies, name)]);
    if i == 0 {
      MoreStepsStillStop(proxies, next, n - 1, n);
    } else {
      TrailTail(proxies, next, n - 1, i - 1);
      var p := Trail(proxies, next, n - 1)[i - 1];
      assert Trail(proxies, name, n)[i] == p;
      MoreStepsStillStop(proxies, Target(proxies[p]), n - 1, n);
    }
  }

  /** A walk that ends never visits a position twice. */
  lemma TrailIsDistinct(proxies: seq<Value>, name: Option<Option<string>>, n: nat, i: nat, j: nat)
    requires StopsWithin(proxies, name, n) && i < j < |Trail(proxies, name, n)|
    ensures Trail(proxies, name, n)[i] != Trail(proxies, name, n)[j]
  {
    TrailTail(proxies, name, n, i);
    TrailTail(proxies, name, n, j);
  }

  function Range(bound: nat): (r: set<nat>)
    ensures |r| == bound && forall k: nat :: k in r <==> k < bound
  {
    if bound == 0 then {} else Range(bound - 1) + {bound - 1}
  }

  lemma {:induction false} DistinctFit(xs: seq<nat>, room: set<nat>)
    requires forall i, j :: 0 <= i < j < |xs| ==> xs[i] != xs[j]
    requires forall i :: 0 <= i < |xs| ==> xs[i] in room
    ensures |xs| <= |room|
  {
    if xs != [] {
      var n := |xs| - 1;
      DistinctFit(xs[..n], room - {xs[n]});
    }
  }

  /**
   The walk has no bound of its own.  It ends, if it ends at all, within as many steps as there
   are proxies: any longer walk has come back to where it was and goes round for ever.
   */
  lemma WalkEndsExactlyWhen(proxies: seq<Value>, exit: string)
    ensures Stops(proxies, Some(Some(exit))) <==> Readable(proxies, exit)
  {
    var name := Some(Some(exit));
    if Stops(proxies, name) {
      var n: nat :| StopsWithin(proxies, name, n);
      var trail := Trail(proxies, name, n);
      forall i, j | 0 <= i < j < |trail| ensures trail[i] != trail[j] {
        TrailIsDistinct(proxies, name, n, i, j);
      }
      DistinctFit(trail, Range(|proxies|));
      StopsWithinTrail(proxies, name, n);
      MoreStepsStillStop(proxies, name, |trail|, |proxies|);
    }
  }

  // ---------------------------------------------------------------- the round trip

  /** The chain as the YAML sequence of its names. */
  function AsValues(chain: seq<string>): (r: seq<Value>)
    ensures |r| == |chain| && forall i :: 0 <= i < |chain| ==> r[i] == Str(chain[i])
  {
    seq(|chain|, i requires 0 <= i < |chain| => Str(chain[i]))
  }

  function RebuiltFrom(proxies: seq<Value>, chain: seq<string>): seq<Value> {
    Rebuild(proxies, Some(Sequence(AsValues(chain))))
  }

  /** Where a chain member is. */
  function Place(proxies: seq<Value>, name: string): nat {
    FindNamed(proxies, Str(name))
  }

  /** Every chain member is the name of some proxy. */
  ghost predicate AllPresent(proxies: seq<Value>, chain: seq<string>) {
    forall i :: 0 <= i < |chain| ==> Place(proxies, chain[i]) < |proxies|
  }

  /** The links of a rebuilt configuration, in terms of the chain alone. */
  lemma RebuiltLinks(proxies: seq<Value>, chain: seq<string>, k: nat)
    requires k < |proxies|
    ensures |RebuiltFrom(proxies, chain)| == |proxies|
    ensures RebuiltFrom(proxies, chain)[k].Get("name") == proxies[k].Get("name")
    ensures RebuiltFrom(proxies, chain)[k].Get("dialer-proxy") ==
            match LastLink(proxies, AsValues(chain), k)
            case Some(i) => Some(Str(chain[i - 1]))
            case None => None
  {
    RebuildChangesOnlyLinks(proxies, Some(Sequence(AsValues(chain))));
    LinkWritesStripped(proxies, AsValues(chain), k);
  }

  lemma LinkWritesStripped(proxies: seq<Value>, chain: seq<Value>, k: nat)
    requires k < |proxies|
    ensures Link(Strip(proxies), chain)[k].Get("dialer-proxy") ==
            match LastLink(proxies, chain, k)
            case Some(i) => Some(chain[i - 1])
            case None => None
  {
    StripKeepsNames(proxies);
    LinkWrites(Strip(proxies), chain, k);
    forall i | 0 <= i < |chain| ensures FindNamed(Strip(proxies), chain[i]) == FindNamed(proxies, chain[i]) {
      SameNamesSameFind(Strip(proxies), proxies, chain[i]);
    }
    LastLinkSame(Strip(proxies), proxies, chain, k);
  }

  lemma {:induction false} LastLinkSame(a: seq<Value>, b: seq<Value>, chain: seq<Value>, k: nat)
    requires forall i :: 0 <= i < |chain| ==> FindNamed(a, chain[i]) == FindNamed(b, chain[i])
    ensures LastLink(a, chain, k) == LastLink(b, chain, k)
  {
    if chain != [] {
      LastLinkSame(a, b, chain[..|chain| - 1], k);
    }
  }

  /** One step of the walk in a rebuilt configuration: to the member before the last mention. */
  lemma StepBack(proxies: seq<Value>, chain: seq<string>, i: nat, j: nat)
    requires i <= j < |chain| && 0 < j && Place(proxies, chain[i]) < |proxies|
    requires chain[i] == chain[j] && forall m :: j < m < |chain| ==> chain[m] != chain[j]
    ensures var rebuilt := RebuiltFrom(proxies, chain);
            && |rebuilt| == |proxies|
            && FindLinked(rebuilt, Some(Some(chain[i]))) == Place(proxies, chain[i])
            && rebuilt[Place(proxies, chain[i])].Get("dialer-proxy") == Some(Str(chain[j - 1]))
  {
    var rebuilt, k := RebuiltFrom(proxies, chain), Place(proxies, chain[j]);
    RebuiltLinks(proxies, chain, k);
    var last := LastLink(proxies, AsValues(chain), k);
    assert last.Some? by {
      assert FindNamed(proxies, AsValues(chain)[j]) == k;
    }
    SamePlaceSameName(proxies, chain, j, last.value);
    assert last == Some(j);
    assert Linked(rebuilt[k], Some(Some(chain[i])));
    forall m | 0 <= m < k ensures !Linked(rebuilt[m], Some(Some(chain[i]))) {
      RebuiltLinks(proxies, chain, m);
      assert proxies[m].Get("name") != Some(Str(chain[i]));
    }
  }

  /** The walk leads from one name to another. */
  ghost predicate StepsTo(proxies: seq<Value>, name: string, next: string) {
    var k := FindLinked(proxies, Some(Some(name)));
    k < |proxies| && Target(proxies[k]) == Some(Some(next))
  }

  lemma StepBackTo(proxies: seq<Value>, chain: seq<string>, i: nat, j: nat)
    requires i <= j < |chain| && 0 < j && Place(proxies, chain[i]) < |proxies|
    requires chain[i] == chain[j] && forall m :: j < m < |chain| ==> chain[m] != chain[j]
    ensures StepsTo(RebuiltFrom(proxies, chain), chain[i], chain[j - 1])
  {
    StepBack(proxies, chain, i, j);
  }

  lemma SamePlaceSameName(proxies: seq<Value>, chain: seq<string>, i: nat, j: nat)
    requires i < |chain| && j < |chain| && Place(proxies, chain[i]) == Place(proxies, chain[j]) < |proxies|
    ensures chain[i] == chain[j]
  {}

  /** The entry of a duplicate-free chain has no link. */
  lemma EntryHasNoLink(proxies: seq<Value>, chain: seq<string>)
    requires AllPresent(proxies, chain) && Distinct(chain) && chain != []
    ensures var rebuilt := RebuiltFrom(proxies, chain);
            && |rebuilt| == |proxies|
            && FindLinked(rebuilt, Some(Some(chain[0]))) == |rebuilt|
            && FindEntry(rebuilt, Some(Some(chain[0]))) == Place(proxies, chain[0])
  {
    var rebuilt := RebuiltFrom(proxies, chain);
    RebuiltLinks(proxies, chain, Place(proxies, chain[0]));
    forall m | 0 <= m < |proxies|
      ensures rebuilt[m].NameAsStr() == Some(Some(chain[0])) <==> proxies[m].Get("name") == Some(Str(chain[0]))
      ensures !Linked(rebuilt[m], Some(Some(chain[0])))
    {
      RebuiltLinks(proxies, chain, m);
      var last := LastLink(proxies, AsValues(chain), m);
      if last.Some? {
        assert proxies[m].Get("name") == Some(Str(chain[last.value]));
        assert chain[0] != chain[last.value];
      }
    }
  }

  /** The links lead from each chain member to the one before it, and the first has none. */
  ghost predicate LinksBack(rebuilt: seq<Value>, places: seq<nat>, chain: seq<string>) {
    && |places| == |chain| > 0
    && FindLinked(rebuilt, Some(Some(chain[0]))) == |rebuilt|
    && (forall i :: 0 < i < |chain| ==> places[i] < |rebuilt|)
    && (forall i :: 0 < i < |chain| ==> FindLinked(rebuilt, Some(Some(chain[i]))) == places[i])
    && (forall i :: 0 < i < |chain| ==> rebuilt[places[i]].Get("dialer-proxy") == Some(Str(chain[i - 1])))
  }

  function Places(proxies: seq<Value>, chain: seq<string>): (r: seq<nat>)
    ensures |r| == |chain| && forall i :: 0 <= i < |chain| ==> r[i] == Place(proxies, chain[i])
  {
    seq(|chain|, i requires 0 <= i < |chain| => Place(proxies, chain[i]))
  }

  lemma RebuildLinksBack(proxies: seq<Value>, chain: seq<string>)
    requires AllPresent(proxies, chain) && Distinct(chain) && chain != []
    ensures LinksBack(RebuiltFrom(proxies, chain), Places(proxies, chain), chain)
  {
    EntryHasNoLink(proxies, chain);
    var rebuilt := RebuiltFrom(proxies, chain);
    forall i | 0 < i < |chain|
      ensures FindLinked(rebuilt, Some(Some(chain[i]))) == Place(proxies, chain[i])
      ensures Place(proxies, chain[i]) < |rebuilt|
      ensures rebuilt[Place(proxies, chain[i])].Get("dialer-proxy") == Some(Str(chain[i - 1]))
    {
      StepBack(proxies, chain, i, i);
    }
  }

  /** Walking back from position `i` visits `i`, `i - 1`, …, `1` and ends at the first name. */
  lemma {:induction false} WalkFrom(rebuilt: seq<Value>, places: seq<nat>, chain: seq<string>, i: nat)
    requires LinksBack(rebuilt, places, chain) && i < |chain|
    ensures StopsWithin(rebuilt, Some(Some(chain[i])), i)
    ensures End(rebuilt, Some(Some(chain[i])), i) == Some(Some(chain[0]))
    ensures |Trail(rebuilt, Some(Some(chain[i])), i)| == i
    ensures forall j :: 0 <= j < i ==> Trail(rebuilt, Some(Some(chain[i])), i)[j] == places[i - j]
  {
    if i > 0 {
      WalkFrom(rebuilt, places, chain, i - 1);
      LinkLeadsBack(rebuilt, places, chain, i);
      WalkStep(rebuilt, Some(Some(chain[i])), Some(Some(chain[i - 1])), places[i], i - 1);
    }
  }

  lemma LinkLeadsBack(rebuilt: seq<Value>, places: seq<nat>, chain: seq<string>, i: nat)
    requires LinksBack(rebuilt, places, chain) && 0 < i < |chain|
    ensures FindLinked(rebuilt, Some(Some(chain[i]))) == places[i] < |rebuilt|
    ensures rebuilt[places[i]].Get("dialer-proxy").Some? && Target(rebuilt[places[i]]) == Some(Some(chain[i - 1]))
  {}

  /** One more step in front of a walk. */
  lemma WalkStep(proxies: seq<Value>, name: Option<Option<string>>, next: Option<Option<string>>, k: nat, n: nat)
    requires FindLinked(proxies, name) == k < |proxies| && Target(proxies[k]) == next && StopsWithin(proxies, next, n)
    ensures StopsWithin(proxies, name, n + 1)
    ensures End(proxies, name, n + 1) == End(proxies, next, n)
    ensures Trail(proxies, name, n + 1) == [k] + Trail(proxies, next, n)
  {}

  lemma {:induction false} MoreStepsSameEnd(proxies: seq<Value>, name: Option<Option<string>>, n: nat, m: nat)
    requires StopsWithin(proxies, name, n) && StopsWithin(proxies, name, m)
    ensures End(proxies, name, n) == End(proxies, name, m)
    ensures Trail(proxies, name, n) == Trail(proxies, name, m)
    decreases n
  {
    var k := FindLinked(proxies, name);
    if k < |proxies| {
      MoreStepsSameEnd(proxies, Target(proxies[k]), n - 1, m - 1);
    }
  }

  /** Where the walk over a chain's links goes, within the bound of `Readable`. */
  ghost predicate WalksBack(rebuilt: seq<Value>, places: seq<nat>, exit: string, first: string) {
    && |places| > 0 && Readable(rebuilt, exit)
    && End(rebuilt, Some(Some(exit)), |rebuilt|) == Some(Some(first))
    && var trail, n := Trail(rebuilt, Some(Some(exit)), |rebuilt|), |places| - 1;
       |trail| == n && forall j :: 0 <= j < n ==> trail[j] == places[n - j]
  }

  lemma LinkedWalk(rebuilt: seq<Value>, places: seq<nat>, chain: seq<string>)
    requires |chain| > 0 && LinksBack(rebuilt, places, chain)
    ensures WalksBack(rebuilt, places, chain[|chain| - 1], chain[0])
  {
    var n := |chain| - 1;
    WalkFrom(rebuilt, places, chain, n);
    assert Stops(rebuilt, Some(Some(chain[n])));
    WalkEndsExactlyWhen(rebuilt, chain[n]);
    MoreStepsSameEnd(rebuilt, Some(Some(chain[n])), n, |rebuilt|);
  }

  /** The walk visits the proxies at these places but the first, last one first, and ends at the name `first`. */
  ghost predicate Visits(proxies: seq<Value>, places: seq<nat>, exit: string, first: string) {
    && Readable(proxies, exit) && End(proxies, Some(Some(exit)), |proxies|) == Some(Some(first))
    && VisitsPlaces(Visited(proxies, Some(Some(exit)), |proxies|), proxies, places)
  }

  predicate VisitsPlaces(visited: seq<Value>, proxies: seq<Value>, places: seq<nat>) {
    && |visited| + 1 == |places|
    && (forall i :: 0 < i < |places| ==> places[i] < |proxies|)
    && forall j :: 0 <= j < |visited| ==> visited[j] == proxies[places[|visited| - j]]
  }

  lemma LinkedVisits(rebuilt: seq<Value>, places: seq<nat>, chain: seq<string>)
    requires |chain| > 0 && LinksBack(rebuilt, places, chain)
    ensures Visits(rebuilt, places, chain[|chain| - 1], chain[0])
  {
    LinkedWalk(rebuilt, places, chain);
    VisitedAlong(rebuilt, Some(Some(chain[|chain| - 1])), |rebuilt|);
  }

  /** Reading linked proxies back puts them in chain order. */
  lemma LinkedReadBack(rebuilt: seq<Value>, places: seq<nat>, exit: string, first: string)
    requires Visits(rebuilt, places, exit, first)
    requires FindEntry(rebuilt, Some(Some(first))) == places[0] < |rebuilt|
    ensures |ReadBack(rebuilt, exit)| == (if |places| == 1 then 0 else |places|)
    ensures forall i :: 0 <= i < |ReadBack(rebuilt, exit)| ==> ReadBack(rebuilt, exit)[i] == rebuilt[places[i]]
  {
    var visited := Visited(rebuilt, Some(Some(exit)), |rebuilt|);
    if visited != [] {
      BackwardsOfWalk(rebuilt, places, visited);
    }
  }

  /** A walk from the last place to the second, and then the first, read backwards. */
  lemma BackwardsOfWalk(rebuilt: seq<Value>, places: seq<nat>, visited: seq<Value>)
    requires VisitsPlaces(visited, rebuilt, places) && places[0] < |rebuilt|
    ensures var back := Reversed(visited + [rebuilt[places[0]]]);
            |back| == |places| && forall i :: 0 <= i < |back| ==> back[i] == rebuilt[places[i]]
  {
    var forward, n := visited + [rebuilt[places[0]]], |visited|;
    forall i | 0 <= i <= n ensures Reversed(forward)[i] == rebuilt[places[i]] {
      assert Reversed(forward)[i] == forward[n - i];
    }
  }

  /**
   The round trip.  For a duplicate-free chain whose members are all present, reading back from
   the last name ends and returns exactly the chain's proxies, as rebuilt, in chain order.  A
   chain of one name has no links and reads back empty.
   */
  lemma ChainRoundTrips(proxies: seq<Value>, chain: seq<string>)
    requires AllPresent(proxies, chain) && Distinct(chain) && chain != []
    ensures var rebuilt, exit := RebuiltFrom(proxies, chain), chain[|chain| - 1];
            && |rebuilt| == |proxies|
            && Readable(rebuilt, exit)
            && |ReadBack(rebuilt, exit)| == (if |chain| == 1 then 0 else |chain|)
            && forall i :: 0 <= i < |ReadBack(rebuilt, exit)| ==>
                 ReadBack(rebuilt, exit)[i] == rebuilt[Place(proxies, chain[i])]
  {
    RebuildLinksBack(proxies, chain);
    EntryHasNoLink(proxies, chain);
    LinkedVisits(RebuiltFrom(proxies, chain), Places(proxies, chain), chain);
    LinkedReadBack(RebuiltFrom(proxies, chain), Places(proxies, chain), chain[|chain| - 1], chain[0]);
  }

  // ---------------------------------------------------------------- repeated names

  lemma {:induction false} LastMention(chain: seq<string>, i: nat) returns (j: nat)
    requires i < |chain|
    ensures i <= j < |chain| && chain[j] == chain[i]
    ensures forall m :: j < m < |chain| ==> chain[m] != chain[j]
    decreases |chain| - i
  {
    if exists m :: i < m < |chain| && chain[m] == chain[i] {
      var m :| i < m < |chain| && chain[m] == chain[i];
      j := LastMention(chain, m);
    } else {
      j := i;
    }
  }

  /** Where the last unbroken part of a chain begins: behind the last name that no proxy has. */
  function LastPart(proxies: seq<Value>, chain: seq<string>): (k: nat)
    ensures k <= |chain|
    ensures forall i :: k <= i < |chain| ==> Place(proxies, chain[i]) < |proxies|
    ensures k > 0 ==> Place(proxies, chain[k - 1]) == |proxies|
  {
    if chain == [] then 0
    else
      var n := |chain| - 1;
      if Place(proxies, chain[n]) == |proxies| then |chain| else LastPart(proxies, chain[..n])
  }

  ghost predicate PresentFrom(proxies: seq<Value>, chain: seq<string>, k: nat) {
    forall i :: k <= i < |chain| ==> Place(proxies, chain[i]) < |proxies|
  }

  /** From a repeated name on, every step leads to a name that is not before its first mention. */
  lemma LoopStep(proxies: seq<Value>, chain: seq<string>, a: nat, b: nat, i: nat) returns (p: nat)
    requires a < b < |chain| && chain[a] == chain[b]
    requires a <= i < |chain| && Place(proxies, chain[i]) < |proxies|
    ensures a <= p < |chain| && StepsTo(RebuiltFrom(proxies, chain), chain[i], chain[p])
  {
    var j := LastMention(chain, i);
    StepsBehind(chain, a, b, i, j);
    StepBackTo(proxies, chain, i, j);
    p := j - 1;
  }

  lemma StepsBehind(chain: seq<string>, a: nat, b: nat, i: nat, j: nat)
    requires a < b < |chain| && chain[a] == chain[b] && a <= i <= j < |chain| && chain[j] == chain[i]
    requires forall m :: j < m < |chain| ==> chain[m] != chain[j]
    ensures a < j
  {}

  /** Once a name repeats, the walk never gets past its first mention. */
  lemma {:induction false} RepeatNeverStops(proxies: seq<Value>, chain: seq<string>, a: nat, b: nat, i: nat, n: nat)
    requires PresentFrom(proxies, chain, a) && a < b < |chain| && chain[a] == chain[b]
    requires a <= i < |chain|
    ensures !StopsWithin(RebuiltFrom(proxies, chain), Some(Some(chain[i])), n)
    decreases n
  {
    var p := LoopStep(proxies, chain, a, b, i);
    if n == 0 {
      GoesOn(RebuiltFrom(proxies, chain), chain[i], chain[p], 0);
    } else {
      RepeatNeverStops(proxies, chain, a, b, p, n - 1);
      GoesOn(RebuiltFrom(proxies, chain), chain[i], chain[p], n - 1);
    }
  }

  /** A name that no proxy has is not linked by a rebuild. */
  lemma AbsentStops(proxies: seq<Value>, chain: seq<string>, name: string)
    requires Place(proxies, name) == |proxies|
    ensures |RebuiltFrom(proxies, chain)| == |proxies|
    ensures FindLinked(RebuiltFrom(proxies, chain), Some(Some(name))) == |proxies|
  {
    var rebuilt := RebuiltFrom(proxies, chain);
    RebuildChangesOnlyLinks(proxies, Some(Sequence(AsValues(chain))));
    forall m | 0 <= m < |proxies| ensures !Linked(rebuilt[m], Some(Some(name))) {
      assert proxies[m].Get("name") != Some(Str(name));
    }
  }

  lemma DistinctBehind(chain: seq<string>, k: nat, i: nat)
    requires k <= i < |chain| && Distinct(chain[k..])
    ensures forall m :: i < m < |chain| ==> chain[m] != chain[i]
  {
    forall m | i < m < |chain| ensures chain[m] != chain[i] {
      assert chain[k..][m - k] != chain[k..][i - k];
    }
  }

  lemma PartStep(proxies: seq<Value>, chain: seq<string>, i: nat)
    requires Distinct(chain[LastPart(proxies, chain)..]) && LastPart(proxies, chain) <= i < |chain| && 0 < i
    ensures StepsTo(RebuiltFrom(proxies, chain), chain[i], chain[i - 1])
  {
    DistinctBehind(chain, LastPart(proxies, chain), i);
    StepBackTo(proxies, chain, i, i);
  }

  lemma PartEnds(proxies: seq<Value>, chain: seq<string>)
    requires Distinct(chain[LastPart(proxies, chain)..]) && chain != []
    ensures var k := LastPart(proxies, chain);
            var front := chain[if k == 0 then 0 else k - 1];
            FindLinked(RebuiltFrom(proxies, chain), Some(Some(front))) == |RebuiltFrom(proxies, chain)|
  {
    var k := LastPart(proxies, chain);
    if k == 0 {
      assert chain[0..] == chain;
      EntryHasNoLink(proxies, chain);
    } else {
      AbsentStops(proxies, chain, chain[k - 1]);
    }
  }

  /** Without repeats the walk goes back through the last part and stops in front of it. */
  lemma {:induction false} PartStops(rebuilt: seq<Value>, chain: seq<string>, k: nat, i: nat)
    requires i < |chain| && k <= i + 1
    requires forall m :: k <= m < |chain| && 0 < m ==> StepsTo(rebuilt, chain[m], chain[m - 1])
    requires FindLinked(rebuilt, Some(Some(chain[if k == 0 then 0 else k - 1]))) == |rebuilt|
    ensures StopsWithin(rebuilt, Some(Some(chain[i])), i)
    decreases i
  {
    if i > 0 && k <= i {
      PartStops(rebuilt, chain, k, i - 1);
      GoesOn(rebuilt, chain[i], chain[i - 1], i - 1);
    }
  }

  lemma GoesOn(proxies: seq<Value>, name: string, next: string, n: nat)
    requires StepsTo(proxies, name, next)
    ensures StopsWithin(proxies, Some(Some(name)), n + 1) <==> StopsWithin(proxies, Some(Some(next)), n)
    ensures !StopsWithin(proxies, Some(Some(name)), 0)
  {}

  /**
   When a chain can be read back at all: exactly when it names no proxy twice behind the last name
   that no proxy has, or anywhere if all are present.  A repeated name there closes a loop of links,
   and the walk never ends; one in front is never reached.
   */
  lemma ReadableExactlyWhenDistinct(proxies: seq<Value>, chain: seq<string>)
    requires chain != []
    ensures Stops(RebuiltFrom(proxies, chain), Some(Some(chain[|chain| - 1])))
            <==> Distinct(chain[LastPart(proxies, chain)..])
  {
    if Distinct(chain[LastPart(proxies, chain)..]) {
      DistinctIsReadable(proxies, chain);
    } else {
      RepeatIsUnreadable(proxies, chain);
    }
  }

  lemma DistinctIsReadable(proxies: seq<Value>, chain: seq<string>)
    requires chain != [] && Distinct(chain[LastPart(proxies, chain)..])
    ensures Stops(RebuiltFrom(proxies, chain), Some(Some(chain[|chain| - 1])))
  {
    var rebuilt, k, n := RebuiltFrom(proxies, chain), LastPart(proxies, chain), |chain| - 1;
    forall m | k <= m < |chain| && 0 < m ensures StepsTo(rebuilt, chain[m], chain[m - 1]) {
      PartStep(proxies, chain, m);
    }
    PartEnds(proxies, chain);
    PartStops(rebuilt, chain, k, n);
    StopsAt(rebuilt, chain[n], n);
  }

  lemma StopsAt(proxies: seq<Value>, name: string, n: nat)
    requires StopsWithin(proxies, Some(Some(name)), n)
    ensures Stops(proxies, Some(Some(name)))
  {}

  lemma RepeatIsUnreadable(proxies: seq<Value>, chain: seq<string>)
    requires chain != [] && !Distinct(chain[LastPart(proxies, chain)..])
    ensures !Stops(RebuiltFrom(proxies, chain), Some(Some(chain[|chain| - 1])))
  {
    PresentBehind(proxies, chain);
    RepeatLoops(proxies, chain, LastPart(proxies, chain));
  }

  lemma PresentBehind(proxies: seq<Value>, chain: seq<string>)
    ensures PresentFrom(proxies, chain, LastPart(proxies, chain))
  {}

  lemma RepeatLoops(proxies: seq<Value>, chain: seq<string>, k: nat)
    requires k <= |chain| && PresentFrom(proxies, chain, k) && !Distinct(chain[k..])
    ensures chain != [] && !Stops(RebuiltFrom(proxies, chain), Some(Some(chain[|chain| - 1])))
  {
    var a, b := RepeatBehind(chain, k);
    LoopIsUnreadable(proxies, chain, a, b, |chain| - 1);
  }

  lemma LoopIsUnreadable(proxies: seq<Value>, chain: seq<string>, a: nat, b: nat, i: nat)
    requires PresentFrom(proxies, chain, a) && a < b < |chain| && chain[a] == chain[b] && a <= i < |chain|
    ensures !Stops(RebuiltFrom(proxies, chain), Some(Some(chain[i])))
  {
    if Stops(RebuiltFrom(proxies, chain), Some(Some(chain[i]))) {
      var n: nat :| StopsWithin(RebuiltFrom(proxies, chain), Some(Some(chain[i])), n);
      RepeatNeverStops(proxies, chain, a, b, i, n);
    }
  }

  lemma RepeatBehind(chain: seq<string>, k: nat) returns (a: nat, b: nat)
    requires k <= |chain| && !Distinct(chain[k..])
    ensures k <= a < b < |chain| && chain[a] == chain[b]
  {
    var i, j :| 0 <= i < j < |chain| - k && chain[k..][i] == chain[k..][j];
    a, b := k + i, k + j;
  }

  /** Reading back what is linked behind a name that no proxy has. */
  lemma LinkedPartReadBack(rebuilt: seq<Value>, places: seq<nat>, exit: string, absent: string)
    requires Visits(rebuilt, places, exit, absent) && FindEntry(rebuilt, Some(Some(absent))) == |rebuilt|
    ensures ReadBack(rebuilt, exit) == Reversed(Visited(rebuilt, Some(Some(exit)), |rebuilt|))
  {
    var visited := Visited(rebuilt, Some(Some(exit)), |rebuilt|);
    assert visited + [] == visited;
  }

  lemma BackwardsOfPart(rebuilt: seq<Value>, places: seq<nat>, visited: seq<Value>, i: nat)
    requires VisitsPlaces(visited, rebuilt, places) && i < |visited|
    ensures Reversed(visited)[i] == rebuilt[places[i + 1]]
  {
    assert Reversed(visited)[i] == visited[|visited| - 1 - i];
  }

  lemma AbsentIsNoEntry(proxies: seq<Value>, chain: seq<string>, name: string)
    requires Place(proxies, name) == |proxies|
    ensures FindEntry(RebuiltFrom(proxies, chain), Some(Some(name))) == |RebuiltFrom(proxies, chain)|
  {
    var rebuilt := RebuiltFrom(proxies, chain);
    RebuildChangesOnlyLinks(proxies, Some(Sequence(AsValues(chain))));
    forall m | 0 <= m < |proxies| ensures rebuilt[m].NameAsStr() != Some(Some(name)) {
      assert proxies[m].Get("name") != Some(Str(name));
    }
  }

  lemma PartLinksBack(proxies: seq<Value>, chain: seq<string>, k: nat)
    requires 0 < k <= |chain| && k == LastPart(proxies, chain) && Distinct(chain[k..])
    ensures var rebuilt, part := RebuiltFrom(proxies, chain), chain[k - 1..];
            && LinksBack(rebuilt, Places(proxies, part), part)
            && FindEntry(rebuilt, Some(Some(part[0]))) == |rebuilt|
  {
    var rebuilt, part := RebuiltFrom(proxies, chain), chain[k - 1..];
    AbsentStops(proxies, chain, chain[k - 1]);
    AbsentIsNoEntry(proxies, chain, chain[k - 1]);
    forall i | 0 < i < |part|
      ensures FindLinked(rebuilt, Some(Some(part[i]))) == Place(proxies, part[i]) < |rebuilt|
      ensures rebuilt[Place(proxies, part[i])].Get("dialer-proxy") == Some(Str(part[i - 1]))
    {
      DistinctBehind(chain, k, k - 1 + i);
      StepBack(proxies, chain, k - 1 + i, k - 1 + i);
    }
  }

  lemma PartVisits(proxies: seq<Value>, chain: seq<string>, k: nat)
    requires 0 < k <= |chain| && k == LastPart(proxies, chain) && Distinct(chain[k..])
    ensures var rebuilt := RebuiltFrom(proxies, chain);
            && Visits(rebuilt, Places(proxies, chain[k - 1..]), chain[|chain| - 1], chain[k - 1])
            && FindEntry(rebuilt, Some(Some(chain[k - 1]))) == |rebuilt| == |proxies|
  {
    var part := chain[k - 1..];
    assert part[|part| - 1] == chain[|chain| - 1] && part[0] == chain[k - 1];
    RebuildChangesOnlyLinks(proxies, Some(Sequence(AsValues(chain))));
    PartLinksBack(proxies, chain, k);
    LinkedVisits(RebuiltFrom(proxies, chain), Places(proxies, part), part);
  }

  lemma PartPlace(proxies: seq<Value>, chain: seq<string>, rebuilt: seq<Value>, k: nat, visited: seq<Value>, i: nat)
    requires 0 < k <= |chain| && i < |visited| && VisitsPlaces(visited, rebuilt, Places(proxies, chain[k - 1..]))
    ensures |visited| == |chain| - k && Place(proxies, chain[k + i]) < |rebuilt|
    ensures Reversed(visited)[i] == rebuilt[Place(proxies, chain[k + i])]
  {
    var part := chain[k - 1..];
    assert part[i + 1] == chain[k + i];
    BackwardsOfPart(rebuilt, Places(proxies, part), visited, i);
  }

  lemma PartRoundTrips(proxies: seq<Value>, chain: seq<string>, k: nat)
    requires 0 < k <= |chain| && k == LastPart(proxies, chain) && Distinct(chain[k..])
    ensures var rebuilt, exit := RebuiltFrom(proxies, chain), chain[|chain| - 1];
            && |rebuilt| == |proxies| && Readable(rebuilt, exit)
            && |ReadBack(rebuilt, exit)| == |chain| - k
            && forall i :: 0 <= i < |ReadBack(rebuilt, exit)| ==>
                 ReadBack(rebuilt, exit)[i] == rebuilt[Place(proxies, chain[k + i])]
  {
    var rebuilt, exit, places := RebuiltFrom(proxies, chain), chain[|chain| - 1], Places(proxies, chain[k - 1..]);
    PartVisits(proxies, chain, k);
    LinkedPartReadBack(rebuilt, places, exit, chain[k - 1]);
    var visited := Visited(rebuilt, Some(Some(exit)), |rebuilt|);
    forall i | 0 <= i < |visited| ensures Reversed(visited)[i] == rebuilt[Place(proxies, chain[k + i])] {
      PartPlace(proxies, chain, rebuilt, k, visited, i);
    }
  }

  /**
   What is read back from any chain that can be: the proxies of the part behind the last name that no proxy
   has, all of them and in chain order; or, if all are present, the whole chain as in `ChainRoundTrips`.
   */
  lemma LastPartRoundTrips(proxies: seq<Value>, chain: seq<string>)
    requires chain != [] && Distinct(chain[LastPart(proxies, chain)..])
    ensures var rebuilt, exit, k := RebuiltFrom(proxies, chain), chain[|chain| - 1], LastPart(proxies, chain);
            && |rebuilt| == |proxies| && Readable(rebuilt, exit)
            && |ReadBack(rebuilt, exit)| == (if k == 0 && |chain| == 1 then 0 else |chain| - k)
            && forall i :: 0 <= i < |ReadBack(rebuilt, exit)| ==>
                 ReadBack(rebuilt, exit)[i] == rebuilt[Place(proxies, chain[k + i])]
  {
    var k := LastPart(proxies, chain);
    if k == 0 {
      assert chain[0..] == chain;
      ChainRoundTrips(proxies, chain);
    } else {
      PartRoundTrips(proxies, chain, k);
    }
  }

  /** A proxy of this name and nothing more. */
  function Plain(name: Value): Value {
    Mapping(map["name" := name])
  }

  lemma PlainName(name: Value)
    ensures Plain(name).Get("name") == Some(name)
  {}

  /** Two proxies, chained there and back: reading the chain back never ends. */
  lemma ThereAndBackNeverEnds()
    ensures var proxies, chain := [Plain(Str("a")), Plain(Str("b"))], ["a", "b", "a"];
            !Stops(RebuiltFrom(proxies, chain), Some(Some("a")))
  {
    var proxies, chain := [Plain(Str("a")), Plain(Str("b"))], ["a", "b", "a"];
    assert "a"[0] != "b"[0];
    PlainName(Str("a"));
    PlainName(Str("b"));
    assert Place(proxies, "a") < 2 && Place(proxies, "b") < 2 by {
      assert proxies[0].Get("name") == Some(Str("a")) && proxies[1].Get("name") == Some(Str("b"));
    }
    assert LastPart(proxies, chain) == 0;
    assert chain[0..][0] == chain[0..][2];
    ReadableExactlyWhenDistinct(proxies, chain);
  }

  /** The same with the middle name absent: the walk stops there. */
  lemma AbsentNameBreaksTheLoop()
    ensures var proxies, chain := [Plain(Str("a"))], ["a", "m", "a"];
            Stops(RebuiltFrom(proxies, chain), Some(Some("a")))
  {
    var proxies, chain := [Plain(Str("a"))], ["a", "m", "a"];
    assert "a"[0] != "m"[0];
    PlainName(Str("a"));
    assert Place(proxies, "m") == 1;
    assert LastPart(proxies, chain) >= 2 by {
      assert chain[1] == "m";
    }
    ReadableExactlyWhenDistinct(proxies, chain);
  }
}
