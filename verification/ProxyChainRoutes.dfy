/**
 Reading back chains of any YAML values.  A rebuild compares names as values, the walk compares them
 as strings, and takes all names that are not strings for the same.
 */
module ProxyChainRoutes {
  import opened Common
  import opened ProxyChain
  import opened ProxyChainTheorems

  function RebuiltValues(proxies: seq<Value>, chain: seq<Value>): seq<Value> {
    Rebuild(proxies, Some(Sequence(chain)))
  }

  /** The proxy at `k` reads as `key`, and the chain gives it a link. */
  predicate Follows(proxies: seq<Value>, chain: seq<Value>, key: Option<string>, k: nat)
    requires k < |proxies|
  {
    proxies[k].NameAsStr() == Some(key) && LastLink(proxies, chain, k).Some?
  }

  /** The proxy at which a walk that reads `key` goes on, or the length of the list. */
  function Followed(proxies: seq<Value>, chain: seq<Value>, key: Option<string>, from: nat): (k: nat)
    requires from <= |proxies|
    ensures from <= k <= |proxies|
    ensures k < |proxies| ==> Follows(proxies, chain, key, k)
    ensures forall j :: from <= j < k ==> !Follows(proxies, chain, key, j)
    decreases |proxies| - from
  {
    if from == |proxies| || Follows(proxies, chain, key, from) then from else Followed(proxies, chain, key, from + 1)
  }

  /** What the walk reads next: the chain member before the last mention of the proxy at `k`. */
  function ReadsNext(proxies: seq<Value>, chain: seq<Value>, k: nat): Option<string>
    requires k < |proxies| && LastLink(proxies, chain, k).Some?
  {
    chain[LastLink(proxies, chain, k).value - 1].AsStr()
  }

  /** The route a walk will take, from the names and the chain alone, ends within `n` steps. */
  predicate RouteEnds(proxies: seq<Value>, chain: seq<Value>, key: Option<string>, n: nat)
    decreases n
  {
    var k := Followed(proxies, chain, key, 0);
    k == |proxies| || (n > 0 && RouteEnds(proxies, chain, ReadsNext(proxies, chain, k), n - 1))
  }

  lemma RebuiltProxy(proxies: seq<Value>, chain: seq<Value>, k: nat)
    requires k < |proxies|
    ensures var rebuilt := RebuiltValues(proxies, chain);
            && |rebuilt| == |proxies|
            && rebuilt[k].NameAsStr() == proxies[k].NameAsStr()
            && rebuilt[k].Get("dialer-proxy") ==
               match LastLink(proxies, chain, k)
               case Some(i) => Some(chain[i - 1])
               case None => None
  {
    RebuildChangesOnlyLinks(proxies, Some(Sequence(chain)));
    LinkWritesStripped(proxies, chain, k);
  }

  lemma LinkedExactlyIfFollowed(proxies: seq<Value>, chain: seq<Value>, key: Option<string>, k: nat)
    requires k < |proxies|
    ensures |RebuiltValues(proxies, chain)| == |proxies|
    ensures Linked(RebuiltValues(proxies, chain)[k], Some(key)) <==> Follows(proxies, chain, key, k)
  {
    RebuiltProxy(proxies, chain, k);
  }

  lemma WalkFollows(proxies: seq<Value>, chain: seq<Value>, key: Option<string>)
    ensures |RebuiltValues(proxies, chain)| == |proxies|
    ensures FindLinked(RebuiltValues(proxies, chain), Some(key)) == Followed(proxies, chain, key, 0)
  {
    var rebuilt, k := RebuiltValues(proxies, chain), Followed(proxies, chain, key, 0);
    RebuildChangesOnlyLinks(proxies, Some(Sequence(chain)));
    forall j | 0 <= j < |proxies| ensures Linked(rebuilt[j], Some(key)) <==> Follows(proxies, chain, key, j) {
      LinkedExactlyIfFollowed(proxies, chain, key, j);
    }
    var found := FindLinked(rebuilt, Some(key));
    assert found < |proxies| ==> Follows(proxies, chain, key, found);
    assert k < |proxies| ==> Linked(rebuilt[k], Some(key));
  }

  /** The walk takes the route: step for step, for any names. */
  lemma {:induction false} WalkTakesRoute(proxies: seq<Value>, chain: seq<Value>, key: Option<string>, n: nat)
    ensures StopsWithin(RebuiltValues(proxies, chain), Some(key), n) <==> RouteEnds(proxies, chain, key, n)
    decreases n
  {
    var k := Followed(proxies, chain, key, 0);
    WalkFollows(proxies, chain, key);
    if k < |proxies| && n > 0 {
      RebuiltProxy(proxies, chain, k);
      WalkTakesRoute(proxies, chain, ReadsNext(proxies, chain, k), n - 1);
    }
  }

  /**
   When a chain of any values can be read back, from any exit: exactly when the route, which only the
   proxies' names and the chain decide, ends within as many steps as there are proxies.
   */
  lemma ReadableExactlyWhenRouteEnds(proxies: seq<Value>, chain: seq<Value>, exit: string)
    ensures Stops(RebuiltValues(proxies, chain), Some(Some(exit))) <==> RouteEnds(proxies, chain, Some(exit), |proxies|)
  {
    WalkFollows(proxies, chain, Some(exit));
    WalkEndsExactlyWhen(RebuiltValues(proxies, chain), exit);
    WalkTakesRoute(proxies, chain, Some(exit), |proxies|);
  }

  // ---------------------------------------------------------------- names that read differently

  /** No two members read alike; in particular at most one is not a string. */
  ghost predicate ReadApart(chain: seq<Value>) {
    forall i, j :: 0 <= i < j < |chain| ==> chain[i].AsStr() != chain[j].AsStr()
  }

  lemma {:induction false} ApartRouteEnds(proxies: seq<Value>, chain: seq<Value>, i: nat)
    requires ReadApart(chain) && i < |chain|
    ensures RouteEnds(proxies, chain, chain[i].AsStr(), i)
    decreases i
  {
    var key := chain[i].AsStr();
    var k := Followed(proxies, chain, key, 0);
    if k < |proxies| {
      var m := LastLink(proxies, chain, k).value;
      assert proxies[k].Get("name") == Some(chain[m]);
      assert m == i || m < i || i < m;
      ApartRouteEnds(proxies, chain, i - 1);
    }
  }

  /** Members that read apart can be read back, whether strings or not. */
  lemma ReadApartIsReadable(proxies: seq<Value>, chain: seq<Value>, exit: string)
    requires ReadApart(chain) && chain != [] && chain[|chain| - 1] == Str(exit)
    ensures Stops(RebuiltValues(proxies, chain), Some(Some(exit)))
  {
    var n: nat := |chain| - 1;
    ApartRouteEnds(proxies, chain, n);
    WalkTakesRoute(proxies, chain, Some(exit), n);
  }

  lemma {:induction false} RouteGoesRound(proxies: seq<Value>, chain: seq<Value>, k: nat, n: nat)
    requires Followed(proxies, chain, None, 0) == k < |proxies| && ReadsNext(proxies, chain, k) == None
    ensures !RouteEnds(proxies, chain, None, n)
    decreases n
  {
    if n > 0 {
      RouteGoesRound(proxies, chain, k, n - 1);
    }
  }

  /** Two numbers and a string, all present and all different: reading the chain back never ends. */
  lemma NumbersNeverEnd()
    ensures var proxies, chain := [Plain(Number(1)), Plain(Number(2)), Plain(Str("a"))], [Number(1), Number(2), Str("a")];
            Distinct(chain) && !Stops(RebuiltValues(proxies, chain), Some(Some("a")))
  {
    var proxies, chain := [Plain(Number(1)), Plain(Number(2)), Plain(Str("a"))], [Number(1), Number(2), Str("a")];
    assert proxies[0].Get("name") == Some(Number(1)) && proxies[1].Get("name") == Some(Number(2));
    assert proxies[2].Get("name") == Some(Str("a"));
    assert FindNamed(proxies, chain[0]) == 0 && FindNamed(proxies, chain[1]) == 1 && FindNamed(proxies, chain[2]) == 2;
    assert LastLink(proxies, chain, 0) == None && LastLink(proxies, chain, 1) == Some(1) && LastLink(proxies, chain, 2) == Some(2);
    assert Followed(proxies, chain, None, 0) == 1;
    assert Followed(proxies, chain, Some("a"), 0) == 2;
    RouteGoesRound(proxies, chain, 1, 2);
    assert !RouteEnds(proxies, chain, Some("a"), 3);
    ReadableExactlyWhenRouteEnds(proxies, chain, "a");
  }
}
