/**
 Proxy chains in the runtime configuration: writing an ordered chain as `dialer-proxy` links, and
 following the links back from the exit node.
 */
module ProxyChain {
  import opened Common

  /** A YAML value.  Mappings are keyed by strings; the order of their keys is not modelled. */
  datatype Value =
    | Null
    | Bool(b: bool)
    | Number(n: int)
    | Str(text: string)
    | Sequence(items: seq<Value>)
    | Mapping(fields: map<string, Value>)
  {
    function Get(key: string): Option<Value> {
      if Mapping? && key in fields then Some(fields[key]) else None
    }

    function AsStr(): Option<string> {
      if Str? then Some(text) else None
    }

    /** The proxy's name as the walk compares it: absent, present but no string, or a string. */
    function NameAsStr(): Option<Option<string>> {
      var name := Get("name");
      if name.None? then None else Some(name.value.AsStr())
    }

    function WithoutLink(): Value {
      if Mapping? then Mapping(fields - {"dialer-proxy"}) else this
    }

    function WithLink(to: Value): Value
      requires Mapping?
    {
      Mapping(fields["dialer-proxy" := to])
    }
  }

  // ---------------------------------------------------------------- rebuilding the links

  function Strip(proxies: seq<Value>): (r: seq<Value>)
    ensures |r| == |proxies|
  {
    seq(|proxies|, i requires 0 <= i < |proxies| => proxies[i].WithoutLink())
  }

  /** The first proxy with this name, or the length of the list. */
  function FindNamed(proxies: seq<Value>, name: Value): (k: nat)
    ensures k <= |proxies|
    ensures k < |proxies| ==> proxies[k].Get("name") == Some(name)
    ensures forall j :: 0 <= j < k ==> proxies[j].Get("name") != Some(name)
  {
    if proxies == [] then 0
    else if proxies[0].Get("name") == Some(name) then 0
    else
      var k := FindNamed(proxies[1..], name);
      assert forall j :: 1 <= j < k + 1 ==> proxies[j] == proxies[1..][j - 1];
      k + 1
  }

  /** Links each chain member to the one before it; a later entry for a proxy wins. */
  function Link(proxies: seq<Value>, chain: seq<Value>): (r: seq<Value>)
    ensures |r| == |proxies|
  {
    if chain == [] then proxies
    else
      var n := |chain| - 1;
      var before := Link(proxies, chain[..n]);
      var k := FindNamed(before, chain[n]);
      if k < |before| && n > 0 then before[k := before[k].WithLink(chain[n - 1])] else before
  }

  function Rebuild(proxies: seq<Value>, chain: Option<Value>): seq<Value> {
    if chain.Some? && chain.value.Sequence? then Link(Strip(proxies), chain.value.items) else Strip(proxies)
  }

  class Runtime {
    var config: Option<map<string, Value>>

    constructor (config: Option<map<string, Value>>)
      ensures this.config == config
    {
      this.config := config;
    }

    method UpdateProxyChainConfig(chain: Option<Value>)
      modifies this
      ensures match old(config)
              case None => config == None
              case Some(fields) =>
                if "proxies" in fields && fields["proxies"].Sequence? then
                  config == Some(fields["proxies" := Sequence(Rebuild(fields["proxies"].items, chain))])
                else config == old(config)
    {
      if config.None? {
        return;
      }
      var fields := config.value;
      if "proxies" !in fields || !fields["proxies"].Sequence? {
        return;
      }
      var proxies := fields["proxies"].items;
      ghost var original := proxies;
      for i := 0 to |proxies|
        invariant |proxies| == |original|
        invariant proxies[..i] == Strip(original)[..i] && proxies[i..] == original[i..]
      {
        if proxies[i].Mapping? && "dialer-proxy" in proxies[i].fields {
          proxies := proxies[i := Mapping(proxies[i].fields - {"dialer-proxy"})];
        }
        assert proxies[i] == original[i].WithoutLink() by {
          assert original[i] == original[i..][0];
          assert original[i].Mapping? && "dialer-proxy" !in original[i].fields ==>
                   original[i].fields - {"dialer-proxy"} == original[i].fields;
        }
        assert proxies[..i + 1] == proxies[..i] + [proxies[i]];
      }
      assert proxies == Strip(original);
      if chain.Some? && chain.value.Sequence? {
        var dialers := chain.value.items;
        for i := 0 to |dialers|
          invariant proxies == Link(Strip(original), dialers[..i])
        {
          assert dialers[..i + 1][..i] == dialers[..i];
          var k := FindNamed(proxies, dialers[i]);
          if k < |proxies| && i != 0 {
            proxies := proxies[k := proxies[k].WithLink(dialers[i - 1])];
          }
        }
        assert dialers[..|dialers|] == dialers;
      }
      config := Some(fields["proxies" := Sequence(proxies)]);
    }
  }

  // ---------------------------------------------------------------- walking the links

  predicate Linked(proxy: Value, name: Option<Option<string>>) {
    proxy.Mapping? && proxy.NameAsStr() == name && proxy.Get("dialer-proxy").Some?
  }

  /** The first proxy with this name that has a link, or the length of the list. */
  function FindLinked(proxies: seq<Value>, name: Option<Option<string>>): (k: nat)
    ensures k <= |proxies|
    ensures k < |proxies| ==> Linked(proxies[k], name)
    ensures forall j :: 0 <= j < k ==> !Linked(proxies[j], name)
  {
    if proxies == [] then 0
    else if Linked(proxies[0], name) then 0
    else
      var k := FindLinked(proxies[1..], name);
      assert forall j :: 1 <= j < k + 1 ==> proxies[j] == proxies[1..][j - 1];
      k + 1
  }

  /** The first proxy with this name, linked or not. */
  function FindEntry(proxies: seq<Value>, name: Option<Option<string>>): (k: nat)
    ensures k <= |proxies|
    ensures k < |proxies| ==> proxies[k].NameAsStr() == name
    ensures forall j :: 0 <= j < k ==> proxies[j].NameAsStr() != name
  {
    if proxies == [] then 0
    else if proxies[0].NameAsStr() == name then 0
    else
      var k := FindEntry(proxies[1..], name);
      assert forall j :: 1 <= j < k + 1 ==> proxies[j] == proxies[1..][j - 1];
      k + 1
  }

  /** The name a linked proxy leads to. */
  function Target(proxy: Value): Option<Option<string>>
    requires proxy.Get("dialer-proxy").Some?
  {
    Some(proxy.Get("dialer-proxy").value.AsStr())
  }

  /** Following links from `name` comes to an unlinked name within `n` steps. */
  predicate StopsWithin(proxies: seq<Value>, name: Option<Option<string>>, n: nat)
    decreases n
  {
    var k := FindLinked(proxies, name);
    k == |proxies| || (n > 0 && StopsWithin(proxies, Target(proxies[k]), n - 1))
  }

  /** Following links from `name` ever ends. */
  ghost predicate Stops(proxies: seq<Value>, name: Option<Option<string>>) {
    exists n: nat :: StopsWithin(proxies, name, n)
  }

  /** The proxies the walk visits. */
  function Visited(proxies: seq<Value>, name: Option<Option<string>>, n: nat): seq<Value>
    requires StopsWithin(proxies, name, n)
    decreases n
  {
    var k := FindLinked(proxies, name);
    if k == |proxies| then [] else [proxies[k]] + Visited(proxies, Target(proxies[k]), n - 1)
  }

  /** The name the walk ends at. */
  function End(proxies: seq<Value>, name: Option<Option<string>>, n: nat): Option<Option<string>>
    requires StopsWithin(proxies, name, n)
    decreases n
  {
    var k := FindLinked(proxies, name);
    if k == |proxies| then name else End(proxies, Target(proxies[k]), n - 1)
  }

  /** The walk from an exit proxy ends; `WalkEndsExactlyWhen` shows that this is the exact bound. */
  predicate Readable(proxies: seq<Value>, exit: string) {
    StopsWithin(proxies, Some(Some(exit)), |proxies|)
  }

  /** What reading a chain back returns: entry proxy first, exit proxy last. */
  function ReadBack(proxies: seq<Value>, exit: string): seq<Value>
    requires Readable(proxies, exit)
  {
    var visited := Visited(proxies, Some(Some(exit)), |proxies|);
    var entry := FindEntry(proxies, End(proxies, Some(Some(exit)), |proxies|));
    Reversed(visited + if entry < |proxies| && visited != [] then [proxies[entry]] else [])
  }

  /** The loop that follows the links, without a bound of its own. */
  method FollowLinks(proxies: seq<Value>, exit: string) returns (chain: seq<Value>, name: Option<Option<string>>)
    requires Readable(proxies, exit)
    ensures chain == Visited(proxies, Some(Some(exit)), |proxies|)
    ensures name == End(proxies, Some(Some(exit)), |proxies|)
  {
    name, chain := Some(Some(exit)), [];
    ghost var left: nat := |proxies|;
    var k := FindLinked(proxies, name);
    while k < |proxies|
      invariant k == FindLinked(proxies, name) && StopsWithin(proxies, name, left)
      invariant chain + Visited(proxies, name, left) == Visited(proxies, Some(Some(exit)), |proxies|)
      invariant End(proxies, name, left) == End(proxies, Some(Some(exit)), |proxies|)
      decreases left
    {
      chain := chain + [proxies[k]];
      name := Target(proxies[k]);
      left := left - 1;
      k := FindLinked(proxies, name);
    }
  }

  method ProxyChainFrom(proxies: seq<Value>, exit: string) returns (chain: seq<Value>)
    requires Readable(proxies, exit)
    ensures chain == ReadBack(proxies, exit)
  {
    var name;
    chain, name := FollowLinks(proxies, exit);
    var entry := FindEntry(proxies, name);
    if entry < |proxies| && chain != [] {
      chain := chain + [proxies[entry]];
    } else {
      assert chain + [] == chain;
    }
    chain := Reverse(chain);
  }
}
