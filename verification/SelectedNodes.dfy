/**
 Reconciling a profile's recorded selections with the proxy groups the core reports.

 `Reconcile` says what the plan is, record by record; `ReconcileSelectedNodes` is the loop that
 builds it.
 */
module SelectedNodes {
  import opened Common

  datatype PrfSelected = PrfSelected(name: Option<string>, now: Option<string>)

  datatype ProxyType = Selector | URLTest | Fallback | LoadBalance | OtherType(kind: string)

  datatype Proxy = Proxy(kind: ProxyType, all: Option<seq<string>>, now: Option<string>) {
    predicate Selectable() {
      kind.Selector? || kind.URLTest? || kind.Fallback? || kind.LoadBalance?
    }

    /** The member list has arrived. */
    predicate Loaded() {
      all.Some? && all.value != []
    }

    predicate Has(node: string) {
      Loaded() && node in all.value
    }

    /** The group reports a current node and lists it as a member. */
    predicate CurrentIsMember() {
      now.Some? && Has(now.value)
    }
  }

  type Proxies = map<string, Proxy>

  type Activation = (string, string)

  datatype Plan = Plan(selected: seq<PrfSelected>, activations: seq<Activation>, repaired: nat)

  predicate WellFormed(item: PrfSelected) {
    item.name.Some? && item.now.Some?
  }

  // ---------------------------------------------------------------- the plan, record by record

  predicate Names(items: seq<PrfSelected>, name: Option<string>) {
    exists i :: 0 <= i < |items| && items[i].name == name
  }

  lemma NamesCons(head: PrfSelected, tail: seq<PrfSelected>, name: Option<string>)
    ensures Names([head] + tail, name) <==> head.name == name || Names(tail, name)
  {
    var items := [head] + tail;
    assert items[0] == head;
    if i :| 0 <= i < |tail| && tail[i].name == name {
      assert items[i + 1] == tail[i];
    }
  }

  /** The records that are the last to name their group, in order. */
  function LastRecords(selected: seq<PrfSelected>): seq<PrfSelected> {
    if selected == [] then []
    else if selected[0].name.Some? && !Names(selected[1..], selected[0].name) then
      [selected[0]] + LastRecords(selected[1..])
    else LastRecords(selected[1..])
  }

  /** Both snapshots agree that the group is gone. */
  predicate GroupGone(group: string, previous: Option<Proxies>, proxies: Proxies) {
    group !in proxies && previous.Some? && group !in previous.value
  }

  /** Both snapshots list the group's members, and neither lists the node. */
  predicate NodeGone(group: string, node: string, previous: Option<Proxies>, proxies: Proxies) {
    && group in proxies && proxies[group].Loaded() && !proxies[group].Has(node)
    && previous.Some? && group in previous.value
    && previous.value[group].Loaded() && !previous.value[group].Has(node)
  }

  /** The record that replaces `item`, if any. */
  function Judge(item: PrfSelected, previous: Option<Proxies>, proxies: Proxies): Option<PrfSelected> {
    if !WellFormed(item) then None
    else
      var group, node := item.name.value, item.now.value;
      if group !in proxies then
        if GroupGone(group, previous, proxies) then None else Some(item)
      else
        var g := proxies[group];
        if !g.Loaded() then Some(item)
        else if !g.Selectable() then
          if g.CurrentIsMember() then Some(item.(now := g.now))
          else if g.Has(node) then Some(item)
          else None
        else if g.Has(node) then Some(item)
        else if !NodeGone(group, node, previous, proxies) then Some(item)
        else if g.CurrentIsMember() then Some(item.(now := g.now))
        else None
  }

  /** The group must be put on the recorded node. */
  predicate MustActivate(item: PrfSelected, proxies: Proxies) {
    && WellFormed(item)
    && item.name.value in proxies
    && var g := proxies[item.name.value];
       g.Selectable() && g.Has(item.now.value) && g.now != item.now
  }

  function AsSeq<X>(x: Option<X>): seq<X> {
    if x.Some? then [x.value] else []
  }

  function Kept(items: seq<PrfSelected>, previous: Option<Proxies>, proxies: Proxies): seq<PrfSelected> {
    if items == [] then []
    else
      Kept(items[..|items| - 1], previous, proxies) + AsSeq(Judge(items[|items| - 1], previous, proxies))
  }

  function Activations(items: seq<PrfSelected>, proxies: Proxies): seq<Activation> {
    if items == [] then []
    else
      var item := items[|items| - 1];
      Activations(items[..|items| - 1], proxies) +
      if MustActivate(item, proxies) then [(item.name.value, item.now.value)] else []
  }

  /** Records that do not survive unchanged. */
  function Changed(items: seq<PrfSelected>, previous: Option<Proxies>, proxies: Proxies): (n: nat)
    ensures n <= |items|
  {
    if items == [] then 0
    else
      var item := items[|items| - 1];
      Changed(items[..|items| - 1], previous, proxies) +
      if Judge(item, previous, proxies) == Some(item) then 0 else 1
  }

  function Reconcile(selected: seq<PrfSelected>, previous: Option<Proxies>, proxies: Proxies): Plan {
    var last := LastRecords(selected);
    LastIsShorter(selected);
    Plan(Kept(last, previous, proxies),
         Activations(last, proxies),
         |selected| - |last| + Changed(last, previous, proxies))
  }

  lemma LastIsShorter(selected: seq<PrfSelected>)
    ensures |LastRecords(selected)| <= |selected|
  {}

  // ---------------------------------------------------------------- the loops

  /** The de-duplicating pass: scan backwards, keep first sightings, reverse. */
  method UniqueSelected(selected: seq<PrfSelected>) returns (unique: seq<PrfSelected>)
    ensures unique == LastRecords(selected)
  {
    var seen: set<string> := {};
    var backwards: seq<PrfSelected> := [];
    var i := |selected|;
    while i > 0
      invariant 0 <= i <= |selected|
      invariant forall name :: name in seen <==> Names(selected[i..], Some(name))
      invariant Reversed(backwards) == LastRecords(selected[i..])
    {
      i := i - 1;
      var item := selected[i];
      assert selected[i..] == [item] + selected[i + 1..];
      forall name ensures Names(selected[i..], Some(name)) <==> item.name == Some(name) || Names(selected[i + 1..], Some(name)) {
        NamesCons(item, selected[i + 1..], Some(name));
      }
      if item.name.Some? {
        if item.name.value !in seen {
          seen := seen + {item.name.value};
          assert (backwards + [item])[..|backwards|] == backwards;
          backwards := backwards + [item];
        }
      }
    }
    assert selected[0..] == selected;
    unique := Reverse(backwards);
  }

  /** One turn of the main loop: the record pushed, the activation pushed, repairs counted. */
  method ReconcileOne(item: PrfSelected, previous: Option<Proxies>, proxies: Proxies)
    returns (kept: Option<PrfSelected>, activate: bool, repaired: nat)
    ensures kept == Judge(item, previous, proxies)
    ensures activate <==> MustActivate(item, proxies)
    ensures repaired == if kept == Some(item) then 0 else 1
  {
    kept, activate, repaired := None, false, 0;
    if item.name.None? || item.now.None? {
      repaired := 1;
      return;
    }
    var groupName, node := item.name.value, item.now.value;
    if groupName !in proxies {
      if previous.Some? && groupName !in previous.value {
        repaired := 1;
      } else {
        kept := Some(item);
      }
      return;
    }
    var group := proxies[groupName];
    if group.all.None? || group.all.value == [] {
      kept := Some(item);
      return;
    }
    var available := group.all.value;
    if !group.Selectable() {
      var preferred := None;
      if group.now.Some? && group.now.value in available {
        preferred := group.now;
      } else if node in available {
        preferred := Some(node);
      }
      if preferred.Some? {
        if preferred.value != node {
          repaired := 1;
        }
        kept := Some(PrfSelected(Some(groupName), preferred));
      } else {
        repaired := 1;
      }
      return;
    }
    if node in available {
      kept := Some(item);
      activate := group.now != Some(node);
      return;
    }
    var confirmed := false;
    if previous.Some? && groupName in previous.value {
      var before := previous.value[groupName].all;
      confirmed := before.Some? && before.value != [] && node !in before.value;
    }
    if !confirmed {
      kept := Some(item);
      return;
    }
    repaired := 1;
    if group.now.Some? && group.now.value in available {
      kept := Some(PrfSelected(Some(groupName), group.now));
    }
  }

  method ReconcileSelectedNodes(selected: seq<PrfSelected>, previous: Option<Proxies>, proxies: Proxies)
    returns (plan: Plan)
    ensures plan == Reconcile(selected, previous, proxies)
  {
    var unique := UniqueSelected(selected);
    LastIsShorter(selected);
    var kept, activations, repaired := [], [], |selected| - |unique|;
    for i := 0 to |unique|
      invariant kept == Kept(unique[..i], previous, proxies)
      invariant activations == Activations(unique[..i], proxies)
      invariant repaired == |selected| - |unique| + Changed(unique[..i], previous, proxies)
    {
      assert unique[..i + 1][..i] == unique[..i];
      var k, a, r := ReconcileOne(unique[i], previous, proxies);
      if k.Some? {
        kept := kept + [k.value];
      }
      if a {
        activations := activations + [(unique[i].name.value, unique[i].now.value)];
      }
      repaired := repaired + r;
    }
    assert unique[..|unique|] == unique;
    plan := Plan(kept, activations, repaired);
  }

  predicate NeedsConfirmation(item: PrfSelected, proxies: Proxies) {
    WellFormed(item) && !(item.name.value in proxies && proxies[item.name.value].Has(item.now.value))
  }

  method SelectedNodesNeedConfirmation(selected: seq<PrfSelected>, proxies: Proxies) returns (need: bool)
    ensures need <==> exists i :: 0 <= i < |selected| && NeedsConfirmation(selected[i], proxies)
  {
    for i := 0 to |selected|
      invariant forall j :: 0 <= j < i ==> !NeedsConfirmation(selected[j], proxies)
    {
      if NeedsConfirmation(selected[i], proxies) {
        return true;
      }
    }
    need := false;
  }

  /** Groups with a recorded node they are not on. */
  function Unsettled(selected: seq<PrfSelected>, proxies: Proxies): seq<string> {
    if selected == [] then []
    else
      var item := selected[0];
      var rest := Unsettled(selected[1..], proxies);
      if WellFormed(item) && !(item.name.value in proxies && proxies[item.name.value].now == item.now) then
        [item.name.value] + rest
      else rest
  }

  /** The core after it was told to make each selection. */
  function Activate(proxies: Proxies, activations: seq<Activation>): Proxies {
    if activations == [] then proxies
    else
      var before := Activate(proxies, activations[..|activations| - 1]);
      var (group, node) := activations[|activations| - 1];
      if group in before then before[group := before[group].(now := Some(node))] else before
  }

  // ---------------------------------------------------------------- editing the records

  /** The first record of a group, or the length of the list. */
  function FirstIndex(selected: seq<PrfSelected>, group: string): (i: nat)
    ensures i <= |selected|
    ensures i < |selected| ==> selected[i].name == Some(group)
    ensures i < |selected| <==> Names(selected, Some(group))
  {
    if selected == [] then 0
    else
      assert selected == [selected[0]] + selected[1..];
      NamesCons(selected[0], selected[1..], Some(group));
      if selected[0].name == Some(group) then 0 else FirstIndex(selected[1..], group) + 1
  }

  /** Recording a choice changes the first record of the group, or appends one. */
  function Recorded(selected: seq<PrfSelected>, group: string, node: string): seq<PrfSelected> {
    var i := FirstIndex(selected, group);
    if i < |selected| then selected[i := selected[i].(now := Some(node))]
    else selected + [PrfSelected(Some(group), Some(node))]
  }

  function Forgotten(selected: seq<PrfSelected>, group: string): seq<PrfSelected> {
    if selected == [] then []
    else
      Forgotten(selected[..|selected| - 1], group) +
      if selected[|selected| - 1].name == Some(group) then [] else [selected[|selected| - 1]]
  }

  method RemoveSelectedNode(selected: seq<PrfSelected>, group: string) returns (left: seq<PrfSelected>, removed: bool)
    ensures left == Forgotten(selected, group)
    ensures removed <==> |left| != |selected|
  {
    left := [];
    for i := 0 to |selected|
      invariant left == Forgotten(selected[..i], group)
    {
      assert selected[..i + 1][..i] == selected[..i];
      if selected[i].name != Some(group) {
        left := left + [selected[i]];
      }
    }
    assert selected[..|selected|] == selected;
    removed := |left| != |selected|;
  }
}
