/** What a reconciliation plan guarantees. */
module SelectedNodesTheorems {
  import opened Common
  import opened SelectedNodes

  /** Each record names a group, and no two the same. */
  ghost predicate DistinctGroups(items: seq<PrfSelected>) {
    && (forall i :: 0 <= i < |items| ==> items[i].name.Some?)
    && (forall i, j :: 0 <= i < j < |items| ==> items[i].name != items[j].name)
  }

  // ---------------------------------------------------------------- the last records

  lemma {:induction false} LastRecordsSound(selected: seq<PrfSelected>)
    ensures DistinctGroups(LastRecords(selected))
    ensures forall item :: item in LastRecords(selected) ==> item in selected && Names(selected, item.name)
  {
    if selected != [] {
      LastRecordsSound(selected[1..]);
      assert selected == [selected[0]] + selected[1..];
      forall name {:trigger Names(selected, name)} { NamesCons(selected[0], selected[1..], name); }
      var rest := LastRecords(selected[1..]);
      forall j | 0 <= j < |rest| ensures rest[j] in rest && Names(selected[1..], rest[j].name) {}
    }
  }

  /** Every named group keeps its last record. */
  lemma {:induction false} EveryGroupHasALast(selected: seq<PrfSelected>, group: string)
    requires Names(selected, Some(group))
    ensures Names(LastRecords(selected), Some(group))
  {
    var head, rest := selected[0], LastRecords(selected[1..]);
    assert selected == [head] + selected[1..];
    NamesCons(head, selected[1..], Some(group));
    NamesCons(head, rest, Some(group));
    if Names(selected[1..], Some(group)) {
      EveryGroupHasALast(selected[1..], group);
    }
  }

  lemma {:induction false} DistinctIsLast(items: seq<PrfSelected>)
    requires DistinctGroups(items)
    ensures LastRecords(items) == items
  {
    if items != [] {
      DistinctIsLast(items[1..]);
      assert !Names(items[1..], items[0].name);
    }
  }

  lemma {:induction false} AllLastIsWhole(selected: seq<PrfSelected>)
    requires |LastRecords(selected)| == |selected|
    ensures LastRecords(selected) == selected
  {
    if selected != [] {
      LastIsShorter(selected[1..]);
      AllLastIsWhole(selected[1..]);
    }
  }

  /** Where a group is named last. */
  function LastIndex(selected: seq<PrfSelected>, group: string): (i: nat)
    requires Names(selected, Some(group))
    ensures i < |selected| && selected[i].name == Some(group)
  {
    assert selected == [selected[0]] + selected[1..];
    NamesCons(selected[0], selected[1..], Some(group));
    if Names(selected[1..], Some(group)) then LastIndex(selected[1..], group) + 1 else 0
  }

  lemma {:induction false} LastIndexIsLast(selected: seq<PrfSelected>, group: string, j: nat)
    requires Names(selected, Some(group)) && LastIndex(selected, group) < j < |selected|
    ensures selected[j].name != Some(group)
  {
    assert selected == [selected[0]] + selected[1..];
    NamesCons(selected[0], selected[1..], Some(group));
    assert selected[j] == selected[1..][j - 1];
    if Names(selected[1..], Some(group)) {
      LastIndexIsLast(selected[1..], group, j - 1);
    }
  }

  ghost predicate InLastOrder(selected: seq<PrfSelected>, items: seq<PrfSelected>) {
    && (forall i :: 0 <= i < |items| ==> items[i].name.Some? && Names(selected, items[i].name))
    && (forall i, j :: 0 <= i < j < |items| ==>
                         LastIndex(selected, items[i].name.value) < LastIndex(selected, items[j].name.value))
  }

  lemma {:induction false} LastRecordsInOrder(selected: seq<PrfSelected>)
    ensures InLastOrder(selected, LastRecords(selected))
  {
    LastRecordsSound(selected);
    if selected != [] {
      var tail := selected[1..];
      LastRecordsInOrder(tail);
      assert selected == [selected[0]] + tail;
      var r, rest := LastRecords(selected), LastRecords(tail);
      forall i | 0 <= i < |rest|
        ensures LastIndex(selected, rest[i].name.value) == LastIndex(tail, rest[i].name.value) + 1
      {
        NamesCons(selected[0], tail, rest[i].name);
        assert selected[LastIndex(tail, rest[i].name.value) + 1].name == rest[i].name;
      }
      if r != rest {
        assert LastIndex(selected, r[0].name.value) == 0;
      }
    }
  }

  // ---------------------------------------------------------------- the kept records

  lemma JudgeKeepsGroup(item: PrfSelected, previous: Option<Proxies>, proxies: Proxies)
    requires Judge(item, previous, proxies).Some?
    ensures Judge(item, previous, proxies).value.name == item.name
    ensures WellFormed(Judge(item, previous, proxies).value)
  {}

  /** A record is in the plan exactly when it is what some last record was judged to become. */
  lemma {:induction false} KeptMembers(items: seq<PrfSelected>, previous: Option<Proxies>, proxies: Proxies)
    ensures |Kept(items, previous, proxies)| <= |items|
    ensures forall x :: x in Kept(items, previous, proxies) <==>
                          exists i :: 0 <= i < |items| && Judge(items[i], previous, proxies) == Some(x)
  {
    if items != [] {
      var n := |items| - 1;
      KeptMembers(items[..n], previous, proxies);
      forall x | x in Kept(items[..n], previous, proxies)
        ensures exists i :: 0 <= i < |items| && Judge(items[i], previous, proxies) == Some(x)
      {
        var i :| 0 <= i < n && Judge(items[..n][i], previous, proxies) == Some(x);
        assert Judge(items[i], previous, proxies) == Some(x);
      }
      forall i, x | 0 <= i < |items| && Judge(items[i], previous, proxies) == Some(x)
        ensures x in Kept(items, previous, proxies)
      {
        if i < n {
          assert items[..n][i] == items[i];
        }
      }
    }
  }

  lemma InOrderAppend(selected: seq<PrfSelected>, front: seq<PrfSelected>, x: PrfSelected)
    requires InLastOrder(selected, front)
    requires x.name.Some? && Names(selected, x.name)
    requires forall k :: 0 <= k < |front| ==>
                           LastIndex(selected, front[k].name.value) < LastIndex(selected, x.name.value)
    ensures InLastOrder(selected, front + [x])
  {
    var items := front + [x];
    forall i | 0 <= i < |items| ensures items[i].name.Some? && Names(selected, items[i].name) {
      assert i < |front| ==> items[i] == front[i];
    }
    forall i, j | 0 <= i < j < |items|
      ensures LastIndex(selected, items[i].name.value) < LastIndex(selected, items[j].name.value)
    {
      assert items[i] == front[i];
      assert j < |front| ==> items[j] == front[j];
    }
  }

  /** Judging keeps groups, so what is kept of an ordered prefix still precedes what follows it. */
  lemma KeptPrecedes(
    selected: seq<PrfSelected>, items: seq<PrfSelected>, previous: Option<Proxies>, proxies: Proxies, k: nat)
    returns (i: nat)
    requires k < |Kept(items, previous, proxies)|
    ensures i < |items| && items[i].name == Kept(items, previous, proxies)[k].name
  {
    KeptMembers(items, previous, proxies);
    var x := Kept(items, previous, proxies)[k];
    assert x in Kept(items, previous, proxies);
    i :| 0 <= i < |items| && Judge(items[i], previous, proxies) == Some(x);
    JudgeKeepsGroup(items[i], previous, proxies);
  }

  lemma {:induction false} KeptInOrder(
    selected: seq<PrfSelected>, items: seq<PrfSelected>, previous: Option<Proxies>, proxies: Proxies)
    requires InLastOrder(selected, items)
    ensures InLastOrder(selected, Kept(items, previous, proxies))
  {
    if items != [] {
      var n := |items| - 1;
      var front, judged := Kept(items[..n], previous, proxies), Judge(items[n], previous, proxies);
      assert InLastOrder(selected, items[..n]) by {
        assert forall i :: 0 <= i < n ==> items[..n][i] == items[i];
      }
      KeptInOrder(selected, items[..n], previous, proxies);
      if judged.Some? {
        JudgeKeepsGroup(items[n], previous, proxies);
        forall k | 0 <= k < |front|
          ensures LastIndex(selected, front[k].name.value) < LastIndex(selected, items[n].name.value)
        {
          var i := KeptPrecedes(selected, items[..n], previous, proxies, k);
          assert items[i].name == front[k].name;
        }
        InOrderAppend(selected, front, judged.value);
      }
    }
  }

  /** The plan's records name distinct groups, in the order the input names each for the last time. */
  lemma PlanIsOrdered(selected: seq<PrfSelected>, previous: Option<Proxies>, proxies: Proxies)
    ensures InLastOrder(selected, Reconcile(selected, previous, proxies).selected)
    ensures DistinctGroups(Reconcile(selected, previous, proxies).selected)
  {
    LastRecordsInOrder(selected);
    KeptInOrder(selected, LastRecords(selected), previous, proxies);
  }

  // ---------------------------------------------------------------- counting repairs

  lemma {:induction false} KeptIsShorter(items: seq<PrfSelected>, previous: Option<Proxies>, proxies: Proxies)
    ensures |Kept(items, previous, proxies)| <= |items|
  {
    if items != [] {
      KeptIsShorter(items[..|items| - 1], previous, proxies);
    }
  }

  lemma SameFrontAndLast<X>(front: seq<X>, last: X, xs: seq<X>)
    requires xs != []
    ensures front + [last] == xs <==> front == xs[..|xs| - 1] && last == xs[|xs| - 1]
  {
    if front + [last] == xs {
      assert front == xs[..|front|];
    }
  }

  lemma {:induction false} UnchangedIsWhole(items: seq<PrfSelected>, previous: Option<Proxies>, proxies: Proxies)
    ensures Changed(items, previous, proxies) == 0 <==> Kept(items, previous, proxies) == items
  {
    if items != [] {
      var n := |items| - 1;
      var front, judged := Kept(items[..n], previous, proxies), Judge(items[n], previous, proxies);
      UnchangedIsWhole(items[..n], previous, proxies);
      if judged.Some? {
        SameFrontAndLast(front, judged.value, items);
      } else {
        KeptIsShorter(items[..n], previous, proxies);
        assert front + [] == front;
      }
    }
  }

  /** `repaired_count` is zero exactly when the plan writes back the list it was given. */
  lemma RepairCountIsExact(selected: seq<PrfSelected>, previous: Option<Proxies>, proxies: Proxies)
    ensures var plan := Reconcile(selected, previous, proxies);
            plan.repaired == 0 <==> plan.selected == selected
  {
    var last := LastRecords(selected);
    LastIsShorter(selected);
    KeptMembers(last, previous, proxies);
    UnchangedIsWhole(last, previous, proxies);
    if |last| == |selected| {
      AllLastIsWhole(selected);
    }
  }

  // ---------------------------------------------------------------- pruning

  /** The one record of a group that counts. */
  lemma JudgedRecord(selected: seq<PrfSelected>, previous: Option<Proxies>, proxies: Proxies, item: PrfSelected)
    requires item in LastRecords(selected)
    ensures var plan := Reconcile(selected, previous, proxies);
            match Judge(item, previous, proxies)
            case Some(x) => x in plan.selected && x.name == item.name
            case None => !Names(plan.selected, item.name)
  {
    var last, plan := LastRecords(selected), Reconcile(selected, previous, proxies);
    LastRecordsSound(selected);
    KeptMembers(last, previous, proxies);
    var k :| 0 <= k < |last| && last[k] == item;
    if Judge(item, previous, proxies).Some? {
      JudgeKeepsGroup(item, previous, proxies);
    } else {
      forall j | 0 <= j < |plan.selected|
        ensures plan.selected[j].name != item.name
      {
        assert plan.selected[j] in plan.selected;
        var i :| 0 <= i < |last| && Judge(last[i], previous, proxies) == Some(plan.selected[j]);
        JudgeKeepsGroup(last[i], previous, proxies);
        assert i < k || k < i;
      }
    }
  }

  /** Why a well-formed record may be altered or dropped. */
  predicate Condemned(group: string, node: string, previous: Option<Proxies>, proxies: Proxies) {
    || GroupGone(group, previous, proxies)
    || (group in proxies && proxies[group].Selectable() && NodeGone(group, node, previous, proxies))
    || (group in proxies && proxies[group].Loaded() && !proxies[group].Selectable()
        && (if proxies[group].CurrentIsMember() then proxies[group].now != Some(node) else !proxies[group].Has(node)))
  }

  /**
   Pruning needs two witnesses.  A well-formed last record survives unchanged unless its group
   is absent from both snapshots, its selectable group's member lists both arrived and both
   lack the node, or its loaded group is not one the user can select in and is elsewhere (or
   nowhere).  Exactly then is it altered or dropped, and a first look on its own condemns
   nothing in a selectable group.
   */
  lemma PruningNeedsTwoWitnesses(
    selected: seq<PrfSelected>, previous: Option<Proxies>, proxies: Proxies, item: PrfSelected)
    requires item in LastRecords(selected) && WellFormed(item)
    ensures var plan := Reconcile(selected, previous, proxies);
            item in plan.selected <==> !Condemned(item.name.value, item.now.value, previous, proxies)
    ensures previous.None? && (item.name.value in proxies ==> proxies[item.name.value].Selectable()) ==>
              item in Reconcile(selected, previous, proxies).selected
  {
    var plan := Reconcile(selected, previous, proxies);
    JudgedRecord(selected, previous, proxies, item);
    PlanIsOrdered(selected, previous, proxies);
    if item in plan.selected {
      var k :| 0 <= k < |plan.selected| && plan.selected[k] == item;
      assert Names(plan.selected, item.name);
      var x := Judge(item, previous, proxies).value;
      var j :| 0 <= j < |plan.selected| && plan.selected[j] == x;
      assert j == k;
    }
  }

  // ---------------------------------------------------------------- activations

  ghost predicate OncePerGroup(acts: seq<Activation>) {
    forall i, j :: 0 <= i < j < |acts| ==> acts[i].0 != acts[j].0
  }

  lemma {:induction false} ActivationMembers(items: seq<PrfSelected>, proxies: Proxies)
    requires DistinctGroups(items)
    ensures forall a :: a in Activations(items, proxies) <==>
                          exists i :: 0 <= i < |items| && MustActivate(items[i], proxies)
                                      && a == (items[i].name.value, items[i].now.value)
    ensures OncePerGroup(Activations(items, proxies))
  {
    if items != [] {
      var n := |items| - 1;
      var front, acts := Activations(items[..n], proxies), Activations(items, proxies);
      ActivationMembers(items[..n], proxies);
      forall a | a in front
        ensures exists i :: 0 <= i < |items| && MustActivate(items[i], proxies)
                            && a == (items[i].name.value, items[i].now.value)
        ensures Some(a.0) != items[n].name
      {
        var i :| 0 <= i < n && MustActivate(items[..n][i], proxies)
                 && a == (items[..n][i].name.value, items[..n][i].now.value);
        assert MustActivate(items[i], proxies);
      }
      forall i | 0 <= i < |items| && MustActivate(items[i], proxies)
        ensures (items[i].name.value, items[i].now.value) in acts
      {
        if i < n {
          assert items[..n][i] == items[i];
        }
      }
      forall i | 0 <= i < |front| ensures Some(front[i].0) != items[n].name {
        assert front[i] in front;
      }
      assert acts == front || acts == front + [(items[n].name.value, items[n].now.value)];
    }
  }

  /**
   Every activation puts a loaded, selectable group on one of its members that it is not on,
   each group at most once; and every last record calling for that gets its activation.
   */
  lemma ActivationsAreMinimal(selected: seq<PrfSelected>, previous: Option<Proxies>, proxies: Proxies)
    ensures var acts := Reconcile(selected, previous, proxies).activations;
            && (forall a :: a in acts ==>
                  && a.0 in proxies && proxies[a.0].Selectable() && proxies[a.0].Has(a.1)
                  && proxies[a.0].now != Some(a.1)
                  && PrfSelected(Some(a.0), Some(a.1)) in LastRecords(selected))
            && OncePerGroup(acts)
            && (forall item :: item in LastRecords(selected) && MustActivate(item, proxies) ==>
                                 (item.name.value, item.now.value) in acts)
  {
    LastRecordsSound(selected);
    var last := LastRecords(selected);
    ActivationMembers(last, proxies);
    forall a | a in Activations(last, proxies)
      ensures PrfSelected(Some(a.0), Some(a.1)) in last
    {
      var i :| 0 <= i < |last| && MustActivate(last[i], proxies) && a == (last[i].name.value, last[i].now.value);
      assert last[i] == PrfSelected(Some(a.0), Some(a.1));
    }
  }

  // ---------------------------------------------------------------- convergence

  lemma {:induction false} ActivateShape(proxies: Proxies, acts: seq<Activation>)
    ensures var after := Activate(proxies, acts);
            && after.Keys == proxies.Keys
            && forall g :: g in proxies ==> after[g].kind == proxies[g].kind && after[g].all == proxies[g].all
  {
    if acts != [] {
      ActivateShape(proxies, acts[..|acts| - 1]);
    }
  }

  lemma {:induction false} ActivateNow(proxies: Proxies, acts: seq<Activation>, group: string)
    requires group in proxies
    requires OncePerGroup(acts)
    ensures group in Activate(proxies, acts)
    ensures (forall i :: 0 <= i < |acts| ==> acts[i].0 != group) ==>
              Activate(proxies, acts)[group].now == proxies[group].now
    ensures forall i :: 0 <= i < |acts| && acts[i].0 == group ==>
                          Activate(proxies, acts)[group].now == Some(acts[i].1)
  {
    ActivateShape(proxies, acts);
    if acts != [] {
      ActivateNow(proxies, acts[..|acts| - 1], group);
    }
  }

  /** After the plan's activations a group is on the recorded node if it had to be moved, else where it was. */
  lemma AfterPlan(selected: seq<PrfSelected>, previous: Option<Proxies>, proxies: Proxies, item: PrfSelected)
    requires item in LastRecords(selected) && WellFormed(item) && item.name.value in proxies
    ensures var after := Activate(proxies, Reconcile(selected, previous, proxies).activations);
            && item.name.value in after
            && after[item.name.value].now ==
               if MustActivate(item, proxies) then item.now else proxies[item.name.value].now
  {
    var last, group := LastRecords(selected), item.name.value;
    var acts := Reconcile(selected, previous, proxies).activations;
    LastRecordsSound(selected);
    ActivationMembers(last, proxies);
    ActivateNow(proxies, acts, group);
    var k :| 0 <= k < |last| && last[k] == item;
    if MustActivate(item, proxies) {
      assert (group, item.now.value) in acts;
    } else {
      forall i | 0 <= i < |acts| ensures acts[i].0 != group {
        assert acts[i] in acts;
        var j :| 0 <= j < |last| && MustActivate(last[j], proxies)
                 && acts[i] == (last[j].name.value, last[j].now.value);
        assert j == k || last[j].name != last[k].name;
      }
    }
  }

  /** A judged record, looked at again after the plan's activations, is left alone. */
  lemma JudgedRecordIsStable(selected: seq<PrfSelected>, previous: Option<Proxies>, proxies: Proxies, item: PrfSelected)
    requires item in LastRecords(selected) && Judge(item, previous, proxies).Some?
    ensures var x := Judge(item, previous, proxies).value;
            var after := Activate(proxies, Reconcile(selected, previous, proxies).activations);
            Judge(x, previous, after) == Some(x) && !MustActivate(x, after)
  {
    var acts := Reconcile(selected, previous, proxies).activations;
    ActivateShape(proxies, acts);
    if item.name.value in proxies {
      AfterPlan(selected, previous, proxies, item);
    }
  }

  predicate Stable(x: PrfSelected, previous: Option<Proxies>, proxies: Proxies) {
    Judge(x, previous, proxies) == Some(x) && !MustActivate(x, proxies)
  }

  lemma {:induction false} AllStable(items: seq<PrfSelected>, previous: Option<Proxies>, proxies: Proxies)
    requires forall i :: 0 <= i < |items| ==> Stable(items[i], previous, proxies)
    ensures Kept(items, previous, proxies) == items
    ensures Activations(items, proxies) == []
    ensures Changed(items, previous, proxies) == 0
  {
    if items != [] {
      var n := |items| - 1;
      AllStable(items[..n], previous, proxies);
      assert Stable(items[n], previous, proxies);
      assert items == items[..n] + [items[n]];
    }
  }

  /**
   One round is enough: once the core has made the plan's selections, reconciling the plan's own
   list against the same earlier snapshot changes nothing and asks for nothing.
   */
  lemma ReconcileConverges(selected: seq<PrfSelected>, previous: Option<Proxies>, proxies: Proxies)
    ensures var plan := Reconcile(selected, previous, proxies);
            Reconcile(plan.selected, previous, Activate(proxies, plan.activations)) == Plan(plan.selected, [], 0)
  {
    var plan := Reconcile(selected, previous, proxies);
    var after := Activate(proxies, plan.activations);
    PlanIsOrdered(selected, previous, proxies);
    DistinctIsLast(plan.selected);
    KeptMembers(LastRecords(selected), previous, proxies);
    forall k | 0 <= k < |plan.selected| ensures Stable(plan.selected[k], previous, after) {
      assert plan.selected[k] in plan.selected;
      var i :| 0 <= i < |LastRecords(selected)| && Judge(LastRecords(selected)[i], previous, proxies) == Some(plan.selected[k]);
      JudgedRecordIsStable(selected, previous, proxies, LastRecords(selected)[i]);
    }
    AllStable(plan.selected, previous, after);
  }

  // ---------------------------------------------------------------- skipping the second look

  lemma {:induction false} SameJudgement(
    items: seq<PrfSelected>, one: Option<Proxies>, other: Option<Proxies>, proxies: Proxies)
    requires forall x :: x in items ==> Judge(x, one, proxies) == Judge(x, other, proxies)
    ensures Kept(items, one, proxies) == Kept(items, other, proxies)
    ensures Changed(items, one, proxies) == Changed(items, other, proxies)
  {
    if items != [] {
      assert items[|items| - 1] in items;
      SameJudgement(items[..|items| - 1], one, other, proxies);
    }
  }

  /**
   When no record needs confirmation the worker keeps its first plan.  It loses nothing: no
   earlier snapshot could have led to a different one.
   */
  lemma UnneededConfirmation(selected: seq<PrfSelected>, previous: Option<Proxies>, proxies: Proxies)
    requires forall i :: 0 <= i < |selected| ==> !NeedsConfirmation(selected[i], proxies)
    ensures Reconcile(selected, None, proxies) == Reconcile(selected, previous, proxies)
  {
    LastRecordsSound(selected);
    forall x | x in LastRecords(selected)
      ensures Judge(x, None, proxies) == Judge(x, previous, proxies)
    {
      var i :| 0 <= i < |selected| && selected[i] == x;
      assert !NeedsConfirmation(selected[i], proxies);
    }
    SameJudgement(LastRecords(selected), None, previous, proxies);
  }

  // ---------------------------------------------------------------- settling

  lemma {:induction false} SettledMeansEach(selected: seq<PrfSelected>, proxies: Proxies)
    ensures Unsettled(selected, proxies) == [] <==>
              forall i :: 0 <= i < |selected| && WellFormed(selected[i]) ==>
                selected[i].name.value in proxies && proxies[selected[i].name.value].now == selected[i].now
  {
    if selected != [] {
      SettledMeansEach(selected[1..], proxies);
      assert forall i :: 1 <= i < |selected| ==> selected[i] == selected[1..][i - 1];
      assert forall i :: 0 <= i < |selected[1..]| ==> selected[1..][i] == selected[i + 1];
    }
  }

  lemma {:induction false} LastForIsLast(selected: seq<PrfSelected>, group: string)
    requires Names(selected, Some(group))
    ensures selected[LastIndex(selected, group)] in LastRecords(selected)
  {
    assert selected == [selected[0]] + selected[1..];
    NamesCons(selected[0], selected[1..], Some(group));
    if Names(selected[1..], Some(group)) {
      LastForIsLast(selected[1..], group);
      assert selected[LastIndex(selected, group)] == selected[1..][LastIndex(selected[1..], group)];
    }
  }

  /** Where one round of activations leaves the group of a record: its last record decides. */
  function LeftOn(selected: seq<PrfSelected>, proxies: Proxies, group: string): Option<string>
    requires Names(selected, Some(group)) && group in proxies
  {
    var last := selected[LastIndex(selected, group)];
    if MustActivate(last, proxies) then last.now else proxies[group].now
  }

  /** A complete record's group is there, and a round leaves it on the recorded node. */
  predicate SettledByRound(selected: seq<PrfSelected>, proxies: Proxies, item: PrfSelected)
    requires WellFormed(item) && Names(selected, item.name)
  {
    item.name.value in proxies && LeftOn(selected, proxies, item.name.value) == item.now
  }

  /**
   When one round of activations settles everything, for any records and any state of the core: exactly
   when each complete record's group is there and either its last record has it moved, onto
   that node, or it need not be moved and is there already.  A last record that names another node,
   or none, shadows an earlier one, which then stays unsettled however often the worker retries.
   */
  lemma SettlesExactlyWhen(selected: seq<PrfSelected>, proxies: Proxies)
    ensures forall i :: 0 <= i < |selected| ==> Names(selected, selected[i].name)
    ensures Unsettled(selected, Activate(proxies, Reconcile(selected, None, proxies).activations)) == [] <==>
              forall i :: 0 <= i < |selected| && WellFormed(selected[i]) ==> SettledByRound(selected, proxies, selected[i])
  {
    var acts := Reconcile(selected, None, proxies).activations;
    SettledMeansEach(selected, Activate(proxies, acts));
    ActivateShape(proxies, acts);
    forall i | 0 <= i < |selected|
      ensures Names(selected, selected[i].name)
      ensures WellFormed(selected[i]) && selected[i].name.value in proxies ==>
                Activate(proxies, acts)[selected[i].name.value].now == LeftOn(selected, proxies, selected[i].name.value)
    {
      assert selected[i].name == selected[i].name;
      assert Names(selected, selected[i].name);
      if selected[i].name.Some? {
        LastForIsLast(selected, selected[i].name.value);
        LastRecordDecides(selected, None, proxies, selected[LastIndex(selected, selected[i].name.value)]);
      }
    }
  }

  /** Two complete records of one group that name different nodes. */
  ghost predicate Conflicting(selected: seq<PrfSelected>) {
    exists i, j :: 0 <= i < j < |selected| && WellFormed(selected[i]) && WellFormed(selected[j])
                   && selected[i].name == selected[j].name && selected[i].now != selected[j].now
  }

  /** A conflict is never settled, wherever the groups are. */
  lemma ConflictNeverSettles(selected: seq<PrfSelected>, proxies: Proxies)
    requires Conflicting(selected)
    ensures Unsettled(selected, proxies) != []
  {
    SettledMeansEach(selected, proxies);
  }

  // ---------------------------------------------------------------- one record, from the core's answers alone

  /** The members a snapshot lists for a group; none as long as they have not arrived. */
  function Members(proxies: Proxies, group: string): seq<string> {
    if group in proxies && proxies[group].all.Some? then proxies[group].all.value else []
  }

  /** A group in which the user, or a test in his place, selects. */
  predicate Selects(proxies: Proxies, group: string) {
    group in proxies && proxies[group].kind in {Selector, URLTest, Fallback, LoadBalance}
  }

  /** The group is on one of its members. */
  predicate OnMember(proxies: Proxies, group: string) {
    group in proxies && proxies[group].now.Some? && proxies[group].now.value in Members(proxies, group)
  }

  /** The record cannot stay: its group or its node is gone for both snapshots, or nobody can select it. */
  predicate CannotStay(group: string, node: string, previous: Option<Proxies>, proxies: Proxies) {
    if group !in proxies then previous.Some? && group !in previous.value
    else if Members(proxies, group) == [] then false
    else if Selects(proxies, group) then
      && node !in Members(proxies, group)
      && previous.Some? && Members(previous.value, group) != [] && node !in Members(previous.value, group)
    else if OnMember(proxies, group) then proxies[group].now != Some(node)
    else node !in Members(proxies, group)
  }

  /**
   What becomes of one record: the last to name its group.  Without a node it goes.  If it can stay it
   stays; if not, it is changed to the member the group is on, or dropped if it is on none.  And its node
   is selected exactly if it is a listed member of a group one can select in, which is elsewhere.
   */
  lemma WhatBecomesOfARecord(selected: seq<PrfSelected>, previous: Option<Proxies>, proxies: Proxies, i: nat, group: string)
    requires i < |selected| && selected[i].name == Some(group)
    requires forall j :: i < j < |selected| ==> selected[j].name != Some(group)
    ensures var plan, item := Reconcile(selected, previous, proxies), selected[i];
            && (if item.now.None? then !Names(plan.selected, Some(group))
                else if !CannotStay(group, item.now.value, previous, proxies) then item in plan.selected
                else if OnMember(proxies, group) then PrfSelected(Some(group), proxies[group].now) in plan.selected
                else !Names(plan.selected, Some(group)))
            && forall node :: (group, node) in plan.activations <==>
                 && item.now == Some(node) && Selects(proxies, group) && node in Members(proxies, group)
                 && proxies[group].now != Some(node)
  {
    var item := selected[i];
    LastIndexUnique(selected, group, i);
    LastForIsLast(selected, group);
    JudgedRecord(selected, previous, proxies, item);
    ActivatedExactlyIf(selected, previous, proxies, item);
  }

  lemma ActivatedExactlyIf(selected: seq<PrfSelected>, previous: Option<Proxies>, proxies: Proxies, item: PrfSelected)
    requires item in LastRecords(selected) && item.name.Some?
    ensures forall node :: (item.name.value, node) in Reconcile(selected, previous, proxies).activations <==>
              MustActivate(item, proxies) && item.now == Some(node)
  {
    var last := LastRecords(selected);
    LastRecordsSound(selected);
    ActivationsAreMinimal(selected, previous, proxies);
    forall node | (item.name.value, node) in Reconcile(selected, previous, proxies).activations
      ensures MustActivate(item, proxies) && item.now == Some(node)
    {
      var other := PrfSelected(item.name, Some(node));
      assert other in last;
      var a :| 0 <= a < |last| && last[a] == other;
      var b :| 0 <= b < |last| && last[b] == item;
      assert a == b || a < b || b < a;
    }
  }

  // ---------------------------------------------------------------- editing the records

  lemma LastIndexUnique(selected: seq<PrfSelected>, group: string, i: nat)
    requires i < |selected| && selected[i].name == Some(group)
    requires forall j :: i < j < |selected| ==> selected[j].name != Some(group)
    ensures Names(selected, Some(group)) && LastIndex(selected, group) == i
  {
    var k := LastIndex(selected, group);
    if k < i {
      LastIndexIsLast(selected, group, i);
    }
  }

  lemma FirstBeforeLast(selected: seq<PrfSelected>, group: string)
    requires Names(selected, Some(group))
    ensures FirstIndex(selected, group) <= LastIndex(selected, group)
  {
    if LastIndex(selected, group) < FirstIndex(selected, group) {
      LastIndexIsLast(selected, group, FirstIndex(selected, group));
    }
  }

  /** What the group's last record holds once a choice has been recorded: recording edits the first. */
  function LastAfterRecording(selected: seq<PrfSelected>, group: string, node: string): Option<string> {
    if !Names(selected, Some(group)) || FirstIndex(selected, group) == LastIndex(selected, group) then Some(node)
    else selected[LastIndex(selected, group)].now
  }

  lemma RecordedLast(selected: seq<PrfSelected>, group: string, node: string)
    ensures PrfSelected(Some(group), LastAfterRecording(selected, group, node)) in LastRecords(Recorded(selected, group, node))
  {
    var after := Recorded(selected, group, node);
    if Names(selected, Some(group)) {
      var last := LastIndex(selected, group);
      FirstBeforeLast(selected, group);
      forall j | last < j < |after| ensures after[j].name != Some(group) {
        LastIndexIsLast(selected, group, j);
      }
      LastIndexUnique(after, group, last);
      assert after[last] == PrfSelected(Some(group), LastAfterRecording(selected, group, node));
    } else {
      LastIndexUnique(after, group, |selected|);
    }
    LastForIsLast(after, group);
  }

  /** A group's last record decides where the plan's activations put it. */
  lemma LastRecordDecides(selected: seq<PrfSelected>, previous: Option<Proxies>, proxies: Proxies, item: PrfSelected)
    requires item in LastRecords(selected) && item.name.Some?
    ensures var acts := Reconcile(selected, previous, proxies).activations;
            && (forall node :: (item.name.value, node) in acts <==> MustActivate(item, proxies) && item.now == Some(node))
            && (item.name.value in proxies ==>
                  && item.name.value in Activate(proxies, acts)
                  && Activate(proxies, acts)[item.name.value].now ==
                     if MustActivate(item, proxies) then item.now else proxies[item.name.value].now)
  {
    var last, group := LastRecords(selected), item.name.value;
    var acts := Reconcile(selected, previous, proxies).activations;
    LastRecordsSound(selected);
    ActivationMembers(last, proxies);
    forall node ensures (group, node) in acts <==> MustActivate(item, proxies) && item.now == Some(node) {
      OnlyItsOwnActivation(selected, previous, proxies, item, node);
    }
    if group in proxies {
      if WellFormed(item) {
        AfterPlan(selected, previous, proxies, item);
      } else {
        forall i | 0 <= i < |acts| ensures acts[i].0 != group {
          assert (acts[i].0, acts[i].1) == acts[i] && acts[i] in acts;
        }
        ActivateNow(proxies, acts, group);
      }
    }
  }

  lemma OnlyItsOwnActivation(
    selected: seq<PrfSelected>, previous: Option<Proxies>, proxies: Proxies, item: PrfSelected, node: string)
    requires item in LastRecords(selected) && item.name.Some?
    ensures (item.name.value, node) in Reconcile(selected, previous, proxies).activations
            <==> MustActivate(item, proxies) && item.now == Some(node)
  {
    var last := LastRecords(selected);
    ActivationsAreMinimal(selected, previous, proxies);
    LastRecordsSound(selected);
    var k :| 0 <= k < |last| && last[k] == item;
    if (item.name.value, node) in Reconcile(selected, previous, proxies).activations {
      var x := PrfSelected(item.name, Some(node));
      assert x in last;
      var j :| 0 <= j < |last| && last[j] == x;
      assert j == k;
    }
  }

  /**
   What a restore makes of a recorded choice.  Recording edits a group's first record, a restore acts
   on its last; let `last` be what that last record then holds.  The plan puts the group on the chosen
   node exactly if `last` is that node and the group is a loaded selectable one that has it and is
   elsewhere.  A group that can be put there is there after the restore exactly if `last` is the
   node, or the group was there already and does not have `last`.
   */
  lemma RecordedChoiceIsRestored(
    selected: seq<PrfSelected>, group: string, node: string, previous: Option<Proxies>, proxies: Proxies)
    ensures var last := LastAfterRecording(selected, group, node);
            var plan := Reconcile(Recorded(selected, group, node), previous, proxies);
            && ((group, node) in plan.activations <==>
                  && last == Some(node) && group in proxies && proxies[group].Selectable()
                  && proxies[group].Has(node) && proxies[group].now != Some(node))
            && (group in proxies && proxies[group].Selectable() && proxies[group].Has(node) ==>
                  && group in Activate(proxies, plan.activations)
                  && (Activate(proxies, plan.activations)[group].now == Some(node) <==>
                        || last == Some(node)
                        || (proxies[group].now == Some(node) && !(last.Some? && proxies[group].Has(last.value)))))
  {
    var item := PrfSelected(Some(group), LastAfterRecording(selected, group, node));
    RecordedLast(selected, group, node);
    LastRecordDecides(Recorded(selected, group, node), previous, proxies, item);
  }

  /**
   Whether the plan keeps the choice on record: it does exactly if `last` is the choice and not
   condemned, or `last` is condemned and the group itself is on the chosen node.
   */
  lemma RecordedChoiceIsKept(
    selected: seq<PrfSelected>, group: string, node: string, previous: Option<Proxies>, proxies: Proxies)
    ensures var last := LastAfterRecording(selected, group, node);
            PrfSelected(Some(group), Some(node)) in Reconcile(Recorded(selected, group, node), previous, proxies).selected
            <==> if last == Some(node) then !Condemned(group, node, previous, proxies)
                 else
                   && last.Some? && Condemned(group, last.value, previous, proxies)
                   && group in proxies && proxies[group].CurrentIsMember() && proxies[group].now == Some(node)
  {
    var after := Recorded(selected, group, node);
    var item, x := PrfSelected(Some(group), LastAfterRecording(selected, group, node)), PrfSelected(Some(group), Some(node));
    var plan := Reconcile(after, previous, proxies);
    RecordedLast(selected, group, node);
    JudgedRecord(after, previous, proxies, item);
    PlanIsOrdered(after, previous, proxies);
    if x in plan.selected {
      var k :| 0 <= k < |plan.selected| && plan.selected[k] == x;
      assert Names(plan.selected, item.name);
      var judged := Judge(item, previous, proxies).value;
      var j :| 0 <= j < |plan.selected| && plan.selected[j] == judged;
      assert j == k;
    }
  }

  /** A Selector with three nodes, on the first. */
  function ThreeNodes(): Proxies {
    map["g" := Proxy(Selector, Some(["a", "b", "c"]), Some("a"))]
  }

  /** Two records of one group that disagree. */
  function TwoRecords(): seq<PrfSelected> {
    [PrfSelected(Some("g"), Some("a")), PrfSelected(Some("g"), Some("b"))]
  }

  /** Those two are never settled together. */
  lemma TwoRecordsNeverSettle(proxies: Proxies)
    ensures Unsettled(TwoRecords(), proxies) != []
  {
    var two := TwoRecords();
    assert "a"[0] != "b"[0];
    assert two[0].name == two[1].name && two[0].now != two[1].now;
    ConflictNeverSettles(two, proxies);
  }

  /** A complete record behind which the same group is recorded without a node. */
  function ShadowedRecord(): seq<PrfSelected> {
    [PrfSelected(Some("g"), Some("b")), PrfSelected(Some("g"), None)]
  }

  /** Nothing conflicts and no complete record needs confirmation, but the round does nothing and settles nothing. */
  lemma ShadowedRecordNeverSettles()
    ensures !Conflicting(ShadowedRecord())
    ensures forall i :: 0 <= i < 2 ==> !NeedsConfirmation(ShadowedRecord()[i], ThreeNodes())
    ensures var acts := Reconcile(ShadowedRecord(), None, ThreeNodes()).activations;
            acts == [] && Unsettled(ShadowedRecord(), Activate(ThreeNodes(), acts)) != []
  {
    var two, proxies := ShadowedRecord(), ThreeNodes();
    var last := PrfSelected(Some("g"), None);
    assert "a"[0] != "b"[0] && "b" in ["a", "b", "c"];
    LastIndexUnique(two, "g", 1);
    assert LastRecords(two[1..]) == [last] && two[0].name == Some("g");
    assert two[1..][0].name == Some("g");
    assert LastRecords(two) == [last];
    assert [last][..0] == [];
    SettlesExactlyWhen(two, proxies);
    assert WellFormed(two[0]) && !SettledByRound(two, proxies, two[0]);
  }

  /** With two records of the group, the choice of `c` is recorded and the restore moves the group to `b`. */
  lemma RecordedChoiceIsLost()
    ensures Recorded(TwoRecords(), "g", "c") == [PrfSelected(Some("g"), Some("c")), PrfSelected(Some("g"), Some("b"))]
    ensures var acts := Reconcile(Recorded(TwoRecords(), "g", "c"), None, ThreeNodes()).activations;
            ("g", "b") in acts && ("g", "c") !in acts
  {
    var two := TwoRecords();
    assert FirstIndex(two, "g") == 0;
    LastIndexUnique(two, "g", 1);
    var after, item := Recorded(two, "g", "c"), PrfSelected(Some("g"), Some("b"));
    assert "b"[0] != "c"[0] && "a"[0] != "b"[0];
    RecordedLast(two, "g", "c");
    LastRecordDecides(after, None, ThreeNodes(), item);
    assert "b" in ["a", "b", "c"];
  }

  lemma {:induction false} ForgottenKeepsOthers(selected: seq<PrfSelected>, group: string)
    ensures |Forgotten(selected, group)| <= |selected|
    ensures forall x :: x in Forgotten(selected, group) <==> x in selected && x.name != Some(group)
  {
    if selected != [] {
      var n := |selected| - 1;
      ForgottenKeepsOthers(selected[..n], group);
      assert selected == selected[..n] + [selected[n]];
    }
  }

  /** A forgotten group is neither restored nor written back. */
  lemma ForgottenIsNotRestored(selected: seq<PrfSelected>, group: string, previous: Option<Proxies>, proxies: Proxies)
    ensures var plan := Reconcile(Forgotten(selected, group), previous, proxies);
            && (forall a :: a in plan.activations ==> a.0 != group)
            && (forall x :: x in plan.selected ==> x.name != Some(group))
  {
    var left := Forgotten(selected, group);
    ForgottenKeepsOthers(selected, group);
    LastRecordsSound(left);
    ActivationsAreMinimal(left, previous, proxies);
    KeptMembers(LastRecords(left), previous, proxies);
    forall x | x in Reconcile(left, previous, proxies).selected
      ensures x.name != Some(group)
    {
      var i :| 0 <= i < |LastRecords(left)| && Judge(LastRecords(left)[i], previous, proxies) == Some(x);
      JudgeKeepsGroup(LastRecords(left)[i], previous, proxies);
      assert LastRecords(left)[i] in left;
    }
  }
}
