/**
 What restores and choices do to the list and to the core, said of the lists, the records and the
 selections themselves.
 */
module RestoreEffects {
  import opened Common
  import opened SelectedNodes
  import opened SelectedNodesTheorems
  import opened ProfileList
  import opened RestoreProtocol
  import opened RestoreTheorems
  import opened RestoreProgress

  // ---------------------------------------------------------------- the list

  /** The first item with this uid holds these records. */
  ghost predicate Holding(p: Profiles, uid: string, i: nat, records: seq<PrfSelected>) {
    && i < |p.List()| && p.List()[i].uid == Some(uid)
    && (forall j :: 0 <= j < i ==> p.List()[j].uid != Some(uid))
    && p.List()[i].selected.GetOr([]) == records
  }

  /** Only the records of the item at `i` change; an empty list of them is stored as none. */
  ghost predicate OnlyRecordsChange(before: Profiles, after: Profiles, i: nat, records: seq<PrfSelected>) {
    && after.current == before.current
    && i < |before.List()| == |after.List()|
    && (forall j :: 0 <= j < |before.List()| && j != i ==> after.List()[j] == before.List()[j])
    && after.List()[i] == before.List()[i].(selected := if records == [] then None else Some(records))
  }

  lemma FirstHolds(p: Profiles, uid: string) returns (i: nat)
    requires Listed(p.List(), Some(uid))
    ensures Holding(p, uid, i, SelectedOf(p, uid))
    ensures forall records :: OnlyRecordsChange(p, WithSelected(p, uid, records), i, records)
  {
    i := Position(p.List(), Some(uid));
  }

  /**
   A write-back touches nothing but the records it is about: whenever one was made, the profile was current
   and held exactly the records the plan was computed from, every other item, the order and `current`
   stayed as they were, and the profile then held the plan's records.
   */
  lemma WriteBackTouchesOneProfile(profiles: Profiles, steps: seq<Step>, s: System, r: nat) returns (i: nat)
    requires Exec(Init(profiles), steps) == Some(s) && r < |s.repairs|
    ensures var repair := s.repairs[r];
            && repair.before.current == Some(repair.job.uid)
            && Holding(repair.before, repair.job.uid, i, repair.job.selected)
            && OnlyRecordsChange(repair.before, repair.after, i, repair.plan.selected)
  {
    RestoreNeverOverwrites(profiles, steps, s, r);
    InvAlong(Init(profiles), steps);
    assert RepairTrue(s.repairs[r]);
    i := FirstHolds(s.repairs[r].before, s.repairs[r].job.uid);
  }

  /** What recording or forgetting makes of the records: the group's first is changed, or one is put last; or all of the group go. */
  ghost predicate RecordsChosen(before: seq<PrfSelected>, after: seq<PrfSelected>, choice: Choice) {
    match choice
    case Record(group, node) =>
      if forall x :: x in before ==> x.name != Some(group) then after == before + [PrfSelected(Some(group), Some(node))]
      else
        exists k :: 0 <= k < |before| && before[k].name == Some(group)
                    && (forall j :: 0 <= j < k ==> before[j].name != Some(group))
                    && after == before[k := PrfSelected(Some(group), Some(node))]
    case Forget(group) =>
      && Subsequence(after, before)
      && forall x :: multiset(after)[x] == if x.name == Some(group) then 0 else multiset(before)[x]
  }

  lemma {:induction false} ForgottenIsRest(selected: seq<PrfSelected>, group: string)
    ensures Subsequence(Forgotten(selected, group), selected)
    ensures forall x :: multiset(Forgotten(selected, group))[x] == if x.name == Some(group) then 0 else multiset(selected)[x]
  {
    if selected != [] {
      var n := |selected| - 1;
      var rest := Forgotten(selected[..n], group);
      ForgottenIsRest(selected[..n], group);
      SubsequenceExtends(rest, selected[..n], selected[n]);
      assert selected == selected[..n] + [selected[n]];
      assert rest + [] == rest;
    }
  }

  lemma ChosenRecords(before: seq<PrfSelected>, choice: Choice)
    ensures RecordsChosen(before, AfterChoice(before, choice), choice)
  {
    match choice
    case Record(group, node) =>
      var k := FirstIndex(before, group);
      if k < |before| {
        FirstIsFirst(before, group);
        assert before[k] in before;
        assert before[k].(now := Some(node)) == PrfSelected(Some(group), Some(node));
      } else {
        forall x | x in before ensures x.name != Some(group) {
          var i :| 0 <= i < |before| && before[i] == x;
          assert !Names(before, Some(group));
        }
      }
    case Forget(group) => ForgottenIsRest(before, group);
  }

  lemma {:induction false} FirstIsFirst(selected: seq<PrfSelected>, group: string)
    ensures forall j :: 0 <= j < FirstIndex(selected, group) ==> selected[j].name != Some(group)
  {
    if selected != [] && selected[0].name != Some(group) {
      FirstIsFirst(selected[1..], group);
      assert forall j :: 1 <= j < FirstIndex(selected, group) ==> selected[j] == selected[1..][j - 1];
    }
  }

  /** The records say already what a choice wants. */
  ghost predicate SaySo(records: seq<PrfSelected>, choice: Choice) {
    match choice
    case Record(group, node) =>
      exists k :: 0 <= k < |records| && records[k] == PrfSelected(Some(group), Some(node))
                  && forall j :: 0 <= j < k ==> records[j].name != Some(group)
    case Forget(group) => forall x :: x in records ==> x.name != Some(group)
  }

  /** A choice has nothing to write: no listed profile is current, or its records say so already. */
  ghost predicate NothingToWrite(p: Profiles, choice: Choice) {
    || p.current.None?
    || (forall x :: x in p.List() ==> x.uid != p.current)
    || (exists i, records :: Holding(p, p.current.value, i, records) && SaySo(records, choice))
  }

  lemma {:induction false} ForgettingNothing(records: seq<PrfSelected>, group: string)
    requires forall x :: x in records ==> x.name != Some(group)
    ensures Forgotten(records, group) == records
  {
    if records != [] {
      ForgettingNothing(records[..|records| - 1], group);
    }
  }

  lemma SaidIsUnchanged(records: seq<PrfSelected>, choice: Choice)
    requires SaySo(records, choice)
    ensures AfterChoice(records, choice) == records
  {
    match choice
    case Record(group, node) =>
      var k :| 0 <= k < |records| && records[k] == PrfSelected(Some(group), Some(node))
               && forall j :: 0 <= j < k ==> records[j].name != Some(group);
      FirstIsFirst(records, group);
      assert Names(records, Some(group));
      assert FirstIndex(records, group) == k;
    case Forget(group) => ForgettingNothing(records, group);
  }

  lemma HoldsOne(p: Profiles, uid: string, i: nat, records: seq<PrfSelected>)
    requires Holding(p, uid, i, records)
    ensures Listed(p.List(), Some(uid)) && records == SelectedOf(p, uid)
  {
    assert Position(p.List(), Some(uid)) == i;
  }

  /** Nothing is written exactly if there is nothing to write. */
  lemma WritesExactlyIfNew(p: Profiles, choice: Choice)
    ensures Choose(p, choice).None? <==> NothingToWrite(p, choice)
  {
    if Choose(p, choice).None? {
      ChooseChanges(p, choice);
    }
    if i: nat, records :| p.current.Some? && Holding(p, p.current.value, i, records) && SaySo(records, choice) {
      HoldsOne(p, p.current.value, i, records);
      SaidIsUnchanged(records, choice);
    } else if NothingToWrite(p, choice) && p.current.Some? && Listed(p.List(), p.current) {
      assert p.List()[Position(p.List(), p.current)] in p.List();
    }
  }

  lemma ChooseChanges(p: Profiles, choice: Choice)
    ensures match Choose(p, choice)
            case Some(after) =>
              exists i, was, records :: p.current.Some? && Holding(p, p.current.value, i, was)
                                        && RecordsChosen(was, records, choice) && OnlyRecordsChange(p, after, i, records)
            case None => NothingToWrite(p, choice)
  {
    if p.current.Some? && Listed(p.List(), p.current) {
      var was := SelectedOf(p, p.current.value);
      var i := FirstHolds(p, p.current.value);
      ChosenRecords(was, choice);
      if Choose(p, choice).None? {
        NothingNew(was, choice);
      }
    } else if p.current.Some? {
      forall x | x in p.List() ensures x.uid != p.current {
        var k :| 0 <= k < |p.List()| && p.List()[k] == x;
      }
    }
  }

  lemma NothingNew(was: seq<PrfSelected>, choice: Choice)
    requires RecordsChosen(was, was, choice)
    ensures SaySo(was, choice)
  {
    match choice
    case Record(group, node) =>
      assert |was + [PrfSelected(Some(group), Some(node))]| != |was|;
      var k :| 0 <= k < |was| && was[k].name == Some(group) && (forall j :: 0 <= j < k ==> was[j].name != Some(group))
               && was == was[k := PrfSelected(Some(group), Some(node))];
      assert was[k] == PrfSelected(Some(group), Some(node));
    case Forget(group) =>
      forall x | x in was ensures x.name != Some(group) {
        assert multiset(was)[x] > 0;
      }
  }
}
