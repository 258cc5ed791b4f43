/** The profile list over a whole life: loading, appending, editing, switching, moving and deleting. */
module ProfileLife {
  import opened Common
  import opened ProfileList
  import opened ProfileListTheorems

  /** `Edit` stands for every operation that changes fields of a listed item other than its uid. */
  datatype Op =
    | Load(read: Option<Profiles>, generated: seq<string>)
    | Add(item: PrfItem)
    | Edit(uid: string, edited: PrfItem)
    | Switch(target: Option<string>)
    | Move(active: string, over: string)
    | Delete(uid: string)

  function Edited(p: Profiles, uid: string, edited: PrfItem): Profiles {
    var i := Position(p.List(), Some(uid));
    if i == |p.List()| then p else p.(items := Some(p.List()[i := edited.(uid := Some(uid))]))
  }

  /** The list after an operation; one that fails leaves it as it was. */
  function Apply(p: Profiles, op: Op): Profiles {
    match op
    case Load(read, generated) =>
      if read.None? then Profiles(None, None)
      else if |generated| != |read.value.List()| then p
      else Profiles(read.value.current, Some(AllCompleted(read.value.List(), generated)))
    case Add(item) => Append(p, item).GetOr(p)
    case Edit(uid, edited) => Edited(p, uid, edited)
    case Switch(target) => Patch(p, target)
    case Move(active, over) => Reorder(p, active, over)
    case Delete(uid) =>
      var plan := PlanDelete(p, uid);
      if plan.None? then p else plan.value.profiles
  }

  function Life(p: Profiles, ops: seq<Op>): Profiles
    decreases |ops|
  {
    if ops == [] then p else Life(Apply(p, ops[0]), ops[1..])
  }

  /** Every item has a uid. */
  ghost predicate AllNamed(items: seq<PrfItem>) {
    forall x :: x in items ==> x.uid.Some?
  }

  lemma {:induction false} TakeAllSubset(items: seq<PrfItem>, doomed: seq<Option<string>>)
    ensures forall x :: x in TakeAll(items, doomed) ==> x in items
  {
    if doomed != [] {
      TakeAllSubset(items, doomed[..|doomed| - 1]);
    }
  }

  lemma AppliedStaysNamed(p: Profiles, op: Op)
    requires AllNamed(p.List())
    ensures AllNamed(Apply(p, op).List())
  {
    match op
    case Delete(uid) =>
      if PlanDelete(p, uid).Some? {
        TakeAllSubset(p.List(), Doomed(p, uid));
      }
    case _ =>
  }

  /**
   No list the program can come to hold has an item without a uid, whatever the file it was loaded
   from says: the loader gives each one a uid, appending refuses one without, and nothing else
   takes a uid away.
   */
  lemma {:induction false} EveryItemIsNamed(p: Profiles, ops: seq<Op>)
    requires AllNamed(p.List())
    ensures AllNamed(Life(p, ops).List())
    decreases |ops|
  {
    if ops != [] {
      AppliedStaysNamed(p, ops[0]);
      EveryItemIsNamed(Apply(p, ops[0]), ops[1..]);
    }
  }

  lemma {:induction false} NamedMeansNotAnonymous(items: seq<PrfItem>)
    ensures AllNamed(items) <==> Anonymous(items) == 0
  {
    if items != [] {
      NamedMeansNotAnonymous(items[1..]);
      assert items == [items[0]] + items[1..];
    }
  }

  /** The slots that name something. */
  function Filled(slots: seq<Option<string>>): seq<Option<string>> {
    if slots == [] then []
    else
      var n := |slots| - 1;
      Filled(slots[..n]) + if slots[n].None? then [] else [slots[n]]
  }

  lemma {:induction false} EmptySlotsTakeNothing(items: seq<PrfItem>, slots: seq<Option<string>>)
    requires AllNamed(items)
    ensures TakeAll(items, slots) == TakeAll(items, Filled(slots))
    ensures TakenFiles(items, slots) == TakenFiles(items, Filled(slots))
  {
    if slots != [] {
      var n := |slots| - 1;
      var filled := Filled(slots[..n]);
      EmptySlotsTakeNothing(items, slots[..n]);
      TakeAllSubset(items, filled);
      if slots[n].None? {
        assert filled + [] == filled;
        assert !Listed(TakeAll(items, filled), None);
      } else {
        assert (filled + [slots[n]])[..|filled|] == filled;
      }
    }
  }

  /**
   In the running program an empty helper slot is harmless: over any life that starts with nothing
   loaded, a deletion takes exactly what the uid and the filled slots take.
   */
  lemma EmptySlotsAreHarmless(ops: seq<Op>, uid: string)
    requires Listed(Life(Profiles(None, None), ops).List(), Some(uid))
    ensures var p := Life(Profiles(None, None), ops);
            var d := PlanDelete(p, uid).value;
            && d.profiles.List() == TakeAll(p.List(), Filled(Doomed(p, uid)))
            && d.files == TakenFiles(p.List(), Filled(Doomed(p, uid)))
            && Anonymous(p.List()) == 0
  {
    var p := Life(Profiles(None, None), ops);
    EveryItemIsNamed(Profiles(None, None), ops);
    EmptySlotsTakeNothing(p.List(), Doomed(p, uid));
    NamedMeansNotAnonymous(p.List());
  }

  /** Only the guard stands between an empty slot and an item without a uid: on such a list the deletion takes it. */
  lemma UnguardedSlotTakesABystander()
    ensures var profile := PrfItem(Some("p"), Some("local"), None, Some(NO_OPTION), None);
            var bystander := PrfItem(None, Some("local"), Some("b.yaml"), None, None);
            var p := Profiles(None, Some([profile, bystander]));
            PlanDelete(p, "p").Some? && PlanDelete(p, "p").value.profiles.List() == []
  {
    var profile := PrfItem(Some("p"), Some("local"), None, Some(NO_OPTION), None);
    var bystander := PrfItem(None, Some("local"), Some("b.yaml"), None, None);
    var p := Profiles(None, Some([profile, bystander]));
    assert Position(p.List(), Some("p")) == 0;
    TakeAllAnonymous(p.List(), Doomed(p, "p"));
    var doomed := Doomed(p, "p");
    assert doomed == [Some("p"), None, None, None, None, None];
    assert doomed[..1] == [Some("p")] && doomed[..2] == [Some("p"), None];
    assert TakeAll(p.List(), []) == [profile, bystander];
    assert doomed[..1][..0] == [] && doomed[..2][..1] == doomed[..1];
    assert RemoveAt([profile, bystander], 0) == [bystander];
    assert TakeAll(p.List(), doomed[..1]) == [bystander];
    assert RemoveAt([bystander], 0) == [];
    assert TakeAll(p.List(), doomed[..2]) == [];
    NothingLeft(p.List(), doomed, 2);
  }

  lemma {:induction false} NothingLeft(items: seq<PrfItem>, doomed: seq<Option<string>>, k: nat)
    requires k <= |doomed| && TakeAll(items, doomed[..k]) == []
    ensures TakeAll(items, doomed) == []
  {
    if k == |doomed| {
      assert doomed[..k] == doomed;
    } else {
      var n := |doomed| - 1;
      assert doomed[..n][..k] == doomed[..k];
      NothingLeft(items, doomed[..n], k);
    }
  }

  /**
   Where a deletion leaves `current` on any list the program can hold, repeated uids included: it names a
   remote or local profile exactly if, where another is picked, what is left has one, and otherwise if
   what is left still has one under that uid.
   */
  lemma CurrentAfterDeletion(p: Profiles, uid: string)
    requires AllNamed(p.List()) && Listed(p.List(), Some(uid))
    ensures var left := TakeAll(p.List(), Doomed(p, uid));
            CurrentNamesProfile(PlanDelete(p, uid).value.profiles) <==>
              exists x :: x in left && x.Switchable() && (PicksAnother(p, uid) || x.uid == p.current)
  {
    var left, after := TakeAll(p.List(), Doomed(p, uid)), PlanDelete(p, uid).value.profiles;
    TakeAllSubset(p.List(), Doomed(p, uid));
    FirstSwitchableSound(left);
    if PicksAnother(p, uid) && FirstSwitchable(left).Some? {
      assert FirstSwitchable(left).value in after.List();
    } else if !PicksAnother(p, uid) {
      assert forall x :: x in left && x.Switchable() && x.uid == p.current ==> x in after.List();
    }
  }

  function ALocal(uid: string): PrfItem {
    PrfItem(Some(uid), Some("local"), None, None, None)
  }

  /** A file whose `current` names nothing is loaded; deleting one of its two profiles leaves it naming nothing. */
  lemma DanglingCurrentStays()
    ensures var read := Profiles(Some("ghost"), Some([ALocal("a"), ALocal("b")]));
            var p := Life(Profiles(None, None), [Load(Some(read), ["", ""]), Delete("a")]);
            p == Profiles(Some("ghost"), Some([ALocal("b")])) && !CurrentNamesProfile(p)
  {
    var a, b := ALocal("a"), ALocal("b");
    var read := Profiles(Some("ghost"), Some([a, b]));
    assert |"a"| != |"ghost"| && |"b"| != |"ghost"|;
    assert AllCompleted([a, b], ["", ""]) == [a, b];
    var load, delete := Load(Some(read), ["", ""]), Delete("a");
    assert Apply(Profiles(None, None), load) == read;
    assert Doomed(read, "a") == [Some("a")];
    assert TakeAll(read.List(), []) == [a, b];
    assert [Some("a")][..0] == [];
    assert RemoveAt([a, b], 0) == [b];
    assert Apply(read, delete) == Profiles(Some("ghost"), Some([b]));
    assert [load, delete][1..] == [delete] && [delete][1..] == [];
    assert Life(read, [delete]) == Life(Apply(read, delete), []);
  }
}
