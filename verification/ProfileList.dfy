/** The profile list: the current profile, and the items it is chosen from. */
module ProfileList {
  import opened Common
  import opened SelectedNodes

  /** The helper profiles a profile points at, by uid. */
  datatype PrfOption = PrfOption(
    merge: Option<string>, script: Option<string>, rules: Option<string>, proxies: Option<string>, groups: Option<string>)
  {
    function Slots(): seq<Option<string>> {
      [merge, script, rules, proxies, groups]
    }
  }

  datatype PrfItem = PrfItem(
    uid: Option<string>,
    itype: Option<string>,
    file: Option<string>,
    option: Option<PrfOption>,
    selected: Option<seq<PrfSelected>>)
  {
    /** A profile that can be current, as opposed to a helper. */
    predicate Switchable() {
      itype == Some("remote") || itype == Some("local")
    }

    function HelperSlots(): seq<Option<string>> {
      if option.None? then [] else option.value.Slots()
    }
  }

  datatype Profiles = Profiles(current: Option<string>, items: Option<seq<PrfItem>>) {
    function List(): seq<PrfItem> {
      items.GetOr([])
    }
  }

  // ---------------------------------------------------------------- looking up

  /** The first item with this uid, or the length of the list. */
  function Position(items: seq<PrfItem>, uid: Option<string>): (i: nat)
    ensures i <= |items|
    ensures i < |items| ==> items[i].uid == uid
    ensures forall j :: 0 <= j < i ==> items[j].uid != uid
  {
    if items == [] then 0
    else if items[0].uid == uid then 0
    else
      var i := Position(items[1..], uid);
      assert forall j :: 1 <= j < i + 1 ==> items[j] == items[1..][j - 1];
      i + 1
  }

  predicate Listed(items: seq<PrfItem>, uid: Option<string>) {
    Position(items, uid) < |items|
  }

  /** The last item with this uid, or the length of the list. */
  function LastPosition(items: seq<PrfItem>, uid: Option<string>): (i: nat)
    ensures i <= |items|
    ensures i < |items| ==> items[i].uid == uid
    ensures i < |items| ==> forall j :: i < j < |items| ==> items[j].uid != uid
    ensures i == |items| ==> forall j :: 0 <= j < |items| ==> items[j].uid != uid
  {
    if items == [] then 0
    else
      var n := |items| - 1;
      if items[n].uid == uid then n
      else
        var i := LastPosition(items[..n], uid);
        if i == n then |items| else i
  }

  function RemoveAt<X>(xs: seq<X>, i: nat): seq<X>
    requires i < |xs|
  {
    xs[..i] + xs[i + 1..]
  }

  /** Removes the first item with this uid; `None` matches an item that has no uid. */
  function Take(items: seq<PrfItem>, uid: Option<string>): seq<PrfItem> {
    if Listed(items, uid) then RemoveAt(items, Position(items, uid)) else items
  }

  function FileOf(items: seq<PrfItem>, uid: Option<string>): seq<string> {
    if Listed(items, uid) then AsSeq(items[Position(items, uid)].file) else []
  }

  function TakeAll(items: seq<PrfItem>, uids: seq<Option<string>>): seq<PrfItem> {
    if uids == [] then items else Take(TakeAll(items, uids[..|uids| - 1]), uids[|uids| - 1])
  }

  /** The files of the items `TakeAll` takes, in the order it takes them. */
  function TakenFiles(items: seq<PrfItem>, uids: seq<Option<string>>): seq<string> {
    if uids == [] then []
    else
      var n := |uids| - 1;
      TakenFiles(items, uids[..n]) + FileOf(TakeAll(items, uids[..n]), uids[n])
  }

  function FirstSwitchable(items: seq<PrfItem>): Option<PrfItem> {
    if items == [] then None
    else if items[0].Switchable() then Some(items[0])
    else FirstSwitchable(items[1..])
  }

  // ---------------------------------------------------------------- the operations

  datatype Deletion = Deletion(profiles: Profiles, wasCurrent: bool, files: seq<string>)

  /** The uids deletion asks for: the profile, then its helper slots. */
  function Doomed(p: Profiles, uid: string): seq<Option<string>>
    requires Listed(p.List(), Some(uid))
  {
    [Some(uid)] + p.List()[Position(p.List(), Some(uid))].HelperSlots()
  }

  function PlanDelete(p: Profiles, uid: string): Option<Deletion> {
    if !Listed(p.List(), Some(uid)) then None
    else
      var doomed := Doomed(p, uid);
      var left := TakeAll(p.List(), doomed);
      var wasCurrent := p.current.None? || p.current == Some(uid);
      var replacement := FirstSwitchable(left);
      var current := if !wasCurrent then p.current else if replacement.None? then None else replacement.value.uid;
      Some(Deletion(Profiles(current, Some(left)), wasCurrent, TakenFiles(p.List(), doomed)))
  }

  /** Moves the last item with the active uid to the place of the last with the other. */
  function Reorder(p: Profiles, active: string, over: string): Profiles {
    if p.items.None? then p
    else
      var items := p.items.value;
      var from, to := LastPosition(items, Some(active)), LastPosition(items, Some(over));
      if from == |items| || to == |items| then p
      else
        var rest := RemoveAt(items, from);
        p.(items := Some(rest[..to] + [items[from]] + rest[to..]))
  }

  /** Switches to the patch's profile if it is listed. */
  function Patch(p: Profiles, current: Option<string>): Profiles {
    var items := p.List();
    Profiles(if current.Some? && Listed(items, current) then current else p.current, Some(items))
  }

  // ---------------------------------------------------------------- filling the list

  const NO_OPTION := PrfOption(None, None, None, None, None)

  /** An item as the loader leaves it; `generated` is the uid it makes up if there is none. */
  function Completed(item: PrfItem, generated: string): PrfItem {
    item.(uid := Some(item.uid.GetOr(generated)),
          option := if item.itype == Some("remote") then Some(item.option.GetOr(NO_OPTION)) else item.option)
  }

  /** Nothing that is there is changed, and only a missing uid and the missing options of a remote profile are filled in. */
  predicate OnlyFillsIn(item: PrfItem, loaded: PrfItem, generated: string) {
    && loaded.itype == item.itype && loaded.file == item.file && loaded.selected == item.selected
    && (if item.uid.Some? then loaded.uid == item.uid else loaded.uid == Some(generated))
    && (if item.option.Some? || item.itype != Some("remote") then loaded.option == item.option
        else loaded.option == Some(PrfOption(None, None, None, None, None)))
  }

  function AllCompleted(items: seq<PrfItem>, generated: seq<string>): (r: seq<PrfItem>)
    requires |generated| == |items|
    ensures |r| == |items| && forall i :: 0 <= i < |items| ==> r[i] == Completed(items[i], generated[i])
  {
    seq(|items|, i requires 0 <= i < |items| => Completed(items[i], generated[i]))
  }

  /** An item without a uid is refused; the first remote or local one becomes current if none is. */
  function Append(p: Profiles, item: PrfItem): Option<Profiles> {
    if item.uid.None? then None
    else Some(Profiles(if p.current.None? && item.Switchable() then item.uid else p.current, Some(p.List() + [item])))
  }

  /** The list object, updated in place. */
  class IProfiles {
    var current: Option<string>
    var items: Option<seq<PrfItem>>

    ghost function View(): Profiles
      reads this
    {
      Profiles(current, items)
    }

    constructor (current: Option<string>, items: Option<seq<PrfItem>>)
      ensures View() == Profiles(current, items)
    {
      this.current, this.items := current, items;
    }

    /** Fills the object from what was read; `current` is taken as it comes. */
    method Load(read: Option<Profiles>, generated: seq<string>)
      requires read.Some? ==> |generated| == |read.value.List()|
      modifies this
      ensures View() == if read.None? then Profiles(None, None)
                        else Profiles(read.value.current, Some(AllCompleted(read.value.List(), generated)))
      ensures read.Some? ==> items.Some? && |items.value| == |read.value.List()|
                             && forall i :: 0 <= i < |generated| ==> OnlyFillsIn(read.value.List()[i], items.value[i], generated[i])
    {
      current, items := None, None;
      if read.None? {
        return;
      }
      var list := read.value.items.GetOr([]);
      ghost var original := list;
      for i := 0 to |list|
        invariant |list| == |original|
        invariant list[..i] == AllCompleted(original, generated)[..i] && list[i..] == original[i..]
      {
        assert list[i] == original[i] by {
          assert list[i] == list[i..][0] && original[i] == original[i..][0];
        }
        var item := list[i];
        if item.uid.None? {
          item := item.(uid := Some(generated[i]));
        }
        if item.itype == Some("remote") && item.option.None? {
          item := item.(option := Some(NO_OPTION));
        }
        list := list[i := item];
        assert list[..i + 1] == list[..i] + [Completed(original[i], generated[i])];
      }
      assert list == AllCompleted(original, generated);
      current, items := read.value.current, Some(list);
    }

    method AppendItem(item: PrfItem) returns (ok: bool)
      modifies this
      ensures ok <==> Append(old(View()), item).Some?
      ensures View() == Append(old(View()), item).GetOr(old(View()))
      ensures ok <==> item.uid.Some?
      ensures View().List() == old(View()).List() + if ok then [item] else []
      ensures current == if ok && old(current).None? && (item.itype == Some("remote") || item.itype == Some("local"))
                         then item.uid else old(current)
    {
      ok := item.uid.Some?;
      if !ok {
        return;
      }
      if current.None? && item.Switchable() {
        current := item.uid;
      }
      items := Some(items.GetOr([]) + [item]);
    }

    method PatchConfig(target: Option<string>)
      modifies this
      ensures View() == Patch(old(View()), target)
    {
      if items.None? {
        items := Some([]);
      }
      if target.Some? && Listed(items.value, target) {
        current := target;
      }
    }

    method MoveItem(active: string, over: string)
      modifies this`items
      ensures View() == Reorder(old(View()), active, over)
      ensures !(Listed(old(View()).List(), Some(active)) && Listed(old(View()).List(), Some(over))) ==> View() == old(View())
    {
      if items.None? {
        return;
      }
      var list := items.value;
      var from, to := LastPosition(list, Some(active)), LastPosition(list, Some(over));
      if from == |list| || to == |list| {
        return;
      }
      var item := list[from];
      list := RemoveAt(list, from);
      list := list[..to] + [item] + list[to..];
      items := Some(list);
    }

    static method TakeItemFile(items: seq<PrfItem>, uid: Option<string>) returns (left: seq<PrfItem>, file: Option<string>)
      ensures left == Take(items, uid) && AsSeq(file) == FileOf(items, uid)
    {
      var index := Position(items, uid);
      if index == |items| {
        return items, None;
      }
      return RemoveAt(items, index), items[index].file;
    }

    /** Takes the profile and its helpers, one after another. */
    static method TakeItemFiles(items: seq<PrfItem>, doomed: seq<Option<string>>)
      returns (left: seq<PrfItem>, files: seq<string>)
      ensures left == TakeAll(items, doomed) && files == TakenFiles(items, doomed)
    {
      left, files := items, [];
      for i := 0 to |doomed|
        invariant left == TakeAll(items, doomed[..i])
        invariant files == TakenFiles(items, doomed[..i])
      {
        assert doomed[..i + 1][..i] == doomed[..i];
        var file;
        left, file := TakeItemFile(left, doomed[i]);
        if file.Some? {
          files := files + [file.value];
        }
      }
      assert doomed[..|doomed|] == doomed;
    }

    /** The first item that can be current. */
    static method PickCurrent(left: seq<PrfItem>) returns (uid: Option<string>)
      ensures uid == if FirstSwitchable(left).None? then None else FirstSwitchable(left).value.uid
    {
      uid := None;
      for i := 0 to |left|
        invariant uid == None && FirstSwitchable(left) == FirstSwitchable(left[i..])
      {
        assert left[i..][0] == left[i] && left[i..][1..] == left[i + 1..];
        if left[i].Switchable() {
          return left[i].uid;
        }
      }
    }

    /** Plans a deletion: takes the profile and its helpers out, and picks a new current profile. */
    method PlanDeleteItem(uid: string) returns (r: Result<(bool, seq<string>), string>)
      modifies this
      ensures match PlanDelete(old(View()), uid)
              case None => r.Err? && View() == old(View())
              case Some(d) => r == Ok((d.wasCurrent, d.files)) && View() == d.profiles
    {
      var list := items.GetOr([]);
      var deletingCurrent := current.None? || current == Some(uid);
      var index := Position(list, Some(uid));
      if index == |list| {
        return Err("failed to get the profile item");
      }
      var left, files := TakeItemFiles(list, [Some(uid)] + list[index].HelperSlots());
      if deletingCurrent {
        current := PickCurrent(left);
      }
      items := Some(left);
      r := Ok((deletingCurrent, files));
    }
  }
}
