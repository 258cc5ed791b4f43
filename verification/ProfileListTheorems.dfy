/** What the profile-list operations keep. */
module ProfileListTheorems {
  import opened Common
  import opened SelectedNodes
  import opened ProfileList

  /** Every item has a uid, and no two the same. */
  ghost predicate DistinctUids(items: seq<PrfItem>) {
    && (forall i :: 0 <= i < |items| ==> items[i].uid.Some?)
    && (forall i, j :: 0 <= i < j < |items| ==> items[i].uid != items[j].uid)
  }

  function Without(items: seq<PrfItem>, doomed: seq<Option<string>>): seq<PrfItem> {
    if items == [] then []
    else (if items[0].uid in doomed then [] else [items[0]]) + Without(items[1..], doomed)
  }

  function Files(items: seq<PrfItem>): seq<string> {
    if items == [] then [] else AsSeq(items[0].file) + Files(items[1..])
  }

  // ---------------------------------------------------------------- deletion

  lemma {:induction false} WithoutKeeps(items: seq<PrfItem>, doomed: seq<Option<string>>)
    ensures forall x :: x in Without(items, doomed) <==> x in items && x.uid !in doomed
  {
    if items != [] {
      WithoutKeeps(items[1..], doomed);
      assert items == [items[0]] + items[1..];
    }
  }

  lemma {:induction false} WithoutDistinct(items: seq<PrfItem>, doomed: seq<Option<string>>)
    requires DistinctUids(items)
    ensures DistinctUids(Without(items, doomed))
  {
    if items != [] {
      WithoutDistinct(items[1..], doomed);
      WithoutKeeps(items[1..], doomed);
      var rest := Without(items[1..], doomed);
      forall j | 0 <= j < |rest| ensures rest[j].uid != items[0].uid {
        assert rest[j] in items[1..];
      }
    }
  }

  /** With distinct uids, taking the first match is taking every match. */
  lemma {:induction false} TakeIsWithout(items: seq<PrfItem>, uid: Option<string>)
    requires DistinctUids(items)
    ensures Take(items, uid) == Without(items, [uid])
  {
    if items != [] {
      TakeIsWithout(items[1..], uid);
      TakeFromFront(items, uid);
      WithoutFromFront(items, uid);
    }
  }

  lemma WithoutFromFront(items: seq<PrfItem>, uid: Option<string>)
    requires items != [] && DistinctUids(items)
    ensures Without(items, [uid]) == if items[0].uid == uid then items[1..] else [items[0]] + Without(items[1..], [uid])
  {
    var tail := items[1..];
    TailHasOthers(items);
    if items[0].uid == uid {
      WithoutNone(tail, [uid]);
    }
  }

  lemma TailHasOthers(items: seq<PrfItem>)
    requires items != [] && DistinctUids(items)
    ensures forall i :: 0 <= i < |items[1..]| ==> items[1..][i].uid != items[0].uid
  {
    assert forall i :: 0 <= i < |items[1..]| ==> items[1..][i] == items[i + 1];
  }

  lemma TakeFromFront(items: seq<PrfItem>, uid: Option<string>)
    requires items != []
    ensures Take(items, uid) == if items[0].uid == uid then items[1..] else [items[0]] + Take(items[1..], uid)
  {
    if items[0].uid != uid {
      assert Position(items, uid) == Position(items[1..], uid) + 1;
    }
  }

  lemma {:induction false} WithoutNone(items: seq<PrfItem>, doomed: seq<Option<string>>)
    requires forall i :: 0 <= i < |items| ==> items[i].uid !in doomed
    ensures Without(items, doomed) == items
  {
    if items != [] {
      WithoutNone(items[1..], doomed);
    }
  }

  lemma {:induction false} WithoutTwice(items: seq<PrfItem>, first: seq<Option<string>>, uid: Option<string>)
    ensures Without(Without(items, first), [uid]) == Without(items, first + [uid])
  {
    if items != [] {
      WithoutTwice(items[1..], first, uid);
      var rest := Without(items[1..], first);
      assert ([items[0]] + rest)[1..] == rest;
      assert items[0].uid in first + [uid] <==> items[0].uid in first || items[0].uid == uid;
      assert Without(items, first) == if items[0].uid in first then rest else [items[0]] + rest;
      if items[0].uid !in first {
        assert Without([items[0]] + rest, [uid]) ==
               (if items[0].uid == uid then [] else [items[0]]) + Without(rest, [uid]);
      }
    }
  }

  lemma {:induction false} TakeAllIsWithout(items: seq<PrfItem>, doomed: seq<Option<string>>)
    requires DistinctUids(items)
    ensures TakeAll(items, doomed) == Without(items, doomed)
  {
    if doomed == [] {
      WithoutNone(items, []);
    } else {
      var n := |doomed| - 1;
      TakeAllIsWithout(items, doomed[..n]);
      WithoutDistinct(items, doomed[..n]);
      TakeIsWithout(Without(items, doomed[..n]), doomed[n]);
      WithoutTwice(items, doomed[..n], doomed[n]);
      assert doomed == doomed[..n] + [doomed[n]];
    }
  }

  lemma {:induction false} FilesOfConcat(a: seq<PrfItem>, b: seq<PrfItem>)
    ensures Files(a + b) == Files(a) + Files(b)
  {
    if a == [] {
      assert a + b == b;
    } else {
      FilesOfConcat(a[1..], b);
      assert (a + b)[0] == a[0] && (a + b)[1..] == a[1..] + b;
      Associative(AsSeq(a[0].file), Files(a[1..]), Files(b));
    }
  }

  lemma RemoveConserves(items: seq<PrfItem>, k: nat)
    requires k < |items|
    ensures multiset(Files(RemoveAt(items, k))) + multiset(AsSeq(items[k].file)) == multiset(Files(items))
  {
    var before, after, file := items[..k], items[k + 1..], AsSeq(items[k].file);
    assert RemoveAt(items, k) == before + after;
    FilesOfConcat(before, after);
    assert items == before + items[k..] && items[k..][1..] == after;
    FilesOfConcat(before, items[k..]);
    assert Files(items[k..]) == file + Files(after);
    TakenOut(Files(before), file, Files(after));
  }

  lemma TakenOut<X>(before: seq<X>, taken: seq<X>, after: seq<X>)
    ensures multiset(before + after) + multiset(taken) == multiset(before + (taken + after))
  {}

  lemma TakeConserves(items: seq<PrfItem>, uid: Option<string>)
    ensures multiset(Files(Take(items, uid))) + multiset(FileOf(items, uid)) == multiset(Files(items))
  {
    if Listed(items, uid) {
      RemoveConserves(items, Position(items, uid));
    }
  }

  /** Nothing is lost: each file is either still referenced or in the list to be deleted. */
  lemma {:induction false} FilesConserved(items: seq<PrfItem>, doomed: seq<Option<string>>)
    ensures multiset(Files(TakeAll(items, doomed))) + multiset(TakenFiles(items, doomed)) == multiset(Files(items))
  {
    if doomed != [] {
      var n := |doomed| - 1;
      FilesConserved(items, doomed[..n]);
      TakeConserves(TakeAll(items, doomed[..n]), doomed[n]);
    }
  }

  lemma {:induction false} FirstSwitchableSound(items: seq<PrfItem>)
    ensures match FirstSwitchable(items)
            case Some(x) => x in items && x.Switchable()
            case None => forall x :: x in items ==> !x.Switchable()
  {
    if items != [] {
      FirstSwitchableSound(items[1..]);
      assert items == [items[0]] + items[1..];
    }
  }

  /** The current profile is a listed remote or local one. */
  ghost predicate CurrentNamesProfile(p: Profiles) {
    exists x :: x in p.List() && x.Switchable() && x.uid == p.current && p.current.Some?
  }

  lemma DistinctUidsIdentify(items: seq<PrfItem>, x: PrfItem, y: PrfItem)
    requires DistinctUids(items) && x in items && y in items && x.uid == y.uid
    ensures x == y
  {
    var i :| 0 <= i < |items| && items[i] == x;
    var j :| 0 <= j < |items| && items[j] == y;
    assert i == j || i < j || j < i;
  }

  /**
   Deleting a profile from a list with distinct uids.  Exactly the profile and the items its
   helper slots name go, the rest stay in order, and the files returned are exactly the ones no
   longer referenced.
   */
  lemma DeletionIsSound(p: Profiles, uid: string)
    requires DistinctUids(p.List()) && Listed(p.List(), Some(uid))
    ensures var d := PlanDelete(p, uid).value;
            && d.profiles.List() == Without(p.List(), Doomed(p, uid))
            && multiset(Files(d.profiles.List())) + multiset(d.files) == multiset(Files(p.List()))
            && DistinctUids(d.profiles.List())
  {
    TakeAllIsWithout(p.List(), Doomed(p, uid));
    WithoutDistinct(p.List(), Doomed(p, uid));
    FilesConserved(p.List(), Doomed(p, uid));
  }

  /** Deletion picks another current profile: there is none, or it is the one deleted. */
  predicate PicksAnother(p: Profiles, uid: string) {
    p.current.None? || p.current == Some(uid)
  }

  /**
   Where a deletion leaves `current`, on any list with distinct uids.  It names a listed remote or
   local profile exactly if, where another is picked, one survives to be picked, and otherwise if it
   did before and no helper slot of the deleted profile names it.  Picking finds none only if
   none survives, and what is not picked does not change.
   */
  lemma DeletionLeavesACurrent(p: Profiles, uid: string)
    requires DistinctUids(p.List()) && Listed(p.List(), Some(uid))
    ensures var after, doomed := PlanDelete(p, uid).value.profiles, Doomed(p, uid);
            && (CurrentNamesProfile(after) <==>
                  if PicksAnother(p, uid) then exists x :: x in p.List() && x.Switchable() && x.uid !in doomed
                  else CurrentNamesProfile(p) && p.current !in doomed)
            && (PicksAnother(p, uid) && !CurrentNamesProfile(after) ==> after.current.None?)
            && (!PicksAnother(p, uid) ==> after.current == p.current)
  {
    var items, doomed := p.List(), Doomed(p, uid);
    var after := PlanDelete(p, uid).value.profiles;
    var left := after.List();
    DeletionIsSound(p, uid);
    WithoutKeeps(items, doomed);
    if PicksAnother(p, uid) {
      FirstSwitchableSound(left);
      if FirstSwitchable(left).Some? {
        var x := FirstSwitchable(left).value;
        assert x in items && x.Switchable() && x.uid !in doomed;
        HasUid(items, x);
        assert CurrentNamesProfile(after);
      }
    } else if CurrentNamesProfile(p) && p.current !in doomed {
      var x :| x in items && x.Switchable() && x.uid == p.current;
      assert x in left;
    }
  }

  lemma {:induction false} FirstSwitchableIsFirst(items: seq<PrfItem>)
    ensures match FirstSwitchable(items)
            case Some(x) => exists k :: 0 <= k < |items| && items[k] == x && IsProfile(x) && forall j :: 0 <= j < k ==> !IsProfile(items[j])
            case None => forall j :: 0 <= j < |items| ==> !IsProfile(items[j])
  {
    if items != [] && !IsProfile(items[0]) {
      var rest := items[1..];
      FirstSwitchableIsFirst(rest);
      assert forall j :: 1 <= j < |items| ==> items[j] == rest[j - 1];
      if FirstSwitchable(items).Some? {
        var x := FirstSwitchable(items).value;
        var k :| 0 <= k < |rest| && rest[k] == x && forall j :: 0 <= j < k ==> !IsProfile(rest[j]);
        assert items[k + 1] == x;
      }
    }
  }

  predicate IsProfile(x: PrfItem) {
    x.itype == Some("remote") || x.itype == Some("local")
  }

  /** One of the five slots holds this uid. */
  predicate NamesHelper(option: PrfOption, uid: Option<string>) {
    || option.merge == uid || option.script == uid || option.rules == uid || option.proxies == uid || option.groups == uid
  }

  /** A deletion of item `k` spares this one. */
  predicate Spared(items: seq<PrfItem>, k: nat, x: PrfItem)
    requires k < |items|
  {
    x.uid != items[k].uid && !(items[k].option.Some? && NamesHelper(items[k].option.value, x.uid))
  }

  /** `current` is the first profile of the list, or nothing if there is none. */
  ghost predicate FirstProfile(items: seq<PrfItem>, current: Option<string>) {
    || (current.None? && forall j :: 0 <= j < |items| ==> !IsProfile(items[j]))
    || exists k :: 0 <= k < |items| && IsProfile(items[k]) && current == items[k].uid && forall j :: 0 <= j < k ==> !IsProfile(items[j])
  }

  lemma DoomedAreNamed(p: Profiles, uid: string, x: PrfItem)
    requires Listed(p.List(), Some(uid))
    ensures x.uid in Doomed(p, uid) <==> !Spared(p.List(), Position(p.List(), Some(uid)), x)
  {}

  lemma {:induction false} WithoutIsSubsequence(items: seq<PrfItem>, doomed: seq<Option<string>>)
    ensures Subsequence(Without(items, doomed), items)
  {
    if items != [] {
      var n := |items| - 1;
      WithoutIsSubsequence(items[..n], doomed);
      WithoutAtEnd(items[..n], items[n], doomed);
      SubsequenceExtends(Without(items[..n], doomed), items[..n], items[n]);
      assert items == items[..n] + [items[n]];
      assert Without(items[..n], doomed) + [] == Without(items[..n], doomed);
    }
  }

  lemma {:induction false} WithoutAtEnd(items: seq<PrfItem>, last: PrfItem, doomed: seq<Option<string>>)
    ensures Without(items + [last], doomed) == Without(items, doomed) + if last.uid in doomed then [] else [last]
  {
    if items != [] {
      WithoutAtEnd(items[1..], last, doomed);
      assert (items + [last])[1..] == items[1..] + [last];
    }
  }

  /**
   What a deletion leaves, written out, for a list with distinct uids.  It fails exactly if no item has the
   uid.  Otherwise the items kept, in order, are those with another uid than the profile's and than its five
   helper slots; the answer says whether there was no current profile or it was the one deleted; and if so the
   first remote or local profile left becomes current, and otherwise `current` stays.
   */
  lemma WhatADeletionLeaves(p: Profiles, uid: string, k: nat)
    requires DistinctUids(p.List()) && k < |p.List()| && p.List()[k].uid == Some(uid)
    ensures PlanDelete(p, uid).Some?
    ensures var d, items := PlanDelete(p, uid).value, p.List();
            && Subsequence(d.profiles.List(), items)
            && (forall x :: x in d.profiles.List() <==> x in items && Spared(items, k, x))
            && (d.wasCurrent <==> p.current.None? || p.current == Some(uid))
            && (if d.wasCurrent then FirstProfile(d.profiles.List(), d.profiles.current) else d.profiles.current == p.current)
  {
    var items, doomed := p.List(), Doomed(p, uid);
    assert Position(items, Some(uid)) == k;
    DeletionIsSound(p, uid);
    WithoutKeeps(items, doomed);
    WithoutIsSubsequence(items, doomed);
    forall x: PrfItem ensures x.uid in doomed <==> !Spared(items, k, x) {
      DoomedAreNamed(p, uid, x);
    }
    FirstSwitchableIsFirst(PlanDelete(p, uid).value.profiles.List());
  }

  lemma UnknownIsRefused(p: Profiles, uid: string)
    ensures PlanDelete(p, uid).None? <==> forall x :: x in p.List() ==> x.uid != Some(uid)
  {
    if Listed(p.List(), Some(uid)) {
      assert p.List()[Position(p.List(), Some(uid))] in p.List();
    }
  }

  lemma HasUid(items: seq<PrfItem>, x: PrfItem)
    requires DistinctUids(items) && x in items
    ensures x.uid.Some?
  {}

  /** Items no deletion asks for by name. */
  function Anonymous(items: seq<PrfItem>): nat {
    if items == [] then 0 else Anonymous(items[1..]) + if items[0].uid.None? then 1 else 0
  }

  lemma {:induction false} RemoveAnonymous(items: seq<PrfItem>, k: nat)
    requires k < |items|
    ensures Anonymous(RemoveAt(items, k)) + (if items[k].uid.None? then 1 else 0) == Anonymous(items)
  {
    if k == 0 {
      assert RemoveAt(items, 0) == items[1..];
    } else {
      RemoveAnonymous(items[1..], k - 1);
      assert RemoveAt(items, k) == [items[0]] + RemoveAt(items[1..], k - 1);
    }
  }

  lemma {:induction false} AnonymousIsListed(items: seq<PrfItem>)
    ensures Listed(items, None) <==> Anonymous(items) > 0
  {
    if items != [] {
      AnonymousIsListed(items[1..]);
    }
  }

  lemma TakeAnonymous(items: seq<PrfItem>, uid: Option<string>)
    ensures Anonymous(Take(items, uid)) == Anonymous(items) - if uid.None? && Anonymous(items) > 0 then 1 else 0
  {
    AnonymousIsListed(items);
    if Listed(items, uid) {
      RemoveAnonymous(items, Position(items, uid));
    }
  }

  lemma {:induction false} TakeAllAnonymous(items: seq<PrfItem>, doomed: seq<Option<string>>)
    ensures Anonymous(TakeAll(items, doomed)) <= Anonymous(items)
    ensures Anonymous(TakeAll(items, doomed)) == Anonymous(items) <==> None !in doomed || Anonymous(items) == 0
  {
    if doomed != [] {
      var n := |doomed| - 1;
      TakeAllAnonymous(items, doomed[..n]);
      TakeAnonymous(TakeAll(items, doomed[..n]), doomed[n]);
      assert doomed == doomed[..n] + [doomed[n]];
    }
  }

  /**
   An empty helper slot is looked up like any other, and matches an item that has no uid.  So a
   deletion leaves the items without a uid alone exactly when there are none, the profile has
   no options, or all five of its helper slots are filled.
   */
  lemma DeletionSparesAnonymous(p: Profiles, uid: string)
    requires Listed(p.List(), Some(uid))
    ensures var option := p.List()[Position(p.List(), Some(uid))].option;
            Anonymous(PlanDelete(p, uid).value.profiles.List()) == Anonymous(p.List()) <==>
              Anonymous(p.List()) == 0 || option.None? || None !in option.value.Slots()
  {
    TakeAllAnonymous(p.List(), Doomed(p, uid));
  }

  // ---------------------------------------------------------------- reordering

  function Move<X>(xs: seq<X>, from: nat, to: nat): seq<X>
    requires from < |xs| && to < |xs|
  {
    RemoveAt(xs, from)[..to] + [xs[from]] + RemoveAt(xs, from)[to..]
  }

  lemma MovePermutes<X>(xs: seq<X>, from: nat, to: nat)
    requires from < |xs| && to < |xs|
    ensures multiset(Move(xs, from, to)) == multiset(xs)
  {
    var rest := RemoveAt(xs, from);
    assert xs == xs[..from] + ([xs[from]] + xs[from + 1..]);
    assert multiset(xs) == multiset(rest) + multiset{xs[from]};
    assert rest == rest[..to] + rest[to..];
    assert multiset(rest) == multiset(rest[..to]) + multiset(rest[to..]);
    assert multiset(Move(xs, from, to)) == multiset(rest[..to]) + multiset{xs[from]} + multiset(rest[to..]);
  }

  lemma MoveBack<X>(xs: seq<X>, from: nat, to: nat)
    requires from < |xs| && to < |xs|
    ensures |Move(xs, from, to)| == |xs|
    ensures RemoveAt(Move(xs, from, to), to) == RemoveAt(xs, from)
    ensures Move(Move(xs, from, to), to, from) == xs
  {
    var rest, moved := RemoveAt(xs, from), Move(xs, from, to);
    assert RemoveAt(moved, to) == rest;
    assert rest[..from] + [xs[from]] + rest[from..] == xs;
  }

  lemma ListedMeansLast(items: seq<PrfItem>, uid: Option<string>)
    requires Listed(items, uid)
    ensures LastPosition(items, uid) < |items|
  {
    assert items[Position(items, uid)].uid == uid;
  }

  /**
   Reordering is a permutation; it puts the moved item where the other one was and leaves the
   rest in their order.
   */
  lemma ReorderMovesOne(p: Profiles, active: string, over: string)
    requires p.items.Some?
    requires Listed(p.List(), Some(active)) && Listed(p.List(), Some(over))
    ensures var items, moved := p.List(), Reorder(p, active, over).List();
            var from, to := LastPosition(items, Some(active)), LastPosition(items, Some(over));
            && from < |items| && to < |items| && |moved| == |items|
            && moved[to] == items[from]
            && RemoveAt(moved, to) == RemoveAt(items, from)
            && multiset(moved) == multiset(items)
            && Reorder(p, active, over).current == p.current
  {
    var items := p.List();
    ListedMeansLast(items, Some(active));
    ListedMeansLast(items, Some(over));
    var from, to := LastPosition(items, Some(active)), LastPosition(items, Some(over));
    assert Reorder(p, active, over).List() == Move(items, from, to);
    MovePermutes(items, from, to);
    MoveBack(items, from, to);
  }

  lemma UniquePosition(items: seq<PrfItem>, i: nat)
    requires DistinctUids(items) && i < |items|
    ensures LastPosition(items, items[i].uid) == i
  {
    var k := LastPosition(items, items[i].uid);
    assert k == i || k < i || i < k;
  }

  lemma {:induction false} PermutedDistinct(a: seq<PrfItem>, b: seq<PrfItem>)
    requires DistinctUids(a) && multiset(a) == multiset(b)
    ensures DistinctUids(b)
  {
    assert forall x :: x in b ==> x in multiset(b);
    forall i | 0 <= i < |b| ensures b[i].uid.Some? {
      assert b[i] in multiset(b);
      assert b[i] in multiset(a);
    }
    forall i, j | 0 <= i < j < |b| ensures b[i].uid != b[j].uid {
      if b[i].uid == b[j].uid {
        assert b[i] in multiset(a) && b[j] in multiset(a);
        DistinctUidsIdentify(a, b[i], b[j]);
        assert b == b[..i] + [b[i]] + b[i + 1..j] + [b[j]] + b[j + 1..];
        assert multiset(b)[b[i]] >= 2;
        OnceEach(a, b[i]);
      }
    }
  }

  lemma {:induction false} OnceEach(items: seq<PrfItem>, x: PrfItem)
    requires DistinctUids(items)
    ensures multiset(items)[x] <= 1
  {
    if items != [] {
      OnceEach(items[1..], x);
      assert items == [items[0]] + items[1..];
      assert items[0] !in items[1..];
    }
  }

  /** With distinct uids, reordering by uid is moving by position. */
  lemma ReorderIsMove(p: Profiles, from: nat, to: nat)
    requires p.items.Some? && DistinctUids(p.List()) && from < |p.List()| && to < |p.List()|
    ensures Reorder(p, p.List()[from].uid.value, p.List()[to].uid.value) == p.(items := Some(Move(p.List(), from, to)))
  {
    UniquePosition(p.List(), from);
    UniquePosition(p.List(), to);
  }

  /** A move is undone by moving the same profile onto whichever took its old place. */
  lemma ReorderUndoes(p: Profiles, from: nat, to: nat)
    requires p.items.Some? && DistinctUids(p.List())
    requires from < |p.List()| && to < |p.List()|
    ensures var items := p.List();
            var active, over := items[from].uid.value, items[to].uid.value;
            var moved := Reorder(p, active, over);
            && |moved.List()| == |items| && moved.List()[from].uid.Some?
            && Reorder(moved, active, moved.List()[from].uid.value) == p
  {
    var items := p.List();
    var moved := p.(items := Some(Move(items, from, to)));
    ReorderIsMove(p, from, to);
    MoveBack(items, from, to);
    MovePermutes(items, from, to);
    PermutedDistinct(items, moved.List());
    assert moved.List()[to] == items[from];
    ReorderIsMove(moved, to, from);
  }
}
