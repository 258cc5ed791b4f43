/**
 Naming one entry of a proxy group so that it can be found again after the group has been
 reloaded: by kind, name, source and how many like it come before.
 */
module MemberBinding {
  import opened Common

  datatype Source = Core(proxyName: string) | Provider(providerName: string, proxyName: string)

  datatype Member =
    | Group(name: string)
    | Node(name: string, recordId: string, source: Source)
    | Unresolved(name: string)
  {
    predicate Interactable() {
      !Unresolved?
    }
  }

  datatype Binding =
    | GroupBinding(name: string, occurrence: int)
    | NodeBinding(name: string, source: Source, occurrence: int)

  datatype Found = Found(index: nat, member: Member)

  predicate SameSource(left: Source, right: Source)
    ensures SameSource(left, right) <==> left == right
  {
    && left.Core? == right.Core?
    && left.proxyName == right.proxyName
    && (left.Core? || (right.Provider? && left.providerName == right.providerName))
  }

  predicate Matches(member: Member, binding: Binding) {
    match member
    case Group(name) => binding.GroupBinding? && name == binding.name
    case Node(name, _, source) => binding.NodeBinding? && name == binding.name && SameSource(source, binding.source)
    case Unresolved(_) => false
  }

  /** The binding of a member on its own, as the first of its kind. */
  function First(member: Member): Binding
    requires member.Interactable()
  {
    match member
    case Group(name) => GroupBinding(name, 0)
    case Node(name, _, source) => NodeBinding(name, source, 0)
  }

  function Count(members: seq<Member>, binding: Binding): (n: nat)
    ensures n <= |members|
  {
    if members == [] then 0
    else
      var last := |members| - 1;
      Count(members[..last], binding) + if Matches(members[last], binding) then 1 else 0
  }

  /** What a member is called: how many that match it come before. */
  function Bind(members: seq<Member>, index: int): Option<Binding> {
    if 0 <= index < |members| && members[index].Interactable() then
      var first := First(members[index]);
      Some(first.(occurrence := Count(members[..index], first)))
    else None
  }

  /** The place that a binding names. */
  predicate Names(members: seq<Member>, binding: Binding, index: nat) {
    && index < |members|
    && Matches(members[index], binding)
    && Count(members[..index], binding) == binding.occurrence
  }

  method ToMemberOccurrenceBinding(members: seq<Member>, memberIndex: int) returns (r: Option<Binding>)
    ensures r == Bind(members, memberIndex)
  {
    if memberIndex < 0 || memberIndex >= |members| || !members[memberIndex].Interactable() {
      return None;
    }
    var binding := First(members[memberIndex]);
    for index := 0 to memberIndex
      invariant binding == First(members[memberIndex]).(occurrence := Count(members[..index], First(members[memberIndex])))
    {
      assert members[..index + 1][..index] == members[..index];
      if Matches(members[index], binding) {
        binding := binding.(occurrence := binding.occurrence + 1);
      }
    }
    return Some(binding);
  }

  method RebindMemberOccurrence(members: seq<Member>, binding: Binding) returns (r: Option<Found>)
    ensures r.Some? ==> Names(members, binding, r.value.index) && r.value.member == members[r.value.index]
    ensures r.None? ==> forall i: nat | i < |members| :: !Names(members, binding, i)
  {
    var occurrence: nat := 0;
    for i := 0 to |members|
      invariant occurrence == Count(members[..i], binding)
      invariant forall k: nat | k < i :: !Names(members, binding, k)
    {
      assert members[..i + 1][..i] == members[..i];
      if members[i].Interactable() && Matches(members[i], binding) {
        if occurrence == binding.occurrence {
          return Some(Found(i, members[i]));
        }
        occurrence := occurrence + 1;
      }
    }
    return None;
  }

  lemma {:induction false} CountSplits(a: seq<Member>, b: seq<Member>, binding: Binding)
    ensures Count(a + b, binding) == Count(a, binding) + Count(b, binding)
  {
    if b == [] {
      assert a + b == a;
    } else {
      var last := |b| - 1;
      CountSplits(a, b[..last], binding);
      assert (a + b)[..|a| + last] == a + b[..last];
    }
  }

  lemma {:induction false} CountIgnoresOccurrence(members: seq<Member>, binding: Binding, n: int)
    ensures Count(members, binding.(occurrence := n)) == Count(members, binding)
  {
    if members != [] {
      CountIgnoresOccurrence(members[..|members| - 1], binding, n);
    }
  }

  lemma {:induction false} CountGrows(members: seq<Member>, binding: Binding, i: nat, j: nat)
    requires i < j <= |members| && Matches(members[i], binding)
    ensures Count(members[..i], binding) < Count(members[..j], binding)
  {
    assert members[..j] == members[..i] + [members[i]] + members[i + 1..j];
    CountSplits(members[..i] + [members[i]], members[i + 1..j], binding);
    assert (members[..i] + [members[i]])[..i] == members[..i];
  }

  /** A binding names at most one place. */
  lemma NamesOnce(members: seq<Member>, binding: Binding, i: nat, j: nat)
    requires Names(members, binding, i) && Names(members, binding, j)
    ensures i == j
  {
    if i < j {
      CountGrows(members, binding, i, j);
    } else if j < i {
      CountGrows(members, binding, j, i);
    }
  }

  /** Inverse, one way: what is bound at an index is named there and nowhere else. */
  lemma RebindingFindsTheIndex(members: seq<Member>, index: nat, at: nat)
    requires index < |members| && members[index].Interactable()
    ensures Bind(members, index).Some?
    ensures Names(members, Bind(members, index).value, at) <==> at == index
  {
    var first := First(members[index]);
    CountIgnoresOccurrence(members[..index], first, Count(members[..index], first));
    assert Names(members, Bind(members, index).value, index);
    if Names(members, Bind(members, index).value, at) {
      NamesOnce(members, Bind(members, index).value, at, index);
    }
  }

  /** Inverse, the other way, on any list: a binding names an index exactly if it is the binding taken there. */
  lemma BindingRecoversTheName(members: seq<Member>, binding: Binding, index: nat)
    ensures Names(members, binding, index) <==> Bind(members, index) == Some(binding)
  {
    if index < |members| && members[index].Interactable() {
      var first := First(members[index]);
      CountIgnoresOccurrence(members[..index], first, binding.occurrence);
      if Names(members, binding, index) {
        assert binding == first.(occurrence := binding.occurrence);
      }
      if Bind(members, index) == Some(binding) {
        RebindingFindsTheIndex(members, index, index);
      }
    }
  }

  lemma {:induction false} FindNth(members: seq<Member>, binding: Binding) returns (index: nat)
    requires 0 <= binding.occurrence < Count(members, binding)
    ensures Names(members, binding, index)
  {
    var last := |members| - 1;
    if binding.occurrence < Count(members[..last], binding) {
      index := FindNth(members[..last], binding);
      assert members[..last][..index] == members[..index];
    } else {
      index := last;
    }
  }

  /** Rebinding fails only for want of enough matching members. */
  lemma RebindingSucceedsExactlyWhen(members: seq<Member>, binding: Binding)
    ensures (exists i: nat :: Names(members, binding, i)) <==> 0 <= binding.occurrence < Count(members, binding)
  {
    if 0 <= binding.occurrence < Count(members, binding) {
      var index := FindNth(members, binding);
    }
    if i: nat :| Names(members, binding, i) {
      CountGrows(members, binding, i, |members|);
      assert members[..|members|] == members;
    }
  }

  /** What a binding names does not depend on the members behind it. */
  lemma LaterMembersDoNotMatter(before: seq<Member>, after: seq<Member>, after': seq<Member>, binding: Binding, index: nat)
    requires index < |before| && Names(before + after, binding, index)
    ensures Names(before + after', binding, index) && (before + after')[index] == (before + after)[index]
  {
    assert (before + after')[..index] == (before + after)[..index];
  }

  /** Members that do not match may come and go in front of it: a binding names the same member, where it has moved. */
  lemma OthersDoNotMatter(before: seq<Member>, others: seq<Member>, after: seq<Member>, binding: Binding, k: nat)
    requires Count(others, binding) == 0 && Names(before + after, binding, |before| + k)
    ensures var place := |before| + |others| + k;
            Names(before + others + after, binding, place) && (before + others + after)[place] == (before + after)[|before| + k]
  {
    Shifted(before, others, after, k);
    CountWithout(before, others, after[..k], binding);
  }

  lemma Shifted<T>(before: seq<T>, others: seq<T>, after: seq<T>, k: nat)
    requires k < |after|
    ensures (before + after)[|before| + k] == (before + others + after)[|before| + |others| + k] == after[k]
    ensures (before + after)[..|before| + k] == before + after[..k]
    ensures (before + others + after)[..|before| + |others| + k] == before + others + after[..k]
  {}

  lemma CountWithout(before: seq<Member>, others: seq<Member>, after: seq<Member>, binding: Binding)
    requires Count(others, binding) == 0
    ensures Count(before + others + after, binding) == Count(before + after, binding)
  {
    CountSplits(before, after, binding);
    CountSplits(before, others, binding);
    CountSplits(before + others, after, binding);
  }
}
