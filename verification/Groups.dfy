/** Grouping ranked candidates by key in first-occurrence order (src/layout.rs `group_candidates`). */
module Groups {
  import opened Bytes

  /** One group: members are candidate indexes in rank order. */
  datatype Group = Group(key: Bytes, heading: Bytes, members: seq<nat>, maxWidth: nat)

  /** What grouping reads of one candidate: its batch's key and heading, and its cell's display width. */
  datatype Keyed = Keyed(key: Bytes, heading: Bytes, width: nat)

  /** The distinct keys of the first `n` candidates, each where it first occurs. */
  function KeyOrder(cs: seq<Keyed>, n: nat): seq<Bytes>
    requires n <= |cs|
  {
    if n == 0 then []
    else
      var before := KeyOrder(cs, n - 1);
      if cs[n - 1].key in before then before else before + [cs[n - 1].key]
  }

  /** The candidates among the first `n` that carry `key`, in rank order. */
  function MembersOf(cs: seq<Keyed>, key: Bytes, n: nat): (ms: seq<nat>)
    requires n <= |cs|
    ensures forall i :: 0 <= i < |ms| ==> ms[i] < n
  {
    if n == 0 then []
    else MembersOf(cs, key, n - 1) + if cs[n - 1].key == key then [n - 1] else []
  }

  function WidestOf(cs: seq<Keyed>, key: Bytes, n: nat): nat
    requires n <= |cs|
  {
    if n == 0 then 0
    else if cs[n - 1].key == key then Max(WidestOf(cs, key, n - 1), cs[n - 1].width)
    else WidestOf(cs, key, n - 1)
  }

  /** The heading of a group is its first member's, and empty for the empty key. */
  function HeadingOf(cs: seq<Keyed>, key: Bytes, n: nat): Bytes
    requires n <= |cs|
  {
    var members := MembersOf(cs, key, n);
    if key == [] || members == [] then [] else cs[members[0]].heading
  }

  function GroupOf(cs: seq<Keyed>, key: Bytes, n: nat): Group
    requires n <= |cs|
  {
    Group(key, HeadingOf(cs, key, n), MembersOf(cs, key, n), WidestOf(cs, key, n))
  }

  /** The reference grouping: one group per distinct key. */
  function Grouped(cs: seq<Keyed>, n: nat): seq<Group>
    requires n <= |cs|
  {
    var keys := KeyOrder(cs, n);
    seq(|keys|, g requires 0 <= g < |keys| => GroupOf(cs, keys[g], n))
  }

  lemma {:induction false} KeyOrderHolds(cs: seq<Keyed>, n: nat)
    requires n <= |cs|
    ensures forall i, j :: 0 <= i < j < |KeyOrder(cs, n)| ==> KeyOrder(cs, n)[i] != KeyOrder(cs, n)[j]
    ensures forall i :: 0 <= i < n ==> cs[i].key in KeyOrder(cs, n)
  {
    if n > 0 {
      KeyOrderHolds(cs, n - 1);
    }
  }

  lemma {:induction false} MembersHold(cs: seq<Keyed>, key: Bytes, n: nat)
    requires n <= |cs|
    ensures key in KeyOrder(cs, n) <==> MembersOf(cs, key, n) != []
  {
    if n > 0 {
      MembersHold(cs, key, n - 1);
    }
  }

  lemma {:induction false} MemberOf(cs: seq<Keyed>, key: Bytes, n: nat, m: nat)
    requires n <= |cs|
    ensures m in MembersOf(cs, key, n) <==> m < n && cs[m].key == key
  {
    if n > 0 {
      MemberOf(cs, key, n - 1, m);
    }
  }

  lemma {:induction false} MembersAscend(cs: seq<Keyed>, key: Bytes, n: nat)
    requires n <= |cs|
    ensures Ascending(MembersOf(cs, key, n))
    ensures forall i :: 0 <= i < |MembersOf(cs, key, n)| ==>
              cs[MembersOf(cs, key, n)[i]].width <= WidestOf(cs, key, n)
  {
    if n > 0 {
      MembersAscend(cs, key, n - 1);
    }
  }

  ghost predicate Ascending(ms: seq<nat>) {
    forall i, j :: 0 <= i < j < |ms| ==> ms[i] < ms[j]
  }

  lemma GroupOfStep(cs: seq<Keyed>, key: Bytes, n: nat)
    requires n < |cs|
    ensures var before := GroupOf(cs, key, n);
            GroupOf(cs, key, n + 1) ==
            if cs[n].key != key then before
            else if key in KeyOrder(cs, n) then Joined(before, n, cs[n].width)
            else Started(cs[n], n)
  {
    MembersHold(cs, key, n);
    hide KeyOrder;
    if cs[n].key == key && key !in KeyOrder(cs, n) {
      WidestOfNone(cs, key, n);
      assert [] + [n] == [n];
    }
  }

  function Joined(g: Group, idx: nat, width: nat): Group {
    g.(members := g.members + [idx], maxWidth := Max(g.maxWidth, width))
  }

  function Started(c: Keyed, idx: nat): Group {
    Group(c.key, if c.key == [] then [] else c.heading, [idx], c.width)
  }

  /** One more candidate changes only its own group. */
  lemma GroupedStep(cs: seq<Keyed>, n: nat, g: nat)
    requires n < |cs|
    requires g <= |KeyOrder(cs, n)|
    requires if g == |KeyOrder(cs, n)| then cs[n].key !in KeyOrder(cs, n) else KeyOrder(cs, n)[g] == cs[n].key
    ensures KeyOrder(cs, n + 1) == KeyOrder(cs, n) + if g == |KeyOrder(cs, n)| then [cs[n].key] else []
    ensures var before := Grouped(cs, n);
            Grouped(cs, n + 1) ==
            if g < |before| then before[g := Joined(before[g], n, cs[n].width)]
            else before + [Started(cs[n], n)]
  {
    KeyOrderHolds(cs, n);
    var before, keys := Grouped(cs, n), KeyOrder(cs, n + 1);
    hide MembersOf, HeadingOf, WidestOf, GroupOf;
    forall k | 0 <= k < |keys|
      ensures GroupOf(cs, keys[k], n + 1) ==
              if k != g then before[k]
              else if g < |before| then Joined(before[g], n, cs[n].width)
              else Started(cs[n], n)
    {
      GroupOfStep(cs, keys[k], n);
      if k < |before| {
        assert before[k] == GroupOf(cs, keys[k], n);
      }
    }
  }

  lemma {:induction false} WidestOfNone(cs: seq<Keyed>, key: Bytes, n: nat)
    requires n <= |cs| && MembersOf(cs, key, n) == []
    ensures WidestOf(cs, key, n) == 0
  {
    if n > 0 {
      WidestOfNone(cs, key, n - 1);
    }
  }

  /** Groups the candidates in one pass, looking each key up in an index of the groups so far. */
  method GroupCandidates(cs: seq<Keyed>) returns (groups: seq<Group>)
    ensures groups == Grouped(cs, |cs|)
  {
    groups := [];
    var index: map<Bytes, nat> := map[];
    for i := 0 to |cs|
      invariant groups == Grouped(cs, i)
      invariant forall k :: k in index <==> k in KeyOrder(cs, i)
      invariant forall k :: k in index ==> index[k] < |groups| && KeyOrder(cs, i)[index[k]] == k
    {
      var c := cs[i];
      if c.key in index {
        var g := index[c.key];
        GroupedStep(cs, i, g);
        groups := groups[g := groups[g].(members := groups[g].members + [i],
                                         maxWidth := Max(groups[g].maxWidth, c.width))];
      } else {
        GroupedStep(cs, i, |groups|);
        var heading := if c.key == [] then [] else c.heading;
        index := index[c.key := |groups|];
        groups := groups + [Group(c.key, heading, [i], c.width)];
      }
    }
  }

  /** All members in listing order. */
  function Flatten(groups: seq<Group>): seq<nat> {
    if groups == [] then [] else groups[0].members + Flatten(groups[1..])
  }

  lemma {:induction false} FlattenConcat(a: seq<Group>, b: seq<Group>)
    ensures Flatten(a + b) == Flatten(a) + Flatten(b)
  {
    if a == [] {
      assert a + b == b;
    } else {
      assert (a + b)[1..] == a[1..] + b;
      FlattenConcat(a[1..], b);
    }
  }

  lemma FlattenAt(groups: seq<Group>, g: nat)
    requires g < |groups|
    ensures Flatten(groups) == Flatten(groups[..g]) + groups[g].members + Flatten(groups[g + 1..])
  {
    assert groups == groups[..g] + groups[g..];
    FlattenConcat(groups[..g], groups[g..]);
  }

  function Iota(n: nat): (r: seq<nat>)
    ensures |r| == n
  {
    seq(n, i => i)
  }

  /** Listing order is a permutation of rank order: grouping neither loses nor repeats a candidate. */
  lemma {:induction false} GroupingPermutes(cs: seq<Keyed>, n: nat)
    requires n <= |cs|
    ensures multiset(Flatten(Grouped(cs, n))) == multiset(Iota(n))
    ensures |Flatten(Grouped(cs, n))| == n
  {
    if n == 0 {
      assert Grouped(cs, 0) == [] && Iota(0) == [];
    } else {
      assert Iota(n) == Iota(n - 1) + [n - 1];
      hide *;
      GroupingPermutes(cs, n - 1);
      FlattenStep(cs, n - 1);
      SameMultiset(Flatten(Grouped(cs, n - 1)), Iota(n - 1), Flatten(Grouped(cs, n)), Iota(n), n - 1);
    }
  }

  lemma SameMultiset(a: seq<nat>, b: seq<nat>, a': seq<nat>, b': seq<nat>, x: nat)
    requires multiset(a) == multiset(b) && multiset(a') == multiset(a) + multiset([x]) && b' == b + [x]
    ensures multiset(a') == multiset(b') && |a'| == |b'|
  {
    assert |multiset(a')| == |multiset(b')|;
  }

  lemma FlattenStep(cs: seq<Keyed>, n: nat)
    requires n < |cs|
    ensures multiset(Flatten(Grouped(cs, n + 1))) == multiset(Flatten(Grouped(cs, n))) + multiset([n])
  {
    var before, keys := Grouped(cs, n), KeyOrder(cs, n);
    KeyOrderHolds(cs, n);
    if cs[n].key in keys {
      var g :| 0 <= g < |keys| && keys[g] == cs[n].key;
      GroupedStep(cs, n, g);
      JoinFlatten(before, g, n, cs[n].width);
    } else {
      GroupedStep(cs, n, |before|);
      StartFlatten(before, cs[n], n);
    }
    hide *;
  }

  lemma JoinFlatten(groups: seq<Group>, g: nat, idx: nat, width: nat)
    requires g < |groups|
    ensures multiset(Flatten(groups[g := Joined(groups[g], idx, width)])) == multiset(Flatten(groups)) + multiset([idx])
  {
    hide Flatten;
    var after := groups[g := Joined(groups[g], idx, width)];
    FlattenAt(groups, g);
    FlattenAt(after, g);
    assert after[..g] == groups[..g] && after[g + 1..] == groups[g + 1..];
  }

  lemma StartFlatten(groups: seq<Group>, c: Keyed, idx: nat)
    ensures multiset(Flatten(groups + [Started(c, idx)])) == multiset(Flatten(groups)) + multiset([idx])
  {
    FlattenConcat(groups, [Started(c, idx)]);
    assert Flatten([Started(c, idx)]) == [idx];
  }

  /** Every group lists exactly the candidates of its key, in rank order, and no two groups share a key. */
  lemma GroupsPartition(cs: seq<Keyed>, g: nat)
    requires g < |Grouped(cs, |cs|)|
    ensures var group := Grouped(cs, |cs|)[g];
            && group.members != []
            && (forall m: nat :: m in group.members <==> m < |cs| && cs[m].key == group.key)
            && Ascending(group.members)
            && (forall h :: 0 <= h < g ==> Grouped(cs, |cs|)[h].key != group.key)
            && (forall m :: m in group.members ==> cs[m].width <= group.maxWidth)
  {
    MembersAscend(cs, KeyOrder(cs, |cs|)[g], |cs|);
    var key := KeyOrder(cs, |cs|)[g];
    KeyOrderHolds(cs, |cs|);
    MembersHold(cs, key, |cs|);
    forall m: nat
      ensures m in MembersOf(cs, key, |cs|) <==> m < |cs| && cs[m].key == key
    {
      MemberOf(cs, key, |cs|, m);
    }
  }
}
