/** Suppressing approximate hits and ordering the rest (src/ranking.rs). */
module Ranking {
  import opened Bytes
  import opened Edits
  import opened Matching

  datatype Order = Quality | Stdin

  datatype Matched = Matched(idx: nat, hit: TierHit)

  /** `MatchRank`'s derived order: tiers first, each tier by its own evidence. */
  predicate RankLess(a: TierHit, b: TierHit) {
    match (a, b)
    case (PrefixHit(x), PrefixHit(y)) => x && !y
    case (SubstringHit(x), SubstringHit(y)) => x < y
    case (EditHit(x), EditHit(y)) => Less(x, y)
    case (FuzzyHit(x), FuzzyHit(y)) => x > y
    case (_, _) => TierRank(a) < TierRank(b)
  }

  function TierRank(h: TierHit): nat {
    match h
    case PrefixHit(_) => 0
    case SubstringHit(_) => 1
    case EditHit(_) => 2
    case FuzzyHit(_) => 3
  }

  predicate HasLiteral(ms: seq<Matched>) {
    exists i :: 0 <= i < |ms| && ms[i].hit.Literal()
  }

  predicate Kept(m: Matched, hasLiteral: bool) { !hasLiteral || m.hit.Literal() }

  function Suppress(ms: seq<Matched>, hasLiteral: bool): seq<Matched> {
    if ms == [] then []
    else
      Suppress(ms[..|ms| - 1], hasLiteral) + if Kept(ms[|ms| - 1], hasLiteral) then [ms[|ms| - 1]] else []
  }

  /** Inserts after every element that does not rank worse. */
  function InsertStable(s: seq<Matched>, m: Matched): (r: seq<Matched>)
    ensures |r| == |s| + 1
  {
    if s == [] || !RankLess(m.hit, s[|s| - 1].hit) then s + [m]
    else InsertStable(s[..|s| - 1], m) + [s[|s| - 1]]
  }

  /** The stable sort by rank. */
  function StableSort(ms: seq<Matched>): (r: seq<Matched>)
    ensures |r| == |ms|
  {
    if ms == [] then [] else InsertStable(StableSort(ms[..|ms| - 1]), ms[|ms| - 1])
  }

  function Rank(ms: seq<Matched>, order: Order): seq<Matched> {
    var kept := Suppress(ms, HasLiteral(ms));
    if order.Quality? then StableSort(kept) else kept
  }

  /** Candidates are listed in input order. */
  ghost predicate InOrder(s: seq<Matched>) {
    forall i, j :: 0 <= i < j < |s| ==> s[i].idx < s[j].idx
  }

  lemma RankTransitive(a: TierHit, b: TierHit, c: TierHit)
    requires !RankLess(b, a) && !RankLess(c, b)
    ensures !RankLess(c, a)
  {
  }

  lemma {:induction false} InsertContents(s: seq<Matched>, m: Matched)
    ensures multiset(InsertStable(s, m)) == multiset(s) + multiset{m}
  {
    if s != [] && RankLess(m.hit, s[|s| - 1].hit) {
      InsertContents(s[..|s| - 1], m);
      assert s == s[..|s| - 1] + [s[|s| - 1]];
    }
  }

  /** A later insertion never comes before an earlier one of the same rank. */
  ghost predicate Ordered(a: Matched, b: Matched) {
    !RankLess(b.hit, a.hit) && (!RankLess(a.hit, b.hit) ==> a.idx < b.idx)
  }

  ghost predicate AllOrdered(s: seq<Matched>) {
    forall i, j :: 0 <= i < j < |s| ==> Ordered(s[i], s[j])
  }

  lemma {:induction false} InsertHolds(s: seq<Matched>, m: Matched)
    requires AllOrdered(s) && forall i :: 0 <= i < |s| ==> s[i].idx < m.idx
    ensures AllOrdered(InsertStable(s, m))
  {
    if s == [] {
    } else if !RankLess(m.hit, s[|s| - 1].hit) {
      hide RankLess;
      forall i | 0 <= i < |s|
        ensures Ordered(s[i], m)
      {
        RankTransitive(s[i].hit, s[|s| - 1].hit, m.hit);
      }
    } else {
      var front, last := s[..|s| - 1], s[|s| - 1];
      InsertHolds(front, m);
      InsertContents(front, m);
      RankAsymmetric(m.hit, last.hit);
      var r := InsertStable(front, m);
      hide RankLess, InsertStable;
      forall i | 0 <= i < |r|
        ensures Ordered(r[i], last)
      {
        assert r[i] in multiset(r);
        if r[i] != m {
          assert r[i] in multiset(front);
          var k :| 0 <= k < |front| && front[k] == r[i];
          assert Ordered(s[k], s[|s| - 1]);
        }
      }
      AppendOrdered(r, last);
    }
  }

  lemma AppendOrdered(r: seq<Matched>, last: Matched)
    requires AllOrdered(r) && forall i :: 0 <= i < |r| ==> Ordered(r[i], last)
    ensures AllOrdered(r + [last])
  {
    hide Ordered;
  }

  lemma RankAsymmetric(a: TierHit, b: TierHit)
    ensures RankLess(a, b) ==> !RankLess(b, a)
  {
  }

  lemma NothingOrdered()
    ensures AllOrdered([])
  {
  }

  lemma {:induction false} SortHolds(ms: seq<Matched>)
    requires InOrder(ms)
    ensures AllOrdered(StableSort(ms)) && multiset(StableSort(ms)) == multiset(ms)
  {
    hide AllOrdered, InsertStable;
    if ms == [] {
      NothingOrdered();
    } else {
      var front, last := ms[..|ms| - 1], ms[|ms| - 1];
      SortHolds(front);
      assert ms == front + [last];
      forall i | 0 <= i < |StableSort(front)|
        ensures StableSort(front)[i].idx < last.idx
      {
        assert StableSort(front)[i] in multiset(front);
      }
      InsertHolds(StableSort(front), last);
      InsertContents(StableSort(front), last);
    }
  }

  lemma {:induction false} SuppressHolds(ms: seq<Matched>, hasLiteral: bool)
    requires InOrder(ms)
    ensures InOrder(Suppress(ms, hasLiteral))
    ensures forall m :: m in Suppress(ms, hasLiteral) <==> m in ms && Kept(m, hasLiteral)
  {
    if ms != [] {
      var front, last := ms[..|ms| - 1], ms[|ms| - 1];
      SuppressHolds(front, hasLiteral);
      var before := Suppress(front, hasLiteral);
      assert forall i :: 0 <= i < |before| ==> before[i] in front;
      hide Suppress, Kept;
      LastMember(ms);
      LastMember(before + [last]);
      assert (before + [last])[..|before|] == before;
    }
  }

  lemma LastMember(ms: seq<Matched>)
    requires ms != []
    ensures forall m :: m in ms <==> m in ms[..|ms| - 1] || m == ms[|ms| - 1]
  {
  }

  /**
   The result holds exactly the surviving hits, each once: every literal hit, and approximate ones only
   when there is no literal. By quality they are sorted with ties in input order; otherwise in input order.
   */
  lemma RankHolds(ms: seq<Matched>, order: Order)
    requires InOrder(ms)
    ensures var r := Rank(ms, order);
            && (forall m :: m in r <==> m in ms && (m.hit.Literal() || !HasLiteral(ms)))
            && (forall i, j :: 0 <= i < j < |r| ==> r[i] != r[j])
            && (order.Quality? ==> AllOrdered(r))
            && (order.Stdin? ==> InOrder(r))
  {
    hide Suppress, StableSort, HasLiteral, AllOrdered;
    var kept := Suppress(ms, HasLiteral(ms));
    SuppressHolds(ms, HasLiteral(ms));
    SortHolds(kept);
    SameMembers(StableSort(kept), kept);
    SameTwice(StableSort(kept), kept);
  }

  lemma SameMembers(r: seq<Matched>, kept: seq<Matched>)
    requires multiset(r) == multiset(kept)
    ensures forall m :: m in r <==> m in kept
  {
    forall m
      ensures m in r <==> m in kept
    {
      assert m in r <==> m in multiset(r);
      assert m in kept <==> m in multiset(kept);
    }
  }

  lemma SameTwice(r: seq<Matched>, kept: seq<Matched>)
    requires multiset(r) == multiset(kept) && InOrder(kept)
    ensures forall i, j :: 0 <= i < j < |r| ==> r[i] != r[j]
  {
    forall i, j | 0 <= i < j < |r|
      ensures r[i] != r[j]
    {
      if r[i] == r[j] {
        MultisetTwice(r, i, j);
        MultisetOnce(kept, r[i]);
      }
    }
  }

  lemma MultisetTwice(r: seq<Matched>, i: nat, j: nat)
    requires i < j < |r| && r[i] == r[j]
    ensures multiset(r)[r[i]] >= 2
  {
    assert r == r[..j] + r[j..];
    assert r[..j][i] == r[i] && r[j..][0] == r[j];
    assert r[i] in multiset(r[..j]) && r[j] in multiset(r[j..]);
  }

  lemma {:induction false} MultisetOnce(s: seq<Matched>, m: Matched)
    requires InOrder(s)
    ensures multiset(s)[m] <= 1
  {
    if s != [] {
      var front, last := s[..|s| - 1], s[|s| - 1];
      assert s == front + [last];
      MultisetOnce(front, m);
      if m == last {
        assert m !in front;
      }
    }
  }

  // ----- What the order means for the texts -----

  ghost predicate Contains(q: Bytes, c: Bytes) { exists p: nat :: OccursAt(q, c, p) }

  /** `a` matches the query at least as literally as `b`: equal, then prefix, then substring, earliest first. */
  ghost predicate AsLiteral(q: Query, a: Bytes, b: Bytes) {
    var x, y := Hay(q, a), Hay(q, b);
    && (q.bytes == y ==> q.bytes == x)
    && (q.bytes <= y ==> q.bytes <= x)
    && (Contains(q.bytes, y) ==> Contains(q.bytes, x))
    && (!(q.bytes <= x) ==> forall p: nat :: OccursAt(q.bytes, y, p) ==> exists r: nat :: r <= p && OccursAt(q.bytes, x, r))
  }

  lemma NotWorseIsAsLiteral(q: Query, fuzzy: Fuzzy, a: Bytes, b: Bytes)
    requires q.bytes != [] && Classify(q, fuzzy, a).Some? && Classify(q, fuzzy, b).Some?
    requires !RankLess(Classify(q, fuzzy, b).value, Classify(q, fuzzy, a).value)
    ensures AsLiteral(q, a, b)
  {
    hide Hay, Osa, Less, Classify;
    HitIsTrue(q, fuzzy, a);
    HitIsTrue(q, fuzzy, b);
    var x, y := Hay(q, a), Hay(q, b);
    PrefixOccurs(q.bytes, x);
    PrefixOccurs(q.bytes, y);
    var hit := Classify(q, fuzzy, a).value;
    if hit.SubstringHit? {
      assert OccursAt(q.bytes, x, hit.pos);
    }
  }

  lemma PrefixOccurs(q: Bytes, c: Bytes)
    ensures OccursAt(q, c, 0) <==> q <= c
    ensures forall p: nat :: OccursAt(q, c, p) ==> p <= |c|
  {
    assert c[0..] == c;
  }

  /** By quality, no candidate is listed after one that matches the query less literally. */
  lemma QualityIsLiteralness(q: Query, fuzzy: Fuzzy, texts: seq<Bytes>, ms: seq<Matched>)
    requires q.bytes != [] && InOrder(ms)
    requires forall k :: 0 <= k < |ms| ==> ms[k].idx < |texts| && Classify(q, fuzzy, texts[ms[k].idx]) == Some(ms[k].hit)
    ensures var r := Rank(ms, Quality);
            && (forall k :: 0 <= k < |r| ==> r[k].idx < |texts|)
            && (forall i, j :: 0 <= i < j < |r| ==> AsLiteral(q, texts[r[i].idx], texts[r[j].idx]))
  {
    hide Classify, Rank, RankLess, AsLiteral;
    RankHolds(ms, Quality);
    var r := Rank(ms, Quality);
    forall k | 0 <= k < |r|
      ensures r[k].idx < |texts| && Classify(q, fuzzy, texts[r[k].idx]) == Some(r[k].hit)
    {
      assert r[k] in ms;
    }
    forall i, j | 0 <= i < j < |r|
      ensures AsLiteral(q, texts[r[i].idx], texts[r[j].idx])
    {
      assert Ordered(r[i], r[j]);
      NotWorseIsAsLiteral(q, fuzzy, texts[r[i].idx], texts[r[j].idx]);
    }
  }
}
