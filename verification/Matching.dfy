/** Classifying one candidate and the character spans of a hit (src/matching.rs). */
module Matching {
  import opened Bytes
  import opened Lossy
  import opened Spans
  import opened Edits

  datatype Mode = Prefix | Substring | Typo {
    function Strength(): nat {
      match this
      case Prefix => 0
      case Substring => 1
      case Typo => 2
    }
  }

  /** How one candidate matched, with the evidence. */
  datatype TierHit =
    | PrefixHit(exact: bool)
    | SubstringHit(pos: nat)
    | EditHit(edit: EditMatch)
    | FuzzyHit(score: nat)
  {
    predicate Literal() { PrefixHit? || SubstringHit? }
  }

  /** The fuzzy library: a strict-subsequence score, and the matched character indices. */
  datatype Fuzzy = Fuzzy(score: (Bytes, Bytes) -> Option<nat>, indices: (Bytes, Bytes) -> seq<nat>)

  /** Prepared query state. */
  datatype Query = Query(mode: Mode, fold: bool, bytes: Bytes)

  function Lower(b: byte): byte { if 65 <= b <= 90 then b + 32 else b }

  function ToLower(s: Bytes): (r: Bytes)
    ensures |r| == |s| && SameShape(s, r)
  {
    seq(|s|, i requires 0 <= i < |s| => Lower(s[i]))
  }

  /** Smart case: any upper-case character in the query makes it case sensitive. */
  function NewQuery(raw: Bytes, mode: Mode, smartCase: bool, isUpper: Char -> bool): Query {
    var sensitive := smartCase && exists i :: 0 <= i < |Chars(raw)| && isUpper(Chars(raw)[i]);
    Query(mode, !sensitive, if sensitive then raw else ToLower(raw))
  }

  /** The candidate bytes every tier reads. */
  function Hay(q: Query, cand: Bytes): (r: Bytes)
    ensures |r| == |cand| && SameShape(cand, r)
  {
    if q.fold then ToLower(cand) else cand
  }

  ghost predicate OccursAt(q: Bytes, c: Bytes, pos: nat) {
    pos <= |c| && q <= c[pos..]
  }

  lemma OccursTail(q: Bytes, c: Bytes)
    requires c != []
    ensures forall p: nat :: 1 <= p <= |c| ==> (OccursAt(q, c, p) <==> OccursAt(q, c[1..], p - 1))
  {
    forall p: nat | 1 <= p <= |c|
      ensures OccursAt(q, c, p) <==> OccursAt(q, c[1..], p - 1)
    {
      assert c[p..] == c[1..][p - 1..];
    }
  }

  /** `windows(q.len()).position(|w| w == q)`. */
  function FindWindow(q: Bytes, c: Bytes): (r: Option<nat>)
    ensures r.Some? ==> OccursAt(q, c, r.value) && forall p: nat :: p < r.value ==> !OccursAt(q, c, p)
    ensures r.None? ==> forall p: nat :: p <= |c| ==> !OccursAt(q, c, p)
    decreases |c|
  {
    assert c[0..] == c;
    if q <= c then Some(0)
    else if c == [] then None
    else
      OccursTail(q, c);
      match FindWindow(q, c[1..])
      case Some(p) => Some(p + 1)
      case None => None
  }

  /** The tier cascade. */
  function Classify(q: Query, fuzzy: Fuzzy, raw: Bytes): Option<TierHit> {
    var cand := Hay(q, raw);
    if q.bytes == [] then Some(PrefixHit(false))
    else if q.bytes <= cand then Some(PrefixHit(|cand| == |q.bytes|))
    else if q.mode.Prefix? then None
    else if FindWindow(q.bytes, cand).Some? then Some(SubstringHit(FindWindow(q.bytes, cand).value))
    else if q.mode.Substring? then None
    else if |q.bytes| >= 2 && PrefixEdit(q.bytes, cand).Some? then Some(EditHit(PrefixEdit(q.bytes, cand).value))
    else
      match fuzzy.score(q.bytes, cand)
      case Some(score) => Some(FuzzyHit(score))
      case None => None
  }

  /** A stronger mode never changes a hit: tiers only add matches. */
  lemma WideningKeepsHits(q: Query, fuzzy: Fuzzy, wider: Mode, raw: Bytes)
    requires q.mode.Strength() <= wider.Strength() && Classify(q, fuzzy, raw).Some?
    ensures Classify(q.(mode := wider), fuzzy, raw) == Classify(q, fuzzy, raw)
  {
  }

  /** What each literal or edit hit says about the candidate bytes. */
  lemma HitIsTrue(q: Query, fuzzy: Fuzzy, raw: Bytes)
    requires q.bytes != [] && Classify(q, fuzzy, raw).Some?
    ensures var cand := Hay(q, raw);
            match Classify(q, fuzzy, raw).value
            case PrefixHit(exact) => q.bytes <= cand && (exact <==> q.bytes == cand)
            case SubstringHit(pos) =>
              0 < pos && OccursAt(q.bytes, cand, pos) && forall p: nat :: p < pos ==> !OccursAt(q.bytes, cand, p)
            case EditHit(edit) =>
              && edit.suffixLen <= |cand|
              && Osa(q.bytes, cand, |q.bytes|, |cand| - edit.suffixLen) <= 1
              && forall p: nat :: p <= |cand| ==> !OccursAt(q.bytes, cand, p)
            case FuzzyHit(_) => forall p: nat :: p <= |cand| ==> !OccursAt(q.bytes, cand, p)
  {
    hide PrefixEdit, Osa;
    var cand := Hay(q, raw);
    assert cand[0..] == cand;
    match Classify(q, fuzzy, raw).value
    case EditHit(edit) =>
      EditIsBest(q.bytes, cand);
      var k: nat :| Reading(q.bytes, cand, edit.kind, k, |q.bytes|);
      ReadingIsClose(q.bytes, cand, edit.kind, k, |q.bytes|);
    case _ =>
  }

  ghost predicate Held(q: Bytes, c: Bytes) { exists pos: nat :: OccursAt(q, c, pos) }

  /** Which tier a candidate is in, and that it is in none. */
  lemma TierIff(q: Query, fuzzy: Fuzzy, raw: Bytes)
    ensures var cand, hit := Hay(q, raw), Classify(q, fuzzy, raw);
            var begins, held, close := q.bytes <= cand, Held(q.bytes, cand), |q.bytes| >= 2 && Close(q.bytes, cand);
            && (hit.Some? && hit.value.PrefixHit? <==> begins)
            && (hit.Some? && hit.value.SubstringHit? <==> !begins && held && !q.mode.Prefix?)
            && (hit.Some? && hit.value.EditHit? <==> !held && close && q.mode.Typo?)
            && (hit.Some? && hit.value.FuzzyHit? <==>
                  !held && !close && q.mode.Typo? && fuzzy.score(q.bytes, cand).Some?)
            && (hit.Some? && hit.value.FuzzyHit? ==> fuzzy.score(q.bytes, cand) == Some(hit.value.score))
  {
    hide PrefixEdit, Hay, FindWindow, Held, Close;
    var cand := Hay(q, raw);
    EditIffClose(q.bytes, cand);
    HeldIs(q.bytes, cand);
    assert q.bytes == [] ==> q.bytes <= cand;
  }

  lemma HeldIs(q: Bytes, c: Bytes)
    ensures FindWindow(q, c).Some? <==> Held(q, c)
    ensures q <= c ==> Held(q, c)
  {
    hide FindWindow;
    assert c[0..] == c;
    assert q <= c ==> OccursAt(q, c, 0);
    assert FindWindow(q, c).Some? ==> OccursAt(q, c, FindWindow(q, c).value);
  }

  // ---- spans ----

  /** `sort_unstable` and `dedup` of the matched character indices. */
  function InsertIndex(i: nat, s: seq<nat>): seq<nat> {
    if s == [] || i < s[0] then [i] + s
    else if i == s[0] then s
    else [s[0]] + InsertIndex(i, s[1..])
  }

  function SortedIndices(s: seq<nat>): seq<nat> {
    if s == [] then [] else InsertIndex(s[0], SortedIndices(s[1..]))
  }

  /** Adjacent indices share a span. */
  function MergeIndices(s: seq<nat>): seq<CharSpan> {
    if s == [] then [] else MergeNext(MergeIndices(s[..|s| - 1]), s[|s| - 1])
  }

  function MergeNext(before: seq<CharSpan>, i: nat): seq<CharSpan> {
    if before != [] && before[|before| - 1].end == i
    then before[..|before| - 1] + [Span(before[|before| - 1].start, i + 1)]
    else before + [Span(i, i + 1)]
  }

  function SpansOfHit(q: Query, fuzzy: Fuzzy, raw: Bytes, hit: TierHit): seq<CharSpan> {
    var n := |q.bytes|;
    if n == 0 then []
    else
      match hit
      case PrefixHit(_) => [Span(0, Count(raw[..Min(n, |raw|)]))]
      case SubstringHit(pos) => [Span(Count(raw[..Min(pos, |raw|)]), Count(raw[..Min(pos + n, |raw|)]))]
      case EditHit(edit) => [Span(0, Count(raw[..Minus(|raw|, edit.suffixLen)]))]
      case FuzzyHit(_) => MergeIndices(SortedIndices(fuzzy.indices(q.bytes, Hay(q, raw))))
  }

  method MergeSpans(indices: seq<nat>) returns (out: seq<CharSpan>)
    ensures out == MergeIndices(indices)
  {
    out := [];
    for k := 0 to |indices|
      invariant out == MergeIndices(indices[..k])
    {
      var i := indices[k];
      assert indices[..k + 1][..k] == indices[..k];
      if out != [] && out[|out| - 1].end == i {
        out := out[|out| - 1 := Span(out[|out| - 1].start, i + 1)];
      } else {
        out := out + [Span(i, i + 1)];
      }
    }
    assert indices[..|indices|] == indices;
  }

  ghost predicate Increasing(s: seq<nat>) {
    forall i, j :: 0 <= i < j < |s| ==> s[i] < s[j]
  }

  lemma {:induction false} InsertSorts(i: nat, s: seq<nat>)
    requires Increasing(s)
    ensures Increasing(InsertIndex(i, s))
    ensures forall x: nat :: x in InsertIndex(i, s) <==> x == i || x in s
  {
    hide *;
    InsertStep(i, s);
    if s == [] {
      ConsIncreases(i, s);
    } else if i < s[0] {
      ConsIncreases(i, s);
    } else if i > s[0] {
      TailIncreases(s);
      var rest := InsertIndex(i, s[1..]);
      InsertSorts(i, s[1..]);
      if rest != [] {
        assert rest[0] in rest;
      }
      ConsIncreases(s[0], rest);
      ConsMembers(s[0], rest);
      ConsMembers(s[0], s[1..]);
      assert s == [s[0]] + s[1..];
    }
    ConsMembers(i, s);
  }

  lemma InsertStep(i: nat, s: seq<nat>)
    ensures InsertIndex(i, s)
            == if s == [] || i < s[0] then [i] + s else if i == s[0] then s else [s[0]] + InsertIndex(i, s[1..])
  {
  }

  lemma TailIncreases(s: seq<nat>)
    requires s != [] && Increasing(s)
    ensures Increasing(s[1..]) && forall x :: x in s[1..] ==> s[0] < x
  {
  }

  lemma ConsIncreases(x: nat, s: seq<nat>)
    ensures Increasing(s) && (s != [] ==> x < s[0]) ==> Increasing([x] + s)
  {
  }

  lemma ConsMembers(x: nat, s: seq<nat>)
    ensures forall y: nat :: y in [x] + s <==> y == x || y in s
  {
  }

  lemma {:induction false} SortSorts(s: seq<nat>)
    ensures Increasing(SortedIndices(s))
    ensures forall x: nat :: x in SortedIndices(s) <==> x in s
  {
    if s != [] {
      SortSorts(s[1..]);
      InsertSorts(s[0], SortedIndices(s[1..]));
    }
  }

  /** Spans in order with gaps between them. */
  ghost predicate Separated(spans: seq<CharSpan>) {
    && (forall i :: 0 <= i < |spans| ==> spans[i].start < spans[i].end)
    && (forall i, j :: 0 <= i < j < |spans| ==> spans[i].end < spans[j].start)
  }

  ghost predicate Holding(spans: seq<CharSpan>, x: nat) {
    exists i :: 0 <= i < |spans| && spans[i].Holds(x)
  }

  lemma HoldingSnoc(spans: seq<CharSpan>, last: CharSpan, x: nat)
    ensures Holding(spans + [last], x) <==> Holding(spans, x) || last.Holds(x)
  {
    if Holding(spans, x) {
      var i :| 0 <= i < |spans| && spans[i].Holds(x);
      assert (spans + [last])[i].Holds(x);
    }
    if last.Holds(x) {
      assert (spans + [last])[|spans|].Holds(x);
    }
  }

  /** Merged spans are sorted, separated, and hold exactly the sorted indices. */
  lemma {:induction false} MergeHolds(s: seq<nat>, x: nat)
    requires Increasing(s)
    ensures Separated(MergeIndices(s))
    ensures Holding(MergeIndices(s), x) <==> x in s
    ensures s != [] <==> MergeIndices(s) != []
    ensures s != [] ==> MergeIndices(s)[|MergeIndices(s)| - 1].end == s[|s| - 1] + 1
  {
    if s != [] {
      hide Holding, Separated, MergeNext;
      var front, i := s[..|s| - 1], s[|s| - 1];
      MergeHolds(front, x);
      MergeStep(MergeIndices(front), front, i, x);
      assert x in s <==> x in front || x == i;
    }
  }

  lemma MergeStep(before: seq<CharSpan>, front: seq<nat>, i: nat, x: nat)
    requires Separated(before) && (Holding(before, x) <==> x in front)
    requires front == [] <==> before == []
    requires front != [] ==> before[|before| - 1].end == front[|front| - 1] + 1 && front[|front| - 1] < i
    ensures var after := MergeNext(before, i);
            && Separated(after) && after != [] && after[|after| - 1].end == i + 1
            && (Holding(after, x) <==> x in front || x == i)
  {
    hide Holding;
    if before != [] && before[|before| - 1].end == i {
      var kept, last := before[..|before| - 1], before[|before| - 1];
      assert before == kept + [last];
      HoldingSnoc(kept, last, x);
      HoldingSnoc(kept, Span(last.start, i + 1), x);
    } else {
      HoldingSnoc(before, Span(i, i + 1), x);
    }
  }

  /** A fuzzy hit's spans are separated and hold exactly the character indices the matcher named. */
  lemma FuzzySpansHold(q: Query, fuzzy: Fuzzy, raw: Bytes, score: nat, x: nat)
    requires q.bytes != []
    ensures var spans := SpansOfHit(q, fuzzy, raw, FuzzyHit(score));
            Separated(spans) && (Holding(spans, x) <==> x in fuzzy.indices(q.bytes, Hay(q, raw)))
  {
    var indices := fuzzy.indices(q.bytes, Hay(q, raw));
    SortSorts(indices);
    MergeHolds(SortedIndices(indices), x);
    hide Holding, Separated, MergeIndices;
  }

  /** The bytes of the raw candidate a literal or edit hit matched. */
  function MatchedBytes(q: Query, raw: Bytes, hit: TierHit): (int, int) {
    match hit
    case PrefixHit(_) => (0, |q.bytes|)
    case SubstringHit(pos) => (pos, pos + |q.bytes|)
    case EditHit(edit) => (0, |raw| - edit.suffixLen)
    case FuzzyHit(_) => (0, 0)
  }

  /**
   The one span of a literal or edit hit lies inside the candidate and holds exactly the characters
   that begin inside the matched bytes.
   */
  lemma HitSpansHold(q: Query, fuzzy: Fuzzy, raw: Bytes)
    requires q.bytes != [] && Classify(q, fuzzy, raw).Some? && !Classify(q, fuzzy, raw).value.FuzzyHit?
    ensures var hit := Classify(q, fuzzy, raw).value;
            var (from, to) := MatchedBytes(q, raw, hit);
            var spans := SpansOfHit(q, fuzzy, raw, hit);
            && 0 <= from <= to <= |raw|
            && |spans| == 1 && spans[0].end <= Count(raw)
            && spans[0].start == StartsBefore(raw, from) && spans[0].end == StartsBefore(raw, to)
  {
    hide Classify, StartsBefore, Chars;
    var hit := Classify(q, fuzzy, raw).value;
    HitFits(q, fuzzy, raw);
    var (from, to) := MatchedBytes(q, raw, hit);
    CountOfPrefix(raw, from);
    CountOfPrefix(raw, to);
    CountMonotone(raw, from, to);
    StartsNone(raw);
  }

  lemma StartsNone(s: Bytes)
    ensures StartsBefore(s, 0) == 0 && Count(s[..0]) == 0
  {
  }

  lemma HitFits(q: Query, fuzzy: Fuzzy, raw: Bytes)
    requires q.bytes != [] && Classify(q, fuzzy, raw).Some? && !Classify(q, fuzzy, raw).value.FuzzyHit?
    ensures var (from, to) := MatchedBytes(q, raw, Classify(q, fuzzy, raw).value); 0 <= from <= to <= |raw|
  {
    HitIsTrue(q, fuzzy, raw);
    hide PrefixEdit, Osa;
  }

  /** The character a byte belongs to. */
  ghost function CharOf(s: Bytes, x: nat): int { StartsBefore(s, x + 1) - 1 }

  lemma {:induction false} StartsAtBoundary(s: Bytes, k: nat)
    requires k < |s|
    ensures StartsBefore(s, k + 1) == StartsBefore(s, k) + if Boundary(s, k) then 1 else 0
    decreases |s|
  {
    var n := UnitLen(s);
    if k >= n {
      StartsAtBoundary(s[n..], k - n);
    } else {
      NoneBefore(s[n..]);
    }
  }

  lemma NoneBefore(s: Bytes)
    ensures StartsBefore(s, 0) == 0
  {
  }

  /** Characters beginning in a byte range include that of every byte in it exactly when the range begins at a boundary. */
  lemma RangeCoversIff(raw: Bytes, from: nat, to: nat)
    requires from < to <= |raw|
    ensures (forall x: nat :: from <= x < to ==> StartsBefore(raw, from) <= CharOf(raw, x) < StartsBefore(raw, to))
       <==> Boundary(raw, from)
  {
    hide StartsBefore, Boundary, CharOf;
    if Boundary(raw, from) {
      forall x: nat | from <= x < to
        ensures StartsBefore(raw, from) <= CharOf(raw, x) < StartsBefore(raw, to)
      {
        ByteInSpan(raw, from, to, x);
      }
    } else {
      ByteInSpan(raw, from, to, from);
    }
  }

  /** The span holds the character of every byte in a range. */
  ghost predicate CoversBytes(raw: Bytes, span: CharSpan, from: int, to: int) {
    forall x: nat :: from <= x < to ==> span.start <= CharOf(raw, x) < span.end
  }

  /**
   The span of a hit covers every matched byte except for a substring that begins inside a multi-byte or
   ill-formed character: that character is left out.
   */
  lemma SpanCoversIff(q: Query, fuzzy: Fuzzy, raw: Bytes)
    requires q.bytes != [] && Classify(q, fuzzy, raw).Some? && !Classify(q, fuzzy, raw).value.FuzzyHit?
    ensures var hit := Classify(q, fuzzy, raw).value;
            var (from, to) := MatchedBytes(q, raw, hit);
            var spans := SpansOfHit(q, fuzzy, raw, hit);
            && |spans| == 1
            && (CoversBytes(raw, spans[0], from, to) <==> (hit.SubstringHit? ==> Boundary(raw, hit.pos)))
  {
    hide Classify, StartsBefore, CharOf, SpansOfHit;
    HitSpansHold(q, fuzzy, raw);
    var hit := Classify(q, fuzzy, raw).value;
    var (from, to) := MatchedBytes(q, raw, hit);
    if from < to {
      RangeCoversIff(raw, from, to);
    }
    hide Boundary;
    assert hit.SubstringHit? ==> from < to;
  }

  /**
   A match inside a character: the continuation byte of U+00E9 asked for as a substring of the two bytes of
   U+00E9. It is found at byte 1, which is no boundary, and its span is empty.
   */
  lemma HitInsideCharacter(fuzzy: Fuzzy, smartCase: bool, isUpper: Char -> bool)
    ensures var q, raw := NewQuery([0xA9], Substring, smartCase, isUpper), [0xC3, 0xA9];
            && Classify(q, fuzzy, raw) == Some(SubstringHit(1)) && !Boundary(raw, 1)
            && SpansOfHit(q, fuzzy, raw, SubstringHit(1)) == [RawSpan(1, 1)]
  {
    var q, raw: Bytes := NewQuery([0xA9], Substring, smartCase, isUpper), [0xC3, 0xA9];
    assert q.bytes == [0xA9];
    var hay := Hay(q, raw);
    assert hay == raw && hay[1..] == [0xA9] && hay[0..] == hay;
    assert OccursAt(q.bytes, hay, 1) && q.bytes[0] != hay[0] && !OccursAt(q.bytes, hay, 0);
    assert UnitLen(raw) == 2 && raw[2..] == [];
    assert UnitLen(raw[..1]) == 1 && raw[..1][1..] == [];
    assert raw[..2] == raw;
  }

  lemma ByteInSpan(raw: Bytes, from: nat, to: nat, x: nat)
    requires from <= x < to <= |raw|
    ensures CharOf(raw, x) < StartsBefore(raw, to)
    ensures Boundary(raw, from) ==> StartsBefore(raw, from) <= CharOf(raw, x)
    ensures !Boundary(raw, from) && x == from ==> CharOf(raw, x) < StartsBefore(raw, from)
  {
    hide StartsBefore, Boundary;
    StartsAtBoundary(raw, from);
    StartsMonotone(raw, from + 1, x + 1);
    StartsMonotone(raw, x + 1, to);
  }

  // ---- the common prefix of all prefix-tier matches ----

  /** Byte-wise longest common prefix, empty for no texts. */
  function CommonPrefix(texts: seq<Bytes>): Bytes {
    if texts == [] then []
    else if |texts| == 1 then texts[0]
    else
      var before := CommonPrefix(texts[..|texts| - 1]);
      before[..Lcp(before, texts[|texts| - 1])]
  }

  method ComputeCommonPrefix(texts: seq<Bytes>) returns (acc: Bytes)
    ensures acc == CommonPrefix(texts)
  {
    if texts == [] {
      return [];
    }
    acc := texts[0];
    assert texts[..1] == [texts[0]];
    var k := 1;
    while k < |texts|
      invariant 1 <= k <= |texts| && acc == CommonPrefix(texts[..k])
    {
      assert texts[..k + 1][..k] == texts[..k];
      acc := acc[..Lcp(acc, texts[k])];
      k := k + 1;
      if acc == [] {
        EmptyStays(texts, k);
        return;
      }
    }
    assert texts[..|texts|] == texts;
  }

  lemma {:induction false} EmptyStays(texts: seq<Bytes>, k: nat)
    requires 1 <= k <= |texts| && CommonPrefix(texts[..k]) == []
    ensures CommonPrefix(texts) == []
  {
    if k < |texts| {
      assert texts[..|texts| - 1][..k] == texts[..k];
      EmptyStays(texts[..|texts| - 1], k);
    } else {
      assert texts[..k] == texts;
    }
  }

  /** The common prefix starts every text, and every shared prefix starts it. */
  lemma {:induction false} CommonPrefixIsGreatest(texts: seq<Bytes>, p: Bytes)
    requires texts != []
    ensures forall i :: 0 <= i < |texts| ==> CommonPrefix(texts) <= texts[i]
    ensures (forall i :: 0 <= i < |texts| ==> p <= texts[i]) <==> p <= CommonPrefix(texts)
  {
    if |texts| > 1 {
      var front, last := texts[..|texts| - 1], texts[|texts| - 1];
      CommonPrefixIsGreatest(front, p);
      var before, acc := CommonPrefix(front), CommonPrefix(texts);
      PrefixOfBoth(before, last, p);
      PrefixOfBoth(before, last, acc);
      assert forall i :: 0 <= i < |front| ==> texts[i] == front[i];
      forall i | 0 <= i < |texts|
        ensures acc <= texts[i]
      {
        if i < |front| {
          assert acc <= before && before <= texts[i];
        }
      }
    }
  }

  lemma PrefixOfBoth(a: Bytes, b: Bytes, p: Bytes)
    ensures p <= a && p <= b <==> p <= a[..Lcp(a, b)]
  {
    var l := Lcp(a, b);
    assert p <= a && p <= b ==> forall x :: 0 <= x < |p| ==> p[x] == a[x] == b[x];
    if p <= a[..l] {
      assert forall x :: 0 <= x < |p| ==> p[x] == a[..l][x];
    }
  }
}
