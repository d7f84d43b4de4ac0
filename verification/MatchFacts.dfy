/** Which candidates match, what the ones that begin with the query share, and their order (src/plan.rs, src/ranking.rs). */
module MatchFacts {
  import opened Bytes
  import opened Lossy
  import opened Edits
  import Groups
  import opened Records
  import opened Matching
  import opened Ranking
  import opened Pipeline

  // ----- Letter case -----

  /** Smart case is on and the query holds an upper-case character. */
  ghost predicate Sensitive(env: Env, p: Params) {
    p.smartCase && exists c :: c in Chars(p.query) && env.isUpper(c)
  }

  /** The same byte, or the same ASCII letter when case does not matter. */
  predicate SameByte(sensitive: bool, a: byte, b: byte) {
    a == b || (!sensitive && ((65 <= a <= 90 && b == a + 32) || (65 <= b <= 90 && a == b + 32)))
  }

  predicate BeginsWith(sensitive: bool, text: Bytes, query: Bytes) {
    |query| <= |text| && forall i :: 0 <= i < |query| ==> SameByte(sensitive, query[i], text[i])
  }

  lemma SameLower(a: byte, b: byte)
    ensures Lower(a) == Lower(b) <==> SameByte(false, a, b)
  {
  }

  /** Where the prepared query occurs in what the tiers read is where the query as typed occurs in the candidate. */
  lemma QueryOccurs(env: Env, p: Params, text: Bytes, pos: nat)
    ensures var q := NewQuery(p.query, p.mode, p.smartCase, env.isUpper);
            OccursAt(q.bytes, Hay(q, text), pos) <==> pos <= |text| && BeginsWith(Sensitive(env, p), text[pos..], p.query)
  {
    hide Chars, Lower, SameByte;
    var q := NewQuery(p.query, p.mode, p.smartCase, env.isUpper);
    SensitiveIs(env, p);
    if pos <= |text| {
      var hay := Hay(q, text)[pos..];
      if q.fold {
        forall i | 0 <= i < |p.query| && |p.query| <= |hay|
          ensures q.bytes[i] == hay[i] <==> SameByte(false, p.query[i], text[pos..][i])
        {
          SameLower(p.query[i], text[pos..][i]);
        }
      } else {
        SensitiveSame(p.query, text[pos..]);
      }
    }
  }

  lemma SensitiveIs(env: Env, p: Params)
    ensures NewQuery(p.query, p.mode, p.smartCase, env.isUpper).fold <==> !Sensitive(env, p)
  {
    hide Chars;
    var cs := Chars(p.query);
    if Sensitive(env, p) {
      var c :| c in cs && env.isUpper(c);
      var i :| 0 <= i < |cs| && cs[i] == c;
      assert env.isUpper(cs[i]);
    }
  }

  lemma SensitiveSame(query: Bytes, text: Bytes)
    ensures BeginsWith(true, text, query) <==> query <= text
  {
  }

  // ----- Which candidates match -----

  /** The candidate is no hidden file, or the query asks for those with a leading dot. */
  ghost predicate Considered(p: Params, s: Source, i: nat)
    requires Indexed(s)
  {
    && i < |s.candidates|
    && var text := s.candidates[i].MatchText();
       text == [] || text[0] != 46 || s.batches[s.candidates[i].batch].f != [49] || (p.query != [] && p.query[0] == 46)
  }

  ghost predicate Matches(env: Env, p: Params, s: Source, i: nat, hit: TierHit)
    requires Indexed(s)
  {
    && Considered(p, s, i)
    && Classify(NewQuery(p.query, p.mode, p.smartCase, env.isUpper), env.fuzzy, s.candidates[i].MatchText()) == Some(hit)
  }

  ghost predicate Begins(env: Env, p: Params, s: Source, i: nat)
    requires Indexed(s)
  {
    Considered(p, s, i) && BeginsWith(Sensitive(env, p), s.candidates[i].MatchText(), p.query)
  }

  lemma HitIs(env: Env, p: Params, s: Source, i: nat, hit: TierHit)
    requires Indexed(s) && i < |s.candidates|
    ensures HitOf(env, p, s, i) == Some(hit) <==> Matches(env, p, s, i, hit)
  {
    hide Classify, NewQuery, Candidate.MatchText;
    assert Ascii("1") == [49];
  }

  /** Exactly the considered candidates with a hit are matched. */
  lemma {:induction false} MatchedIff(env: Env, p: Params, s: Source, n: nat, i: nat, hit: TierHit)
    requires Indexed(s) && n <= |s.candidates|
    ensures Matched(i, hit) in AllMatched(env, p, s, n) <==> i < n && Matches(env, p, s, i, hit)
  {
    hide HitOf, Matches;
    if n > 0 {
      MatchedIff(env, p, s, n - 1, i, hit);
      if i == n - 1 {
        HitIs(env, p, s, i, hit);
      }
    }
  }

  lemma BeginsIs(env: Env, p: Params, s: Source, i: nat)
    requires Indexed(s) && i < |s.candidates|
    ensures Begins(env, p, s, i) <==> HitOf(env, p, s, i).Some? && HitOf(env, p, s, i).value.PrefixHit?
  {
    var q, text := NewQuery(p.query, p.mode, p.smartCase, env.isUpper), s.candidates[i].MatchText();
    QueryOccurs(env, p, text, 0);
    assert text[0..] == text && Hay(q, text)[0..] == Hay(q, text);
    assert Ascii("1") == [49];
    hide Hay, PrefixEdit, FindWindow, Sensitive, Chars, BeginsWith, Candidate.MatchText, Ascii;
  }

  /** The texts the common prefix is taken over are those of the candidates that begin with the query. */
  lemma {:induction false} PrefixTextsIff(env: Env, p: Params, s: Source, n: nat, text: Bytes)
    requires Indexed(s) && n <= |s.candidates|
    ensures text in PrefixTexts(env, p, s, n)
       <==> exists i: nat :: i < n && Begins(env, p, s, i) && s.candidates[i].MatchText() == text
  {
    hide HitOf, Begins, Candidate.MatchText;
    if n > 0 {
      PrefixTextsIff(env, p, s, n - 1, text);
      BeginsIs(env, p, s, n - 1);
    }
  }

  /**
   The common prefix of a plan: what starts it is exactly what all candidates that begin with the query start with,
   whether they are shown or not; without any it is empty.
   */
  lemma CommonPrefixShared(env: Env, p: Params, s: Source, prefix: Bytes)
    requires Indexed(s)
    ensures var common := CommonPrefix(PrefixTexts(env, p, s, |s.candidates|));
            if exists i: nat :: Begins(env, p, s, i) then
              prefix <= common <==> forall i: nat :: Begins(env, p, s, i) ==> prefix <= s.candidates[i].MatchText()
            else common == []
  {
    hide PrefixTexts, Begins, Candidate.MatchText;
    var texts := PrefixTexts(env, p, s, |s.candidates|);
    forall text
      ensures text in texts
         <==> exists i: nat :: i < |s.candidates| && Begins(env, p, s, i) && s.candidates[i].MatchText() == text
    {
      PrefixTextsIff(env, p, s, |s.candidates|, text);
    }
    BeginsBelow(env, p, s);
    if texts != [] {
      CommonPrefixIsGreatest(texts, prefix);
      assert texts[0] in texts;
      AllStart(texts, prefix);
      hide CommonPrefix;
    }
    forall i: nat | Begins(env, p, s, i)
      ensures s.candidates[i].MatchText() in texts
    {
    }
  }

  lemma AllStart(texts: seq<Bytes>, prefix: Bytes)
    ensures (forall i :: 0 <= i < |texts| ==> prefix <= texts[i]) <==> (forall text :: text in texts ==> prefix <= text)
  {
    if forall i :: 0 <= i < |texts| ==> prefix <= texts[i] {
      forall text | text in texts
        ensures prefix <= text
      {
        var i :| 0 <= i < |texts| && texts[i] == text;
        assert prefix <= texts[i];
      }
    }
    if forall text :: text in texts ==> prefix <= text {
      assert forall i :: 0 <= i < |texts| ==> texts[i] in texts;
    }
  }

  lemma BeginsBelow(env: Env, p: Params, s: Source)
    requires Indexed(s)
    ensures forall i: nat :: Begins(env, p, s, i) ==> i < |s.candidates|
  {
    hide BeginsWith, Candidate.MatchText;
  }

  // ----- Which are listed, and in which order -----

  /** Every match is listed, the approximate ones only when none is literal. */
  lemma CompletionLists(env: Env, p: Params, s: Source, i: nat, hit: TierHit)
    requires Indexed(s) && p.producer.Compsys?
    ensures Matched(i, hit) in ShownMatches(env, p, s).0
       <==> && Matches(env, p, s, i, hit)
            && (hit.Literal() || forall j: nat, h :: Matches(env, p, s, j, h) ==> !h.Literal())
  {
    hide AllMatched, Matches, TierHit.Literal, Rank;
    var matched := AllMatched(env, p, s, |s.candidates|);
    MatchedIndexes(env, p, s, |s.candidates|);
    RankHolds(matched, Quality);
    MatchesBelow(env, p, s);
    forall j: nat, h
      ensures Matched(j, h) in matched <==> Matches(env, p, s, j, h)
    {
      MatchedIff(env, p, s, |s.candidates|, j, h);
    }
    LiteralIs(env, p, s, matched);
  }

  lemma LiteralIs(env: Env, p: Params, s: Source, matched: seq<Matched>)
    requires Indexed(s) && forall j: nat, h :: Matched(j, h) in matched <==> Matches(env, p, s, j, h)
    ensures HasLiteral(matched) <==> exists j: nat, h :: Matches(env, p, s, j, h) && h.Literal()
  {
    hide Matches, TierHit.Literal;
    if HasLiteral(matched) {
      var k :| 0 <= k < |matched| && matched[k].hit.Literal();
      assert Matched(matched[k].idx, matched[k].hit) in matched;
    }
    if j: nat, h :| Matches(env, p, s, j, h) && h.Literal() {
      assert Matched(j, h) in matched;
      var k :| 0 <= k < |matched| && matched[k] == Matched(j, h);
      assert matched[k].hit.Literal();
    }
  }

  lemma MatchesBelow(env: Env, p: Params, s: Source)
    requires Indexed(s)
    ensures forall i: nat, hit :: Matches(env, p, s, i, hit) ==> i < |s.candidates|
  {
    hide Classify, NewQuery, Candidate.MatchText;
  }

  /** Equal to the query, beginning with it, holding it, one edit away, a subsequence. */
  function Tier(h: TierHit): nat {
    match h
    case PrefixHit(exact) => if exact then 0 else 1
    case SubstringHit(_) => 2
    case EditHit(_) => 3
    case FuzzyHit(_) => 4
  }

  function KindPlace(k: EditKind): nat {
    match k
    case Exact => 0
    case Transposition => 1
    case Substitution => 2
    case Insertion => 3
    case Deletion => 4
  }

  /** Within a tier the smaller pair comes first: the earliest place, the shortest rest, the highest score. */
  function Evidence(h: TierHit): (int, int) {
    match h
    case PrefixHit(_) => (0, 0)
    case SubstringHit(pos) => (pos, 0)
    case EditHit(edit) => (edit.suffixLen, KindPlace(edit.kind))
    case FuzzyHit(score) => (0 - score as int, 0)
  }

  /** By tier, then by evidence, then in input order. */
  predicate Precedes(a: Matched, b: Matched) {
    var x, y := Evidence(a.hit), Evidence(b.hit);
    || Tier(a.hit) < Tier(b.hit)
    || (Tier(a.hit) == Tier(b.hit) &&
          (x.0 < y.0 || (x.0 == y.0 && (x.1 < y.1 || (x.1 == y.1 && a.idx < b.idx)))))
  }

  lemma OrderedPrecedes(a: Matched, b: Matched)
    requires Ordered(a, b)
    ensures Precedes(a, b)
  {
  }

  /** A completion lists its matches by quality, a history in input order. */
  lemma ShownInOrder(env: Env, p: Params, s: Source, i: nat, j: nat)
    requires Indexed(s) && i < j < |ShownMatches(env, p, s).0|
    ensures var shown := ShownMatches(env, p, s).0;
            match p.producer
            case Compsys => Precedes(shown[i], shown[j])
            case History => shown[i].idx < shown[j].idx
  {
    hide AllMatched, Rank, Ordered, Precedes;
    var matched := AllMatched(env, p, s, |s.candidates|);
    MatchedIndexes(env, p, s, |s.candidates|);
    RankHolds(matched, p.producer.ResultOrder());
    var shown := ShownMatches(env, p, s).0;
    if p.producer.Compsys? {
      assert Ordered(shown[i], shown[j]);
      OrderedPrecedes(shown[i], shown[j]);
    } else {
      var ranked, from := Rank(matched, Stdin), Min(p.offset, Minus(|Rank(matched, Stdin)|, p.rows));
      assert shown[i] == ranked[from + i] && shown[j] == ranked[from + j];
    }
  }

  // ----- The groups of a plan -----

  /** What the shown candidates are grouped by. */
  ghost function ShownGroups(env: Env, p: Params, s: Source): seq<Groups.Group>
    requires Indexed(s)
  {
    ShownIndexes(env, p, s);
    var keyed := ContentOf(env, p, s, ShownMatches(env, p, s).0).keyed;
    Groups.Grouped(keyed, |keyed|)
  }

  ghost predicate BatchOf(env: Env, p: Params, s: Source, m: nat, b: Batch)
    requires Indexed(s)
  {
    var shown := ShownMatches(env, p, s).0;
    m < |shown| && shown[m].idx < |s.candidates| && b == s.batches[s.candidates[shown[m].idx].batch]
  }

  /** The batch is grouped under this key: its group name, no key for the default one, or else its heading text. */
  predicate GroupedUnder(b: Batch, key: Bytes) {
    key == if b.j == Ascii("-default-") then [] else if b.j != [] then b.j else b.x
  }

  /** The heading for this batch is its heading text, or else its group name. */
  predicate Heads(b: Batch, heading: Bytes) { heading == if b.x != [] then b.x else b.j }

  lemma KeyedIs(env: Env, p: Params, s: Source, m: nat) returns (b: Batch)
    requires Indexed(s) && m < |ShownMatches(env, p, s).0|
    ensures forall i :: 0 <= i < |ShownMatches(env, p, s).0| ==> ShownMatches(env, p, s).0[i].idx < |s.candidates|
    ensures var keyed := ContentOf(env, p, s, ShownMatches(env, p, s).0).keyed;
            |keyed| == |ShownMatches(env, p, s).0| && GroupedUnder(b, keyed[m].key) && Heads(b, keyed[m].heading)
    ensures BatchOf(env, p, s, m, b)
  {
    hide ShownMatches, CellSources, SpansOfHit, DisplayWidth, NewQuery, Ascii;
    ShownIndexes(env, p, s);
    b := s.batches[s.candidates[ShownMatches(env, p, s).0[m].idx].batch];
    NamesEmpty();
  }

  lemma NamesEmpty()
    ensures Ascii("-default-") != []
  {
  }

  /**
   Every shown candidate is in the one group its batch is grouped under. A group without a key has no heading; another has that
   of its first candidate's batch.
   */
  lemma GroupsAreNamed(env: Env, p: Params, s: Source, g: nat, m: nat) returns (b: Batch, first: Batch)
    requires Indexed(s) && g < |ShownGroups(env, p, s)|
    ensures var group := ShownGroups(env, p, s)[g];
            && group.members != [] && BatchOf(env, p, s, group.members[0], first)
            && (if group.key == [] then group.heading == [] else Heads(first, group.heading))
            && (m < |ShownMatches(env, p, s).0| ==>
                  BatchOf(env, p, s, m, b) && (m in group.members <==> GroupedUnder(b, group.key)))
  {
    hide ShownMatches, ContentOf, BatchOf, Heads, Groups.KeyOrder, Groups.MembersOf, Groups.WidestOf, Ascii;
    ShownIndexes(env, p, s);
    var keyed := ContentOf(env, p, s, ShownMatches(env, p, s).0).keyed;
    Groups.GroupsPartition(keyed, g);
    var group := ShownGroups(env, p, s)[g];
    KeyedCount(env, p, s);
    first := KeyedIs(env, p, s, group.members[0]);
    b := first;
    if m < |ShownMatches(env, p, s).0| {
      b := KeyedIs(env, p, s, m);
    }
  }

  lemma KeyedCount(env: Env, p: Params, s: Source)
    requires Indexed(s)
    ensures forall i :: 0 <= i < |ShownMatches(env, p, s).0| ==> ShownMatches(env, p, s).0[i].idx < |s.candidates|
    ensures |ContentOf(env, p, s, ShownMatches(env, p, s).0).keyed| == |ShownMatches(env, p, s).0|
  {
    hide ShownMatches, CellSources, SpansOfHit, DisplayWidth, NewQuery;
    ShownIndexes(env, p, s);
  }
}
