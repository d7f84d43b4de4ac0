/** From a candidate source to a serialized render plan (src/plan.rs, src/insert.rs). */
module Pipeline {
  import opened Bytes
  import opened Lossy
  import opened Spans
  import opened Groups
  import Geometry
  import opened Grid
  import opened ListingFacts
  import opened Layout
  import Wire
  import WireCodec
  import opened Records
  import opened Matching
  import opened Ranking

  datatype Producer = Compsys | History {
    function ResultOrder(): Order { if Compsys? then Quality else Stdin }

    function LayoutStyle(): Geometry.Style { if Compsys? then Geometry.Style.Grid else Geometry.Style.History }
  }

  datatype Params = Params(
    producer: Producer, query: Bytes, mode: Mode, smartCase: bool, rows: nat, width: nat, trailingSpace: bool, offset: nat)

  /** The tables and libraries the pipeline consults. */
  datatype Env = Env(wd: Widths, isUpper: Char -> bool, fuzzy: Fuzzy)

  const DOT: byte := 46

  // ---- insertion text ----

  function EndsWithSlash(s: Bytes): bool { s != [] && s[|s| - 1] == SLASH }

  /** Whether a `/` is synthesized: a file candidate, no explicit suffix, and a directory by `isDir`. */
  function Synthesizes(b: Batch, c: Candidate, isDir: Bytes -> bool): bool {
    b.f == Ascii("1") && b.es == [] && b.sHidden == [] && !EndsWithSlash(c.w) && isDir(b.rd + c.MatchText())
  }

  function BuildInsert(b: Batch, c: Candidate, trailingSpace: bool, isDir: Bytes -> bool): Bytes {
    var slash := Synthesizes(b, c, isDir);
    var nospace := slash || b.sVis != [] || b.sHidden != [] || b.iHidden != [];
    b.ip + b.iVis + b.pVis + b.pHidden + c.w + (if slash then [SLASH] else [])
    + b.sHidden + b.sVis + b.iHidden + (if trailingSpace && !nospace then [SPACE] else [])
  }

  // ---- matching the source ----

  /** Hidden files are left out unless the query opts in with a dot. */
  predicate Excluded(query: Bytes, b: Batch, c: Candidate) {
    !(query != [] && query[0] == DOT) && c.MatchText() != [] && c.MatchText()[0] == DOT && b.f == Ascii("1")
  }

  ghost predicate Indexed(s: Source) {
    forall i :: 0 <= i < |s.candidates| ==> s.candidates[i].batch < |s.batches|
  }

  function HitOf(env: Env, p: Params, s: Source, i: nat): Option<TierHit>
    requires Indexed(s) && i < |s.candidates|
  {
    var c := s.candidates[i];
    if Excluded(p.query, s.batches[c.batch], c) then None
    else Classify(NewQuery(p.query, p.mode, p.smartCase, env.isUpper), env.fuzzy, c.MatchText())
  }

  function AllMatched(env: Env, p: Params, s: Source, n: nat): seq<Matched>
    requires Indexed(s) && n <= |s.candidates|
  {
    if n == 0 then []
    else
      AllMatched(env, p, s, n - 1)
      + match HitOf(env, p, s, n - 1)
        case Some(hit) => [Matched(n - 1, hit)]
        case None => []
  }

  /** Match texts of every prefix-tier match, including those the grid will not show. */
  function PrefixTexts(env: Env, p: Params, s: Source, n: nat): seq<Bytes>
    requires Indexed(s) && n <= |s.candidates|
  {
    if n == 0 then []
    else
      PrefixTexts(env, p, s, n - 1)
      + match HitOf(env, p, s, n - 1)
        case Some(PrefixHit(_)) => [s.candidates[n - 1].MatchText()]
        case _ => []
  }

  method MatchSource(env: Env, p: Params, s: Source) returns (matched: seq<Matched>, prefixTexts: seq<Bytes>)
    requires Indexed(s)
    ensures matched == AllMatched(env, p, s, |s.candidates|)
    ensures prefixTexts == PrefixTexts(env, p, s, |s.candidates|)
  {
    hide HitOf, Candidate.MatchText;
    matched, prefixTexts := [], [];
    for i := 0 to |s.candidates|
      invariant matched == AllMatched(env, p, s, i)
      invariant prefixTexts == PrefixTexts(env, p, s, i)
    {
      var hit := HitOf(env, p, s, i);
      if hit.Some? {
        if hit.value.PrefixHit? {
          prefixTexts := prefixTexts + [s.candidates[i].MatchText()];
        }
        matched := matched + [Matched(i, hit.value)];
      }
    }
  }

  /** The rows-tall slice of the ranked history matches, and whether more lie before and after. */
  function HistoryWindow(ranked: seq<Matched>, offset: nat, rows: nat): (seq<Matched>, bool, bool) {
    var total := |ranked|;
    var from := Min(offset, Minus(total, rows));
    var end := Min(Plus(from, rows), total);
    (if from <= end then ranked[from..end] else [], from > 0, end < total)
  }

  /**
   The window is the slice of `min(rows, total)` matches from the clamped offset; the flags say whether matches lie
   before and after it, and asking again at the clamped offset gives the same window.
   */
  lemma HistoryWindowSlides(ranked: seq<Matched>, offset: nat, rows: nat)
    requires |ranked| <= USIZE_MAX
    ensures var from, n := Min(offset, Minus(|ranked|, rows)), Min(rows, |ranked|);
            && from + n <= |ranked|
            && HistoryWindow(ranked, offset, rows) == (ranked[from..from + n], from > 0, from + n < |ranked|)
            && HistoryWindow(ranked, from, rows) == HistoryWindow(ranked, offset, rows)
  {
  }

  /** Every match is in the window asked for at its own rank. */
  lemma EveryMatchScrollsIn(ranked: seq<Matched>, i: nat, rows: nat)
    requires i < |ranked| <= USIZE_MAX && rows >= 1
    ensures var from := Min(i, Minus(|ranked|, rows));
            var window := HistoryWindow(ranked, i, rows).0;
            from <= i < from + |window| && window[i - from] == ranked[i]
  {
    HistoryWindowSlides(ranked, i, rows);
  }

  function ShownMatches(env: Env, p: Params, s: Source): (seq<Matched>, bool, bool)
    requires Indexed(s)
  {
    var ranked := Rank(AllMatched(env, p, s, |s.candidates|), p.producer.ResultOrder());
    if p.producer.History? then HistoryWindow(ranked, p.offset, p.rows) else (ranked, false, false)
  }

  // ---- display text ----

  /** The shared width of all history numbers, at least five. */
  function NumberWidth(cs: seq<Candidate>): nat {
    if cs == [] then 5
    else
      var last := cs[|cs| - 1].n;
      Max(NumberWidth(cs[..|cs| - 1]), if last.Some? then |last.value| else 0)
  }

  function CellSourceOf(c: Candidate, width: nat): CellSource {
    var base := Normalize(if c.d.Some? then c.d.value else c.MatchText());
    match c.n
    case None => CellSource(base, None, if c.d.None? then Some(0) else None)
    case Some(number) =>
      var padding := Minus(width, |number|);
      CellSource(Repeat(SPACE, padding) + number + Repeat(SPACE, 2) + base,
                 Some(Span(padding, padding + |number|)),
                 if c.d.None? then Some(width + 2) else None)
  }

  function CellSources(cs: seq<Candidate>): (r: seq<CellSource>)
    ensures |r| == |cs|
  {
    seq(|cs|, i requires 0 <= i < |cs| => CellSourceOf(cs[i], NumberWidth(cs)))
  }

  method ComposeCellSources(cs: seq<Candidate>) returns (sources: seq<CellSource>)
    ensures sources == CellSources(cs)
  {
    var width := 5;
    for i := 0 to |cs|
      invariant width == NumberWidth(cs[..i])
    {
      assert cs[..i + 1][..i] == cs[..i];
      if cs[i].n.Some? {
        width := Max(width, |cs[i].n.value|);
      }
    }
    assert cs[..|cs|] == cs;
    sources := [];
    for i := 0 to |cs|
      invariant |sources| == i && forall j :: 0 <= j < i ==> sources[j] == CellSourceOf(cs[j], width)
    {
      sources := sources + [CellSourceOf(cs[i], width)];
    }
  }

  /** `J` first, the default group name reading as no key, then `X`. */
  function GroupKey(b: Batch): Bytes {
    if b.j != [] then (if b.j == Ascii("-default-") then [] else b.j) else b.x
  }

  /** The opposite priority: `X` first. */
  function HeadingText(b: Batch): Bytes { if b.x != [] then b.x else b.j }

  // ---- the whole pipeline ----

  function CandidatesOf(s: Source, shown: seq<Matched>): (r: seq<Candidate>)
    requires Indexed(s) && forall i :: 0 <= i < |shown| ==> shown[i].idx < |s.candidates|
    ensures |r| == |shown| && forall i :: 0 <= i < |r| ==> r[i] in s.candidates && r[i].batch < |s.batches|
  {
    seq(|shown|, i requires 0 <= i < |shown| => s.candidates[shown[i].idx])
  }

  function ContentOf(env: Env, p: Params, s: Source, shown: seq<Matched>): (c: Content)
    requires Indexed(s) && forall i :: 0 <= i < |shown| ==> shown[i].idx < |s.candidates|
    ensures c.Valid(env.wd)
  {
    var cs := CandidatesOf(s, shown);
    var sources := CellSources(cs);
    var q := NewQuery(p.query, p.mode, p.smartCase, env.isUpper);
    Content(
      seq(|cs|, i requires 0 <= i < |cs| =>
        Keyed(GroupKey(s.batches[cs[i].batch]), HeadingText(s.batches[cs[i].batch]), DisplayWidth(env.wd, sources[i].text))),
      sources,
      seq(|cs|, i requires 0 <= i < |cs| => SpansOfHit(q, env.fuzzy, cs[i].MatchText(), shown[i].hit)))
  }

  ghost predicate IndexesBelow(ms: seq<Matched>, n: nat) {
    forall i :: 0 <= i < |ms| ==> ms[i].idx < n
  }

  lemma {:induction false} MatchedIndexes(env: Env, p: Params, s: Source, n: nat)
    requires Indexed(s) && n <= |s.candidates|
    ensures InOrder(AllMatched(env, p, s, n)) && IndexesBelow(AllMatched(env, p, s, n), n)
  {
    hide HitOf;
    if n > 0 {
      MatchedIndexes(env, p, s, n - 1);
    }
  }

  lemma RankedIndexes(matched: seq<Matched>, order: Order, n: nat)
    requires InOrder(matched) && IndexesBelow(matched, n)
    ensures IndexesBelow(Rank(matched, order), n)
  {
    RankHolds(matched, order);
    hide Rank, HasLiteral, AllOrdered, InOrder, TierHit.Literal;
    var ranked := Rank(matched, order);
    forall i | 0 <= i < |ranked|
      ensures ranked[i].idx < n
    {
      assert ranked[i] in matched;
    }
  }

  lemma WindowIndexes(ranked: seq<Matched>, offset: nat, rows: nat, n: nat)
    requires IndexesBelow(ranked, n)
    ensures IndexesBelow(HistoryWindow(ranked, offset, rows).0, n)
  {
  }

  lemma ShownIndexes(env: Env, p: Params, s: Source)
    requires Indexed(s)
    ensures forall i :: 0 <= i < |ShownMatches(env, p, s).0| ==> ShownMatches(env, p, s).0[i].idx < |s.candidates|
  {
    hide Rank, AllMatched, HistoryWindow, InOrder, Producer.ResultOrder;
    var matched := AllMatched(env, p, s, |s.candidates|);
    MatchedIndexes(env, p, s, |s.candidates|);
    RankedIndexes(matched, p.producer.ResultOrder(), |s.candidates|);
    WindowIndexes(Rank(matched, p.producer.ResultOrder()), p.offset, p.rows, |s.candidates|);
    assert IndexesBelow(ShownMatches(env, p, s).0, |s.candidates|);
  }

  function OptionsOf(p: Params, morePrev: bool, moreNext: bool): Options {
    Options(p.rows, p.width, p.producer.LayoutStyle(), morePrev, moreNext)
  }

  /** The computed plan. */
  function PlanOf(env: Env, p: Params, s: Source, selected: nat): Plan
    requires Indexed(s) && p.width <= USIZE_MAX
  {
    ShownIndexes(env, p, s);
    var (shown, morePrev, moreNext) := ShownMatches(env, p, s);
    var c := ContentOf(env, p, s, shown);
    var o := OptionsOf(p, morePrev, moreNext);
    if p.producer.Compsys? then CompletionPlan(env.wd, c, o, p.offset, selected) else BuildPlan(env.wd, c, o)
  }

  function InsertsOf(env: Env, p: Params, s: Source, isDir: Bytes -> bool, positions: seq<nat>): (r: seq<Bytes>)
    requires Indexed(s) && forall i :: 0 <= i < |positions| ==> positions[i] < |ShownMatches(env, p, s).0|
    ensures |r| == |positions|
  {
    ShownIndexes(env, p, s);
    var cs := CandidatesOf(s, ShownMatches(env, p, s).0);
    seq(|positions|, i requires 0 <= i < |positions| =>
      BuildInsert(s.batches[cs[positions[i]].batch], cs[positions[i]], p.trailingSpace, isDir))
  }

  /** Layout only shows positions of the candidates it was given. */
  lemma PositionsInRange(wd: Widths, c: Content, o: Options, offset: nat, selected: nat)
    requires c.Valid(wd) && o.width <= USIZE_MAX
    ensures forall i :: 0 <= i < |CompletionPlan(wd, c, o, offset, selected).positions| ==>
              CompletionPlan(wd, c, o, offset, selected).positions[i] < |c.keyed|
    ensures forall i :: 0 <= i < |BuildPlan(wd, c, o).positions| ==> BuildPlan(wd, c, o).positions[i] < |c.keyed|
  {
    CompletionFits(wd, c, o, offset, selected);
    ScenePositions(CompletionScene(wd, c, o), CompletionGroups(c, o, offset, selected));
    var scene := SceneOf(wd, c, o.width, o.style);
    SceneIsValid(wd, c, o.width, o.style);
    WindowIsFitted(scene, o.rowBudget, 0);
    ScenePositions(scene, BuildGroups(scene, o));
    hide GridOf, HighlightsOf, RangesOf, CompletionGroups, Geometry.Window, Geometry.Positions;
  }

  lemma ScenePositions(scene: Scene, gs: seq<Geometry.GroupGeometry>)
    requires Drawable(scene, gs)
    ensures forall i :: 0 <= i < |GridOf(scene, gs).positions| ==> GridOf(scene, gs).positions[i] < |scene.sources|
  {
    forall i | 0 <= i < |GridOf(scene, gs).positions|
      ensures GridOf(scene, gs).positions[i] < |scene.sources|
    {
      CellsReadBack(scene, gs, i + 1);
    }
    hide GridOf, RangesOf;
  }

  lemma PlanPositions(env: Env, p: Params, s: Source, selected: nat)
    requires Indexed(s) && p.width <= USIZE_MAX
    ensures forall i :: 0 <= i < |PlanOf(env, p, s, selected).positions| ==>
              PlanOf(env, p, s, selected).positions[i] < |ShownMatches(env, p, s).0|
  {
    ShownIndexes(env, p, s);
    var (shown, morePrev, moreNext) := ShownMatches(env, p, s);
    PositionsInRange(env.wd, ContentOf(env, p, s, shown), OptionsOf(p, morePrev, moreNext), p.offset, selected);
    hide CompletionPlan, BuildPlan, ShownMatches;
  }

  /** The plan in wire form, as the serializer will write it. */
  function WirePlanOf(env: Env, p: Params, s: Source, isDir: Bytes -> bool, selected: nat): Wire.WirePlan
    requires Indexed(s) && p.width <= USIZE_MAX
  {
    PlanPositions(env, p, s, selected);
    var plan := PlanOf(env, p, s, selected);
    Wire.WireOf(CommonPrefix(PrefixTexts(env, p, s, |s.candidates|)), plan,
                InsertsOf(env, p, s, isDir, plan.positions))
  }

  /** `compute_selected`: the serialized plan. */
  function Computed(env: Env, p: Params, s: Source, isDir: Bytes -> bool, selected: nat): Bytes
    requires Indexed(s) && p.width <= USIZE_MAX
  {
    Wire.SerializeWire(WirePlanOf(env, p, s, isDir, selected))
  }

  method ComputeSelected(env: Env, p: Params, s: Source, isDir: Bytes -> bool, selected: nat) returns (out: Bytes)
    requires Indexed(s) && p.width <= USIZE_MAX
    ensures out == Computed(env, p, s, isDir, selected)
  {
    hide AllMatched, PrefixTexts, CommonPrefix, Rank, HistoryWindow, CellSourceOf, SpansOfHit, GroupKey, HeadingText,
         CompletionPlan, BuildPlan, Wire.SerializeWire, Wire.WireOf, BuildInsert, DisplayWidth, NumberWidth;
    var matched, prefixTexts := MatchSource(env, p, s);
    var commonPrefix := ComputeCommonPrefix(prefixTexts);
    var ranked := Rank(matched, p.producer.ResultOrder());
    var morePrev, moreNext := false, false;
    if p.producer.History? {
      var (window, prev, next) := HistoryWindow(ranked, p.offset, p.rows);
      ranked, morePrev, moreNext := window, prev, next;
    }
    ShownIndexes(env, p, s);
    assert (ranked, morePrev, moreNext) == ShownMatches(env, p, s);
    var cs := CandidatesOf(s, ranked);
    var sources := ComposeCellSources(cs);
    assert sources == ContentOf(env, p, s, ranked).sources;
    var content := ContentOf(env, p, s, ranked).(sources := sources);
    var options := OptionsOf(p, morePrev, moreNext);
    var plan;
    if p.producer.Compsys? {
      plan := BuildCompletion(env.wd, content, options, p.offset, selected);
    } else {
      plan := Build(env.wd, content, options);
    }
    PlanPositions(env, p, s, selected);
    assert plan == PlanOf(env, p, s, selected);
    var inserts: seq<Bytes> := [];
    for i := 0 to |plan.positions|
      invariant inserts == InsertsOf(env, p, s, isDir, plan.positions)[..i]
    {
      var c := cs[plan.positions[i]];
      inserts := inserts + [BuildInsert(s.batches[c.batch], c, p.trailingSpace, isDir)];
    }
    assert inserts == InsertsOf(env, p, s, isDir, plan.positions);
    assert commonPrefix == CommonPrefix(PrefixTexts(env, p, s, |s.candidates|));
    out := WireCodec.Serialize(commonPrefix, plan, inserts);
    assert Wire.WireOf(commonPrefix, plan, inserts) == WirePlanOf(env, p, s, isDir, selected);
  }
}
