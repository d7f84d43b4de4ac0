/** The highlights of a computed plan select the matched characters and the event numbers (src/plan.rs, src/layout.rs). */
module PlanHighlights {
  import opened Bytes
  import opened Lossy
  import opened Spans
  import opened Geometry
  import opened Grid
  import opened Offsets
  import opened ListingFacts
  import opened HighlightFacts
  import opened Layout
  import opened Records
  import opened Matching
  import opened Pipeline
  import opened CellTexts

  // ---- the span of a hit, in the text the cell shows ----

  /**
   Blanking control bytes moves no character, so the span found in the raw candidate holds, in the text a cell
   shows, the characters that begin inside the matched bytes; between boundaries those are the matched bytes' own.
   */
  lemma HitSpanReads(q: Query, fuzzy: Fuzzy, raw: Bytes)
    requires q.bytes != [] && Classify(q, fuzzy, raw).Some? && !Classify(q, fuzzy, raw).value.FuzzyHit?
    ensures var hit := Classify(q, fuzzy, raw).value;
            var (from, to) := MatchedBytes(q, raw, hit);
            var shown := Normalize(raw);
            && 0 <= from <= to <= |shown|
            && SpansOfHit(q, fuzzy, raw, hit) == [RawSpan(StartsBefore(shown, from), StartsBefore(shown, to))]
            && StartsBefore(shown, from) <= StartsBefore(shown, to) <= Count(shown)
            && (Boundary(raw, from) && Boundary(raw, to) ==>
                  Chars(shown)[StartsBefore(shown, from)..StartsBefore(shown, to)] == Chars(shown[from..to]))
  {
    hide Classify, StartsBefore, Boundary, Chars, MatchedBytes, SpansOfHit, SameShape;
    var hit := Classify(q, fuzzy, raw).value;
    HitSpansHold(q, fuzzy, raw);
    var (from, to) := MatchedBytes(q, raw, hit);
    var shown := Normalize(raw);
    SameShapeReads(raw, shown, from);
    SameShapeReads(raw, shown, to);
    CountOfPrefix(shown, from);
    CountOfPrefix(shown, to);
    StartsMonotone(raw, from, to);
    if Boundary(raw, from) && Boundary(raw, to) {
      CharsBetween(shown, from, to);
    }
  }

  // ---- the rows of a plan ----

  lemma {:induction false} ListingSnoc(rows: seq<Bytes>, last: Bytes)
    requires rows != []
    ensures Listing(rows + [last]) == Listing(rows) + ([NEWLINE] + last)
  {
    if |rows| > 1 {
      assert (rows + [last])[1..] == rows[1..] + [last];
      ListingSnoc(rows[1..], last);
      var rest := Listing(rows[1..]);
      assert rows[0] + [NEWLINE] + (rest + ([NEWLINE] + last)) == rows[0] + [NEWLINE] + rest + ([NEWLINE] + last);
    } else {
      assert (rows + [last])[1..] == [last] && Join([last], NEWLINE) == last;
      assert rows[0] + [NEWLINE] + last == rows[0] + ([NEWLINE] + last);
    }
  }

  /** A last row changes nothing that is selected before it. */
  lemma ListingGrows(rows: seq<Bytes>, last: Bytes)
    ensures Chars(Listing(rows)) <= Chars(Listing(rows + [last]))
  {
    if rows == [] {
      assert Listing(rows) == [];
    } else {
      ListingSnoc(rows, last);
      hide Chars, Listing;
      CharsConcat(Listing(rows), [NEWLINE] + last);
    }
  }

  /** The plan shows this placement, with at most an indicator row behind it. */
  ghost predicate DrawnAs(plan: Plan, scene: Scene, spans: seq<seq<CharSpan>>, gs: seq<GroupGeometry>) {
    && Drawable(scene, gs)
    && var grid := GridOf(scene, gs);
       && plan.highlights == HighlightsOf(scene, spans, gs)
       && plan.cellRanges == RangesOf(scene, gs) && plan.positions == grid.positions
       && (plan.rows == grid.rows || (plan.rows != [] && plan.rows[..|plan.rows| - 1] == grid.rows))
  }

  ghost function GridText(scene: Scene, gs: seq<GroupGeometry>): Bytes
    requires Drawable(scene, gs)
  {
    Listing(GridOf(scene, gs).rows)
  }

  lemma DrawnIs(plan: Plan, scene: Scene, spans: seq<seq<CharSpan>>, gs: seq<GroupGeometry>)
    requires DrawnAs(plan, scene, spans, gs)
    ensures Drawable(scene, gs)
    ensures plan.highlights == HighlightsOf(scene, spans, gs) && plan.cellRanges == RangesOf(scene, gs)
    ensures plan.positions == GridOf(scene, gs).positions
  {
    hide GridOf, HighlightsOf, RangesOf, Drawable;
  }

  lemma DrawnListing(plan: Plan, scene: Scene, spans: seq<seq<CharSpan>>, gs: seq<GroupGeometry>)
    requires DrawnAs(plan, scene, spans, gs)
    ensures Drawable(scene, gs) && Chars(GridText(scene, gs)) <= Chars(Listing(plan.rows))
  {
    hide Chars, Listing, GridOf, HighlightsOf, RangesOf, Drawable;
    DrawableIs(scene, gs);
    if plan.rows != GridOf(scene, gs).rows {
      var n := |plan.rows| - 1;
      ListingGrows(plan.rows[..n], plan.rows[n]);
      assert plan.rows[..n] + [plan.rows[n]] == plan.rows;
    }
  }

  lemma BuildDraws(wd: Widths, c: Content, o: Options) returns (gs: seq<GroupGeometry>)
    requires c.Valid(wd) && o.width <= USIZE_MAX
    ensures DrawnAs(BuildPlan(wd, c, o), SceneOf(wd, c, o.width, o.style), c.spans, gs)
  {
    var scene := SceneOf(wd, c, o.width, o.style);
    SceneIsValid(wd, c, o.width, o.style);
    WindowIsFitted(scene, o.rowBudget, 0);
    gs := BuildGroups(scene, o);
    hide GridOf, HighlightsOf, RangesOf, Navigations, Window, SceneOf;
  }

  lemma CompletionDraws(wd: Widths, c: Content, o: Options, offset: nat, selected: nat) returns (gs: seq<GroupGeometry>)
    requires c.Valid(wd) && o.width <= USIZE_MAX
    ensures DrawnAs(CompletionPlan(wd, c, o, offset, selected), CompletionScene(wd, c, o), c.spans, gs)
  {
    CompletionFits(wd, c, o, offset, selected);
    gs := CompletionGroups(c, o, offset, selected);
    hide GridOf, HighlightsOf, RangesOf, Navigations, CompletionSlide, CompletionGroups, CompletionScene, Indicators,
         Drawable;
    assert forall rows: seq<Bytes>, last: Bytes :: (rows + [last])[..|rows + [last]| - 1] == rows;
  }

  // ---- the highlights of a plan ----

  /** Candidates in the order the plan's positions name them, and their spans. */
  function ShownCandidates(env: Env, p: Params, s: Source): (cs: seq<Candidate>)
    requires Indexed(s)
    ensures |cs| == |ShownMatches(env, p, s).0|
  {
    ShownIndexes(env, p, s);
    CandidatesOf(s, ShownMatches(env, p, s).0)
  }

  /** The spans of their hits. */
  function ShownSpans(env: Env, p: Params, s: Source): (spans: seq<seq<CharSpan>>)
    requires Indexed(s)
    ensures |spans| == |ShownCandidates(env, p, s)|
  {
    hide ShownMatches, SpansOfHit, Candidate.MatchText, NewQuery;
    var cs, shown := ShownCandidates(env, p, s), ShownMatches(env, p, s).0;
    var q := NewQuery(p.query, p.mode, p.smartCase, env.isUpper);
    seq(|cs|, i requires 0 <= i < |cs| => SpansOfHit(q, env.fuzzy, cs[i].MatchText(), shown[i].hit))
  }

  /** The cell's match offset for a candidate without display text. */
  function MatchStart(c: Candidate, width: nat): nat { if c.n.Some? then width + 2 else 0 }

  /** How many characters of the match text the cell at this range shows. */
  function Visible(cs: seq<Candidate>, i: nat, range: CharSpan): nat
    requires i < |cs|
  {
    Minus(range.Len(), MatchStart(cs[i], NumberWidth(cs)))
  }

  /** The selection is the part of `span` within the first `visible` characters of the text. */
  ghost predicate ShowsMatch(listing: Bytes, at: CharSpan, visible: nat, text: Bytes, span: CharSpan) {
    var from, to := Min(span.start, visible), Min(span.end, visible);
    && from < to <= Count(text) && at.end <= Count(listing)
    && Chars(listing)[at.start..at.end] == Chars(text)[from..to]
  }

  ghost predicate ShowsSomeMatch(listing: Bytes, at: CharSpan, visible: nat, text: Bytes, spans: seq<CharSpan>) {
    exists k :: 0 <= k < |spans| && ShowsMatch(listing, at, visible, text, spans[k])
  }

  lemma PartIsMatch(
    grid: Bytes, listing: Bytes, at: CharSpan, range: CharSpan, text: Bytes, offset: nat, content: Bytes, span: CharSpan)
    requires ShowsPart(grid, at, range, text, offset, span) && ReadsFrom(text, offset, content)
    requires Chars(grid) <= Chars(listing)
    ensures ShowsMatch(listing, at, Minus(range.Len(), offset), content, span)
  {
    hide Chars;
    var visible := Minus(range.Len(), offset);
    var from, to := Min(span.start, visible), Min(span.end, visible);
    SliceOfTail(Chars(text), offset, from, to);
    SliceOfFront(Chars(grid), Chars(listing), at.start, at.end);
  }

  lemma SliceOfTail<T>(s: seq<T>, offset: nat, from: nat, to: nat)
    requires from <= to && offset + to <= |s|
    ensures s[offset..][from..to] == s[offset + from..offset + to]
  {
  }

  lemma SliceOfFront<T>(front: seq<T>, whole: seq<T>, from: nat, to: nat)
    requires front <= whole && from <= to <= |front|
    ensures front[from..to] == whole[from..to]
  {
  }

  /** A group is as wide as the widest of its members. */
  ghost predicate WidestHeld(scene: Scene, group: Groups.Group) {
    forall m :: m in group.members ==>
      m < |scene.sources| && DisplayWidth(scene.wd, scene.sources[m].text) <= group.maxWidth
  }

  ghost predicate HoldsWidest(scene: Scene) {
    forall g :: 0 <= g < |scene.groups| ==> WidestHeld(scene, scene.groups[g])
  }

  lemma SceneHoldsWidest(wd: Widths, c: Content, width: nat, style: Style)
    requires c.Valid(wd)
    ensures HoldsWidest(SceneOf(wd, c, width, style))
  {
    hide Groups.Grouped, DisplayWidth;
    var scene := SceneOf(wd, c, width, style);
    forall g | 0 <= g < |scene.groups|
      ensures WidestHeld(scene, scene.groups[g])
    {
      Groups.GroupsPartition(c.keyed, g);
      forall m | m in scene.groups[g].members
        ensures m < |scene.sources| && DisplayWidth(scene.wd, scene.sources[m].text) <= scene.groups[g].maxWidth
      {
        assert m < |c.keyed| && c.keyed[m].width == DisplayWidth(wd, c.sources[m].text);
      }
    }
  }

  /** Which placement a computed plan draws, and what its candidates are. */
  lemma PlanDraws(env: Env, p: Params, s: Source, selected: nat)
    returns (scene: Scene, spans: seq<seq<CharSpan>>, gs: seq<GroupGeometry>)
    requires Indexed(s) && p.width <= USIZE_MAX
    ensures DrawnAs(PlanOf(env, p, s, selected), scene, spans, gs)
    ensures scene.sources == CellSources(ShownCandidates(env, p, s))
    ensures scene.wd == env.wd && scene.width == p.width && HoldsWidest(scene)
    ensures spans == ShownSpans(env, p, s)
  {
    ShownIndexes(env, p, s);
    var (shown, morePrev, moreNext) := ShownMatches(env, p, s);
    var c, o := ContentOf(env, p, s, shown), OptionsOf(p, morePrev, moreNext);
    spans := c.spans;
    SceneHoldsWidest(env.wd, c, o.width, if p.producer.Compsys? then Geometry.Style.Grid else o.style);
    hide ShownMatches, CompletionPlan, BuildPlan, DrawnAs, SpansOfHit, Classify, CellSourceOf, GroupKey, HeadingText,
         NumberWidth, DisplayWidth, NewQuery, Groups.Grouped, HoldsWidest;
    if p.producer.Compsys? {
      scene := CompletionScene(env.wd, c, o);
      gs := CompletionDraws(env.wd, c, o, p.offset, selected);
    } else {
      scene := SceneOf(env.wd, c, o.width, o.style);
      gs := BuildDraws(env.wd, c, o);
    }
  }

  ghost predicate Positioned(plan: Plan, candidates: nat, pos: nat) {
    1 <= pos <= |plan.positions| == |plan.cellRanges| && plan.positions[pos - 1] < candidates
  }

  /** What any highlight of a cell selects in the text of the cell, when `grid` is what the plan's grid reads as. */
  ghost predicate CellSelected(grid: Bytes, cs: seq<Candidate>, spans: seq<seq<CharSpan>>, plan: Plan, h: Highlight)
    requires |spans| == |cs|
  {
    && Positioned(plan, |cs|, h.pos)
    && var i := plan.positions[h.pos - 1];
       && NumberFits(cs[i], NumberWidth(cs))
       && Selects(grid, h, plan.cellRanges[h.pos - 1], CellSourceOf(cs[i], NumberWidth(cs)), spans[i])
  }

  lemma DrawnSelects(
    plan: Plan, scene: Scene, cs: seq<Candidate>, spans: seq<seq<CharSpan>>, gs: seq<GroupGeometry>, h: Highlight)
    requires DrawnAs(plan, scene, spans, gs) && scene.sources == CellSources(cs) && |spans| == |cs|
    requires h in plan.highlights && !h.role.Heading?
    ensures Drawable(scene, gs) && CellSelected(GridText(scene, gs), cs, spans, plan, h)
  {
    hide *;
    DrawnIs(plan, scene, spans, gs);
    HighlightIffSelects(scene, spans, gs, h);
    DrawnAt(plan, scene, spans, gs, h);
    AtIsSelected(GridText(scene, gs), cs, spans, plan, h);
  }

  lemma DrawnAt(plan: Plan, scene: Scene, spans: seq<seq<CharSpan>>, gs: seq<GroupGeometry>, h: Highlight)
    requires DrawnAs(plan, scene, spans, gs) && Drawable(scene, gs) && SelectsAtPosition(scene, spans, gs, h)
    ensures SelectsAt(GridText(scene, gs), plan.positions, plan.cellRanges, scene.sources, spans, h)
  {
    hide GridOf, HighlightsOf, RangesOf, Drawable, Listing, SelectsAt;
  }

  lemma AtIsSelected(grid: Bytes, cs: seq<Candidate>, spans: seq<seq<CharSpan>>, plan: Plan, h: Highlight)
    requires |spans| == |cs| && SelectsAt(grid, plan.positions, plan.cellRanges, CellSources(cs), spans, h)
    ensures CellSelected(grid, cs, spans, plan, h)
  {
    hide Selects, NumberFits, NumberWidth, CellSourceOf;
    NumbersFit(cs, plan.positions[h.pos - 1]);
  }

  lemma SelectsMatch(
    c: Candidate, width: nat, grid: Bytes, listing: Bytes, h: Highlight, range: CharSpan, spans: seq<CharSpan>)
    requires NumberFits(c, width) && h.role.Match? && Selects(grid, h, range, CellSourceOf(c, width), spans)
    requires Chars(grid) <= Chars(listing)
    ensures c.d.None?
    ensures PlainNumber(c) ==>
              ShowsSomeMatch(listing, h.span, Minus(range.Len(), MatchStart(c, width)), Normalize(c.MatchText()), spans)
  {
    hide Chars, ShowsPart, ShowsMatch, ReadsFrom, PlainNumber, NumberFits, Candidate.MatchText, Normalize;
    MatchOffsetIff(c, width);
    var source := CellSourceOf(c, width);
    if PlainNumber(c) {
      var k :| 0 <= k < |spans| && ShowsPart(grid, h.span, range, source.text, source.matchOffset.value, spans[k]);
      PartIsMatch(grid, listing, h.span, range, source.text, source.matchOffset.value, Normalize(c.MatchText()), spans[k]);
    }
  }

  /**
   The highlight stands at a candidate without display text. If the candidate's number is plain, as it is when
   there is none, it selects in the joined rows the visible part, in the characters of the match text, of one
   of the candidate's match spans.
   */
  ghost predicate MatchSelected(cs: seq<Candidate>, spans: seq<seq<CharSpan>>, plan: Plan, h: Highlight)
    requires |spans| == |cs|
  {
    && Positioned(plan, |cs|, h.pos)
    && var i := plan.positions[h.pos - 1];
       && cs[i].d.None?
       && (PlainNumber(cs[i]) ==>
             ShowsSomeMatch(Listing(plan.rows), h.span, Visible(cs, i, plan.cellRanges[h.pos - 1]),
                            Normalize(cs[i].MatchText()), spans[i]))
  }

  lemma CellMatchSelected(grid: Bytes, cs: seq<Candidate>, spans: seq<seq<CharSpan>>, plan: Plan, h: Highlight)
    requires |spans| == |cs| && CellSelected(grid, cs, spans, plan, h) && h.role.Match?
    requires Chars(grid) <= Chars(Listing(plan.rows))
    ensures MatchSelected(cs, spans, plan, h)
  {
    hide Selects, Chars, Listing, NumberFits, NumberWidth, PlainNumber, ShowsSomeMatch, MatchStart, Normalize,
         Candidate.MatchText;
    var i := plan.positions[h.pos - 1];
    SelectsMatch(cs[i], NumberWidth(cs), grid, Listing(plan.rows), h, plan.cellRanges[h.pos - 1], spans[i]);
  }

  /** Every match highlight of a computed plan selects matched characters. */
  lemma MatchHighlightsSelect(env: Env, p: Params, s: Source, selected: nat, h: Highlight)
    requires Indexed(s) && p.width <= USIZE_MAX
    requires h in PlanOf(env, p, s, selected).highlights && h.role.Match?
    ensures MatchSelected(ShownCandidates(env, p, s), ShownSpans(env, p, s), PlanOf(env, p, s, selected), h)
  {
    hide *;
    var plan, cs := PlanOf(env, p, s, selected), ShownCandidates(env, p, s);
    var scene, spans, gs := PlanDraws(env, p, s, selected);
    DrawnListing(plan, scene, spans, gs);
    DrawnSelects(plan, scene, cs, spans, gs, h);
    CellMatchSelected(GridText(scene, gs), cs, spans, plan, h);
  }

  /** Part `span` of the match text is visible in the cell at this range. */
  ghost predicate SomeVisible(span: CharSpan, visible: nat) { Min(span.start, visible) < Min(span.end, visible) }

  lemma VisibleSpanShows(
    c: Candidate, width: nat, grid: Bytes, listing: Bytes, range: CharSpan, span: CharSpan, pos: nat)
    returns (h: Highlight)
    requires NumberFits(c, width) && c.d.None? && ShowsFront(grid, range, CellSourceOf(c, width).text)
    requires SomeVisible(span, Minus(range.Len(), MatchStart(c, width))) && Chars(grid) <= Chars(listing)
    ensures h.role.Match? && h.pos == pos
    ensures Marks(h, span, Minus(range.Len(), MatchStart(c, width)), range.start + MatchStart(c, width))
    ensures CellSourceOf(c, width).matchOffset == Some(MatchStart(c, width))
    ensures PlainNumber(c) ==>
              ShowsMatch(listing, h.span, Minus(range.Len(), MatchStart(c, width)), Normalize(c.MatchText()), span)
  {
    hide Chars, ShowsFront, ShowsPart, ShowsMatch, ReadsFrom, PlainNumber, NumberFits, Candidate.MatchText, Normalize;
    MatchOffsetIff(c, width);
    var offset := MatchStart(c, width);
    var visible, shift := Minus(range.Len(), offset), range.start + offset;
    h := Highlight(Match, pos, RawSpan(shift + Min(span.start, visible), shift + Min(span.end, visible)));
    FrontPart(grid, h, range, CellSourceOf(c, width).text, offset, span);
    if PlainNumber(c) {
      PartIsMatch(grid, listing, h.span, range, CellSourceOf(c, width).text, offset, Normalize(c.MatchText()), span);
    }
  }

  /** Span `k` of the candidate at this position has a part the cell shows. */
  ghost predicate ShownSpan(cs: seq<Candidate>, spans: seq<seq<CharSpan>>, plan: Plan, pos: nat, k: nat)
    requires |spans| == |cs|
  {
    && Positioned(plan, |cs|, pos)
    && var i := plan.positions[pos - 1];
       && cs[i].d.None? && k < |spans[i]| && SomeVisible(spans[i][k], Visible(cs, i, plan.cellRanges[pos - 1]))
  }

  /** The highlight is that of span `k`, and selects its visible part when the number is plain. */
  ghost predicate SpanSelected(cs: seq<Candidate>, spans: seq<seq<CharSpan>>, plan: Plan, k: nat, h: Highlight)
    requires |spans| == |cs| && ShownSpan(cs, spans, plan, h.pos, k)
  {
    var i := plan.positions[h.pos - 1];
    PlainNumber(cs[i]) ==>
      ShowsMatch(Listing(plan.rows), h.span, Visible(cs, i, plan.cellRanges[h.pos - 1]),
                 Normalize(cs[i].MatchText()), spans[i][k])
  }

  lemma ShownSpanIsHighlighted(
    plan: Plan, scene: Scene, cs: seq<Candidate>, spans: seq<seq<CharSpan>>, gs: seq<GroupGeometry>, pos: nat, k: nat)
    returns (h: Highlight)
    requires DrawnAs(plan, scene, spans, gs) && scene.sources == CellSources(cs) && |spans| == |cs|
    requires ShownSpan(cs, spans, plan, pos, k)
    ensures h in plan.highlights && h.role.Match? && h.pos == pos && SpanSelected(cs, spans, plan, k, h)
  {
    hide DrawnAs, GridText, SomeVisible, ShowsMatch, ShowsFront, Normalize, Candidate.MatchText, Listing, Chars,
         NumberWidth, NumberFits, CellSourceOf, PlainNumber, Marks, MatchStart, Drawable;
    var i, range := plan.positions[pos - 1], plan.cellRanges[pos - 1];
    NumbersFit(cs, i);
    DrawnListing(plan, scene, spans, gs);
    DrawnPosition(plan, scene, spans, gs, pos);
    h := VisibleSpanShows(cs[i], NumberWidth(cs), GridText(scene, gs), Listing(plan.rows), range, spans[i][k], pos);
    DrawnHighlight(plan, scene, spans, gs, h, k);
  }

  /** Every match span with a visible part is highlighted. */
  lemma VisibleMatchesAreHighlighted(env: Env, p: Params, s: Source, selected: nat, pos: nat, k: nat)
    returns (h: Highlight)
    requires Indexed(s) && p.width <= USIZE_MAX
    requires ShownSpan(ShownCandidates(env, p, s), ShownSpans(env, p, s), PlanOf(env, p, s, selected), pos, k)
    ensures h in PlanOf(env, p, s, selected).highlights && h.role.Match? && h.pos == pos
    ensures SpanSelected(ShownCandidates(env, p, s), ShownSpans(env, p, s), PlanOf(env, p, s, selected), k, h)
  {
    hide *;
    var scene, spans, gs := PlanDraws(env, p, s, selected);
    h := ShownSpanIsHighlighted(PlanOf(env, p, s, selected), scene, ShownCandidates(env, p, s), spans, gs, pos, k);
  }

  lemma DrawnPosition(plan: Plan, scene: Scene, spans: seq<seq<CharSpan>>, gs: seq<GroupGeometry>, pos: nat)
    requires DrawnAs(plan, scene, spans, gs) && 1 <= pos <= |plan.positions|
    ensures |plan.positions| == |plan.cellRanges| && plan.positions[pos - 1] < |scene.sources|
    ensures Drawable(scene, gs)
    ensures ShowsFront(GridText(scene, gs), plan.cellRanges[pos - 1], scene.sources[plan.positions[pos - 1]].text)
  {
    hide GridOf, HighlightsOf, RangesOf, Drawable, Listing, ShowsFront;
    DrawableIs(scene, gs);
    PositionShowsFront(scene, gs, pos);
  }

  lemma DrawnHighlight(
    plan: Plan, scene: Scene, spans: seq<seq<CharSpan>>, gs: seq<GroupGeometry>, h: Highlight, k: nat)
    requires DrawnAs(plan, scene, spans, gs) && h.role.Match? && 1 <= h.pos <= |plan.positions| == |plan.cellRanges|
    requires plan.positions[h.pos - 1] < |scene.sources|
    requires var i, range := plan.positions[h.pos - 1], plan.cellRanges[h.pos - 1];
             var source := scene.sources[i];
             && source.matchOffset.Some? && k < |SpansOf(spans, i)|
             && Marks(h, SpansOf(spans, i)[k], Minus(range.Len(), source.matchOffset.value),
                      range.start + source.matchOffset.value)
    ensures h in plan.highlights
  {
    hide GridOf, HighlightsOf, RangesOf, Drawable, Marks;
    DrawableIs(scene, gs);
    VisibleIsHighlighted(scene, spans, gs, h, k);
  }

  /** The selection is a non-empty front of the number. */
  ghost predicate ShowsNumber(listing: Bytes, at: CharSpan, number: Bytes) {
    && 0 < at.Len() <= Count(number) && at.end <= Count(listing)
    && Chars(listing)[at.start..at.end] == Chars(number)[..at.Len()]
  }

  /** The highlight stands at a numbered candidate, and selects a front of the number when that is plain. */
  ghost predicate NumberSelected(cs: seq<Candidate>, plan: Plan, h: Highlight) {
    && Positioned(plan, |cs|, h.pos)
    && var c := cs[plan.positions[h.pos - 1]];
       c.n.Some? && (PlainNumber(c) ==> ShowsNumber(Listing(plan.rows), h.span, c.n.value))
  }

  lemma CellNumberSelected(grid: Bytes, cs: seq<Candidate>, spans: seq<seq<CharSpan>>, plan: Plan, h: Highlight)
    requires |spans| == |cs| && CellSelected(grid, cs, spans, plan, h) && h.role.HistoryNumber?
    requires Chars(grid) <= Chars(Listing(plan.rows))
    ensures NumberSelected(cs, plan, h)
  {
    hide Selects, Chars, Listing, NumberFits, NumberWidth, PlainNumber, ShowsNumber;
    var i := plan.positions[h.pos - 1];
    SelectsNumber(cs[i], NumberWidth(cs), grid, Listing(plan.rows), h, plan.cellRanges[h.pos - 1], spans[i]);
  }

  /** Every number highlight of a computed plan selects a number. */
  lemma NumberHighlightsSelect(env: Env, p: Params, s: Source, selected: nat, h: Highlight)
    requires Indexed(s) && p.width <= USIZE_MAX
    requires h in PlanOf(env, p, s, selected).highlights && h.role.HistoryNumber?
    ensures NumberSelected(ShownCandidates(env, p, s), PlanOf(env, p, s, selected), h)
  {
    hide *;
    var plan, cs := PlanOf(env, p, s, selected), ShownCandidates(env, p, s);
    var scene, spans, gs := PlanDraws(env, p, s, selected);
    DrawnListing(plan, scene, spans, gs);
    DrawnSelects(plan, scene, cs, spans, gs, h);
    CellNumberSelected(GridText(scene, gs), cs, spans, plan, h);
  }

  lemma SelectsNumber(
    c: Candidate, width: nat, grid: Bytes, listing: Bytes, h: Highlight, range: CharSpan, spans: seq<CharSpan>)
    requires NumberFits(c, width) && h.role.HistoryNumber? && Selects(grid, h, range, CellSourceOf(c, width), spans)
    requires Chars(grid) <= Chars(listing)
    ensures c.n.Some? && (PlainNumber(c) ==> ShowsNumber(listing, h.span, c.n.value))
  {
    hide Chars, ShowsPart, ShowsNumber, ReadsIn, PlainNumber, NumberFits, Candidate.MatchText, Normalize;
    NumberRangeIff(c, width);
    var source := CellSourceOf(c, width);
    if PlainNumber(c) {
      PartIsNumber(grid, listing, h.span, range, source.text, source.numberRange.value, c.n.value);
    }
  }

  lemma PartIsNumber(
    grid: Bytes, listing: Bytes, at: CharSpan, range: CharSpan, text: Bytes, span: CharSpan, number: Bytes)
    requires ShowsPart(grid, at, range, text, 0, span) && ReadsIn(text, span, number)
    requires Chars(grid) <= Chars(listing)
    ensures ShowsNumber(listing, at, number)
  {
    hide Chars;
    var to := Min(span.end, range.Len());
    assert at.Len() == to - span.start;
    assert Chars(text)[span.start..span.end][..to - span.start] == Chars(text)[span.start..to];
    SliceOfFront(Chars(grid), Chars(listing), at.start, at.end);
  }
}
