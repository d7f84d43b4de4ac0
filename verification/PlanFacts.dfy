/** What every layout plan promises the wire: NUL-free rows, and offsets and targets inside their ranges. */
module PlanFacts {
  import opened Bytes
  import opened Decimals
  import opened Lossy
  import opened Spans
  import opened Groups
  import opened Geometry
  import opened Completion
  import opened Grid
  import opened GridFacts
  import opened Offsets
  import opened ListingFacts
  import opened Layout
  import opened Wire
  import opened WireFacts

  // ---- no NUL byte gets into a row ----

  /** Every cell text is free of NUL bytes. */
  ghost predicate NulFree(sources: seq<CellSource>) {
    forall i :: 0 <= i < |sources| ==> Free(sources[i].text, NUL)
  }

  lemma FreeConcat(a: Bytes, b: Bytes, sep: byte)
    ensures Free(a + b, sep) <==> Free(a, sep) && Free(b, sep)
  {
  }

  lemma FreePrefix(s: Bytes, n: nat, sep: byte)
    requires n <= |s| && Free(s, sep)
    ensures Free(s[..n], sep)
  {
  }

  lemma NormalizedFree(s: Bytes)
    ensures Free(Normalize(s), NUL)
  {
  }

  lemma SpacesFree(n: nat)
    ensures Free(Repeat(SPACE, n), NUL)
  {
  }

  lemma {:induction false} RowTextFree(cells: seq<Cell>, column: nat)
    requires forall j :: 0 <= j < |cells| ==> Free(cells[j].cut.content, NUL)
    ensures Free(RowText(cells, column), NUL)
  {
    if cells != [] {
      hide Free, Repeat;
      var front, last := cells[..|cells| - 1], cells[|cells| - 1].cut;
      RowTextFree(front, column);
      SpacesFree(Gutter(cells));
      SpacesFree(Minus(column, last.width));
      FreeConcat(RowText(front, column), Repeat(SPACE, Gutter(cells)), NUL);
      FreeConcat(RowText(front, column) + Repeat(SPACE, Gutter(cells)), last.content, NUL);
      FreeConcat(RowText(front, column) + Repeat(SPACE, Gutter(cells)) + last.content,
                 Repeat(SPACE, Minus(column, last.width)), NUL);
    }
  }

  lemma LineFree(scene: Scene, line: Line)
    requires LineShows(scene, line) && NulFree(scene.sources)
    ensures Free(LineText(line), NUL)
  {
    hide Truncate, RowText, Free, Normalize;
    match line
    case Title(title) =>
      var g :| 0 <= g < |scene.groups| && title == Truncate(scene.wd, Normalize(scene.groups[g].heading), scene.width);
      NormalizedFree(scene.groups[g].heading);
      FreePrefix(Normalize(scene.groups[g].heading), |title.content|, NUL);
    case Cells(cells, column) =>
      forall j | 0 <= j < |cells|
        ensures Free(cells[j].cut.content, NUL)
      {
        assert CellShows(scene, cells[j], column);
        FreePrefix(scene.sources[cells[j].candidate].text, |cells[j].cut.content|, NUL);
      }
      RowTextFree(cells, column);
  }

  lemma GridRowsFree(scene: Scene, gs: seq<GroupGeometry>)
    requires Drawable(scene, gs) && NulFree(scene.sources)
    ensures AllFree(GridOf(scene, gs).rows, NUL)
    ensures |GridOf(scene, gs).rows| == RowsOf(gs)
  {
    hide GridOf, Scene.Picture, LineText, LineShows, Free, NulFree, Texts, RowsOf;
    GridParts(scene, gs);
    PictureShows(scene, gs, 1);
    var lines := scene.Picture(gs, 1);
    forall k | 0 <= k < |lines|
      ensures Free(Texts(lines)[k], NUL)
    {
      TextAt(lines, k);
      LineFree(scene, lines[k]);
    }
  }

  // ---- what a grid plan promises the wire ----

  ghost predicate FitsListing(plan: Plan, chars: nat) {
    && (forall i :: 0 <= i < |plan.highlights| ==>
          plan.highlights[i].pos <= |plan.positions| && plan.highlights[i].span.end <= chars)
    && (forall i :: 0 <= i < |plan.cellRanges| ==> plan.cellRanges[i].end <= chars)
    && (forall i :: 0 <= i < |plan.nav| ==> NavigationFits(plan.nav[i], |plan.positions|))
    && |plan.cellRanges| == |plan.nav| == |plan.positions|
  }

  lemma RangesFit(scene: Scene, gs: seq<GroupGeometry>)
    requires Drawable(scene, gs)
    ensures |RangesOf(scene, gs)| == |GridOf(scene, gs).positions|
    ensures forall i :: 0 <= i < |RangesOf(scene, gs)| ==>
              RangesOf(scene, gs)[i].end <= Count(Listing(GridOf(scene, gs).rows))
  {
    hide GridOf, RangesOf, Listing, Count, Sound, Fitted;
    forall i | 0 <= i < |RangesOf(scene, gs)|
      ensures RangesOf(scene, gs)[i].end <= Count(Listing(GridOf(scene, gs).rows))
    {
      CellsReadBack(scene, gs, i + 1);
    }
  }

  lemma RowRangeFits(rows: seq<Bytes>, h: Highlight)
    requires OfRow(h, Counts(rows))
    ensures h.span.end <= Count(Listing(rows))
  {
    hide RowStart, Listing, Chars;
    var k :| 0 <= k < |Counts(rows)| && h.pos == 0
      && h.span == Span(RowStart(Counts(rows), k), RowStart(Counts(rows), k) + Counts(rows)[k]);
    ListingRow(rows, k);
  }

  lemma HighlightFits(scene: Scene, gs: seq<GroupGeometry>, h: Highlight)
    requires Drawable(scene, gs) && MarksInBounds(scene.sources, GridOf(scene, gs)) && HighlightPlaced(scene, gs, h)
    ensures h.pos <= |GridOf(scene, gs).positions| && h.span.end <= Count(Listing(GridOf(scene, gs).rows))
  {
    hide GridOf, Ranges, Listing, Count, OfRow, Counts;
    RowLensAreCounts(scene, gs);
    if h.pos == 0 {
      RowRangeFits(GridOf(scene, gs).rows, h);
    } else {
      RangesFit(scene, gs);
    }
  }

  lemma {:induction false} BoundsHold(gs: seq<GroupGeometry>, startPos: nat)
    requires startPos >= 1 && forall i :: 0 <= i < |gs| ==> gs[i].count >= 1
    ensures |BoundsOf(gs, startPos)| == Shown(gs)
    ensures forall i :: 0 <= i < |BoundsOf(gs, startPos)| ==>
              var b := BoundsOf(gs, startPos)[i];
              startPos <= b.start <= startPos + i <= b.end < startPos + Shown(gs)
  {
    if gs != [] {
      BoundsHold(gs[1..], startPos + gs[0].count);
    }
  }

  lemma NavigationsFit(gs: seq<GroupGeometry>, morePrev: bool, moreNext: bool)
    requires forall i :: 0 <= i < |gs| ==> gs[i].count >= 1
    ensures |BoundsOf(gs, 1)| == Shown(gs)
    ensures forall i :: 0 <= i < Shown(gs) ==>
              NavigationFits(Navigations(BoundsOf(gs, 1), Shown(gs), morePrev, moreNext)[i], Shown(gs))
  {
    hide BoundsOf, Shown;
    BoundsHold(gs, 1);
  }

  lemma CountsPositive(scene: Scene, gs: seq<GroupGeometry>)
    requires scene.Covers(gs)
    ensures forall i :: 0 <= i < |gs| ==> gs[i].count >= 1
  {
    forall i | 0 <= i < |gs|
      ensures gs[i].count >= 1
    {
      assert SoundOne(scene.groups, gs[i]);
    }
  }

  lemma GridPlanFits(
    scene: Scene, spans: seq<seq<CharSpan>>, gs: seq<GroupGeometry>, morePrev: bool, moreNext: bool)
    requires Drawable(scene, gs)
    ensures FitsListing(GridPlan(scene, spans, gs, morePrev, moreNext), Count(Listing(GridOf(scene, gs).rows)))
  {
    hide GridOf, Listing, Count, HighlightsOf, RangesOf, Navigations, BoundsOf, Shown, HighlightPlaced, NavigationFits;
    GridParts(scene, gs);
    BoundsAre(scene, gs);
    CountsPositive(scene, gs);
    NavigationsFit(gs, morePrev, moreNext);
    RangesFit(scene, gs);
    HighlightsPlaced(scene, spans, gs);
    forall i | 0 <= i < |HighlightsOf(scene, spans, gs)|
      ensures HighlightsOf(scene, spans, gs)[i].pos <= |GridOf(scene, gs).positions|
      ensures HighlightsOf(scene, spans, gs)[i].span.end <= Count(Listing(GridOf(scene, gs).rows))
    {
      HighlightFits(scene, gs, HighlightsOf(scene, spans, gs)[i]);
    }
  }

  // ---- indicator lines ----

  /** An indicator keeps at least its first digit, and holds only digits and slashes. */
  lemma IndicatorIsLine(wd: Widths, width: nat, n: nat, total: nat)
    requires AsciiWidths(wd) && width >= 1
    ensures IndicatorLine(Truncate(wd, IndicatorText(n, total), width).content)
    ensures Free(Truncate(wd, IndicatorText(n, total), width).content, NUL)
  {
    hide Digits;
    DigitsDenote(n);
    DigitsDenote(total);
    var s := IndicatorText(n, total);
    assert forall i :: 0 <= i < |s| ==> IsDigit(s[i]) || s[i] == SLASH;
    assert s[0] == Digits(n)[0];
    AsciiTextKept(wd, s, width);
  }

  lemma AsciiTextKept(wd: Widths, s: Bytes, width: nat)
    requires AsciiWidths(wd) && width >= 1 && s != [] && 32 <= s[0] <= 126
    ensures Truncate(wd, s, width).content != []
  {
    assert UnitLen(s) == 1 && s[..1] == [s[0]];
    assert First(s) == Scalar([s[0]]);
    assert wd(First(s)) == 1;
  }

  lemma IndicatorLines(wd: Widths, width: nat, offset: nat, total: nat, count: nat)
    requires AsciiWidths(wd) && width >= 1
    ensures var r := Indicators(wd, width, offset, total, count);
            && r[0] == [] && AllFree(r, NUL)
            && forall p :: 1 <= p <= count ==> IndicatorLine(r[p])
  {
    hide Truncate, IndicatorText, IndicatorLine;
    var r := Indicators(wd, width, offset, total, count);
    forall p | 0 <= p <= count
      ensures (p > 0 ==> IndicatorLine(r[p])) && Free(r[p], NUL)
    {
      if p > 0 {
        IndicatorIsLine(wd, width, offset + p, total);
      }
    }
  }

  // ---- ready for the wire ----

  function CellRowsOfPlan(plan: Plan): seq<Bytes> {
    if plan.indicators == [] || plan.rows == [] then plan.rows else plan.rows[..|plan.rows| - 1]
  }

  ghost predicate PlanReady(plan: Plan) {
    && AllFree(plan.rows, NUL)
    && FitsListing(plan, Count(Listing(CellRowsOfPlan(plan))))
    && (plan.window.Some? ==> WindowFits(plan.window.value, |plan.positions|, |plan.rows|))
    && IndicatorsFit(plan.indicators, plan.window, |plan.positions|, |plan.rows|)
    && (plan.indicators != [] ==> plan.rows[|plan.rows| - 1] == plan.indicators[plan.window.value.selected])
  }

  lemma BuildPlanReady(wd: Widths, c: Content, o: Options)
    requires c.Valid(wd) && o.width <= USIZE_MAX && NulFree(c.sources)
    ensures PlanReady(BuildPlan(wd, c, o))
  {
    hide GridOf, Listing, Count, HighlightsOf, RangesOf, Navigations, FitsListing, BuildGroups, Fitted, Sound, AllFree;
    var scene := SceneOf(wd, c, o.width, o.style);
    SceneIsValid(wd, c, o.width, o.style);
    WindowIsFitted(scene, o.rowBudget, 0);
    var gs := BuildGroups(scene, o);
    BuildGroupsDrawable(scene, o);
    GridPlanFits(scene, c.spans, gs, o.morePrev, o.moreNext);
    GridRowsFree(scene, gs);
  }

  lemma BuildGroupsDrawable(scene: Scene, o: Options)
    requires scene.Valid() && o.width == scene.width <= USIZE_MAX && o.style == scene.style
    ensures Drawable(scene, BuildGroups(scene, o))
  {
    WindowIsFitted(scene, o.rowBudget, 0);
  }

  /** The numbers of a completion window and the rows it needs. */
  lemma CompletionRows(wd: Widths, c: Content, o: Options, offset: nat, selected: nat)
    requires c.Valid(wd) && o.width <= USIZE_MAX
    ensures var slide := CompletionSlide(c, o, offset, selected);
            var gs := CompletionGroups(c, o, offset, selected);
            var count := Geometry.Shown(gs);
            && RowsOf(gs) <= slide.budget
            && (o.rowBudget >= 1 ==> RowsOf(gs) + (if slide.indicator then 1 else 0) <= o.rowBudget)
            && (slide.indicator ==> |c.keyed| > 0)
            && (count == 0 <==> |c.keyed| == 0) && (count == 0 ==> RowsOf(gs) == 0) && (count > 0 ==> RowsOf(gs) >= 1)
            && slide.offset + count <= |c.keyed|
            && Minus(slide.selected, slide.offset) <= count
            && (Minus(slide.selected, slide.offset) == 0 ==> slide.offset == 0)
  {
    hide Place, End, Flatten, LeastFrom;
    var groups := Grouped(c.keyed, |c.keyed|);
    SceneIsValid(wd, c, o.width, Geometry.Style.Grid);
    SlideShowsSelection(groups, |c.keyed|, o.rowBudget, o.width, offset, selected);
    var slide := CompletionSlide(c, o, offset, selected);
    var gs := CompletionGroups(c, o, offset, selected);
    EndIs(groups, slide.budget, o.width, slide.offset);
    PlaceSound(groups, o.width, MAX_COLS, 0, slide.offset, slide.budget, true);
    RowsAndCount(groups, gs);
  }

  lemma EndIs(groups: seq<Group>, budget: nat, width: nat, start: nat)
    ensures End(groups, budget, width, start) == start + Geometry.Shown(Window(groups, budget, width, Geometry.Style.Grid, start))
    ensures Window(groups, budget, width, Geometry.Style.Grid, start) == Place(groups, width, MAX_COLS, 0, start, budget, true)
  {
  }

  lemma RowsAndCount(groups: seq<Group>, gs: seq<GroupGeometry>)
    requires Sound(groups, gs)
    ensures gs == [] <==> Geometry.Shown(gs) == 0
    ensures gs == [] <==> RowsOf(gs) == 0
  {
    if gs != [] {
      assert SoundOne(groups, gs[0]);
    }
  }

  lemma CompletionPlanReady(wd: Widths, c: Content, o: Options, offset: nat, selected: nat)
    requires c.Valid(wd) && AsciiWidths(wd) && 1 <= o.width <= USIZE_MAX && NulFree(c.sources)
    ensures PlanReady(CompletionPlan(wd, c, o, offset, selected))
    ensures CompletionPlan(wd, c, o, offset, selected).window.Some?
    ensures CompletionPlan(wd, c, o, offset, selected).window.value.total == |c.keyed|
    ensures o.rowBudget >= 1 ==> |CompletionPlan(wd, c, o, offset, selected).rows| <= o.rowBudget
  {
    hide GridOf, Listing, Count, HighlightsOf, RangesOf, Navigations, FitsListing, CompletionGroups, CompletionSlide,
         CompletionScene, Drawable, AllFree, IndicatorsFit, PlanReady, Indicators;
    CompletionFits(wd, c, o, offset, selected);
    CompletionRows(wd, c, o, offset, selected);
    var scene := CompletionScene(wd, c, o);
    var slide := CompletionSlide(c, o, offset, selected);
    var gs := CompletionGroups(c, o, offset, selected);
    var count := Geometry.Shown(gs);
    SceneParts(wd, c, o);
    GridPlanFits(scene, c.spans, gs, false, slide.offset + count < |c.keyed|);
    GridRowsFree(scene, gs);
    var grid := GridPlan(scene, c.spans, gs, false, slide.offset + count < |c.keyed|);
    var plan := grid.(window := Some(WindowTuple(slide.offset, |c.keyed|, Minus(slide.selected, slide.offset))));
    SameFit(grid, plan, Count(Listing(plan.rows)));
    IndicatorPlanReady(wd, o.width, slide.indicator, plan);
  }

  lemma SceneParts(wd: Widths, c: Content, o: Options)
    ensures CompletionScene(wd, c, o).sources == c.sources
  {
  }

  /** Adding the indicator lines and row keeps a fitting plan ready for the wire. */
  lemma IndicatorPlanReady(wd: Widths, width: nat, indicator: bool, plan: Plan)
    requires AsciiWidths(wd) && width >= 1
    requires plan.indicators == [] && AllFree(plan.rows, NUL) && FitsListing(plan, Count(Listing(plan.rows)))
    requires plan.window.Some? && WindowFits(plan.window.value, |plan.positions|, |plan.rows|)
    requires indicator ==> plan.positions != [] && plan.rows != []
    ensures PlanReady(WithIndicator(wd, width, indicator, plan))
  {
    hide Listing, Count, FitsListing, Free, Indicators, IndicatorLine;
    if indicator {
      var w := plan.window.value;
      IndicatorLines(wd, width, w.offset, w.total, |plan.positions|);
      var lines := Indicators(wd, width, w.offset, w.total, |plan.positions|);
      var after := WithIndicator(wd, width, indicator, plan);
      assert after.rows[..|after.rows| - 1] == plan.rows;
      SameFit(plan, after, Count(Listing(plan.rows)));
    } else {
      NoIndicators(plan);
    }
  }

  lemma NoIndicators(plan: Plan)
    requires plan.indicators == [] && AllFree(plan.rows, NUL) && FitsListing(plan, Count(Listing(plan.rows)))
    requires plan.window.Some? ==> WindowFits(plan.window.value, |plan.positions|, |plan.rows|)
    ensures PlanReady(plan)
  {
  }

  lemma SameFit(a: Plan, b: Plan, chars: nat)
    requires b == a.(rows := b.rows, indicators := b.indicators, window := b.window) && FitsListing(a, chars)
    ensures FitsListing(b, chars)
  {
  }

  // ---- sizes ----

  lemma {:induction false} TerminatedLength(parts: seq<Bytes>, sep: byte)
    ensures |parts| <= |Terminated(parts, sep)|
    ensures |Join(parts, sep)| <= |Terminated(parts, sep)|
  {
    if parts != [] {
      TerminatedLength(parts[1..], sep);
      TerminatedIsJoin(parts, sep);
    }
  }

  /** The serialized length bounds every number a plan writes. */
  lemma OutputBounds(w: WirePlan)
    ensures |FieldsOf(w)| <= |SerializeWire(w)|
    ensures |Listing(w.rows)| <= |SerializeWire(w)|
  {
    hide Terminated, FieldsOf, Join;
    TerminatedLength(FieldsOf(w), NUL);
    FieldsAre(w);
    var rest := [Digits(|w.highlights|)] + HighlightFields(w.highlights) + CellFields(w.cells)
                + NavigationFields(w.navigation) + w.inserts + [WindowField(w.window), Join(w.indicators, NEWLINE)];
    var head := [w.commonPrefix, Digits(|w.rows|), Digits(|w.inserts|)];
    assert FieldsOf(w) == head + w.rows + rest;
    TerminatedConcat(head + w.rows, rest, NUL);
    TerminatedConcat(head, w.rows, NUL);
    TerminatedLength(w.rows, NUL);
    JoinLength(w.rows);
  }

  lemma {:induction false} JoinLength(rows: seq<Bytes>)
    ensures |Join(rows, NEWLINE)| == |Join(rows, NUL)|
  {
    if rows != [] {
      JoinLength(rows[1..]);
    }
  }

  lemma {:induction false} ListingOfFront(rows: seq<Bytes>)
    requires rows != []
    ensures |Listing(rows[..|rows| - 1])| <= |Listing(rows)|
  {
    if |rows| > 1 {
      ListingOfFront(rows[1..]);
      assert rows[..|rows| - 1][1..] == rows[1..][..|rows| - 2];
    }
  }

  /** A ready plan, with NUL-free texts and an output a vector can hold, is well formed on the wire. */
  lemma ReadyIsWellFormed(commonPrefix: Bytes, plan: Plan, inserts: seq<Bytes>)
    requires PlanReady(plan) && |inserts| == |plan.positions|
    requires Free(commonPrefix, NUL) && AllFree(inserts, NUL)
    requires plan.window.Some? ==> plan.window.value.total <= I64_MAX
    requires |SerializeWire(WireOf(commonPrefix, plan, inserts))| <= I64_MAX
    ensures WellFormed(WireOf(commonPrefix, plan, inserts))
  {
    hide FieldsOf, SerializeWire, Listing, IndicatorsFit, Free, Chars;
    var w := WireOf(commonPrefix, plan, inserts);
    OutputBounds(w);
    assert CellRowsOf(w) == CellRowsOfPlan(plan);
    var chars := ListingChars(w);
    if w.indicators != [] && w.rows != [] {
      ListingOfFront(w.rows);
    }
    FieldSectionsLength(w);
    assert chars <= I64_MAX;
  }

  lemma FieldSectionsLength(w: WirePlan)
    requires |w.cells| == |w.navigation| == |w.inserts|
    ensures |FieldsOf(w)| == 6 + |w.rows| + |w.highlights| + |w.inserts| * 3
  {
    hide *;
    FieldSections(w);
  }
}
