/** The two plan builders: the history menu's `build` and the sliding `build_completion` (src/layout.rs). */
module Layout {
  import opened Bytes
  import opened Decimals
  import opened Lossy
  import opened Spans
  import opened Groups
  import opened Geometry
  import opened Completion
  import opened Grid
  import opened Offsets
  import opened ListingFacts

  datatype WindowTuple = WindowTuple(offset: nat, total: nat, selected: nat)

  datatype Plan = Plan(
    rows: seq<Bytes>, window: Option<WindowTuple>, indicators: seq<Bytes>, highlights: seq<Highlight>,
    cellRanges: seq<CharSpan>, nav: seq<Navigation>, positions: seq<nat>)

  datatype Options = Options(rowBudget: nat, width: nat, style: Style, morePrev: bool, moreNext: bool)

  const SLASH: byte := 47

  /** The plan of a rendered placement, before windows and indicators. */
  function GridPlan(scene: Scene, spans: seq<seq<CharSpan>>, gs: seq<GroupGeometry>, morePrev: bool, moreNext: bool): Plan
    requires Drawable(scene, gs)
  {
    BoundsLength(scene, gs, 1);
    var grid := GridOf(scene, gs);
    Plan(grid.rows, None, [], HighlightsOf(scene, spans, gs), RangesOf(scene, gs),
         Navigations(grid.bounds, |grid.positions|, morePrev, moreNext), grid.positions)
  }

  /** The window of a listing that starts at the front of the list. */
  function BuildGroups(scene: Scene, o: Options): seq<GroupGeometry> {
    Window(scene.groups, o.rowBudget, o.width, o.style, 0)
  }

  function BuildPlan(wd: Widths, c: Content, o: Options): Plan
    requires c.Valid(wd) && o.width <= USIZE_MAX
  {
    var scene := SceneOf(wd, c, o.width, o.style);
    SceneIsValid(wd, c, o.width, o.style);
    WindowIsFitted(scene, o.rowBudget, 0);
    GridPlan(scene, c.spans, BuildGroups(scene, o), o.morePrev, o.moreNext)
  }

  function IndicatorText(n: nat, total: nat): Bytes { Digits(n) + [SLASH] + Digits(total) }

  /** One indicator line per local selection, the first for no selection. */
  function Indicators(wd: Widths, width: nat, offset: nat, total: nat, count: nat): (r: seq<Bytes>)
    ensures |r| == count + 1
  {
    seq(count + 1, p requires 0 <= p <= count =>
      if p == 0 then [] else Truncate(wd, IndicatorText(offset + p, total), width).content)
  }

  function CompletionSlide(c: Content, o: Options, offset: nat, selected: nat): Slide {
    SlideOf(Grouped(c.keyed, |c.keyed|), |c.keyed|, o.rowBudget, o.width, offset, selected)
  }

  function CompletionGroups(c: Content, o: Options, offset: nat, selected: nat): seq<GroupGeometry> {
    var slide := CompletionSlide(c, o, offset, selected);
    Window(Grouped(c.keyed, |c.keyed|), slide.budget, o.width, Geometry.Style.Grid, slide.offset)
  }

  function CompletionScene(wd: Widths, c: Content, o: Options): Scene {
    SceneOf(wd, c, o.width, Geometry.Style.Grid)
  }

  function CompletionPlan(wd: Widths, c: Content, o: Options, offset: nat, selected: nat): Plan
    requires c.Valid(wd) && o.width <= USIZE_MAX
  {
    CompletionFits(wd, c, o, offset, selected);
    var scene := CompletionScene(wd, c, o);
    var slide := CompletionSlide(c, o, offset, selected);
    var gs := CompletionGroups(c, o, offset, selected);
    var plan := GridPlan(scene, c.spans, gs, false, slide.offset + Shown(gs) < |c.keyed|);
    var local := Minus(slide.selected, slide.offset);
    WithIndicator(wd, o.width, slide.indicator,
                  plan.(window := Some(WindowTuple(slide.offset, |c.keyed|, local))))
  }

  /** Adds the indicator lines, and the selected one as the last row. */
  function WithIndicator(wd: Widths, width: nat, indicator: bool, plan: Plan): Plan
    requires plan.window.Some? && plan.window.value.selected <= |plan.positions|
  {
    if !indicator then plan
    else
      var w := plan.window.value;
      var indicators := Indicators(wd, width, w.offset, w.total, |plan.positions|);
      plan.(indicators := indicators, rows := plan.rows + [indicators[w.selected]])
  }

  /** The completion window can be drawn, and its selection is one of its positions. */
  lemma CompletionFits(wd: Widths, c: Content, o: Options, offset: nat, selected: nat)
    requires c.Valid(wd) && o.width <= USIZE_MAX
    ensures var scene := CompletionScene(wd, c, o);
            var slide := CompletionSlide(c, o, offset, selected);
            var gs := CompletionGroups(c, o, offset, selected);
            && Drawable(scene, gs)
            && |GridOf(scene, gs).positions| == Shown(gs)
            && slide.offset + Shown(gs) <= |c.keyed|
            && Minus(slide.selected, slide.offset) <= Shown(gs)
  {
    var scene := CompletionScene(wd, c, o);
    var slide := CompletionSlide(c, o, offset, selected);
    SceneIsValid(wd, c, o.width, Geometry.Style.Grid);
    WindowIsFitted(scene, slide.budget, slide.offset);
    SlideShowsSelection(scene.groups, |c.keyed|, o.rowBudget, o.width, offset, selected);
    var gs := CompletionGroups(c, o, offset, selected);
    hide SlideOf, GridOf, Window, Positions;
    assert Drawable(scene, gs);
    GridParts(scene, gs);
  }

  method RenderPlan(scene: Scene, spans: seq<seq<CharSpan>>, budget: nat, offset: nat, morePrev: bool)
    returns (grid: GridState, highlights: seq<Highlight>, ranges: seq<CharSpan>)
    requires scene.Valid() && scene.width <= USIZE_MAX
    ensures var gs := Window(scene.groups, budget, scene.width, scene.style, offset);
            && Drawable(scene, gs)
            && grid == GridOf(scene, gs)
            && highlights == HighlightsOf(scene, spans, gs)
            && ranges == RangesOf(scene, gs)
            && |grid.bounds| == |grid.positions| == Shown(gs)
  {
    grid := RenderGrid(scene, budget, offset);
    WindowIsFitted(scene, budget, offset);
    ghost var gs := Window(scene.groups, budget, scene.width, scene.style, offset);
    hide Window, GridOf, HeadingHighlights, AllCellHighlights, Ranges;
    GridInBounds(scene, gs);
    GridParts(scene, gs);
    BoundsAre(scene, gs);
    BoundsLength(scene, gs, 1);
    highlights, ranges := ComputeOffsets(scene.sources, spans, grid);
  }

  lemma BoundsAre(scene: Scene, gs: seq<GroupGeometry>)
    requires scene.Covers(gs)
    ensures GridOf(scene, gs).bounds == BoundsOf(gs, 1)
  {
  }

  method Build(wd: Widths, c: Content, o: Options) returns (plan: Plan)
    requires c.Valid(wd) && o.width <= USIZE_MAX
    ensures plan == BuildPlan(wd, c, o)
  {
    SceneIsValid(wd, c, o.width, o.style);
    var groups := GroupCandidates(c.keyed);
    var scene := Scene(wd, groups, c.sources, o.width, o.style);
    assert scene == SceneOf(wd, c, o.width, o.style);
    hide GridOf, Window, HighlightsOf, RangesOf, Grouped;
    var grid, highlights, ranges := RenderPlan(scene, c.spans, o.rowBudget, 0, o.morePrev);
    var nav := BuildNavigation(grid.bounds, |grid.positions|, o.morePrev, o.moreNext);
    plan := Plan(grid.rows, None, [], highlights, ranges, nav, grid.positions);
  }

  method BuildCompletion(wd: Widths, c: Content, o: Options, oldOffset: nat, requested: nat) returns (plan: Plan)
    requires c.Valid(wd) && o.width <= USIZE_MAX
    ensures plan == CompletionPlan(wd, c, o, oldOffset, requested)
  {
    SceneIsValid(wd, c, o.width, Geometry.Style.Grid);
    CompletionFits(wd, c, o, oldOffset, requested);
    var groups := GroupCandidates(c.keyed);
    var total := |c.keyed|;
    var slide := SlideWindow(groups, total, o.rowBudget, o.width, oldOffset, requested);
    var scene := Scene(wd, groups, c.sources, o.width, Geometry.Style.Grid);
    assert scene == CompletionScene(wd, c, o) && slide == CompletionSlide(c, o, oldOffset, requested);
    hide GridOf, Window, HighlightsOf, RangesOf, Grouped, SlideOf;
    var grid, highlights, ranges := RenderPlan(scene, c.spans, slide.budget, slide.offset, false);
    var count := |grid.positions|;
    var nav := BuildNavigation(grid.bounds, count, false, slide.offset + count < total);
    var localSelected := Minus(slide.selected, slide.offset);
    plan := Plan(grid.rows, Some(WindowTuple(slide.offset, total, localSelected)), [], highlights, ranges, nav, grid.positions);
    if slide.indicator {
      var indicators := BuildIndicators(wd, o.width, slide.offset, total, count);
      plan := plan.(indicators := indicators, rows := plan.rows + [indicators[localSelected]]);
    }
  }

  method BuildIndicators(wd: Widths, width: nat, offset: nat, total: nat, count: nat) returns (indicators: seq<Bytes>)
    ensures indicators == Indicators(wd, width, offset, total, count)
  {
    indicators := [[]];
    for p := 1 to count + 1
      invariant indicators == Indicators(wd, width, offset, total, count)[..p]
    {
      var cut := TruncateToWidth(wd, IndicatorText(offset + p, total), width);
      ghost var all := Indicators(wd, width, offset, total, count);
      assert all[p] == cut.content;
      assert all[..p + 1] == all[..p] + [all[p]];
      indicators := indicators + [cut.content];
    }
  }
}
