/** What a user sees: rows fit the terminal, the window follows the selection, and navigation keeps to its group. */
module LayoutFacts {
  import opened Bytes
  import opened Decimals
  import opened Lossy
  import opened Spans
  import opened Groups
  import opened Geometry
  import opened Completion
  import opened Grid
  import opened GridFacts
  import opened Offsets
  import opened ListingFacts
  import opened Layout

  /** No row of the grid is wider than the terminal, and there are at most as many as the budget. */
  lemma RowsFitTerminal(scene: Scene, budget: nat, offset: nat)
    requires scene.Valid() && scene.width <= USIZE_MAX && scene.wd(BLANK) == 1
    ensures var gs := Window(scene.groups, budget, scene.width, scene.style, offset);
            && Drawable(scene, gs)
            && |GridOf(scene, gs).rows| <= budget
            && forall k :: 0 <= k < |GridOf(scene, gs).rows| ==>
                 DisplayWidth(scene.wd, GridOf(scene, gs).rows[k]) <= Max(scene.width, 1)
  {
    WindowIsFitted(scene, budget, offset);
    PlaceSound(scene.groups, scene.width, scene.style.MaxCols(), 0, offset, budget, true);
    hide GridOf, Scene.Picture, LineText, LineShows, Texts, DisplayWidth, RowsOf, Place, Sound, Fitted;
    var gs := Window(scene.groups, budget, scene.width, scene.style, offset);
    GridParts(scene, gs);
    PictureShows(scene, gs, 1);
    var lines := scene.Picture(gs, 1);
    forall k | 0 <= k < |lines|
      ensures DisplayWidth(scene.wd, Texts(lines)[k]) <= Max(scene.width, 1)
    {
      TextAt(lines, k);
      LineReads(scene, lines[k]);
    }
  }

  ghost predicate RowsFit(wd: Widths, rows: seq<Bytes>, width: nat) {
    forall k :: 0 <= k < |rows| ==> DisplayWidth(wd, rows[k]) <= Max(width, 1)
  }

  /** No row of a history or plain plan is wider than the terminal. */
  lemma BuildRowsFit(wd: Widths, c: Content, o: Options)
    requires c.Valid(wd) && o.width <= USIZE_MAX && wd(BLANK) == 1
    ensures RowsFit(wd, BuildPlan(wd, c, o).rows, o.width) && |BuildPlan(wd, c, o).rows| <= o.rowBudget
  {
    SceneIsValid(wd, c, o.width, o.style);
    RowsFitTerminal(SceneOf(wd, c, o.width, o.style), o.rowBudget, 0);
    hide GridOf, Window, DisplayWidth, HighlightsOf, RangesOf, Drawable;
  }

  lemma CutFits(wd: Widths, text: Bytes, width: nat)
    ensures DisplayWidth(wd, Truncate(wd, text, width).content) <= width && DisplayWidth(wd, []) == 0
  {
    TruncateFits(wd, text, width);
    hide Truncate;
  }

  lemma IndicatorsFitRow(wd: Widths, width: nat, offset: nat, total: nat, count: nat)
    ensures RowsFit(wd, Indicators(wd, width, offset, total, count), width)
  {
    hide Truncate, DisplayWidth, IndicatorText;
    forall p | 0 <= p <= count
      ensures DisplayWidth(wd, Indicators(wd, width, offset, total, count)[p]) <= Max(width, 1)
    {
      CutFits(wd, IndicatorText(offset + p, total), width);
    }
  }

  lemma IndicatedRowsFit(wd: Widths, width: nat, indicator: bool, plan: Plan)
    requires plan.window.Some? && plan.window.value.selected <= |plan.positions| && plan.indicators == []
    requires RowsFit(wd, plan.rows, width)
    ensures var shown := WithIndicator(wd, width, indicator, plan);
            RowsFit(wd, shown.rows, width) && RowsFit(wd, shown.indicators, width)
  {
    hide DisplayWidth, Indicators;
    var w := plan.window.value;
    IndicatorsFitRow(wd, width, w.offset, w.total, |plan.positions|);
  }

  /** The plan before its indicator row. */
  lemma CompletionIsIndicated(wd: Widths, c: Content, o: Options, offset: nat, selected: nat) returns (plan: Plan)
    requires c.Valid(wd) && o.width <= USIZE_MAX
    ensures var slide := CompletionSlide(c, o, offset, selected);
            var gs := CompletionGroups(c, o, offset, selected);
            && Drawable(CompletionScene(wd, c, o), gs)
            && plan.rows == GridOf(CompletionScene(wd, c, o), gs).rows && plan.indicators == []
            && plan.window.Some? && plan.window.value.selected <= |plan.positions|
            && CompletionPlan(wd, c, o, offset, selected) == WithIndicator(wd, o.width, slide.indicator, plan)
  {
    CompletionFits(wd, c, o, offset, selected);
    hide GridOf, HighlightsOf, RangesOf, Drawable, CompletionSlide, CompletionGroups, CompletionScene, Navigations,
         WithIndicator;
    var slide := CompletionSlide(c, o, offset, selected);
    var gs := CompletionGroups(c, o, offset, selected);
    plan := GridPlan(CompletionScene(wd, c, o), c.spans, gs, false, slide.offset + Shown(gs) < |c.keyed|)
            .(window := Some(WindowTuple(slide.offset, |c.keyed|, Minus(slide.selected, slide.offset))));
  }

  lemma CompletionGridFits(wd: Widths, c: Content, o: Options, offset: nat, selected: nat)
    requires c.Valid(wd) && o.width <= USIZE_MAX && wd(BLANK) == 1
    ensures var gs := CompletionGroups(c, o, offset, selected);
            && Drawable(CompletionScene(wd, c, o), gs)
            && RowsFit(wd, GridOf(CompletionScene(wd, c, o), gs).rows, o.width)
  {
    SceneIsValid(wd, c, o.width, Geometry.Style.Grid);
    var slide := CompletionSlide(c, o, offset, selected);
    RowsFitTerminal(CompletionScene(wd, c, o), slide.budget, slide.offset);
    hide GridOf, Window, DisplayWidth, Drawable, CompletionSlide, Grouped;
  }

  /** Neither is any row of a completion plan, its indicator row included. */
  lemma CompletionRowsFit(wd: Widths, c: Content, o: Options, offset: nat, selected: nat)
    requires c.Valid(wd) && o.width <= USIZE_MAX && wd(BLANK) == 1
    ensures RowsFit(wd, CompletionPlan(wd, c, o, offset, selected).rows, o.width)
    ensures RowsFit(wd, CompletionPlan(wd, c, o, offset, selected).indicators, o.width)
  {
    hide *;
    CompletionGridFits(wd, c, o, offset, selected);
    var plan := CompletionIsIndicated(wd, c, o, offset, selected);
    IndicatedRowsFit(wd, o.width, CompletionSlide(c, o, offset, selected).indicator, plan);
  }

  /**
   The plan's positions are a contiguous slice of the flattened group order, starting at the window offset;
   its selected position is the requested one, capped at the number of matches.
   */
  lemma CompletionSelects(wd: Widths, c: Content, o: Options, offset: nat, selected: nat)
    requires c.Valid(wd) && o.width <= USIZE_MAX
    ensures var plan := CompletionPlan(wd, c, o, offset, selected);
            var order := Flatten(Grouped(c.keyed, |c.keyed|));
            var w := plan.window.value;
            && plan.window.Some? && w.total == |c.keyed| == |order|
            && w.offset + |plan.positions| <= |order|
            && plan.positions == order[w.offset..w.offset + |plan.positions|]
            && (selected > 0 && w.total > 0 ==>
                  && 1 <= w.selected <= |plan.positions|
                  && plan.positions[w.selected - 1] == order[Min(selected, w.total) - 1])
  {
    hide CompletionPlan, Place, LeastFrom, Drawable, Geometry.Positions, Flatten, Grouped;
    SceneIsValid(wd, c, o.width, Geometry.Style.Grid);
    SlideShowsSelection(Grouped(c.keyed, |c.keyed|), |c.keyed|, o.rowBudget, o.width, offset, selected);
    CompletionParts(wd, c, o, offset, selected);
  }

  lemma CompletionParts(wd: Widths, c: Content, o: Options, offset: nat, selected: nat)
    requires c.Valid(wd) && o.width <= USIZE_MAX
    ensures var plan := CompletionPlan(wd, c, o, offset, selected);
            var slide := CompletionSlide(c, o, offset, selected);
            var gs := CompletionGroups(c, o, offset, selected);
            && plan.window == Some(WindowTuple(slide.offset, |c.keyed|, Minus(slide.selected, slide.offset)))
            && Sound(Grouped(c.keyed, |c.keyed|), gs)
            && plan.positions == Geometry.Positions(Grouped(c.keyed, |c.keyed|), gs)
  {
    hide GridOf, HighlightsOf, RangesOf, Navigations, CompletionSlide, CompletionGroups, Fitted, Sound, Grouped,
         Geometry.Positions, Indicators;
    CompletionFits(wd, c, o, offset, selected);
    GridParts(CompletionScene(wd, c, o), CompletionGroups(c, o, offset, selected));
  }

  /**
   The window is the one `Follows` describes for the old offset and the requested selection, which is counted from its
   start; there is an indicator when the list overflows and a row can be spared.
   */
  ghost predicate WindowFollows(
    w: WindowTuple, indicated: bool, groups: seq<Group>, total: nat, rows: nat, width: nat, offset: nat, selected: nat)
  {
    var chosen, overflow := Min(selected, total), End(groups, rows, width, 0) < total;
    && w.total == total && w.selected == chosen - w.offset
    && indicated == (overflow && rows > 1)
    && Follows(groups, total, rows, width, offset, selected,
               Slide(overflow, indicated, if indicated then rows - 1 else Max(rows, 1), chosen, w.offset))
  }

  /** Where the window of a plan starts, told from the request. */
  lemma CompletionMoves(wd: Widths, c: Content, o: Options, offset: nat, selected: nat)
    requires c.Valid(wd) && o.width <= USIZE_MAX
    ensures var plan := CompletionPlan(wd, c, o, offset, selected);
            && plan.window.Some?
            && WindowFollows(plan.window.value, plan.indicators != [], Grouped(c.keyed, |c.keyed|), |c.keyed|,
                             o.rowBudget, o.width, offset, selected)
  {
    hide CompletionPlan, CompletionGroups, SlideOf, Moves, End, Flatten, Grouped, Sound, Geometry.Positions;
    SceneIsValid(wd, c, o.width, Geometry.Style.Grid);
    var groups := Grouped(c.keyed, |c.keyed|);
    SlideFollows(groups, |c.keyed|, o.rowBudget, o.width, offset, selected);
    SlideNotPast(groups, |c.keyed|, o.rowBudget, o.width, offset, selected);
    CompletionParts(wd, c, o, offset, selected);
    CompletionIndicators(wd, c, o, offset, selected);
  }

  lemma SlideNotPast(groups: seq<Group>, total: nat, rowBudget: nat, width: nat, offset: nat, selected: nat)
    requires total == |Flatten(groups)|
    ensures var s := SlideOf(groups, total, rowBudget, width, offset, selected); s.offset <= s.selected
  {
    hide SlideOf, End, Flatten, Window, Sound, Geometry.Positions;
    SlideShowsSelection(groups, total, rowBudget, width, offset, selected);
  }

  lemma CompletionIndicators(wd: Widths, c: Content, o: Options, offset: nat, selected: nat)
    requires c.Valid(wd) && o.width <= USIZE_MAX
    ensures CompletionPlan(wd, c, o, offset, selected).indicators != [] <==> CompletionSlide(c, o, offset, selected).indicator
  {
    hide CompletionPlan, CompletionSlide, CompletionGroups, GridOf, Drawable;
    var plan := CompletionIsIndicated(wd, c, o, offset, selected);
  }

  // ---- the indicator ----

  /** Text of printable ASCII is cut to as many bytes as there are columns. */
  lemma {:induction false} PrintableCut(wd: Widths, s: Bytes, width: nat)
    requires AsciiWidths(wd) && forall i :: 0 <= i < |s| ==> 32 <= s[i] <= 126
    ensures Truncate(wd, s, width).content == s[..Min(|s|, width)]
    decreases |s|
  {
    hide Truncate, UnitLen, First;
    TruncateUnfold(wd, s, width);
    if s != [] {
      PrintableFirst(s);
      assert wd(Scalar([s[0]])) == 1;
      if width > 0 {
        PrintableCut(wd, s[1..], width - 1);
        assert s[..1] + s[1..][..Min(|s| - 1, width - 1)] == s[..Min(|s|, width)];
      }
    }
  }

  lemma PrintableFirst(s: Bytes)
    requires s != [] && 32 <= s[0] <= 126
    ensures UnitLen(s) == 1 && First(s) == Scalar([s[0]])
  {
    assert s[..1] == [s[0]];
  }

  /**
   The line for a position is a front of its number in the whole list, a slash and the size of the list, the whole of it
   when the terminal is wide enough.
   */
  lemma IndicatorReads(wd: Widths, width: nat, offset: nat, total: nat, count: nat, p: nat)
    requires AsciiWidths(wd) && 1 <= p <= count
    ensures var line := Indicators(wd, width, offset, total, count)[p];
            var n, of := Digits(offset + p), Digits(total);
            && line <= n + [47] + of && |line| == Min(|n| + 1 + |of|, width)
            && (|n| + 1 + |of| <= width ==> Split(line, 47) == [n, of])
  {
    hide Digits, Truncate, Split, Join;
    var n, of := Digits(offset + p), Digits(total);
    IndicatorSplits(offset + p, total);
    var text := IndicatorText(offset + p, total);
    PrintableCut(wd, text, width);
    assert text[..|text|] == text;
  }

  lemma IndicatorSplits(n: nat, total: nat)
    ensures var text := IndicatorText(n, total);
            && (forall i :: 0 <= i < |text| ==> 32 <= text[i] <= 126)
            && Split(text, 47) == [Digits(n), Digits(total)]
  {
    hide Digits, Split;
    DigitsDenote(n);
    DigitsDenote(total);
    var parts := [Digits(n), Digits(total)];
    assert Join(parts, 47) == IndicatorText(n, total) by {
      assert parts[1..] == [Digits(total)];
      assert Digits(n) + ([SLASH] + Digits(total)) == Digits(n) + [SLASH] + Digits(total);
    }
    SplitJoin(parts, 47);
  }

  /** Re-planning from the returned offset gives the identical plan. */
  lemma CompletionIsStable(wd: Widths, c: Content, o: Options, offset: nat, selected: nat)
    requires c.Valid(wd) && o.width <= USIZE_MAX
    ensures var plan := CompletionPlan(wd, c, o, offset, selected);
            plan.window.Some? && CompletionPlan(wd, c, o, plan.window.value.offset, selected) == plan
  {
    hide GridPlan, SlideOf, Drawable, Grouped, Flatten;
    SceneIsValid(wd, c, o.width, Geometry.Style.Grid);
    CompletionFits(wd, c, o, offset, selected);
    SlideIsStable(Grouped(c.keyed, |c.keyed|), |c.keyed|, o.rowBudget, o.width, offset, selected);
  }

  // ---- navigation ----

  /** The bounds cover exactly the positions of a placed group's members. */
  ghost predicate OwnsBounds(groups: seq<Group>, g: GroupGeometry, b: GroupBounds, all: seq<nat>, startPos: nat)
    requires SoundOne(groups, g)
  {
    && b.rows == g.rows && startPos <= b.start && b.end == b.start + g.count - 1 && b.end < startPos + |all|
    && all[b.start - startPos..b.end + 1 - startPos] == groups[g.group].members[g.first..g.first + g.count]
  }

  /** Each position's bounds are those of the one placed group whose members surround it. */
  lemma {:induction false} BoundsOwner(scene: Scene, gs: seq<GroupGeometry>, startPos: nat, i: nat)
    returns (k: nat)
    requires scene.Covers(gs) && startPos >= 1 && i < Shown(gs)
    ensures k < |gs| && SoundOne(scene.groups, gs[k])
    ensures i < |BoundsOf(gs, startPos)|
    ensures var b := BoundsOf(gs, startPos)[i];
            b.start <= startPos + i <= b.end
            && OwnsBounds(scene.groups, gs[k], b, Geometry.Positions(scene.groups, gs), startPos)
  {
    hide *;
    BoundsHead(scene, gs, startPos);
    var g := gs[0];
    if i < g.count {
      k := 0;
      FirstOwner(scene.groups, g, Geometry.Positions(scene.groups, gs[1..]), startPos);
      BoundsOneAt(g, startPos, i);
    } else {
      var j := BoundsOwner(scene, gs[1..], startPos + g.count, i - g.count);
      k := j + 1;
      OwnerShifts(scene.groups, gs[k], BoundsOf(gs[1..], startPos + g.count)[i - g.count],
                  scene.groups[g.group].members[g.first..g.first + g.count],
                  Geometry.Positions(scene.groups, gs[1..]), startPos);
    }
  }

  lemma BoundsHead(scene: Scene, gs: seq<GroupGeometry>, startPos: nat)
    requires scene.Covers(gs) && startPos >= 1 && Shown(gs) > 0
    ensures gs != [] && scene.Covers(gs[1..]) && Sound(scene.groups, gs[1..]) && SoundOne(scene.groups, gs[0])
    ensures var g := gs[0];
            && g.group < |scene.groups| && g.first + g.count <= |scene.groups[g.group].members|
            && Shown(gs) == g.count + Shown(gs[1..])
            && |BoundsOf(gs, startPos)| == Shown(gs)
            && BoundsOf(gs, startPos) == BoundsOne(g, startPos) + BoundsOf(gs[1..], startPos + g.count)
            && Geometry.Positions(scene.groups, gs)
               == scene.groups[g.group].members[g.first..g.first + g.count] + Geometry.Positions(scene.groups, gs[1..])
  {
    hide BoundsOne;
    assert SoundOne(scene.groups, gs[0]);
    BoundsLength(scene, gs, startPos);
  }

  lemma BoundsOneAt(g: GroupGeometry, startPos: nat, i: nat)
    requires startPos >= 1 && i < g.count
    ensures BoundsOne(g, startPos)[i] == GroupBounds(startPos, startPos + g.count - 1, g.rows)
  {
  }

  lemma FirstOwner(groups: seq<Group>, g: GroupGeometry, rest: seq<nat>, startPos: nat)
    requires SoundOne(groups, g) && startPos >= 1
    ensures OwnsBounds(groups, g, GroupBounds(startPos, startPos + g.count - 1, g.rows),
                       groups[g.group].members[g.first..g.first + g.count] + rest, startPos)
  {
    var members := groups[g.group].members[g.first..g.first + g.count];
    SliceOfPrefix(members, rest, 0, g.count);
    assert members[0..g.count] == members;
  }

  lemma OwnerShifts(groups: seq<Group>, g: GroupGeometry, b: GroupBounds, head: seq<nat>, rest: seq<nat>, startPos: nat)
    requires SoundOne(groups, g) && OwnsBounds(groups, g, b, rest, startPos + |head|)
    ensures OwnsBounds(groups, g, b, head + rest, startPos)
  {
    var from := b.start - startPos - |head|;
    SliceWithin(head, rest, [], from, g.count);
    assert head + rest + [] == head + rest;
  }

  /** Left and right keep to the group's range and, unless clamped there, to the same fill row. */
  ghost predicate KeepsGroup(g: GroupGeometry, b: GroupBounds, nav: Navigation, morePrev: bool, p: nat)
    requires g.rows >= 1
  {
    && b.start <= p <= b.end
    && p <= nav.right <= b.end
    && (p + g.rows <= b.end ==>
          nav.right == p + g.rows && FillRowOf(g, b.start, nav.right) == FillRowOf(g, b.start, p))
    && (p + g.rows > b.end ==> nav.right == b.end)
    && (morePrev ==> nav.left == 0)
    && (!morePrev ==>
          && b.start <= nav.left <= p
          && (p >= b.start + g.rows ==>
                nav.left == p - g.rows && FillRowOf(g, b.start, nav.left) == FillRowOf(g, b.start, p))
          && (p < b.start + g.rows ==> nav.left == b.start))
  }

  /**
   Left and right stay among the members of the position's own group, one full column away in the same
   row of the column-major fill, unless the group's first or last position clamps them.
   */
  lemma NavigationKeepsGroup(scene: Scene, gs: seq<GroupGeometry>, morePrev: bool, moreNext: bool, p: nat)
    returns (k: nat)
    requires Drawable(scene, gs) && 1 <= p <= Shown(gs)
    ensures k < |gs| && SoundOne(scene.groups, gs[k]) && |BoundsOf(gs, 1)| == Shown(gs)
    ensures var b := BoundsOf(gs, 1)[p - 1];
            && OwnsBounds(scene.groups, gs[k], b, GridOf(scene, gs).positions, 1)
            && KeepsGroup(gs[k], b, Navigations(BoundsOf(gs, 1), Shown(gs), morePrev, moreNext)[p - 1], morePrev, p)
  {
    hide *;
    DrawableCovers(scene, gs);
    GridParts(scene, gs);
    BoundsLength(scene, gs, 1);
    k := BoundsOwner(scene, gs, 1, p - 1);
    OwnsSays(scene.groups, gs[k], BoundsOf(gs, 1)[p - 1], Geometry.Positions(scene.groups, gs), 1);
    NavigationsAt(BoundsOf(gs, 1), Shown(gs), morePrev, moreNext, p);
    NavKeeps(gs[k], BoundsOf(gs, 1), Shown(gs), morePrev, moreNext, p);
  }

  lemma DrawableCovers(scene: Scene, gs: seq<GroupGeometry>)
    requires Drawable(scene, gs)
    ensures scene.Covers(gs)
  {
  }

  lemma OwnsSays(groups: seq<Group>, g: GroupGeometry, b: GroupBounds, all: seq<nat>, startPos: nat)
    requires SoundOne(groups, g) && OwnsBounds(groups, g, b, all, startPos)
    ensures b.rows == g.rows && g.rows >= 1
  {
  }

  lemma NavigationsAt(bounds: seq<GroupBounds>, positions: nat, morePrev: bool, moreNext: bool, p: nat)
    requires 1 <= p <= positions <= |bounds|
    ensures Navigations(bounds, positions, morePrev, moreNext)[p - 1] == NavAt(bounds, positions, morePrev, moreNext, p)
  {
    hide NavAt;
  }

  lemma NavKeeps(g: GroupGeometry, bounds: seq<GroupBounds>, positions: nat, morePrev: bool, moreNext: bool, p: nat)
    requires 1 <= p <= positions <= |bounds| && g.rows >= 1 && bounds[p - 1].rows == g.rows
    requires bounds[p - 1].start <= p <= bounds[p - 1].end
    ensures KeepsGroup(g, bounds[p - 1], NavAt(bounds, positions, morePrev, moreNext, p), morePrev, p)
  {
    hide FillRowOf;
    var b := bounds[p - 1];
    NextColumn(g, b.start, p);
    if p >= b.start + g.rows {
      NextColumn(g, b.start, p - g.rows);
    }
  }

  /** One column over is the same row of the fill. */
  lemma NextColumn(g: GroupGeometry, start: nat, p: nat)
    requires g.rows >= 1 && start <= p
    ensures FillRowOf(g, start, p + g.rows) == FillRowOf(g, start, p)
  {
    var x, m := p - start, g.rows;
    DivModIs(x / m + 1, x % m, m);
    assert (x / m + 1) * m + x % m == x + m;
  }

  /** All positions of a group have the same bounds. */
  lemma {:induction false} BoundsShared(scene: Scene, gs: seq<GroupGeometry>, startPos: nat, i: nat, q: nat)
    requires scene.Covers(gs) && startPos >= 1 && i < Shown(gs) && |BoundsOf(gs, startPos)| == Shown(gs)
    requires var b := BoundsOf(gs, startPos)[i]; b.start <= q <= b.end
    ensures startPos <= q < startPos + Shown(gs) && BoundsOf(gs, startPos)[q - startPos] == BoundsOf(gs, startPos)[i]
    decreases |gs|
  {
    hide *;
    BoundsHead(scene, gs, startPos);
    var g := gs[0];
    BoundsLength(scene, gs[1..], startPos + g.count);
    if i < g.count {
      BoundsOneAt(g, startPos, i);
      BoundsOneAt(g, startPos, q - startPos);
    } else {
      BoundsShared(scene, gs[1..], startPos + g.count, i - g.count, q);
    }
  }

  lemma NavMoves(bounds: seq<GroupBounds>, positions: nat, moreNext: bool, p: nat, q: nat)
    requires 1 <= p <= positions <= |bounds| && 1 <= q <= positions && bounds[q - 1] == bounds[p - 1]
    requires var b := bounds[p - 1]; b.start <= p <= b.end && b.start <= q <= b.end
    ensures q == p + bounds[p - 1].rows ==>
              && NavAt(bounds, positions, false, moreNext, p).right == q
              && NavAt(bounds, positions, false, moreNext, q).left == p
  {
  }

  /**
   Every move can be taken back: `prev` undoes `next` and `next` undoes `prev` where they are not clamped,
   and a full step right is undone by left, and the other way round.
   */
  lemma MovesUndo(scene: Scene, gs: seq<GroupGeometry>, moreNext: bool, p: nat)
    requires Drawable(scene, gs) && 1 <= p <= Shown(gs)
    ensures |BoundsOf(gs, 1)| == Shown(gs)
    ensures var nav, b := Navigations(BoundsOf(gs, 1), Shown(gs), false, moreNext), BoundsOf(gs, 1)[p - 1];
            && (p < Shown(gs) ==> nav[p - 1].next == p + 1 && nav[p].prev == p)
            && (p + b.rows <= b.end ==>
                  p + b.rows <= Shown(gs) && nav[p - 1].right == p + b.rows && nav[p + b.rows - 1].left == p)
  {
    hide *;
    DrawableCovers(scene, gs);
    BoundsLength(scene, gs, 1);
    var bounds := BoundsOf(gs, 1);
    var b := bounds[p - 1];
    var k := BoundsOwner(scene, gs, 1, p - 1);
    NavigationsAt(bounds, Shown(gs), false, moreNext, p);
    NavSteps(bounds, Shown(gs), moreNext, p);
    if p < Shown(gs) {
      NavigationsAt(bounds, Shown(gs), false, moreNext, p + 1);
    }
    if p + b.rows <= b.end {
      BoundsShared(scene, gs, 1, p - 1, p + b.rows);
      NavigationsAt(bounds, Shown(gs), false, moreNext, p + b.rows);
      NavMoves(bounds, Shown(gs), moreNext, p, p + b.rows);
    }
  }

  lemma NavSteps(bounds: seq<GroupBounds>, positions: nat, moreNext: bool, p: nat)
    requires 1 <= p <= positions <= |bounds|
    ensures p < positions ==>
              && NavAt(bounds, positions, false, moreNext, p).next == p + 1
              && NavAt(bounds, positions, false, moreNext, p + 1).prev == p
  {
  }

  /**
   From every position the next and the previous one are one away; the first has none before it, and the last stays
   unless more follow. History lists that go on before the window have nothing on the left.
   */
  ghost predicate Steps(nav: seq<Navigation>, morePrev: bool, moreNext: bool) {
    forall i :: 0 <= i < |nav| ==>
      && nav[i].prev == i
      && nav[i].next == (if i + 1 < |nav| then i + 2 else if moreNext then 0 else |nav|)
      && (morePrev ==> nav[i].left == 0)
  }

  lemma NavigationSteps(bounds: seq<GroupBounds>, positions: nat, morePrev: bool, moreNext: bool)
    requires positions <= |bounds|
    ensures Steps(Navigations(bounds, positions, morePrev, moreNext), morePrev, moreNext)
  {
  }

  lemma GridPlanSteps(
    scene: Scene, spans: seq<seq<CharSpan>>, gs: seq<GroupGeometry>, morePrev: bool, moreNext: bool)
    requires Drawable(scene, gs)
    ensures Steps(GridPlan(scene, spans, gs, morePrev, moreNext).nav, morePrev, moreNext)
    ensures GridPlan(scene, spans, gs, morePrev, moreNext).positions == GridOf(scene, gs).positions
  {
    BoundsLength(scene, gs, 1);
    NavigationSteps(GridOf(scene, gs).bounds, |GridOf(scene, gs).positions|, morePrev, moreNext);
    hide GridOf, HighlightsOf, RangesOf, Navigations, Steps;
  }

  /** What a history or plain plan steps through. */
  lemma BuildSteps(wd: Widths, c: Content, o: Options)
    requires c.Valid(wd) && o.width <= USIZE_MAX
    ensures Steps(BuildPlan(wd, c, o).nav, o.morePrev, o.moreNext)
  {
    var scene := SceneOf(wd, c, o.width, o.style);
    SceneIsValid(wd, c, o.width, o.style);
    WindowIsFitted(scene, o.rowBudget, 0);
    GridPlanSteps(scene, c.spans, BuildGroups(scene, o), o.morePrev, o.moreNext);
    hide GridPlan, Steps;
  }

  /** What a completion plan steps through: more follow when the window ends before the list does. */
  lemma CompletionSteps(wd: Widths, c: Content, o: Options, offset: nat, selected: nat)
    requires c.Valid(wd) && o.width <= USIZE_MAX
    ensures var plan := CompletionPlan(wd, c, o, offset, selected);
            && plan.window.Some?
            && Steps(plan.nav, false, plan.window.value.offset + |plan.positions| < plan.window.value.total)
  {
    CompletionFits(wd, c, o, offset, selected);
    var slide, gs := CompletionSlide(c, o, offset, selected), CompletionGroups(c, o, offset, selected);
    GridPlanSteps(CompletionScene(wd, c, o), c.spans, gs, false, slide.offset + Shown(gs) < |c.keyed|);
    hide GridPlan, Steps, GridOf, Indicators, CompletionScene, CompletionSlide, CompletionGroups;
  }

  // ---- one column over is the same row on screen ----

  /** The grid row a position is drawn on. */
  ghost function LineOf(scene: Scene, gs: seq<GroupGeometry>, startPos: nat, p: nat): int
    requires scene.Covers(gs) && 1 <= startPos <= p < startPos + Shown(gs)
    decreases |gs|
  {
    assert SoundOne(scene.groups, gs[0]);
    var g := gs[0];
    if p < startPos + g.count then |scene.TitleOf(g)| + VisualRow(scene, g, startPos, p)
    else |scene.TitleOf(g)| + g.rows + LineOf(scene, gs[1..], startPos + g.count, p)
  }

  ghost predicate CellsOnLine(scene: Scene, gs: seq<GroupGeometry>, startPos: nat, line: Line, r: int)
    requires scene.Covers(gs) && 1 <= startPos
  {
    line.Cells? ==>
      forall j :: 0 <= j < |line.cells| ==>
        startPos <= line.cells[j].pos < startPos + Shown(gs) && LineOf(scene, gs, startPos, line.cells[j].pos) == r
  }

  /** Cells of a group's visual row hold positions of that group, drawn on that row. */
  lemma RowOnLine(scene: Scene, g: GroupGeometry, startPos: nat, v: nat, j: nat)
    requires scene.Covers([g]) && 1 <= startPos && v < g.rows && j < |scene.RowCells(g, startPos, scene.FillRow(g, v))|
    ensures var p := scene.RowCells(g, startPos, scene.FillRow(g, v))[j].pos;
            startPos <= p < startPos + g.count && VisualRow(scene, g, startPos, p) == v
  {
    RowCellAt(scene, g, startPos, scene.FillRow(g, v), j);
    hide Scene.RowCells, Scene.CellAt;
  }

  lemma FirstOnLine(scene: Scene, gs: seq<GroupGeometry>, startPos: nat, v: nat)
    requires gs != [] && scene.Covers(gs) && scene.Covers([gs[0]]) && 1 <= startPos && v < gs[0].rows
    ensures var line := Cells(scene.RowCells(gs[0], startPos, scene.FillRow(gs[0], v)), gs[0].width);
            CellsOnLine(scene, gs, startPos, line, |scene.TitleOf(gs[0])| + v)
  {
    hide Scene.RowCells, Scene.TitleOf, VisualRow;
    var cells := scene.RowCells(gs[0], startPos, scene.FillRow(gs[0], v));
    forall j | 0 <= j < |cells|
      ensures startPos <= cells[j].pos < startPos + Shown(gs)
      ensures LineOf(scene, gs, startPos, cells[j].pos) == |scene.TitleOf(gs[0])| + v
    {
      RowOnLine(scene, gs[0], startPos, v, j);
    }
  }

  lemma LaterOnLine(scene: Scene, gs: seq<GroupGeometry>, startPos: nat, line: Line, r: int)
    requires gs != [] && scene.Covers(gs) && scene.Covers(gs[1..]) && 1 <= startPos
    requires CellsOnLine(scene, gs[1..], startPos + gs[0].count, line, r)
    ensures CellsOnLine(scene, gs, startPos, line, |scene.TitleOf(gs[0])| + gs[0].rows + r)
  {
    hide Scene.TitleOf, VisualRow;
  }

  lemma TitleOnLine(scene: Scene, gs: seq<GroupGeometry>, startPos: nat, r: nat)
    requires gs != [] && scene.Covers(gs) && scene.Covers([gs[0]]) && 1 <= startPos && r < |scene.TitleOf(gs[0])|
    ensures CellsOnLine(scene, gs, startPos, scene.TitleOf(gs[0])[r], r)
  {
  }

  /** Every cell is on the row its position is drawn on. */
  lemma {:induction false} PictureOnLine(scene: Scene, gs: seq<GroupGeometry>, startPos: nat, r: nat)
    requires scene.Covers(gs) && 1 <= startPos && r < |scene.Picture(gs, startPos)|
    ensures CellsOnLine(scene, gs, startPos, scene.Picture(gs, startPos)[r], r)
    decreases |gs|
  {
    hide *;
    PictureHead(scene, gs, startPos);
    var g := gs[0];
    var title, rows, rest := scene.TitleOf(g), scene.GroupRows(g, startPos, g.rows), scene.Picture(gs[1..], startPos + g.count);
    GroupRowsAre(scene, g, startPos);
    if r < |title| {
      TitleOnLine(scene, gs, startPos, r);
    } else if r < |title| + g.rows {
      FirstOnLine(scene, gs, startPos, r - |title|);
    } else {
      var later := r - |title| - g.rows;
      assert scene.Picture(gs, startPos)[r] == rest[later];
      PictureOnLine(scene, gs[1..], startPos + g.count, later);
      LaterOnLine(scene, gs, startPos, rest[later], later);
    }
  }

  lemma GroupRowsAre(scene: Scene, g: GroupGeometry, startPos: nat)
    requires scene.Covers([g]) && 1 <= startPos
    ensures |scene.GroupRows(g, startPos, g.rows)| == g.rows
    ensures forall v :: 0 <= v < g.rows ==>
              scene.GroupRows(g, startPos, g.rows)[v] == Cells(scene.RowCells(g, startPos, scene.FillRow(g, v)), g.width)
  {
    hide Scene.RowCells;
  }

  lemma {:induction false} ColumnKeepsLine(scene: Scene, gs: seq<GroupGeometry>, startPos: nat, p: nat)
    requires scene.Covers(gs) && 1 <= startPos <= p < startPos + Shown(gs) && |BoundsOf(gs, startPos)| == Shown(gs)
    ensures var b := BoundsOf(gs, startPos)[p - startPos];
            p + b.rows <= b.end ==>
              p + b.rows < startPos + Shown(gs)
              && LineOf(scene, gs, startPos, p + b.rows) == LineOf(scene, gs, startPos, p)
    decreases |gs|
  {
    hide Scene.TitleOf, SoundOne, Scene.Valid;
    assert SoundOne(scene.groups, gs[0]);
    var g := gs[0];
    GroupHasRows(scene.groups, g);
    BoundsLength(scene, gs[1..], startPos + g.count);
    if p < startPos + g.count {
      BoundsOneAt(g, startPos, p - startPos);
      NextColumn(g, startPos, p);
    } else {
      ColumnKeepsLine(scene, gs[1..], startPos + g.count, p);
    }
  }

  lemma GroupHasRows(groups: seq<Group>, g: GroupGeometry)
    requires SoundOne(groups, g)
    ensures g.rows >= 1
  {
  }

  /** Two cells one full column apart in the same group are drawn on the same row of the grid. */
  lemma ColumnsShareRows(scene: Scene, gs: seq<GroupGeometry>, x: nat, y: nat)
    requires Drawable(scene, gs) && |BoundsOf(gs, 1)| == Shown(gs)
    requires x < |GridOf(scene, gs).cellMarks| && y < |GridOf(scene, gs).cellMarks|
    ensures var marks := GridOf(scene, gs).cellMarks;
            && 1 <= marks[x].pos <= Shown(gs)
            && var b := BoundsOf(gs, 1)[marks[x].pos - 1];
               marks[y].pos == marks[x].pos + b.rows <= b.end ==> marks[y].row == marks[x].row
  {
    hide *;
    DrawableCovers(scene, gs);
    GridParts(scene, gs);
    MarkOnLine(scene, gs, x);
    MarkOnLine(scene, gs, y);
    ColumnKeepsLine(scene, gs, 1, GridOf(scene, gs).cellMarks[x].pos);
  }

  lemma MarkOnLine(scene: Scene, gs: seq<GroupGeometry>, x: nat)
    requires scene.Covers(gs) && x < |CellMarks(scene.Picture(gs, 1))|
    ensures var m := CellMarks(scene.Picture(gs, 1))[x];
            1 <= m.pos < 1 + Shown(gs) && LineOf(scene, gs, 1, m.pos) == m.row
  {
    hide Scene.Picture, CellMarks, LineOf, RowMarks, Scene.Covers;
    var lines := scene.Picture(gs, 1);
    var j := MarkOrigin(lines, x);
    var m := CellMarks(lines)[x];
    RowMarkAt(lines[m.row].cells, lines[m.row].column, m.row, j);
    PictureOnLine(scene, gs, 1, m.row);
  }
}
