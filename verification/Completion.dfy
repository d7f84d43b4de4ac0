/** Where the completion window starts: the least slide that shows the selection (src/layout.rs `build_completion`). */
module Completion {
  import opened Bytes
  import opened Groups
  import opened Geometry

  /** The first start at or after `lo` whose window reaches `selected`. */
  function LeastFrom(groups: seq<Group>, budget: nat, width: nat, lo: nat, selected: nat): nat
    decreases selected - lo
  {
    if lo + 1 >= selected || selected <= End(groups, budget, width, lo) then lo
    else LeastFrom(groups, budget, width, lo + 1, selected)
  }

  /** The window of one completion plan; `budget` is what is left for the grid beside an indicator row. */
  datatype Slide = Slide(overflow: bool, indicator: bool, budget: nat, selected: nat, offset: nat)

  function SlideOf(groups: seq<Group>, total: nat, rowBudget: nat, width: nat, offset: nat, selected: nat): Slide {
    var chosen := Min(selected, total);
    var overflow := End(groups, rowBudget, width, 0) < total;
    var indicator := overflow && rowBudget > 1;
    var budget := Max(Minus(rowBudget, if indicator then 1 else 0), 1);
    var kept := if chosen == 0 || !overflow then 0 else Min(offset, chosen - 1);
    Slide(overflow, indicator, budget, chosen,
          if chosen == 0 then 0 else LeastFrom(groups, budget, width, kept, chosen))
  }

  /**
   `slide` is the window for `offset` and `selected`, told from the inputs and from where windows end. When everything
   fits the window starts at the top. When it does not, the old offset is kept, though no further than the selection,
   whenever the window from there shows the selection; otherwise the window moves forward, past no start that shows it.
   */
  ghost predicate Follows(
    groups: seq<Group>, total: nat, rowBudget: nat, width: nat, offset: nat, selected: nat, slide: Slide)
  {
    var chosen := Min(selected, total);
    && slide.overflow == (End(groups, rowBudget, width, 0) < total)
    && slide.indicator == (slide.overflow && rowBudget > 1)
    && slide.budget == (if slide.indicator then rowBudget - 1 else Max(rowBudget, 1))
    && slide.selected == chosen
    && (chosen == 0 || !slide.overflow ==> slide.offset == 0)
    && (chosen > 0 && slide.overflow ==>
          Moves(groups, slide.budget, width, Min(offset, chosen - 1), chosen, slide.offset))
  }

  /** From `kept` the window moved to `to`, and no further than it had to. */
  ghost predicate Moves(groups: seq<Group>, budget: nat, width: nat, kept: nat, chosen: nat, to: nat) {
    && kept <= to
    && (chosen <= End(groups, budget, width, kept) ==> to == kept)
    && (forall x: nat :: kept <= x < to ==> End(groups, budget, width, x) < chosen)
    && to < chosen <= End(groups, budget, width, to)
  }

  /** Binary search for the slide; correct because window ends are monotone. */
  method SlideWindow(groups: seq<Group>, total: nat, rowBudget: nat, width: nat, oldOffset: nat, requested: nat)
    returns (slide: Slide)
    requires total == |Flatten(groups)|
    ensures slide == SlideOf(groups, total, rowBudget, width, oldOffset, requested)
    ensures Follows(groups, total, rowBudget, width, oldOffset, requested, slide)
  {
    hide Window, Shown, Sound, Positions, Flatten, Follows;
    var selected := Min(requested, total);
    var whole := WindowGeometry(groups, rowBudget, width, Grid, 0);
    var overflow := Shown(whole) < total;
    var indicator := overflow && rowBudget > 1;
    var budget := Max(Minus(rowBudget, if indicator then 1 else 0), 1);
    var offset := if selected == 0 || !overflow then 0 else Min(oldOffset, selected - 1);
    var gs := WindowGeometry(groups, budget, width, Grid, offset);
    if selected > offset + Shown(gs) {
      ghost var from := offset;
      EndBounds(groups, budget, width, offset);
      var lo := offset + 1;
      var hi := selected - 1;
      EndBounds(groups, budget, width, hi);
      while lo < hi
        invariant from < lo <= hi < selected
        invariant selected <= End(groups, budget, width, hi)
        invariant End(groups, budget, width, lo - 1) < selected
      {
        var mid := lo + (hi - lo) / 2;
        var at := WindowGeometry(groups, budget, width, Grid, mid);
        if mid + Shown(at) >= selected {
          hi := mid;
        } else {
          lo := mid + 1;
        }
      }
      LeastIs(groups, budget, width, from, lo, selected);
      offset := lo;
    }
    slide := Slide(overflow, indicator, budget, selected, offset);
    SlideFollows(groups, total, rowBudget, width, oldOffset, requested);
  }

  /** The search target is characterized by its two sides. */
  lemma {:induction false} LeastIs(groups: seq<Group>, budget: nat, width: nat, from: nat, lo: nat, selected: nat)
    requires budget >= 1 && from < lo < selected <= |Flatten(groups)|
    requires End(groups, budget, width, lo - 1) < selected <= End(groups, budget, width, lo)
    ensures LeastFrom(groups, budget, width, from, selected) == lo
    decreases lo - from
  {
    hide End, Flatten;
    EndMonotone(groups, budget, width, from, lo - 1);
    if from + 1 < lo {
      LeastIs(groups, budget, width, from + 1, lo, selected);
    }
  }

  /** The slide is minimal: every earlier start at or after `lo` ends before the selection. */
  lemma {:induction false} LeastHolds(groups: seq<Group>, budget: nat, width: nat, lo: nat, selected: nat)
    requires budget >= 1 && lo < selected <= |Flatten(groups)|
    ensures var r := LeastFrom(groups, budget, width, lo, selected);
            && lo <= r < selected <= End(groups, budget, width, r)
            && forall x: nat :: lo <= x < r ==> End(groups, budget, width, x) < selected
    decreases selected - lo
  {
    EndBounds(groups, budget, width, lo);
    hide End;
    if lo + 1 < selected && End(groups, budget, width, lo) < selected {
      LeastHolds(groups, budget, width, lo + 1, selected);
    }
  }

  /** The slide keeps the old offset when it can, and moves no further than it must. */
  lemma SlideFollows(groups: seq<Group>, total: nat, rowBudget: nat, width: nat, offset: nat, selected: nat)
    requires total == |Flatten(groups)|
    ensures Follows(groups, total, rowBudget, width, offset, selected,
                    SlideOf(groups, total, rowBudget, width, offset, selected))
  {
    hide LeastFrom, Flatten, Place;
    var s := SlideOf(groups, total, rowBudget, width, offset, selected);
    if s.selected > 0 {
      var kept := if !s.overflow then 0 else Min(offset, s.selected - 1);
      LeastHolds(groups, s.budget, width, kept, s.selected);
      NoRowsNoGroups(groups, width, Grid.MaxCols(), 0, 0);
    }
  }

  /** Without rows nothing is placed. */
  lemma {:induction false} NoRowsNoGroups(groups: seq<Group>, width: nat, maxCols: nat, i: nat, offset: nat)
    ensures Place(groups, width, maxCols, i, offset, 0, true) == []
    decreases |groups| - i
  {
    if i < |groups| && offset >= |groups[i].members| {
      NoRowsNoGroups(groups, width, maxCols, i + 1, offset - |groups[i].members|);
    }
  }

  /** The window lies inside the list, shows the selection, and never moves further than it must. */
  lemma SlideShowsSelection(groups: seq<Group>, total: nat, rowBudget: nat, width: nat, offset: nat, selected: nat)
    requires total == |Flatten(groups)|
    ensures var s := SlideOf(groups, total, rowBudget, width, offset, selected);
            var gs := Window(groups, s.budget, width, Grid, s.offset);
            var end := End(groups, s.budget, width, s.offset);
            && s.budget >= 1 && s.offset <= end <= total
            && Sound(groups, gs)
            && Positions(groups, gs) == Flatten(groups)[s.offset..end]
            && (s.offset == end <==> total == 0)
            && (s.selected == 0 ==> s.offset == 0)
            && (s.selected > 0 ==> s.offset < s.selected <= end)
            && (s.selected > 0 ==>
                  Positions(groups, gs)[s.selected - s.offset - 1] == Flatten(groups)[s.selected - 1])
            && (!s.overflow && rowBudget >= 1 ==> s.offset == 0 && end == total)
  {
    hide End, LeastFrom, Window, Positions, Sound, Flatten;
    var s := SlideOf(groups, total, rowBudget, width, offset, selected);
    if s.selected > 0 {
      var kept := if !s.overflow then 0 else Min(offset, s.selected - 1);
      LeastHolds(groups, s.budget, width, kept, s.selected);
    }
    EndBounds(groups, s.budget, width, s.offset);
    EndBounds(groups, Max(rowBudget, 1), width, 0);
  }

  /** Asking again from the returned offset returns the same window, so scrolling settles. */
  lemma SlideIsStable(groups: seq<Group>, total: nat, rowBudget: nat, width: nat, offset: nat, selected: nat)
    requires total == |Flatten(groups)|
    ensures var s := SlideOf(groups, total, rowBudget, width, offset, selected);
            SlideOf(groups, total, rowBudget, width, s.offset, selected) == s
  {
    SlideShowsSelection(groups, total, rowBudget, width, offset, selected);
    hide End;
  }

  /** Every candidate can be reached: selecting its position brings it into the window. */
  lemma EveryCandidateReachable(groups: seq<Group>, rowBudget: nat, width: nat, offset: nat, candidate: nat)
    requires candidate in Flatten(groups)
    ensures exists selected ::
              && 1 <= selected <= |Flatten(groups)|
              && var s := SlideOf(groups, |Flatten(groups)|, rowBudget, width, offset, selected);
                 var gs := Window(groups, s.budget, width, Grid, s.offset);
                 Sound(groups, gs) && candidate in Positions(groups, gs)
  {
    var i :| 0 <= i < |Flatten(groups)| && Flatten(groups)[i] == candidate;
    SlideShowsSelection(groups, |Flatten(groups)|, rowBudget, width, offset, i + 1);
  }
}
