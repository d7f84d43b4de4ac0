/**
 Placing groups under a row budget and sliding the completion window
 (src/layout.rs `grid_dims`, `window_geometry`, and the search in `build_completion`).
 */
module Geometry {
  import opened Bytes
  import opened Groups

  const MAX_COLS: nat := 8
  const GUTTER: nat := 2

  datatype Style = Grid | History {
    function MaxCols(): nat { if Grid? then MAX_COLS else 1 }
    predicate BottomUp() { History? }
  }

  datatype GroupGeometry = GroupGeometry(
    group: nat, first: nat, showHeading: bool, cols: nat, rows: nat, count: nat, width: nat)

  datatype Dims = Dims(cols: nat, rows: nat, count: nat)

  /** The column width of a group. */
  function ColumnWidth(width: nat, widest: nat): nat { Max(Min(widest, width), 1) }

  function DivCeil(a: nat, b: nat): nat
    requires b > 0
  {
    (a + b - 1) / b
  }

  function Clamp(x: nat, lo: nat, hi: nat): nat
    requires lo <= hi
  {
    if x < lo then lo else if x > hi then hi else x
  }

  /** How many columns fit, before an under-full group is recompressed. */
  function Columns(column: nat, width: nat, maxCols: nat): (cols: nat)
    ensures 1 <= cols <= Max(maxCols, 1)
  {
    Clamp(Plus(width, 2) / Max(Plus(column, 2), 1), 1, Max(maxCols, 1))
  }

  function GridDims(column: nat, width: nat, members: nat, budget: nat, maxCols: nat): Dims
    requires members >= 1 && budget >= 1
  {
    var cols := Columns(column, width, maxCols);
    var rows := Min(DivCeil(members, cols), budget);
    var count := Min(cols * rows, members);
    assert rows >= 1 by { DivCeilBounds(members, cols); }
    Dims(DivCeil(count, rows), rows, count)
  }

  lemma DivCeilBounds(a: nat, b: nat)
    requires b > 0
    ensures DivCeil(a, b) * b >= a
    ensures a > 0 ==> DivCeil(a, b) >= 1 && (DivCeil(a, b) - 1) * b < a
  {
  }

  lemma MulMonotone(x: int, y: int, b: nat)
    ensures x <= y ==> x * b <= y * b
  {
  }

  /** `DivCeil(a, b)` is the least number of rows of `b` that hold `a`. */
  lemma DivCeilLeast(a: nat, b: nat, r: nat)
    requires b > 0
    ensures DivCeil(a, b) <= r <==> a <= r * b
  {
    DivCeilBounds(a, b);
    hide DivCeil;
    MulMonotone(r, DivCeil(a, b) - 1, b);
    MulMonotone(DivCeil(a, b), r, b);
  }

  lemma RowsWithinCount(members: nat, c: nat, budget: nat)
    requires members >= 1 && budget >= 1 && c >= 1
    ensures var rows := Min(DivCeil(members, c), budget); 1 <= rows <= Min(c * rows, members)
  {
    var rows := Min(DivCeil(members, c), budget);
    DivCeilBounds(members, c);
    DivCeilLeast(members, c, members);
    hide DivCeil;
    MulMonotone(1, c, rows);
    MulMonotone(1, c, members);
  }

  /** Either the members all fit and take the fewest rows, or the rows are used up. */
  lemma RowsHold(members: nat, c: nat, budget: nat)
    requires members >= 1 && budget >= 1 && c >= 1
    ensures var rows := Min(DivCeil(members, c), budget);
            var count := Min(c * rows, members);
            && (count == members <==> members <= budget * c)
            && (count == members ==> rows == DivCeil(members, c))
            && (count < members ==> rows == budget && count == budget * c)
  {
    DivCeilLeast(members, c, budget);
    DivCeilBounds(members, c);
    hide DivCeil;
    var rows := Min(DivCeil(members, c), budget);
    assert c * rows == rows * c;
  }

  /** Fully shown groups take as many rows as they need; cut ones fill the budget exactly. */
  lemma DimsHold(column: nat, width: nat, members: nat, budget: nat, maxCols: nat)
    requires members >= 1 && budget >= 1
    ensures var c := Columns(column, width, maxCols);
            var d := GridDims(column, width, members, budget, maxCols);
            && 1 <= d.rows <= budget && d.rows <= d.count <= members && 1 <= d.cols <= c
            && (d.cols - 1) * d.rows < d.count <= d.cols * d.rows
            && (d.count == members <==> members <= budget * c)
            && (d.count == members ==> d.rows == DivCeil(members, c))
            && (d.count < members ==> d.rows == budget && d.count == budget * c)
  {
    var c := Columns(column, width, maxCols);
    RowsHold(members, c, budget);
    RowsWithinCount(members, c, budget);
    var d := GridDims(column, width, members, budget, maxCols);
    assert d.rows == Min(DivCeil(members, c), budget) && d.count == Min(c * d.rows, members);
    DivCeilBounds(d.count, d.rows);
    DivCeilLeast(d.count, d.rows, c);
    assert d.cols == DivCeil(d.count, d.rows);
    hide *;
  }

  /** All columns of a group, gutters included, fit the terminal. */
  lemma ColumnsFit(column: nat, width: nat, maxCols: nat, cols: nat)
    requires width <= USIZE_MAX && column <= Max(width, 1)
    requires 1 <= cols <= Columns(column, width, maxCols)
    ensures cols * column + (cols - 1) * GUTTER <= Max(width, 1)
  {
    if cols > 1 {
      var per, room := Plus(column, 2), Plus(width, 2);
      Quotient(room, per);
      ManyColumnsFit(room / per, room, per, column, width, cols);
    }
  }

  lemma Quotient(room: nat, per: nat)
    requires per > 0
    ensures room / per * per <= room
  {
  }

  /** Two or more columns that each take `per` cells leave no room for saturation. */
  lemma ManyColumnsFit(fit: nat, room: nat, per: nat, column: nat, width: nat, cols: nat)
    requires fit * per <= room && 2 <= cols <= fit && width <= USIZE_MAX && column <= Max(width, 1)
    requires per == Plus(column, 2) && room == Plus(width, 2)
    ensures cols * column + (cols - 1) * GUTTER <= Max(width, 1)
  {
    MulMonotone(cols, fit, per);
    MulMonotone(2, cols, per);
    assert 2 * per <= room;
    assert per == column + 2;
    assert cols * (column + 2) == cols * column + cols * 2;
  }

  /** The groups placed from group `i` on, `offset` members into it, with `remaining` rows left. */
  function Place(groups: seq<Group>, width: nat, maxCols: nat, i: nat, offset: nat, remaining: nat, first: bool)
    : seq<GroupGeometry>
    decreases |groups| - i
  {
    if i >= |groups| then []
    else if offset >= |groups[i].members| then
      Place(groups, width, maxCols, i + 1, offset - |groups[i].members|, remaining, first)
    else if remaining == 0 then []
    else if groups[i].key != [] && remaining < 2 && !first then []
    else
      var g := PlaceOne(groups, width, maxCols, i, offset, remaining);
      [g] + Place(groups, width, maxCols, i + 1, 0, Minus(remaining, g.rows + Heading(g)), false)
  }

  function PlaceOne(groups: seq<Group>, width: nat, maxCols: nat, i: nat, offset: nat, remaining: nat): GroupGeometry
    requires i < |groups| && offset < |groups[i].members| && remaining >= 1
  {
    var show := groups[i].key != [] && remaining >= 2;
    var column := ColumnWidth(width, groups[i].maxWidth);
    var d := GridDims(column, width, |groups[i].members| - offset, remaining - (if show then 1 else 0), maxCols);
    GroupGeometry(i, offset, show, d.cols, d.rows, d.count, column)
  }

  function Heading(g: GroupGeometry): nat { if g.showHeading then 1 else 0 }

  function Shown(gs: seq<GroupGeometry>): nat {
    if gs == [] then 0 else gs[0].count + Shown(gs[1..])
  }

  /** Rows a placement takes, headings included. */
  function RowsOf(gs: seq<GroupGeometry>): nat {
    if gs == [] then 0 else gs[0].rows + Heading(gs[0]) + RowsOf(gs[1..])
  }

  function Window(groups: seq<Group>, budget: nat, width: nat, style: Style, offset: nat): seq<GroupGeometry> {
    Place(groups, width, style.MaxCols(), 0, offset, budget, true)
  }

  /** Where the window that starts at `start` ends, in flattened order. */
  function End(groups: seq<Group>, budget: nat, width: nat, start: nat): nat {
    start + Shown(Window(groups, budget, width, Grid, start))
  }

  /** What is placed so far, and what the rest of the loop will add. */
  ghost function Onward(
    placed: seq<GroupGeometry>, groups: seq<Group>, width: nat, maxCols: nat, i: nat, offset: nat, remaining: nat)
    : seq<GroupGeometry>
  {
    placed + Place(groups, width, maxCols, i, offset, remaining, placed == [])
  }

  /** One turn of the placement loop. */
  lemma OnwardTurn(
    placed: seq<GroupGeometry>, groups: seq<Group>, width: nat, maxCols: nat, i: nat, offset: nat, remaining: nat)
    ensures i >= |groups| ==> Onward(placed, groups, width, maxCols, i, offset, remaining) == placed
    ensures i < |groups| && offset >= |groups[i].members| ==>
              Onward(placed, groups, width, maxCols, i, offset, remaining)
              == Onward(placed, groups, width, maxCols, i + 1, offset - |groups[i].members|, remaining)
    ensures i < |groups| && offset < |groups[i].members| ==>
              Onward(placed, groups, width, maxCols, i, offset, remaining)
              == if remaining == 0 || (groups[i].key != [] && remaining < 2 && placed != []) then placed
                 else
                   var g := PlaceOne(groups, width, maxCols, i, offset, remaining);
                   Onward(placed + [g], groups, width, maxCols, i + 1, 0, Minus(remaining, g.rows + Heading(g)))
  {
    hide PlaceOne, Heading;
    assert placed + [] == placed;
    if i < |groups| && offset < |groups[i].members| && remaining > 0 {
      var g := PlaceOne(groups, width, maxCols, i, offset, remaining);
      var rest := Place(groups, width, maxCols, i + 1, 0, Minus(remaining, g.rows + Heading(g)), false);
      assert placed + ([g] + rest) == (placed + [g]) + rest;
    }
  }

  /** The geometry the loop computes for one group, and the rows it takes. */
  lemma OneIs(groups: seq<Group>, width: nat, maxCols: nat, i: nat, skip: nat, remaining: nat, showHeading: bool)
    requires i < |groups| && skip < |groups[i].members| && remaining >= 1
    requires showHeading == (groups[i].key != [] && remaining >= 2)
    ensures var column := ColumnWidth(width, groups[i].maxWidth);
            var heading := if showHeading then 1 else 0;
            var d := GridDims(column, width, |groups[i].members| - skip, remaining - heading, maxCols);
            var g := PlaceOne(groups, width, maxCols, i, skip, remaining);
            && g == GroupGeometry(i, skip, showHeading, d.cols, d.rows, d.count, column)
            && d.rows + heading <= remaining && Minus(remaining, g.rows + Heading(g)) == remaining - (d.rows + heading)
  {
    hide GridDims, ColumnWidth;
    DimsFit(ColumnWidth(width, groups[i].maxWidth), width, |groups[i].members| - skip,
            remaining - (if showHeading then 1 else 0), maxCols);
  }

  lemma OnwardStart(groups: seq<Group>, rowBudget: nat, width: nat, style: Style, offset: nat)
    ensures Onward([], groups, width, style.MaxCols(), 0, offset, rowBudget) == Window(groups, rowBudget, width, style, offset)
  {
    hide Place;
  }

  method WindowGeometry(groups: seq<Group>, rowBudget: nat, width: nat, style: Style, offset: nat)
    returns (placed: seq<GroupGeometry>)
    ensures placed == Window(groups, rowBudget, width, style, offset)
  {
    hide GridDims, Columns, DivCeil, ColumnWidth, Onward, Window, PlaceOne, Heading, Minus;
    placed := [];
    var remaining: nat, skip: nat := rowBudget, offset;
    var i := 0;
    OnwardStart(groups, rowBudget, width, style, offset);
    while i < |groups|
      invariant 0 <= i <= |groups|
      invariant Onward(placed, groups, width, style.MaxCols(), i, skip, remaining)
             == Window(groups, rowBudget, width, style, offset)
    {
      OnwardTurn(placed, groups, width, style.MaxCols(), i, skip, remaining);
      var group := groups[i];
      if skip >= |group.members| {
        skip := skip - |group.members|;
        i := i + 1;
        continue;
      }
      if remaining == 0 {
        return placed;
      }
      var wantsHeading := group.key != [];
      var showHeading := false;
      if wantsHeading {
        if remaining >= 2 {
          showHeading := true;
        } else if placed != [] {
          return placed;
        }
      }
      OneIs(groups, width, style.MaxCols(), i, skip, remaining, showHeading);
      var column := ColumnWidth(width, group.maxWidth);
      var heading := if showHeading then 1 else 0;
      var d := GridDims(column, width, |group.members| - skip, remaining - heading, style.MaxCols());
      placed := placed + [GroupGeometry(i, skip, showHeading, d.cols, d.rows, d.count, column)];
      remaining := remaining - (d.rows + heading);
      skip := 0;
      i := i + 1;
    }
    OnwardTurn(placed, groups, width, style.MaxCols(), i, skip, remaining);
  }

  lemma DimsFit(column: nat, width: nat, members: nat, budget: nat, maxCols: nat)
    requires members >= 1 && budget >= 1
    ensures GridDims(column, width, members, budget, maxCols).rows <= budget
  {
    DimsHold(column, width, members, budget, maxCols);
    hide GridDims, Columns, DivCeil;
  }

  // ---- what a placement shows ----

  /** The candidates a placement shows, in position order. */
  function Positions(groups: seq<Group>, gs: seq<GroupGeometry>): seq<nat>
    requires Sound(groups, gs)
  {
    if gs == [] then []
    else groups[gs[0].group].members[gs[0].first..gs[0].first + gs[0].count] + Positions(groups, gs[1..])
  }

  ghost predicate SoundOne(groups: seq<Group>, g: GroupGeometry) {
    && g.group < |groups|
    && g.first + g.count <= |groups[g.group].members|
    && 1 <= g.rows <= g.count && 1 <= g.cols
    && (g.cols - 1) * g.rows < g.count <= g.cols * g.rows
    && 1 <= g.width
  }

  ghost predicate Sound(groups: seq<Group>, gs: seq<GroupGeometry>) {
    forall i :: 0 <= i < |gs| ==> SoundOne(groups, gs[i])
  }

  lemma {:induction false} PlaceSound(
    groups: seq<Group>, width: nat, maxCols: nat, i: nat, offset: nat, remaining: nat, first: bool)
    ensures Sound(groups, Place(groups, width, maxCols, i, offset, remaining, first))
    ensures RowsOf(Place(groups, width, maxCols, i, offset, remaining, first)) <= remaining
    decreases |groups| - i
  {
    if i >= |groups| {
    } else if offset >= |groups[i].members| {
      PlaceSound(groups, width, maxCols, i + 1, offset - |groups[i].members|, remaining, first);
    } else if remaining == 0 || (groups[i].key != [] && remaining < 2 && !first) {
    } else {
      var g := PlaceOne(groups, width, maxCols, i, offset, remaining);
      OneHolds(groups, width, maxCols, i, offset, remaining);
      PlaceSound(groups, width, maxCols, i + 1, 0, remaining - g.rows - Heading(g), false);
    }
  }

  /** One placed group is in bounds, and unless it is shown whole it uses up the rows. */
  lemma OneHolds(groups: seq<Group>, width: nat, maxCols: nat, i: nat, offset: nat, remaining: nat)
    requires i < |groups| && offset < |groups[i].members| && remaining >= 1
    ensures var g := PlaceOne(groups, width, maxCols, i, offset, remaining);
            var rest := |groups[i].members| - offset;
            var c := Columns(ColumnWidth(width, groups[i].maxWidth), width, maxCols);
            var room := remaining - Heading(g);
            && SoundOne(groups, g)
            && g.cols <= c
            && g.rows + Heading(g) <= remaining
            && room >= 1
            && (g.count == rest <==> rest <= room * c)
            && (g.count == rest ==> g.rows == DivCeil(rest, c))
            && (g.count < rest ==> g.rows + Heading(g) == remaining && g.count == room * c)
  {
    var show := groups[i].key != [] && remaining >= 2;
    DimsHold(ColumnWidth(width, groups[i].maxWidth), width, |groups[i].members| - offset,
             remaining - (if show then 1 else 0), maxCols);
  }

  /** A group is placed from where the window starts in it, and one that is cut leaves no rows. */
  lemma OneRest(groups: seq<Group>, width: nat, maxCols: nat, i: nat, offset: nat, remaining: nat)
    requires i < |groups| && offset < |groups[i].members| && remaining >= 1
    ensures var g := PlaceOne(groups, width, maxCols, i, offset, remaining);
            && g.group == i && g.first == offset
            && g.rows + Heading(g) <= remaining && offset + g.count <= |groups[i].members|
            && (offset + g.count < |groups[i].members| ==> g.rows + Heading(g) == remaining)
  {
    hide GridDims, DivCeil, Columns;
    OneHolds(groups, width, maxCols, i, offset, remaining);
  }

  lemma ShownIsPositions(groups: seq<Group>, gs: seq<GroupGeometry>)
    requires Sound(groups, gs)
    ensures |Positions(groups, gs)| == Shown(gs)
  {
  }

  lemma PlaceExhausted(groups: seq<Group>, width: nat, maxCols: nat, i: nat, offset: nat, first: bool)
    ensures Place(groups, width, maxCols, i, offset, 0, first) == []
    ensures Shown(Place(groups, width, maxCols, i, offset, 0, first)) == 0
    decreases |groups| - i
  {
  }

  /** What is shown is a contiguous slice of the flattened order, starting at the offset. */
  lemma {:induction false} PlaceShowsSlice(
    groups: seq<Group>, width: nat, maxCols: nat, i: nat, offset: nat, remaining: nat, first: bool)
    requires i <= |groups| && offset <= |Flatten(groups[i..])|
    ensures var gs := Place(groups, width, maxCols, i, offset, remaining, first);
            && Sound(groups, gs)
            && Positions(groups, gs) <= Flatten(groups[i..])[offset..]
    decreases |groups| - i
  {
    hide *;
    PlaceSound(groups, width, maxCols, i, offset, remaining, first);
    PlaceUnfolds(groups, width, maxCols, i, offset, remaining, first);
    if i < |groups| {
      var members, rest := groups[i].members, Flatten(groups[i + 1..]);
      FlattenStep(groups, i);
      if offset >= |members| {
        PlaceShowsSlice(groups, width, maxCols, i + 1, offset - |members|, remaining, first);
        DropPast(members, rest, offset);
      } else if remaining > 0 && (groups[i].key == [] || remaining >= 2 || first) {
        PlaceNext(groups, width, maxCols, i, offset, remaining, first);
        SliceConcat(members, rest, offset);
        var g := PlaceOne(groups, width, maxCols, i, offset, remaining);
        if g.first + g.count < |members| {
          PrefixOfSlice(members, rest, offset, g.count, []);
        } else {
          PlaceShowsSlice(groups, width, maxCols, i + 1, 0, Minus(remaining, g.rows + Heading(g)), false);
          PrefixOfSlice(members, rest, offset, g.count,
                        Positions(groups, Place(groups, width, maxCols, i + 1, 0, Minus(remaining, g.rows + Heading(g)), false)));
        }
      }
    }
  }

  lemma FlattenNothing(groups: seq<Group>)
    ensures Flatten(groups[|groups|..]) == []
  {
  }

  lemma FlattenStep(groups: seq<Group>, i: nat)
    requires i < |groups|
    ensures Flatten(groups[i..]) == groups[i].members + Flatten(groups[i + 1..])
  {
    assert groups[i..][1..] == groups[i + 1..];
  }

  /** Where placing skips a group, and where it stops. */
  lemma PlaceUnfolds(groups: seq<Group>, width: nat, maxCols: nat, i: nat, offset: nat, remaining: nat, first: bool)
    ensures i < |groups| && offset >= |groups[i].members| ==>
              Place(groups, width, maxCols, i, offset, remaining, first)
              == Place(groups, width, maxCols, i + 1, offset - |groups[i].members|, remaining, first)
    ensures i >= |groups| || (offset < |groups[i].members|
                              && (remaining == 0 || (groups[i].key != [] && remaining < 2 && !first))) ==>
              Place(groups, width, maxCols, i, offset, remaining, first) == []
    ensures Sound(groups, []) && Positions(groups, []) == []
  {
    hide PlaceOne;
  }

  lemma DropPast<T>(a: seq<T>, b: seq<T>, n: nat)
    requires |a| <= n <= |a| + |b|
    ensures (a + b)[n..] == b[n - |a|..]
  {
  }

  lemma PrefixOfSlice<T>(a: seq<T>, b: seq<T>, from: nat, n: nat, more: seq<T>)
    requires from + n <= |a| && (more != [] ==> from + n == |a|) && more <= b[0..]
    ensures a[from..from + n] + more <= (a + b)[from..]
  {
  }

  /** One unfolding of the placement at a group that gets rows. */
  lemma PlaceTakes(groups: seq<Group>, width: nat, maxCols: nat, i: nat, offset: nat, remaining: nat, first: bool)
    requires i < |groups| && offset < |groups[i].members| && remaining > 0
    requires groups[i].key == [] || remaining >= 2 || first
    ensures var g := PlaceOne(groups, width, maxCols, i, offset, remaining);
            Place(groups, width, maxCols, i, offset, remaining, first)
            == [g] + Place(groups, width, maxCols, i + 1, 0, Minus(remaining, g.rows + Heading(g)), false)
  {
    hide PlaceOne, Heading;
  }

  lemma PositionsHead(groups: seq<Group>, g: GroupGeometry, rest: seq<GroupGeometry>)
    requires Sound(groups, [g] + rest)
    ensures SoundOne(groups, g) && Sound(groups, rest)
    ensures Positions(groups, [g] + rest)
         == groups[g.group].members[g.first..g.first + g.count] + Positions(groups, rest)
  {
    assert ([g] + rest)[1..] == rest && ([g] + rest)[0] == g;
    assert forall k :: 0 <= k < |rest| ==> ([g] + rest)[k + 1] == rest[k];
  }

  lemma PlaceNext(groups: seq<Group>, width: nat, maxCols: nat, i: nat, offset: nat, remaining: nat, first: bool)
    requires i < |groups| && offset < |groups[i].members| && remaining > 0
    requires groups[i].key == [] || remaining >= 2 || first
    ensures var gs := Place(groups, width, maxCols, i, offset, remaining, first);
            var g := PlaceOne(groups, width, maxCols, i, offset, remaining);
            var left := Minus(remaining, g.rows + Heading(g));
            var after := Place(groups, width, maxCols, i + 1, 0, left, false);
            && Sound(groups, gs) && Sound(groups, after)
            && g.group == i && g.first == offset && offset + g.count <= |groups[i].members|
            && Positions(groups, gs) == groups[i].members[offset..offset + g.count] + Positions(groups, after)
            && (offset + g.count < |groups[i].members| ==> Positions(groups, after) == [])
  {
    hide *;
    PlaceSound(groups, width, maxCols, i, offset, remaining, first);
    OneRest(groups, width, maxCols, i, offset, remaining);
    PlaceTakes(groups, width, maxCols, i, offset, remaining, first);
    var g := PlaceOne(groups, width, maxCols, i, offset, remaining);
    MinusIs(remaining, g.rows + Heading(g));
    PositionsHead(groups, g, Place(groups, width, maxCols, i + 1, 0, remaining - g.rows - Heading(g), false));
    if offset + g.count < |groups[i].members| {
      PlaceExhausted(groups, width, maxCols, i + 1, 0, false);
      PlaceUnfolds(groups, width, maxCols, |groups|, 0, 0, false);
    }
  }

  // ---- the window end is monotone ----

  lemma ShownStep(groups: seq<Group>, width: nat, maxCols: nat, i: nat, offset: nat, r: nat, first: bool)
    ensures Shown(Place(groups, width, maxCols, i, offset, r, first)) ==
            if i >= |groups| then 0
            else if offset >= |groups[i].members| then
              Shown(Place(groups, width, maxCols, i + 1, offset - |groups[i].members|, r, first))
            else if r == 0 || (groups[i].key != [] && r < 2 && !first) then 0
            else
              var g := PlaceOne(groups, width, maxCols, i, offset, r);
              g.count + Shown(Place(groups, width, maxCols, i + 1, 0, Minus(r, g.rows + Heading(g)), false))
  {
    hide PlaceOne;
  }

  /** With more rows one group shows no fewer candidates, and a whole one leaves no fewer rows. */
  lemma OneGrows(groups: seq<Group>, width: nat, maxCols: nat, i: nat, offset: nat, r: nat, r': nat)
    requires i < |groups| && offset < |groups[i].members| && 1 <= r <= r'
    requires groups[i].key != [] ==> r >= 2
    ensures var g, g' := PlaceOne(groups, width, maxCols, i, offset, r), PlaceOne(groups, width, maxCols, i, offset, r');
            var rest := |groups[i].members| - offset;
            && g.count <= g'.count <= rest
            && g.rows + Heading(g) <= r && g'.rows + Heading(g') <= r'
            && (g.count < rest ==> g.rows + Heading(g) == r)
            && (g.count == rest ==> g'.rows + Heading(g') == g.rows + Heading(g))
  {
    var g, g' := PlaceOne(groups, width, maxCols, i, offset, r), PlaceOne(groups, width, maxCols, i, offset, r');
    OneHolds(groups, width, maxCols, i, offset, r);
    OneHolds(groups, width, maxCols, i, offset, r');
    assert Heading(g) == Heading(g');
    hide PlaceOne, Columns, ColumnWidth, DivCeil;
    MulMonotone(r - Heading(g), r' - Heading(g'), Columns(ColumnWidth(width, groups[i].maxWidth), width, maxCols));
  }

  /** More rows never show fewer candidates. */
  lemma {:induction false} MoreRowsShowMore(groups: seq<Group>, width: nat, maxCols: nat, i: nat, r: nat, r': nat)
    requires r <= r'
    ensures Shown(Place(groups, width, maxCols, i, 0, r, false))
         <= Shown(Place(groups, width, maxCols, i, 0, r', false))
    decreases |groups| - i
  {
    hide Place, PlaceOne, Shown;
    ShownStep(groups, width, maxCols, i, 0, r, false);
    ShownStep(groups, width, maxCols, i, 0, r', false);
    if i >= |groups| {
    } else if |groups[i].members| == 0 {
      MoreRowsShowMore(groups, width, maxCols, i + 1, r, r');
    } else if r == 0 || (groups[i].key != [] && r < 2) {
    } else {
      OneGrows(groups, width, maxCols, i, 0, r, r');
      var g, g' := PlaceOne(groups, width, maxCols, i, 0, r), PlaceOne(groups, width, maxCols, i, 0, r');
      if g.count < |groups[i].members| {
        PlaceExhausted(groups, width, maxCols, i + 1, 0, false);
      } else {
        MoreRowsShowMore(groups, width, maxCols, i + 1, r - g.rows - Heading(g), r' - g'.rows - Heading(g'));
      }
    }
  }

  /** Being the first group placed never hides candidates. */
  lemma FirstShowsMore(groups: seq<Group>, width: nat, maxCols: nat, i: nat, r: nat)
    ensures Shown(Place(groups, width, maxCols, i, 0, r, false))
         <= Shown(Place(groups, width, maxCols, i, 0, r, true))
    decreases |groups| - i
  {
    if i < |groups| && |groups[i].members| == 0 {
      FirstShowsMore(groups, width, maxCols, i + 1, r);
    }
  }

  /** One member fewer: a group shown whole stays whole in no more rows, a cut one shows at most one fewer. */
  lemma OneShrinks(groups: seq<Group>, width: nat, maxCols: nat, i: nat, offset: nat, r: nat)
    requires i < |groups| && offset + 1 < |groups[i].members| && r >= 1
    ensures var g, g' := PlaceOne(groups, width, maxCols, i, offset, r), PlaceOne(groups, width, maxCols, i, offset + 1, r);
            var rest := |groups[i].members| - offset;
            && g'.rows + Heading(g') <= r
            && (g.count < rest ==> g.count <= 1 + g'.count)
            && (g.count == rest ==> g'.count == rest - 1 && g'.rows + Heading(g') <= g.rows + Heading(g))
  {
    var g, g' := PlaceOne(groups, width, maxCols, i, offset, r), PlaceOne(groups, width, maxCols, i, offset + 1, r);
    assert Heading(g) == Heading(g');
    hide PlaceOne, Columns, ColumnWidth, DivCeil;
    OneHolds(groups, width, maxCols, i, offset, r);
    OneHolds(groups, width, maxCols, i, offset + 1, r);
    var c := Columns(ColumnWidth(width, groups[i].maxWidth), width, maxCols);
    DivCeilBounds(|groups[i].members| - offset, c);
    DivCeilLeast(|groups[i].members| - offset - 1, c, g.rows);
  }

  lemma OneTakes(groups: seq<Group>, width: nat, maxCols: nat, i: nat, offset: nat, r: nat)
    requires i < |groups| && offset < |groups[i].members| && r >= 1
    ensures var g := PlaceOne(groups, width, maxCols, i, offset, r);
            var rest := |groups[i].members| - offset;
            && 1 <= g.count <= rest && g.rows + Heading(g) <= r
            && (g.count < rest ==> g.rows + Heading(g) == r)
  {
    hide GridDims, Columns, ColumnWidth, DivCeil;
    OneHolds(groups, width, maxCols, i, offset, r);
  }

  /** Dropping a group's last shown member, or one of several, when the window starts inside it. */
  lemma EndStepInside(groups: seq<Group>, width: nat, maxCols: nat, i: nat, offset: nat, r: nat)
    requires r >= 1 && i < |groups| && offset < |groups[i].members|
    ensures Shown(Place(groups, width, maxCols, i, offset, r, true)) >= 1
    ensures Shown(Place(groups, width, maxCols, i, offset, r, true))
         <= 1 + Shown(Place(groups, width, maxCols, i, offset + 1, r, true))
  {
    hide *;
    var members := groups[i].members;
    ShownStep(groups, width, maxCols, i, offset, r, true);
    ShownStep(groups, width, maxCols, i, offset + 1, r, true);
    OneTakes(groups, width, maxCols, i, offset, r);
    var g := PlaceOne(groups, width, maxCols, i, offset, r);
    var left := r - g.rows - Heading(g);
    MinusIs(r, g.rows + Heading(g));
    if offset + 1 == |members| {
      MoreRowsShowMore(groups, width, maxCols, i + 1, left, r);
      FirstShowsMore(groups, width, maxCols, i + 1, r);
    } else {
      OneShrinks(groups, width, maxCols, i, offset, r);
      OneTakes(groups, width, maxCols, i, offset + 1, r);
      var g' := PlaceOne(groups, width, maxCols, i, offset + 1, r);
      MinusIs(r, g'.rows + Heading(g'));
      if g.count < |members| - offset {
        PlaceExhausted(groups, width, maxCols, i + 1, 0, false);
      } else {
        MoreRowsShowMore(groups, width, maxCols, i + 1, left, r - g'.rows - Heading(g'));
      }
    }
  }

  lemma MinusIs(a: nat, b: nat)
    requires b <= a
    ensures Minus(a, b) == a - b
  {
  }

  /** Dropping one candidate from the front of a window never moves its end back. */
  lemma {:induction false} EndStep(groups: seq<Group>, width: nat, maxCols: nat, i: nat, offset: nat, r: nat)
    requires r >= 1 && i <= |groups| && offset < |Flatten(groups[i..])|
    ensures Shown(Place(groups, width, maxCols, i, offset, r, true)) >= 1
    ensures Shown(Place(groups, width, maxCols, i, offset, r, true))
         <= 1 + Shown(Place(groups, width, maxCols, i, offset + 1, r, true))
    decreases |groups| - i
  {
    hide *;
    if i == |groups| {
      FlattenNothing(groups);
    }
    var members := groups[i].members;
    FlattenStep(groups, i);
    if offset >= |members| {
      ShownStep(groups, width, maxCols, i, offset, r, true);
      ShownStep(groups, width, maxCols, i, offset + 1, r, true);
      EndStep(groups, width, maxCols, i + 1, offset - |members|, r);
    } else {
      EndStepInside(groups, width, maxCols, i, offset, r);
    }
  }

  /** The window end never moves back as the window starts later, across group, heading and ragged-grid boundaries. */
  lemma {:induction false} EndMonotone(groups: seq<Group>, budget: nat, width: nat, s: nat, t: nat)
    requires budget >= 1 && s <= t <= |Flatten(groups)|
    ensures End(groups, budget, width, s) <= End(groups, budget, width, t)
    decreases t - s
  {
    if s < t {
      assert groups[0..] == groups;
      EndStep(groups, width, MAX_COLS, 0, s, budget);
      EndMonotone(groups, budget, width, s + 1, t);
    }
  }

  /** A window that starts before the end of the list shows something, and never shows past the list. */
  lemma EndBounds(groups: seq<Group>, budget: nat, width: nat, s: nat)
    requires budget >= 1 && s <= |Flatten(groups)|
    ensures s <= End(groups, budget, width, s) <= |Flatten(groups)|
    ensures s < |Flatten(groups)| ==> s < End(groups, budget, width, s)
    ensures var gs := Window(groups, budget, width, Grid, s);
            && Sound(groups, gs)
            && Positions(groups, gs) == Flatten(groups)[s..End(groups, budget, width, s)]
  {
    assert groups[0..] == groups;
    PlaceShowsSlice(groups, width, MAX_COLS, 0, s, budget, true);
    ShownIsPositions(groups, Window(groups, budget, width, Grid, s));
    if s < |Flatten(groups)| {
      EndStep(groups, width, MAX_COLS, 0, s, budget);
    }
  }

  // ----- What a window leaves out -----

  /** Behind the first `shown` members from group `i` on, the list goes on with a group that has a heading. */
  ghost predicate HeadedNext(groups: seq<Group>, i: nat, shown: nat)
    requires i <= |groups|
  {
    exists k :: i <= k < |groups| && HeadedAt(groups, i, shown, k)
  }

  ghost predicate HeadedAt(groups: seq<Group>, i: nat, shown: nat, k: nat)
    requires i <= k < |groups|
  {
    groups[k].key != [] && groups[k].members != [] && |Flatten(groups[i..k])| == shown
  }

  lemma HeadedLater(groups: seq<Group>, i: nat, shown: nat)
    requires i < |groups| && HeadedNext(groups, i + 1, shown)
    ensures HeadedNext(groups, i, |groups[i].members| + shown)
  {
    hide Flatten;
    var k :| i + 1 <= k < |groups| && HeadedAt(groups, i + 1, shown, k);
    FlattenStep(groups[..k], i);
    assert groups[..k][i..] == groups[i..k] && groups[..k][i + 1..] == groups[i + 1..k];
    assert HeadedAt(groups, i, |groups[i].members| + shown, k);
  }

  /** The rows are used up, or one is left where only the heading of the next group would go, or nothing is left to show. */
  ghost predicate Filled(groups: seq<Group>, i: nat, offset: nat, remaining: nat, first: bool, gs: seq<GroupGeometry>)
    requires i <= |groups|
  {
    || offset + Shown(gs) == |Flatten(groups[i..])|
    || RowsOf(gs) == remaining
    || (RowsOf(gs) + 1 == remaining && (gs != [] || !first) && HeadedNext(groups, i, offset + Shown(gs)))
  }

  /** A window never stops while there is a row for the next candidate. */
  lemma {:induction false} PlaceFills(
    groups: seq<Group>, width: nat, maxCols: nat, i: nat, offset: nat, remaining: nat, first: bool)
    requires i <= |groups| && offset <= |Flatten(groups[i..])| && (!first ==> offset == 0)
    ensures Filled(groups, i, offset, remaining, first, Place(groups, width, maxCols, i, offset, remaining, first))
    decreases |groups| - i, 1
  {
    hide *;
    PlaceUnfolds(groups, width, maxCols, i, offset, remaining, first);
    if i >= |groups| || (offset < |groups[i].members| && remaining == 0) {
      NothingFills(groups, i, offset, remaining, first);
    } else if offset >= |groups[i].members| {
      FlattenStep(groups, i);
      var skipped := offset - |groups[i].members|;
      PlaceFills(groups, width, maxCols, i + 1, skipped, remaining, first);
      FilledLater(groups, i, offset, remaining, first, Place(groups, width, maxCols, i + 1, skipped, remaining, first));
    } else if groups[i].key != [] && remaining < 2 && !first {
      HeadingFills(groups, i);
    } else {
      PlaceFillsOne(groups, width, maxCols, i, offset, remaining, first);
    }
  }

  lemma PlaceFillsOne(
    groups: seq<Group>, width: nat, maxCols: nat, i: nat, offset: nat, remaining: nat, first: bool)
    requires i < |groups| && offset < |groups[i].members| && remaining > 0
    requires groups[i].key == [] || remaining >= 2 || first
    ensures Filled(groups, i, offset, remaining, first, Place(groups, width, maxCols, i, offset, remaining, first))
    decreases |groups| - i, 0
  {
    hide *;
    PlaceTakes(groups, width, maxCols, i, offset, remaining, first);
    OneRest(groups, width, maxCols, i, offset, remaining);
    var g := PlaceOne(groups, width, maxCols, i, offset, remaining);
    var left := remaining - g.rows - Heading(g);
    MinusIs(remaining, g.rows + Heading(g));
    PlaceFills(groups, width, maxCols, i + 1, 0, left, false);
    PlaceExhausted(groups, width, maxCols, i + 1, 0, false);
    OneFilled(groups, i, offset, remaining, first, g, Place(groups, width, maxCols, i + 1, 0, left, false));
  }

  lemma NothingFills(groups: seq<Group>, i: nat, offset: nat, remaining: nat, first: bool)
    requires i <= |groups| && offset <= |Flatten(groups[i..])| && (i == |groups| || remaining == 0)
    ensures Filled(groups, i, offset, remaining, first, [])
  {
    if i == |groups| {
      FlattenNothing(groups);
    }
  }

  lemma HeadingFills(groups: seq<Group>, i: nat)
    requires i < |groups| && groups[i].key != [] && groups[i].members != []
    ensures Filled(groups, i, 0, 1, false, [])
  {
    assert groups[i..i] == [];
    assert HeadedAt(groups, i, 0, i);
  }

  lemma FilledLater(groups: seq<Group>, i: nat, offset: nat, remaining: nat, first: bool, gs: seq<GroupGeometry>)
    requires i < |groups| && offset >= |groups[i].members|
    requires Filled(groups, i + 1, offset - |groups[i].members|, remaining, first, gs)
    ensures Filled(groups, i, offset, remaining, first, gs)
  {
    hide Flatten, Shown, RowsOf, HeadedNext;
    FlattenStep(groups, i);
    var shown := offset - |groups[i].members| + Shown(gs);
    if HeadedNext(groups, i + 1, shown) {
      HeadedLater(groups, i, shown);
    }
  }

  lemma OneFilled(
    groups: seq<Group>, i: nat, offset: nat, remaining: nat, first: bool, g: GroupGeometry, rest: seq<GroupGeometry>)
    requires i < |groups| && offset + g.count <= |groups[i].members| && g.rows + Heading(g) <= remaining
    requires offset + g.count < |groups[i].members| ==> g.rows + Heading(g) == remaining
    requires g.rows + Heading(g) == remaining ==> rest == []
    requires g.rows + Heading(g) < remaining ==> Filled(groups, i + 1, 0, remaining - g.rows - Heading(g), false, rest)
    ensures Filled(groups, i, offset, remaining, first, [g] + rest)
  {
    hide Flatten, HeadedNext;
    assert ([g] + rest)[1..] == rest;
    assert Shown([g] + rest) == g.count + Shown(rest) && RowsOf([g] + rest) == g.rows + Heading(g) + RowsOf(rest);
    FlattenStep(groups, i);
    if HeadedNext(groups, i + 1, Shown(rest)) {
      HeadedLater(groups, i, Shown(rest));
    }
  }

  /** A group has its heading whenever it has a key, but for a first group that gets a single row. */
  lemma {:induction false} PlaceHeadings(
    groups: seq<Group>, width: nat, maxCols: nat, i: nat, offset: nat, remaining: nat, first: bool, k: nat)
    requires k < |Place(groups, width, maxCols, i, offset, remaining, first)|
    ensures var g := Place(groups, width, maxCols, i, offset, remaining, first)[k];
            && g.group < |groups|
            && (g.showHeading <==> groups[g.group].key != [] && (k > 0 || !first || remaining >= 2))
            && 1 <= g.cols <= Max(maxCols, 1)
    decreases |groups| - i
  {
    hide PlaceOne;
    if offset >= |groups[i].members| {
      PlaceHeadings(groups, width, maxCols, i + 1, offset - |groups[i].members|, remaining, first, k);
    } else {
      OneHeaded(groups, width, maxCols, i, offset, remaining);
      if k > 0 {
        var g := PlaceOne(groups, width, maxCols, i, offset, remaining);
        PlaceHeadings(groups, width, maxCols, i + 1, 0, Minus(remaining, g.rows + Heading(g)), false, k - 1);
      }
    }
  }

  lemma OneHeaded(groups: seq<Group>, width: nat, maxCols: nat, i: nat, offset: nat, remaining: nat)
    requires i < |groups| && offset < |groups[i].members| && remaining >= 1
    ensures var g := PlaceOne(groups, width, maxCols, i, offset, remaining);
            g.group == i && (g.showHeading <==> groups[i].key != [] && remaining >= 2) && 1 <= g.cols <= Max(maxCols, 1)
  {
    var show := groups[i].key != [] && remaining >= 2;
    DimsHold(ColumnWidth(width, groups[i].maxWidth), width, |groups[i].members| - offset,
             remaining - (if show then 1 else 0), maxCols);
  }

  /**
   What a window holds: it stops only where the list ends, its rows do, or one row is left and a group with a heading is
   next. Every group with a key has its heading, but for the first of a one-row window. A history has one column, a
   completion at most eight.
   */
  lemma WindowFills(groups: seq<Group>, budget: nat, width: nat, style: Style, offset: nat)
    requires offset <= |Flatten(groups)|
    ensures var gs := Window(groups, budget, width, style, offset);
            && Filled(groups, 0, offset, budget, true, gs)
            && forall k :: 0 <= k < |gs| ==>
                 && gs[k].group < |groups|
                 && (gs[k].showHeading <==> groups[gs[k].group].key != [] && (k > 0 || budget >= 2))
                 && 1 <= gs[k].cols <= if style.History? then 1 else 8
  {
    hide Place, Filled, Flatten;
    assert groups[0..] == groups;
    PlaceFills(groups, width, style.MaxCols(), 0, offset, budget, true);
    var gs := Window(groups, budget, width, style, offset);
    forall k | 0 <= k < |gs|
      ensures gs[k].group < |groups|
      ensures gs[k].showHeading <==> groups[gs[k].group].key != [] && (k > 0 || budget >= 2)
      ensures 1 <= gs[k].cols <= if style.History? then 1 else 8
    {
      PlaceHeadings(groups, width, style.MaxCols(), 0, offset, budget, true, k);
    }
  }
}
