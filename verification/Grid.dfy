/** Rendering placed groups into rows of cells (src/layout.rs `render_grid`). */
module Grid {
  import opened Bytes
  import opened Lossy
  import opened Spans
  import opened Groups
  import opened Geometry

  /** Display text of one candidate, and the character offsets that belong to it. */
  datatype CellSource = CellSource(text: Bytes, numberRange: Option<CharSpan>, matchOffset: Option<nat>)

  datatype HeadingMark = HeadingMark(row: nat, len: nat)

  datatype CellMark = CellMark(row: nat, inRowStart: nat, contentChars: nat, candidate: nat, pos: nat)

  datatype GroupBounds = GroupBounds(start: nat, end: nat, rows: nat)

  datatype GridState = GridState(
    rows: seq<Bytes>, rowLens: seq<nat>, headingMarks: seq<HeadingMark>, cellMarks: seq<CellMark>,
    bounds: seq<GroupBounds>, positions: seq<nat>)

  // ---- the picture: what each row shows ----

  datatype Cell = Cell(cut: Cut, candidate: nat, pos: nat)

  datatype Line = Title(title: Cut) | Cells(cells: seq<Cell>, column: nat)

  /** The text of a row: cells padded to the column width, with gutters between them. */
  function RowText(cells: seq<Cell>, column: nat): Bytes {
    if cells == [] then []
    else
      var last := cells[|cells| - 1].cut;
      RowText(cells[..|cells| - 1], column) + Repeat(SPACE, Gutter(cells)) + last.content
      + Repeat(SPACE, Minus(column, last.width))
  }

  function Gutter(cells: seq<Cell>): nat { if |cells| > 1 then GUTTER else 0 }

  /** The character count the grid phase keeps for a row. */
  function RowChars(cells: seq<Cell>, column: nat): nat {
    if cells == [] then 0
    else
      var last := cells[|cells| - 1].cut;
      RowChars(cells[..|cells| - 1], column) + Gutter(cells) + last.chars + Minus(column, last.width)
  }

  /** Character offset in its row of the last cell's content. */
  function LastStart(cells: seq<Cell>, column: nat): nat
    requires cells != []
  {
    RowChars(cells[..|cells| - 1], column) + Gutter(cells)
  }

  function LineText(line: Line): Bytes {
    match line
    case Title(title) => title.content
    case Cells(cells, column) => RowText(cells, column)
  }

  function LineChars(line: Line): nat {
    match line
    case Title(title) => title.chars
    case Cells(cells, column) => RowChars(cells, column)
  }

  function RowMarks(cells: seq<Cell>, column: nat, row: nat): (marks: seq<CellMark>)
    ensures |marks| == |cells|
  {
    if cells == [] then []
    else
      var last := cells[|cells| - 1];
      RowMarks(cells[..|cells| - 1], column, row)
      + [CellMark(row, LastStart(cells, column), last.cut.chars, last.candidate, last.pos)]
  }

  function Texts(lines: seq<Line>): (r: seq<Bytes>)
    ensures |r| == |lines|
  {
    seq(|lines|, k requires 0 <= k < |lines| => LineText(lines[k]))
  }

  function Lens(lines: seq<Line>): (r: seq<nat>)
    ensures |r| == |lines|
  {
    seq(|lines|, k requires 0 <= k < |lines| => LineChars(lines[k]))
  }

  function HeadingMarks(lines: seq<Line>): seq<HeadingMark> {
    if lines == [] then []
    else
      var last := lines[|lines| - 1];
      HeadingMarks(lines[..|lines| - 1])
      + if last.Title? then [HeadingMark(|lines| - 1, last.title.chars)] else []
  }

  function CellMarks(lines: seq<Line>): seq<CellMark> {
    if lines == [] then []
    else
      var last := lines[|lines| - 1];
      CellMarks(lines[..|lines| - 1])
      + if last.Cells? then RowMarks(last.cells, last.column, |lines| - 1) else []
  }

  // ---- which cells a placed group puts in which row ----

  /** What the grid phase reads besides the placement itself. */
  datatype Scene = Scene(wd: Widths, groups: seq<Group>, sources: seq<CellSource>, width: nat, style: Style) {

    ghost predicate Valid() {
      forall g, i :: 0 <= g < |groups| && 0 <= i < |groups[g].members| ==> groups[g].members[i] < |sources|
    }

    ghost predicate Covers(gs: seq<GroupGeometry>) {
      Valid() && Sound(groups, gs)
    }

    /** The member at a 1-based local position. */
    function Member(g: GroupGeometry, p: nat): (m: nat)
      requires Covers([g]) && 1 <= p <= g.count
      ensures m < |sources|
    {
      assert SoundOne(groups, [g][0]);
      groups[g.group].members[g.first + p - 1]
    }

    function CellAt(g: GroupGeometry, startPos: nat, p: nat): Cell
      requires Covers([g]) && 1 <= p <= g.count && 1 <= startPos
    {
      var candidate := Member(g, p);
      Cell(Truncate(wd, sources[candidate].text, g.width), candidate, startPos + p - 1)
    }

    /** The 1-based row of the column-major fill that is drawn at visual row `v`. */
    function FillRow(g: GroupGeometry, v: nat): nat
      requires v < g.rows
    {
      if style.BottomUp() then g.rows - v else v + 1
    }

    /** Cells of one fill row: the columns before the first that would pass the last member. */
    function RowCells(g: GroupGeometry, startPos: nat, r: nat): seq<Cell>
      requires Covers([g]) && 1 <= startPos && 1 <= r <= g.rows
    {
      var n := RowLength(g, r);
      seq(n, c requires 0 <= c < n => RowInRange(this, g, r, c); CellAt(g, startPos, c * g.rows + r))
    }

    function GroupRows(g: GroupGeometry, startPos: nat, n: nat): seq<Line>
      requires Covers([g]) && 1 <= startPos && n <= g.rows
    {
      seq(n, v requires 0 <= v < n => Cells(RowCells(g, startPos, FillRow(g, v)), g.width))
    }

    function TitleOf(g: GroupGeometry): seq<Line>
      requires Covers([g])
    {
      assert SoundOne(groups, [g][0]);
      if g.showHeading then [Title(Truncate(wd, Normalize(groups[g.group].heading), width))] else []
    }

    /** All rows of a placement. */
    function Picture(gs: seq<GroupGeometry>, startPos: nat): seq<Line>
      requires Covers(gs) && 1 <= startPos
    {
      if gs == [] then []
      else
        assert SoundOne(groups, gs[0]);
        TitleOf(gs[0]) + GroupRows(gs[0], startPos, gs[0].rows) + Picture(gs[1..], startPos + gs[0].count)
    }
  }

  /** How many cells fill row `r` holds: only the last column can be missing. */
  function RowLength(g: GroupGeometry, r: nat): nat {
    if g.cols == 0 then 0
    else if (g.cols - 1) * g.rows + r <= g.count then g.cols else g.cols - 1
  }

  lemma RowInRange(scene: Scene, g: GroupGeometry, r: nat, c: nat)
    requires scene.Covers([g]) && 1 <= r <= g.rows
    ensures c < RowLength(g, r) <==> c < g.cols && c * g.rows + r <= g.count
    ensures c < RowLength(g, r) ==> 1 <= c * g.rows + r
  {
    assert SoundOne(scene.groups, [g][0]);
    if c + 1 < g.cols {
      assert (c + 1) * g.rows <= (g.cols - 1) * g.rows by { MulMonotone(c + 1, g.cols - 1, g.rows); }
      assert (c + 1) * g.rows == c * g.rows + g.rows;
    }
  }

  /** Blanks C0 control bytes and DEL, byte for byte. */
  function Normalize(s: Bytes): (r: Bytes)
    ensures |r| == |s|
    ensures forall i :: 0 <= i < |s| ==> r[i] == if IsControl(s[i]) then SPACE else s[i]
    ensures SameShape(s, r)
  {
    seq(|s|, i requires 0 <= i < |s| => if IsControl(s[i]) then SPACE else s[i])
  }

  predicate IsControl(b: byte) { b < 32 || b == 127 }

  /** One bounds record per position of every placed group. */
  function BoundsOf(gs: seq<GroupGeometry>, startPos: nat): seq<GroupBounds>
    requires startPos >= 1
  {
    if gs == [] then []
    else BoundsOne(gs[0], startPos) + BoundsOf(gs[1..], startPos + gs[0].count)
  }

  function BoundsOne(g: GroupGeometry, startPos: nat): (r: seq<GroupBounds>)
    requires startPos >= 1
    ensures |r| == g.count
  {
    seq(g.count, _ => GroupBounds(startPos, startPos + g.count - 1, g.rows))
  }

  function GridOf(scene: Scene, gs: seq<GroupGeometry>): GridState
    requires scene.Covers(gs)
  {
    var lines := scene.Picture(gs, 1);
    GridState(Texts(lines), Lens(lines), HeadingMarks(lines), CellMarks(lines),
              BoundsOf(gs, 1), Positions(scene.groups, gs))
  }

  // ---- the rendering loops ----

  lemma TruncateWithin(wd: Widths, s: Bytes, budget: nat)
    ensures Truncate(wd, s, budget).width <= budget
  {
    TruncateFits(wd, s, budget);
  }

  lemma EmptyRow(column: nat, row: nat)
    ensures RowText([], column) == [] && RowChars([], column) == 0 && RowMarks([], column, row) == []
  {
  }

  /** What one more cell adds to a row. */
  lemma RowStep(cells: seq<Cell>, cell: Cell, column: nat, row: nat)
    requires cell.cut.width <= column
    ensures var gutter := if cells == [] then 0 else GUTTER;
            && RowText(cells + [cell], column)
               == RowText(cells, column) + Repeat(SPACE, gutter) + cell.cut.content
                  + Repeat(SPACE, column - cell.cut.width)
            && RowChars(cells + [cell], column)
               == RowChars(cells, column) + gutter + cell.cut.chars + (column - cell.cut.width)
            && RowMarks(cells + [cell], column, row)
               == RowMarks(cells, column, row)
                  + [CellMark(row, RowChars(cells, column) + gutter, cell.cut.chars, cell.candidate, cell.pos)]
  {
    assert (cells + [cell])[..|cells|] == cells;
  }

  /** Fills one visual row column by column, stopping at the first empty column. */
  method RenderRow(scene: Scene, g: GroupGeometry, startPos: nat, r: nat, row: nat)
    returns (text: Bytes, chars: nat, marks: seq<CellMark>)
    requires scene.Covers([g]) && 1 <= startPos && 1 <= r <= g.rows
    ensures text == RowText(scene.RowCells(g, startPos, r), g.width)
    ensures chars == RowChars(scene.RowCells(g, startPos, r), g.width)
    ensures marks == RowMarks(scene.RowCells(g, startPos, r), g.width, row)
  {
    hide RowText, RowChars, RowMarks, LastStart, Truncate, RowLength;
    assert SoundOne(scene.groups, [g][0]);
    text, chars, marks := [], 0, [];
    ghost var cells := scene.RowCells(g, startPos, r);
    EmptyRow(g.width, row);
    assert cells[..0] == [];
    var c := 1;
    while c <= g.cols
      invariant 1 <= c <= g.cols + 1 && c - 1 <= |cells|
      invariant text == RowText(cells[..c - 1], g.width)
      invariant chars == RowChars(cells[..c - 1], g.width)
      invariant marks == RowMarks(cells[..c - 1], g.width, row)
      invariant c == g.cols + 1 ==> c - 1 == |cells|
    {
      RowInRange(scene, g, r, c - 1);
      RowInRange(scene, g, r, c);
      var pLocal := (c - 1) * g.rows + r;
      if pLocal > g.count {
        break;
      }
      assert cells[..c] == cells[..c - 1] + [cells[c - 1]];
      if c > 1 {
        text := text + Repeat(SPACE, GUTTER);
        chars := chars + GUTTER;
      }
      var cellStart := chars;
      var candidate := scene.Member(g, pLocal);
      var cut := TruncateToWidth(scene.wd, scene.sources[candidate].text, g.width);
      TruncateWithin(scene.wd, scene.sources[candidate].text, g.width);
      assert cells[c - 1] == Cell(cut, candidate, startPos + pLocal - 1);
      RowStep(cells[..c - 1], cells[c - 1], g.width, row);
      text := text + cut.content;
      var pad := g.width - cut.width;
      text := text + Repeat(SPACE, pad);
      chars := chars + cut.chars + pad;
      marks := marks + [CellMark(row, cellStart, cut.chars, candidate, startPos + pLocal - 1)];
      c := c + 1;
    }
    assert cells[..|cells|] == cells;
  }

  /** The grid state's rows and marks are those of these lines. */
  ghost predicate Draws(grid: GridState, lines: seq<Line>) {
    && grid.rows == Texts(lines) && grid.rowLens == Lens(lines)
    && grid.headingMarks == HeadingMarks(lines) && grid.cellMarks == CellMarks(lines)
  }

  lemma TitleStep(grid: GridState, lines: seq<Line>, title: Cut)
    requires Draws(grid, lines)
    ensures Draws(grid.(rows := grid.rows + [title.content], rowLens := grid.rowLens + [title.chars],
                        headingMarks := grid.headingMarks + [HeadingMark(|grid.rows|, title.chars)]),
                  lines + [Title(title)])
  {
    assert (lines + [Title(title)])[..|lines|] == lines;
  }

  lemma CellsStep(grid: GridState, lines: seq<Line>, cells: seq<Cell>, column: nat)
    requires Draws(grid, lines)
    ensures Draws(grid.(rows := grid.rows + [RowText(cells, column)],
                        rowLens := grid.rowLens + [RowChars(cells, column)],
                        cellMarks := grid.cellMarks + RowMarks(cells, column, |grid.rows|)),
                  lines + [Cells(cells, column)])
  {
    hide RowText, RowChars, RowMarks;
    assert (lines + [Cells(cells, column)])[..|lines|] == lines;
  }

  lemma NoLines(grid: GridState)
    requires grid == GridState([], [], [], [], [], [])
    ensures Draws(grid, [])
  {
  }

  lemma OnlyRows(a: GridState, b: GridState, lines: seq<Line>)
    requires a.rows == b.rows && a.rowLens == b.rowLens && a.headingMarks == b.headingMarks && a.cellMarks == b.cellMarks
    ensures Draws(a, lines) == Draws(b, lines)
  {
  }

  /** Draws one placed group after the rows drawn so far. */
  method RenderGroup(scene: Scene, g: GroupGeometry, before: GridState, ghost lines: seq<Line>)
    returns (after: GridState)
    requires scene.Covers([g]) && SoundOne(scene.groups, g)
    requires Draws(before, lines)
    ensures Draws(after, lines + scene.TitleOf(g) + scene.GroupRows(g, |before.positions| + 1, g.rows))
    ensures after.positions
         == before.positions + scene.groups[g.group].members[g.first..g.first + g.count]
    ensures after.bounds == before.bounds + BoundsOne(g, |before.positions| + 1)
  {
    hide Draws, RowText, RowChars, RowMarks, Scene.RowCells, RowLength, Truncate;
    after := before;
    if g.showHeading {
      var title := TruncateToWidth(scene.wd, Normalize(scene.groups[g.group].heading), scene.width);
      TitleStep(after, lines, title);
      after := after.(rows := after.rows + [title.content], rowLens := after.rowLens + [title.chars],
                      headingMarks := after.headingMarks + [HeadingMark(|after.rows|, title.chars)]);
    } else {
      assert lines + [] == lines;
    }
    ghost var drawn := lines + scene.TitleOf(g);
    var startPos := |before.positions| + 1;
    assert drawn + scene.GroupRows(g, startPos, 0) == drawn;
    for visualRow := 0 to g.rows
      invariant Draws(after, drawn + scene.GroupRows(g, startPos, visualRow))
      invariant after.positions == before.positions && after.bounds == before.bounds
    {
      ghost var done := drawn + scene.GroupRows(g, startPos, visualRow);
      var r := scene.FillRow(g, visualRow);
      var text, chars, marks := RenderRow(scene, g, startPos, r, |after.rows|);
      CellsStep(after, done, scene.RowCells(g, startPos, r), g.width);
      assert drawn + scene.GroupRows(g, startPos, visualRow + 1)
          == done + [Cells(scene.RowCells(g, startPos, r), g.width)];
      after := after.(rows := after.rows + [text], rowLens := after.rowLens + [chars],
                      cellMarks := after.cellMarks + marks);
    }
    ghost var rendered := after;
    after := after.(positions := after.positions + scene.groups[g.group].members[g.first..g.first + g.count]);
    var bounds := GroupBounds(startPos, |after.positions|, g.rows);
    after := after.(bounds := after.bounds + seq(g.count, _ => bounds));
    OnlyRows(after, rendered, drawn + scene.GroupRows(g, startPos, g.rows));
  }

  /** After `k` groups: the lines so far, and what the remaining groups still add. */
  ghost predicate Drawn(scene: Scene, gs: seq<GroupGeometry>, k: nat, grid: GridState, lines: seq<Line>)
    requires scene.Covers(gs) && k <= |gs|
  {
    var next := |grid.positions| + 1;
    && scene.Picture(gs, 1) == lines + scene.Picture(gs[k..], next)
    && BoundsOf(gs, 1) == grid.bounds + BoundsOf(gs[k..], next)
    && Positions(scene.groups, gs) == grid.positions + Positions(scene.groups, gs[k..])
  }

  lemma DrawnStart(scene: Scene, gs: seq<GroupGeometry>)
    requires scene.Covers(gs)
    ensures Drawn(scene, gs, 0, GridState([], [], [], [], [], []), [])
  {
    hide Scene.Picture, BoundsOf, Positions;
    assert gs[0..] == gs;
  }

  lemma DrawnStep(scene: Scene, gs: seq<GroupGeometry>, k: nat, grid: GridState, grid': GridState, lines: seq<Line>)
    requires scene.Covers(gs) && k < |gs| && Drawn(scene, gs, k, grid, lines) && SoundOne(scene.groups, gs[k])
    requires var g := gs[k];
             && grid'.positions == grid.positions + scene.groups[g.group].members[g.first..g.first + g.count]
             && grid'.bounds == grid.bounds + BoundsOne(g, |grid.positions| + 1)
    ensures Drawn(scene, gs, k + 1, grid',
                  lines + scene.TitleOf(gs[k]) + scene.GroupRows(gs[k], |grid.positions| + 1, gs[k].rows))
  {
    hide Scene.TitleOf, Scene.GroupRows, BoundsOne;
    assert gs[k..][0] == gs[k] && gs[k..][1..] == gs[k + 1..];
  }

  lemma DrawnEnd(scene: Scene, gs: seq<GroupGeometry>, grid: GridState, lines: seq<Line>)
    requires scene.Covers(gs) && Drawn(scene, gs, |gs|, grid, lines) && Draws(grid, lines)
    ensures grid == GridOf(scene, gs)
  {
    hide Texts, Lens, HeadingMarks, CellMarks;
    assert gs[|gs|..] == [] && lines + [] == lines;
  }

  /** One more group drawn keeps both views of the grid. */
  lemma GroupDrawn(scene: Scene, gs: seq<GroupGeometry>, k: nat, grid: GridState, next: GridState, lines: seq<Line>)
    returns (after: seq<Line>)
    requires scene.Covers(gs) && k < |gs| && Drawn(scene, gs, k, grid, lines) && SoundOne(scene.groups, gs[k])
    requires var g := gs[k];
             && next.positions == grid.positions + scene.groups[g.group].members[g.first..g.first + g.count]
             && next.bounds == grid.bounds + BoundsOne(g, |grid.positions| + 1)
             && Draws(next, lines + scene.TitleOf(g) + scene.GroupRows(g, |grid.positions| + 1, g.rows))
    ensures Draws(next, after) && Drawn(scene, gs, k + 1, next, after)
  {
    DrawnStep(scene, gs, k, grid, next, lines);
    after := lines + scene.TitleOf(gs[k]) + scene.GroupRows(gs[k], |grid.positions| + 1, gs[k].rows);
  }

  method RenderGrid(scene: Scene, budget: nat, offset: nat) returns (grid: GridState)
    requires scene.Valid()
    ensures scene.Covers(Window(scene.groups, budget, scene.width, scene.style, offset))
    ensures grid == GridOf(scene, Window(scene.groups, budget, scene.width, scene.style, offset))
  {
    var gs := WindowGeometry(scene.groups, budget, scene.width, scene.style, offset);
    PlaceSound(scene.groups, scene.width, scene.style.MaxCols(), 0, offset, budget, true);
    assert scene.Covers(gs);
    hide Place, Window, Draws, Drawn, GridOf, Scene.TitleOf, Scene.GroupRows, Scene.Valid, Positions, BoundsOne, SoundOne;
    grid := GridState([], [], [], [], [], []);
    ghost var lines: seq<Line> := [];
    NoLines(grid);
    DrawnStart(scene, gs);
    for k := 0 to |gs|
      invariant Draws(grid, lines)
      invariant Drawn(scene, gs, k, grid, lines)
    {
      assert SoundOne(scene.groups, gs[k]);
      CoversOne(scene, gs, k);
      var next := RenderGroup(scene, gs[k], grid, lines);
      lines := GroupDrawn(scene, gs, k, grid, next, lines);
      grid := next;
    }
    DrawnEnd(scene, gs, grid, lines);
  }

  lemma CoversOne(scene: Scene, gs: seq<GroupGeometry>, k: nat)
    requires scene.Covers(gs) && k < |gs|
    ensures scene.Covers([gs[k]]) && SoundOne(scene.groups, gs[k])
  {
    hide SoundOne;
  }
}
