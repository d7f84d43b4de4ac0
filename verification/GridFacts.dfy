/** What the rendered rows look like: character counts, widths, and every position exactly once. */
module GridFacts {
  import opened Bytes
  import opened Lossy
  import opened Geometry
  import opened Grid

  // ---- reading one row ----

  const BLANK: Char := Scalar([SPACE])

  function Blanks(n: nat): (r: seq<Char>)
    ensures |r| == n
  {
    seq(n, _ => BLANK)
  }

  lemma {:induction false} SpacesRead(n: nat, t: Bytes)
    ensures Chars(Repeat(SPACE, n) + t) == Blanks(n) + Chars(t)
  {
    if n == 0 {
      assert Repeat(SPACE, 0) + t == t && Blanks(0) + Chars(t) == Chars(t);
    } else {
      assert Repeat(SPACE, n) + t == [SPACE] + (Repeat(SPACE, n - 1) + t);
      assert Blanks(n) + Chars(t) == [BLANK] + (Blanks(n - 1) + Chars(t));
      hide *;
      SpacesRead(n - 1, t);
      AsciiFirst(SPACE, Repeat(SPACE, n - 1) + t);
    }
  }

  /** The counts in a cut are those of its content, and the content fits the column. */
  ghost predicate CutReads(wd: Widths, cut: Cut, column: nat) {
    cut.chars == Count(cut.content) && cut.width == DisplayWidth(wd, cut.content) <= column
  }

  ghost predicate CellsRead(wd: Widths, cells: seq<Cell>, column: nat) {
    forall j :: 0 <= j < |cells| ==> CutReads(wd, cells[j].cut, column)
  }

  /** A row reads as its cells read: truncation, padding and gutters never merge characters. */
  lemma RowReads(cells: seq<Cell>, column: nat)
    requires cells != []
    ensures var front, last := cells[..|cells| - 1], cells[|cells| - 1].cut;
            Chars(RowText(cells, column))
            == Chars(RowText(front, column)) + Blanks(Gutter(cells)) + Chars(last.content)
               + Blanks(Minus(column, last.width))
  {
    var front, last := cells[..|cells| - 1], cells[|cells| - 1].cut;
    var head, gap, pad := RowText(front, column), Repeat(SPACE, Gutter(cells)), Repeat(SPACE, Minus(column, last.width));
    assert |cells| > 1 || (head == [] && gap == []);
    CellReads(head, |gap|, last.content, |pad|);
    hide Chars;
  }

  lemma CellReads(head: Bytes, gap: nat, content: Bytes, pad: nat)
    requires gap == 0 ==> head == []
    ensures Chars(head + Repeat(SPACE, gap) + content + Repeat(SPACE, pad))
         == Chars(head) + Blanks(gap) + Chars(content) + Blanks(pad)
  {
    hide *;
    var gaps, pads := Repeat(SPACE, gap), Repeat(SPACE, pad);
    NoChars();
    if pad > 0 {
      SpacesDetached(pad, []);
    }
    NothingDetached();
    var front := head + gaps + content;
    assert pads + [] == pads && Blanks(pad) + [] == Blanks(pad);
    CharsConcat(front, pads);
    SpacesRead(pad, []);
    GapReads(head, gap, content);
  }

  lemma GapReads(head: Bytes, gap: nat, content: Bytes)
    requires gap == 0 ==> head == []
    ensures Chars(head + Repeat(SPACE, gap) + content) == Chars(head) + Blanks(gap) + Chars(content)
  {
    hide *;
    var gaps := Repeat(SPACE, gap);
    NoChars();
    SpacesRead(gap, content);
    if gap > 0 {
      SpacesDetached(gap, content);
      CharsConcat(head, gaps + content);
      assert head + gaps + content == head + (gaps + content);
    } else {
      assert head + gaps + content == gaps + content;
    }
  }

  lemma NothingDetached()
    ensures Detached([])
  {
  }

  lemma NoChars()
    ensures Chars([]) == []
  {
  }

  lemma SpacesDetached(n: nat, t: Bytes)
    requires n > 0
    ensures Detached(Repeat(SPACE, n) + t)
  {
  }

  lemma {:induction false} RowCounts(wd: Widths, cells: seq<Cell>, column: nat)
    requires CellsRead(wd, cells, column)
    ensures Count(RowText(cells, column)) == RowChars(cells, column)
  {
    if cells != [] {
      RowReads(cells, column);
      RowCounts(wd, cells[..|cells| - 1], column);
      assert CutReads(wd, cells[|cells| - 1].cut, column);
      hide RowText, Chars;
    }
  }

  lemma {:induction false} BlanksWidth(wd: Widths, n: nat)
    requires wd(BLANK) == 1
    ensures WidthOf(wd, Blanks(n)) == n
  {
    if n > 0 {
      BlanksWidth(wd, n - 1);
      assert Blanks(n)[..n - 1] == Blanks(n - 1);
    }
  }

  /** Padding makes every cell exactly as wide as its column. */
  lemma {:induction false} RowWidth(wd: Widths, cells: seq<Cell>, column: nat)
    requires wd(BLANK) == 1 && CellsRead(wd, cells, column)
    ensures DisplayWidth(wd, RowText(cells, column)) == |cells| * column + Minus(|cells|, 1) * GUTTER
  {
    if cells != [] {
      var front, last := cells[..|cells| - 1], cells[|cells| - 1].cut;
      RowReads(cells, column);
      RowWidth(wd, front, column);
      assert CutReads(wd, last, column);
      var a, b, c, d := Chars(RowText(front, column)), Blanks(Gutter(cells)), Chars(last.content), Blanks(Minus(column, last.width));
      BlanksWidth(wd, |b|);
      BlanksWidth(wd, |d|);
      hide *;
      WidthConcat(wd, a + b + c, d);
      WidthConcat(wd, a + b, c);
      WidthConcat(wd, a, b);
      RowWidthStep(|cells|, column);
    }
  }

  lemma RowWidthStep(n: nat, column: nat)
    requires n >= 1
    ensures n * column + Minus(n, 1) * GUTTER
         == (n - 1) * column + Minus(n - 1, 1) * GUTTER + (if n > 1 then GUTTER else 0) + column
  {
  }

  /** A mark selects, in its row's characters, exactly the characters of this content. */
  ghost predicate MarkReads(text: Bytes, m: CellMark, content: Bytes) {
    && m.contentChars == Count(content)
    && m.inRowStart + m.contentChars <= Count(text)
    && Chars(text)[m.inRowStart..m.inRowStart + m.contentChars] == Chars(content)
  }

  lemma {:induction false} RowMarksRead(wd: Widths, cells: seq<Cell>, column: nat, row: nat, j: nat)
    requires CellsRead(wd, cells, column) && j < |cells|
    ensures var m := RowMarks(cells, column, row)[j];
            && m.row == row && m.candidate == cells[j].candidate && m.pos == cells[j].pos
            && MarkReads(RowText(cells, column), m, cells[j].cut.content)
  {
    var front, last := cells[..|cells| - 1], cells[|cells| - 1];
    assert CutReads(wd, last.cut, column);
    if j < |front| {
      RowMarksRead(wd, front, column, row, j);
      EarlierMarkReads(cells, column, RowMarks(front, column, row)[j], cells[j].cut.content);
    } else {
      LastMarkReads(wd, cells, column, row);
    }
    hide RowText, RowChars, Chars, MarkReads;
  }

  /** A mark of the row so far still reads the same after another cell. */
  lemma EarlierMarkReads(cells: seq<Cell>, column: nat, m: CellMark, content: Bytes)
    requires cells != [] && MarkReads(RowText(cells[..|cells| - 1], column), m, content)
    ensures MarkReads(RowText(cells, column), m, content)
  {
    hide RowText, Chars, Blanks, Gutter;
    var last := cells[|cells| - 1];
    RowReads(cells, column);
    var head, whole := Chars(RowText(cells[..|cells| - 1], column)), Chars(RowText(cells, column));
    var rest := Blanks(Gutter(cells)) + Chars(last.cut.content) + Blanks(Minus(column, last.cut.width));
    assert whole == head + rest;
    SliceOfPrefix(head, rest, m.inRowStart, m.contentChars);
  }

  lemma LastMarkReads(wd: Widths, cells: seq<Cell>, column: nat, row: nat)
    requires cells != [] && CellsRead(wd, cells, column)
    ensures MarkReads(RowText(cells, column), RowMarks(cells, column, row)[|cells| - 1], cells[|cells| - 1].cut.content)
  {
    var front, last := cells[..|cells| - 1], cells[|cells| - 1];
    RowReads(cells, column);
    RowCounts(wd, front, column);
    assert CutReads(wd, last.cut, column);
    var m := RowMarks(cells, column, row)[|cells| - 1];
    assert m.inRowStart == RowChars(front, column) + Gutter(cells) && m.contentChars == last.cut.chars;
    var head, gap, mid, pad :=
      Chars(RowText(front, column)), Blanks(Gutter(cells)), Chars(last.cut.content), Blanks(Minus(column, last.cut.width));
    assert |head + gap| == m.inRowStart;
    hide RowText, RowChars, RowMarks, Chars, Blanks;
    SliceWithin(head + gap, mid, pad, 0, |mid|);
  }

  // ---- what the picture holds ----

  /** A placement made for this terminal width. */
  ghost predicate Fitted(scene: Scene, gs: seq<GroupGeometry>) {
    forall i :: 0 <= i < |gs| ==> FittedOne(scene, gs[i])
  }

  ghost predicate FittedOne(scene: Scene, g: GroupGeometry) {
    && g.group < |scene.groups|
    && g.width == ColumnWidth(scene.width, scene.groups[g.group].maxWidth)
    && g.cols <= Columns(g.width, scene.width, scene.style.MaxCols())
  }

  lemma {:induction false} PlaceFitted(scene: Scene, i: nat, offset: nat, remaining: nat, first: bool)
    ensures Fitted(scene, Place(scene.groups, scene.width, scene.style.MaxCols(), i, offset, remaining, first))
    decreases |scene.groups| - i
  {
    var groups, width, maxCols := scene.groups, scene.width, scene.style.MaxCols();
    if i >= |groups| {
    } else if offset >= |groups[i].members| {
      PlaceFitted(scene, i + 1, offset - |groups[i].members|, remaining, first);
    } else if remaining == 0 || (groups[i].key != [] && remaining < 2 && !first) {
    } else {
      var g := PlaceOne(groups, width, maxCols, i, offset, remaining);
      OneHolds(groups, width, maxCols, i, offset, remaining);
      PlaceFitted(scene, i + 1, 0, remaining - g.rows - Heading(g), false);
    }
  }

  /** The cell shows its candidate's text, cut to the column of the candidate's group. */
  ghost predicate CellShows(scene: Scene, cell: Cell, column: nat) {
    && cell.candidate < |scene.sources|
    && cell.cut == Truncate(scene.wd, scene.sources[cell.candidate].text, column)
    && exists g ::
         && 0 <= g < |scene.groups| && cell.candidate in scene.groups[g].members
         && column == ColumnWidth(scene.width, scene.groups[g].maxWidth)
  }

  ghost predicate LineShows(scene: Scene, line: Line) {
    match line
    case Title(title) =>
      exists g :: 0 <= g < |scene.groups|
        && title == Truncate(scene.wd, Normalize(scene.groups[g].heading), scene.width)
    case Cells(cells, column) =>
      && cells != []
      && |cells| * column + (|cells| - 1) * GUTTER <= Max(scene.width, 1)
      && forall j :: 0 <= j < |cells| ==> CellShows(scene, cells[j], column)
  }

  /** Every fill row has a cell. */
  lemma FirstColumn(scene: Scene, g: GroupGeometry, r: nat)
    requires scene.Covers([g]) && 1 <= r <= g.rows
    ensures 1 <= RowLength(g, r) <= g.cols
  {
    assert SoundOne(scene.groups, [g][0]);
  }

  lemma RowShows(scene: Scene, g: GroupGeometry, startPos: nat, r: nat)
    requires scene.Covers([g]) && FittedOne(scene, g) && 1 <= startPos && 1 <= r <= g.rows && scene.width <= USIZE_MAX
    ensures LineShows(scene, Cells(scene.RowCells(g, startPos, r), g.width))
  {
    assert SoundOne(scene.groups, [g][0]);
    FirstColumn(scene, g, r);
    var cells := scene.RowCells(g, startPos, r);
    ColumnsFit(g.width, scene.width, scene.style.MaxCols(), |cells|);
    forall j | 0 <= j < |cells|
      ensures CellShows(scene, cells[j], g.width)
    {
      RowInRange(scene, g, r, j);
      MemberShows(scene, g, startPos, j * g.rows + r);
    }
    hide *;
  }

  lemma MemberShows(scene: Scene, g: GroupGeometry, startPos: nat, p: nat)
    requires scene.Covers([g]) && FittedOne(scene, g) && 1 <= startPos && 1 <= p <= g.count
    ensures CellShows(scene, scene.CellAt(g, startPos, p), g.width)
  {
    hide ColumnWidth, Truncate;
    assert SoundOne(scene.groups, [g][0]);
    assert scene.Member(g, p) in scene.groups[g.group].members;
  }

  ghost predicate AllShow(scene: Scene, lines: seq<Line>) {
    forall k :: 0 <= k < |lines| ==> LineShows(scene, lines[k])
  }

  lemma AllShowConcat(scene: Scene, a: seq<Line>, b: seq<Line>)
    requires AllShow(scene, a) && AllShow(scene, b)
    ensures AllShow(scene, a + b)
  {
    hide LineShows;
  }

  lemma TitleShows(scene: Scene, g: GroupGeometry)
    requires scene.Covers([g])
    ensures AllShow(scene, scene.TitleOf(g)) && |scene.TitleOf(g)| == Heading(g)
  {
    assert SoundOne(scene.groups, [g][0]);
    hide Truncate;
  }

  lemma GroupShows(scene: Scene, g: GroupGeometry, startPos: nat)
    requires scene.Covers([g]) && FittedOne(scene, g) && 1 <= startPos && scene.width <= USIZE_MAX
    ensures AllShow(scene, scene.GroupRows(g, startPos, g.rows)) && |scene.GroupRows(g, startPos, g.rows)| == g.rows
  {
    hide LineShows, FittedOne, Scene.Covers, Scene.RowCells;
    var rows := scene.GroupRows(g, startPos, g.rows);
    forall v | 0 <= v < g.rows
      ensures LineShows(scene, rows[v])
    {
      RowShows(scene, g, startPos, scene.FillRow(g, v));
    }
  }

  lemma FittedHead(scene: Scene, gs: seq<GroupGeometry>)
    requires Fitted(scene, gs) && gs != []
    ensures FittedOne(scene, gs[0]) && Fitted(scene, gs[1..])
    ensures RowsOf(gs) == gs[0].rows + Heading(gs[0]) + RowsOf(gs[1..])
  {
    hide FittedOne;
  }

  lemma NoPicture(scene: Scene, startPos: nat)
    requires scene.Covers([]) && 1 <= startPos
    ensures AllShow(scene, scene.Picture([], startPos)) && |scene.Picture([], startPos)| == RowsOf([])
  {
  }

  /** Every row of the picture shows what it should and fits the terminal. */
  lemma {:induction false} PictureShows(scene: Scene, gs: seq<GroupGeometry>, startPos: nat)
    requires scene.Covers(gs) && Fitted(scene, gs) && 1 <= startPos && scene.width <= USIZE_MAX
    ensures forall k :: 0 <= k < |scene.Picture(gs, startPos)| ==> LineShows(scene, scene.Picture(gs, startPos)[k])
    ensures |scene.Picture(gs, startPos)| == RowsOf(gs)
  {
    AllPictureShows(scene, gs, startPos);
    hide LineShows, Scene.Picture, Scene.Covers;
  }

  lemma {:induction false} AllPictureShows(scene: Scene, gs: seq<GroupGeometry>, startPos: nat)
    requires scene.Covers(gs) && Fitted(scene, gs) && 1 <= startPos && scene.width <= USIZE_MAX
    ensures AllShow(scene, scene.Picture(gs, startPos)) && |scene.Picture(gs, startPos)| == RowsOf(gs)
    decreases |gs|
  {
    hide *;
    if gs == [] {
      NoPicture(scene, startPos);
    } else {
      var g := gs[0];
      PictureHead(scene, gs, startPos);
      FittedHead(scene, gs);
      TitleShows(scene, g);
      GroupShows(scene, g, startPos);
      AllPictureShows(scene, gs[1..], startPos + g.count);
      AllShowConcat(scene, scene.TitleOf(g), scene.GroupRows(g, startPos, g.rows));
      AllShowConcat(scene, scene.TitleOf(g) + scene.GroupRows(g, startPos, g.rows),
                    scene.Picture(gs[1..], startPos + g.count));
    }
  }

  lemma LineCutsRead(scene: Scene, line: Line)
    requires LineShows(scene, line)
    ensures line.Title? ==> CutReads(scene.wd, line.title, scene.width)
    ensures line.Cells? ==> CellsRead(scene.wd, line.cells, line.column)
  {
    match line
    case Title(title) =>
      var g :| 0 <= g < |scene.groups| && title == Truncate(scene.wd, Normalize(scene.groups[g].heading), scene.width);
      TruncateFits(scene.wd, Normalize(scene.groups[g].heading), scene.width);
    case Cells(cells, column) =>
      forall j | 0 <= j < |cells|
        ensures CutReads(scene.wd, cells[j].cut, column)
      {
        assert CellShows(scene, cells[j], column);
        TruncateFits(scene.wd, scene.sources[cells[j].candidate].text, column);
      }
  }

  /** The kept count of every row is the count of its lossy characters, and no row is wider than the terminal. */
  lemma LineReads(scene: Scene, line: Line)
    requires LineShows(scene, line)
    ensures LineChars(line) == Count(LineText(line))
    ensures scene.wd(BLANK) == 1 ==> DisplayWidth(scene.wd, LineText(line)) <= Max(scene.width, 1)
  {
    LineCutsRead(scene, line);
    match line
    case Title(title) =>
    case Cells(cells, column) =>
      RowCounts(scene.wd, cells, column);
      if scene.wd(BLANK) == 1 {
        RowWidth(scene.wd, cells, column);
      }
  }

  // ---- positions ----

  /** These marks carry exactly the positions that satisfy `s`, each once. */
  ghost predicate Once(marks: seq<CellMark>, s: nat -> bool) {
    && (forall k :: 0 <= k < |marks| ==> s(marks[k].pos))
    && (forall i, j :: 0 <= i < j < |marks| ==> marks[i].pos != marks[j].pos)
    && (forall p: nat :: s(p) ==> Marked(marks, p))
  }

  ghost predicate Marked(marks: seq<CellMark>, p: nat) {
    exists k :: 0 <= k < |marks| && marks[k].pos == p
  }

  lemma OnceConcat(a: seq<CellMark>, b: seq<CellMark>, s: nat -> bool, t: nat -> bool, u: nat -> bool)
    requires Once(a, s) && Once(b, t)
    requires forall p: nat :: (u(p) <==> s(p) || t(p)) && !(s(p) && t(p))
    ensures Once(a + b, u)
  {
    forall p: nat | u(p)
      ensures Marked(a + b, p)
    {
      if s(p) {
        var k :| 0 <= k < |a| && a[k].pos == p;
        assert (a + b)[k].pos == p;
      } else {
        var k :| 0 <= k < |b| && b[k].pos == p;
        assert (a + b)[|a| + k].pos == p;
      }
    }
    hide Marked;
  }

  /** The fill row of a position in a column-major group, counted from 0. */
  function FillRowOf(g: GroupGeometry, startPos: nat, p: nat): nat
    requires g.rows >= 1 && startPos <= p
  {
    (p - startPos) % g.rows
  }

  /** Positions in `lo..hi`. */
  ghost function Interval(lo: nat, hi: nat): nat -> bool { (p: nat) => lo <= p < hi }

  /** Positions of one fill row. */
  ghost function InRow(g: GroupGeometry, startPos: nat, r: nat): nat -> bool
    requires g.rows >= 1
  {
    (p: nat) => InGroup(g, startPos, p) && FillRowOf(g, startPos, p) == r - 1
  }

  ghost predicate InGroup(g: GroupGeometry, startPos: nat, p: nat) { startPos <= p < startPos + g.count }

  lemma DivModIs(c: nat, r: nat, m: nat)
    requires r < m
    ensures (c * m + r) % m == r && (c * m + r) / m == c
  {
    var x := c * m + r;
    var q, e := x / m, x % m;
    assert x == q * m + e && 0 <= e < m;
    MulMonotone(q + 1, c, m);
    MulMonotone(c + 1, q, m);
    assert (q + 1) * m == q * m + m && (c + 1) * m == c * m + m;
    hide *;
    assert q == c;
  }

  lemma RowMarkAt(cells: seq<Cell>, column: nat, row: nat, j: nat)
    requires j < |cells|
    ensures RowMarks(cells, column, row)[j].pos == cells[j].pos
    ensures RowMarks(cells, column, row)[j].row == row
    ensures RowMarks(cells, column, row)[j].candidate == cells[j].candidate
  {
  }

  /** A member's column exists: the recompressed column count leaves none out. */
  lemma LastColumn(scene: Scene, g: GroupGeometry, c: nat, r: nat)
    requires scene.Covers([g]) && 1 <= r && c * g.rows + r <= g.count
    ensures c < g.cols
  {
    assert SoundOne(scene.groups, [g][0]);
    MulMonotone(g.cols, c, g.rows);
  }

  /** Cell `j` of fill row `r` is the member whose position has remainder `r - 1` and quotient `j`. */
  lemma RowCellAt(scene: Scene, g: GroupGeometry, startPos: nat, r: nat, j: nat)
    requires scene.Covers([g]) && 1 <= startPos && 1 <= r <= g.rows
    ensures j < |scene.RowCells(g, startPos, r)| <==> j * g.rows + r <= g.count
    ensures j < |scene.RowCells(g, startPos, r)| ==>
              var p := startPos + j * g.rows + r - 1;
              && scene.RowCells(g, startPos, r)[j] == scene.CellAt(g, startPos, j * g.rows + r)
              && scene.RowCells(g, startPos, r)[j].pos == p
              && FillRowOf(g, startPos, p) == r - 1 && (p - startPos) / g.rows == j
  {
    RowInRange(scene, g, r, j);
    DivModIs(j, r - 1, g.rows);
    if j * g.rows + r <= g.count {
      LastColumn(scene, g, j, r);
    }
  }

  lemma RowOnce(scene: Scene, g: GroupGeometry, startPos: nat, r: nat, row: nat)
    requires scene.Covers([g]) && 1 <= startPos && 1 <= r <= g.rows
    ensures Once(RowMarks(scene.RowCells(g, startPos, r), g.width, row), InRow(g, startPos, r))
  {
    var marks := RowMarks(scene.RowCells(g, startPos, r), g.width, row);
    forall j | 0 <= j < |marks|
      ensures InGroup(g, startPos, marks[j].pos) && FillRowOf(g, startPos, marks[j].pos) == r - 1
      ensures (marks[j].pos - startPos) / g.rows == j
    {
      RowMarkIn(scene, g, startPos, r, row, j);
    }
    forall p: nat | InGroup(g, startPos, p) && FillRowOf(g, startPos, p) == r - 1
      ensures Marked(marks, p)
    {
      RowMarkOf(scene, g, startPos, r, row, p);
    }
    hide RowMarks, Scene.RowCells, FillRowOf;
  }

  lemma RowMarkIn(scene: Scene, g: GroupGeometry, startPos: nat, r: nat, row: nat, j: nat)
    requires scene.Covers([g]) && 1 <= startPos && 1 <= r <= g.rows && j < |scene.RowCells(g, startPos, r)|
    ensures var p := RowMarks(scene.RowCells(g, startPos, r), g.width, row)[j].pos;
            && InGroup(g, startPos, p) && FillRowOf(g, startPos, p) == r - 1
            && (p - startPos) / g.rows == j
  {
    RowMarkAt(scene.RowCells(g, startPos, r), g.width, row, j);
    RowCellAt(scene, g, startPos, r, j);
    hide Scene.RowCells, RowMarks, FillRowOf;
  }

  lemma RowMarkOf(scene: Scene, g: GroupGeometry, startPos: nat, r: nat, row: nat, p: nat)
    requires scene.Covers([g]) && 1 <= startPos && 1 <= r <= g.rows
    requires InGroup(g, startPos, p) && FillRowOf(g, startPos, p) == r - 1
    ensures Marked(RowMarks(scene.RowCells(g, startPos, r), g.width, row), p)
  {
    var c := (p - startPos) / g.rows;
    QuotientRemainder(g, startPos, p);
    RowCellAt(scene, g, startPos, r, c);
    RowMarkAt(scene.RowCells(g, startPos, r), g.width, row, c);
    hide Scene.RowCells, RowMarks, FillRowOf;
    assert RowMarks(scene.RowCells(g, startPos, r), g.width, row)[c].pos == p;
  }

  lemma QuotientRemainder(g: GroupGeometry, startPos: nat, p: nat)
    requires g.rows >= 1 && startPos <= p
    ensures FillRowOf(g, startPos, p) < g.rows
    ensures p - startPos == (p - startPos) / g.rows * g.rows + FillRowOf(g, startPos, p)
  {
  }

  lemma MarksOfNext(lines: seq<Line>, line: Line)
    ensures CellMarks(lines + [line])
         == CellMarks(lines) + if line.Cells? then RowMarks(line.cells, line.column, |lines|) else []
  {
    hide RowMarks;
    assert (lines + [line])[..|lines|] == lines;
  }

  /** The visual row of a position inside its group: the history listing is filled from the bottom. */
  function VisualRow(scene: Scene, g: GroupGeometry, startPos: nat, p: nat): int
    requires g.rows >= 1 && startPos <= p
  {
    if scene.style.History? then g.rows - 1 - FillRowOf(g, startPos, p) else FillRowOf(g, startPos, p)
  }

  lemma NextRow(scene: Scene, g: GroupGeometry, startPos: nat, n: nat)
    requires scene.Covers([g]) && 1 <= startPos && 1 <= n <= g.rows
    ensures scene.GroupRows(g, startPos, n)
         == scene.GroupRows(g, startPos, n - 1) + [Cells(scene.RowCells(g, startPos, scene.FillRow(g, n - 1)), g.width)]
  {
    hide Scene.RowCells;
  }

  lemma Reassociate<T>(a: seq<T>, b: seq<T>, c: seq<T>)
    ensures a + (b + c) == a + b + c
  {
  }

  /** Positions before the group, and those in its first `n` visual rows. */
  ghost function DrawnBy(scene: Scene, g: GroupGeometry, startPos: nat, n: nat): nat -> bool
    requires g.rows >= 1
  {
    (p: nat) => 1 <= p < startPos || (InGroup(g, startPos, p) && VisualRow(scene, g, startPos, p) < n)
  }

  lemma DrawnByRows(scene: Scene, g: GroupGeometry, startPos: nat, p: nat)
    requires g.rows >= 1 && 1 <= startPos
    ensures DrawnBy(scene, g, startPos, 0)(p) <==> Interval(1, startPos)(p)
    ensures DrawnBy(scene, g, startPos, g.rows)(p) <==> Interval(1, startPos + g.count)(p)
  {
    if InGroup(g, startPos, p) {
      QuotientRemainder(g, startPos, p);
    }
  }

  lemma DrawnByNext(scene: Scene, g: GroupGeometry, startPos: nat, n: nat, p: nat)
    requires 1 <= n <= g.rows
    ensures var before, row := DrawnBy(scene, g, startPos, n - 1)(p), InRow(g, startPos, scene.FillRow(g, n - 1))(p);
            (DrawnBy(scene, g, startPos, n)(p) <==> before || row) && !(before && row)
  {
    hide FillRowOf;
  }

  lemma Regroup<T>(a: seq<T>, b: seq<T>, c: seq<T>, d: seq<T>)
    ensures a + (b + c + d) == a + b + c + d
  {
  }

  /** The first `n` visual rows of a group visit exactly the positions drawn there. */
  lemma {:induction false} RowsOnce(scene: Scene, g: GroupGeometry, startPos: nat, n: nat, before: seq<Line>)
    requires scene.Covers([g]) && 1 <= startPos && n <= g.rows && g.rows >= 1
    requires Once(CellMarks(before), Interval(1, startPos))
    ensures Once(CellMarks(before + scene.GroupRows(g, startPos, n)), DrawnBy(scene, g, startPos, n))
  {
    forall p: nat
      ensures DrawnBy(scene, g, startPos, 0)(p) <==> Interval(1, startPos)(p)
      ensures n > 0 ==>
                var prior, row := DrawnBy(scene, g, startPos, n - 1)(p), InRow(g, startPos, scene.FillRow(g, n - 1))(p);
                (DrawnBy(scene, g, startPos, n)(p) <==> prior || row) && !(prior && row)
    {
      DrawnByRows(scene, g, startPos, p);
      if n > 0 {
        DrawnByNext(scene, g, startPos, n, p);
      }
    }
    if n == 0 {
      assert before + scene.GroupRows(g, startPos, 0) == before;
      hide *;
      OnceSame(CellMarks(before), Interval(1, startPos), DrawnBy(scene, g, startPos, 0));
    } else {
      RowsOnce(scene, g, startPos, n - 1, before);
      var rows, r := scene.GroupRows(g, startPos, n - 1), scene.FillRow(g, n - 1);
      var line := Cells(scene.RowCells(g, startPos, r), g.width);
      RowOnce(scene, g, startPos, r, |before + rows|);
      MarksOfNext(before + rows, line);
      NextRow(scene, g, startPos, n);
      hide *;
      Reassociate(before, rows, [line]);
      OnceConcat(CellMarks(before + rows), RowMarks(line.cells, line.column, |before + rows|),
                 DrawnBy(scene, g, startPos, n - 1), InRow(g, startPos, r), DrawnBy(scene, g, startPos, n));
    }
  }

  lemma OnceSame(marks: seq<CellMark>, s: nat -> bool, t: nat -> bool)
    requires Once(marks, s) && forall p: nat :: s(p) <==> t(p)
    ensures Once(marks, t)
  {
    hide Marked;
  }

  lemma TitleMarksNothing(scene: Scene, g: GroupGeometry, before: seq<Line>)
    requires scene.Covers([g])
    ensures CellMarks(before + scene.TitleOf(g)) == CellMarks(before)
  {
    var title := scene.TitleOf(g);
    if title != [] {
      MarksOfNext(before, title[0]);
      assert title == [title[0]];
      assert CellMarks(before) + [] == CellMarks(before);
    } else {
      assert before + title == before;
    }
  }

  lemma GroupOnce(scene: Scene, g: GroupGeometry, startPos: nat, before: seq<Line>)
    requires scene.Covers([g]) && 1 <= startPos && g.rows >= 1
    requires Once(CellMarks(before), Interval(1, startPos))
    ensures Once(CellMarks(before + scene.TitleOf(g) + scene.GroupRows(g, startPos, g.rows)),
                 Interval(1, startPos + g.count))
  {
    TitleMarksNothing(scene, g, before);
    RowsOnce(scene, g, startPos, g.rows, before + scene.TitleOf(g));
    forall p: nat
      ensures DrawnBy(scene, g, startPos, g.rows)(p) <==> Interval(1, startPos + g.count)(p)
    {
      DrawnByRows(scene, g, startPos, p);
    }
    hide *;
    OnceSame(CellMarks(before + scene.TitleOf(g) + scene.GroupRows(g, startPos, g.rows)),
             DrawnBy(scene, g, startPos, g.rows), Interval(1, startPos + g.count));
  }

  lemma PictureHead(scene: Scene, gs: seq<GroupGeometry>, startPos: nat)
    requires scene.Covers(gs) && 1 <= startPos
    ensures gs == [] ==> scene.Picture(gs, startPos) == [] && Shown(gs) == 0
    ensures gs != [] ==>
              var g := gs[0];
              && scene.Covers([g]) && scene.Covers(gs[1..]) && g.rows >= 1
              && scene.Picture(gs, startPos)
                 == scene.TitleOf(g) + scene.GroupRows(g, startPos, g.rows) + scene.Picture(gs[1..], startPos + g.count)
              && Shown(gs) == g.count + Shown(gs[1..])
  {
    hide Scene.TitleOf, Scene.GroupRows;
    if gs != [] {
      assert SoundOne(scene.groups, gs[0]);
    }
  }

  /** The render loops visit every position of the window exactly once. */
  lemma {:induction false} PictureOnce(
    scene: Scene, gs: seq<GroupGeometry>, startPos: nat, before: seq<Line>, all: seq<Line>)
    requires scene.Covers(gs) && 1 <= startPos
    requires all == before + scene.Picture(gs, startPos)
    requires Once(CellMarks(before), Interval(1, startPos))
    ensures Once(CellMarks(all), Interval(1, startPos + Shown(gs)))
    decreases |gs|
  {
    hide *;
    PictureHead(scene, gs, startPos);
    if gs == [] {
      assert all == before;
    } else {
      PictureOnceStep(scene, gs, startPos, before, all);
      PictureOnce(scene, gs[1..], startPos + gs[0].count,
                  before + scene.TitleOf(gs[0]) + scene.GroupRows(gs[0], startPos, gs[0].rows), all);
    }
  }

  lemma PictureOnceStep(scene: Scene, gs: seq<GroupGeometry>, startPos: nat, before: seq<Line>, all: seq<Line>)
    requires gs != [] && scene.Covers(gs) && scene.Covers([gs[0]]) && gs[0].rows >= 1 && 1 <= startPos
    requires all == before + scene.Picture(gs, startPos)
    requires Once(CellMarks(before), Interval(1, startPos))
    ensures var drawn := before + scene.TitleOf(gs[0]) + scene.GroupRows(gs[0], startPos, gs[0].rows);
            && all == drawn + scene.Picture(gs[1..], startPos + gs[0].count)
            && Once(CellMarks(drawn), Interval(1, startPos + gs[0].count))
  {
    hide *;
    PictureHead(scene, gs, startPos);
    GroupOnce(scene, gs[0], startPos, before);
    Regroup(before, scene.TitleOf(gs[0]), scene.GroupRows(gs[0], startPos, gs[0].rows),
            scene.Picture(gs[1..], startPos + gs[0].count));
  }

  /** Every mark comes from a cell of the row it names. */
  lemma {:induction false} MarkOrigin(lines: seq<Line>, k: nat) returns (j: nat)
    requires k < |CellMarks(lines)|
    ensures var m := CellMarks(lines)[k];
            && m.row < |lines| && lines[m.row].Cells? && j < |lines[m.row].cells|
            && m == RowMarks(lines[m.row].cells, lines[m.row].column, m.row)[j]
  {
    var front := lines[..|lines| - 1];
    if k < |CellMarks(front)| {
      j := MarkOrigin(front, k);
      assert lines[CellMarks(front)[k].row] == front[CellMarks(front)[k].row];
    } else {
      j := k - |CellMarks(front)|;
      RowMarkAt(lines[|lines| - 1].cells, lines[|lines| - 1].column, |lines| - 1, j);
    }
  }

  /** Each cell shows the candidate its position stands for. */
  ghost predicate CellsPlaced(line: Line, all: seq<nat>) {
    line.Cells? ==>
      forall j :: 0 <= j < |line.cells| ==>
        1 <= line.cells[j].pos <= |all| && all[line.cells[j].pos - 1] == line.cells[j].candidate
  }

  lemma RowPlaced(scene: Scene, g: GroupGeometry, startPos: nat, r: nat, all: seq<nat>)
    requires scene.Covers([g]) && SoundOne(scene.groups, g) && 1 <= startPos && 1 <= r <= g.rows
    requires startPos - 1 + g.count <= |all|
    requires all[startPos - 1..startPos - 1 + g.count] == scene.groups[g.group].members[g.first..g.first + g.count]
    ensures CellsPlaced(Cells(scene.RowCells(g, startPos, r), g.width), all)
  {
    var members := scene.groups[g.group].members[g.first..g.first + g.count];
    var cells := scene.RowCells(g, startPos, r);
    hide RowLength, Truncate;
    forall j | 0 <= j < |cells|
      ensures 1 <= cells[j].pos <= |all| && all[cells[j].pos - 1] == cells[j].candidate
    {
      RowInRange(scene, g, r, j);
      var p := j * g.rows + r;
      assert cells[j] == scene.CellAt(g, startPos, p);
      assert members[p - 1] == scene.Member(g, p);
      assert all[startPos - 1..startPos - 1 + g.count][p - 1] == all[startPos + p - 2];
    }
  }

  lemma {:induction false} PicturePlaced(scene: Scene, gs: seq<GroupGeometry>, startPos: nat, all: seq<nat>)
    requires scene.Covers(gs) && 1 <= startPos
    requires startPos - 1 <= |all| && all[startPos - 1..] == Positions(scene.groups, gs)
    ensures forall k :: 0 <= k < |scene.Picture(gs, startPos)| ==> CellsPlaced(scene.Picture(gs, startPos)[k], all)
  {
    if gs != [] {
      var g := gs[0];
      assert SoundOne(scene.groups, g);
      var members := scene.groups[g.group].members[g.first..g.first + g.count];
      assert all[startPos - 1..][..g.count] == members;
      assert all[startPos - 1..][g.count..] == all[startPos - 1 + g.count..];
      PicturePlaced(scene, gs[1..], startPos + g.count, all);
      var rows := scene.GroupRows(g, startPos, g.rows);
      forall v | 0 <= v < g.rows
        ensures CellsPlaced(rows[v], all)
      {
        RowPlaced(scene, g, startPos, scene.FillRow(g, v), all);
      }
      hide CellsPlaced, Scene.RowCells;
      forall k | 0 <= k < |scene.TitleOf(g)|
        ensures CellsPlaced(scene.TitleOf(g)[k], all)
      {
        TitlePlaced(scene.TitleOf(g)[k], all);
      }
      hide Scene.TitleOf, Scene.GroupRows;
    }
  }

  lemma TitlePlaced(line: Line, all: seq<nat>)
    requires line.Title?
    ensures CellsPlaced(line, all)
  {
  }
}
