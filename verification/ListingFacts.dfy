/** The listing a rendered placement makes: what every offset into it selects (src/layout.rs). */
module ListingFacts {
  import opened Bytes
  import opened Lossy
  import opened Spans
  import opened Groups
  import opened Geometry
  import opened Grid
  import opened GridFacts
  import opened Offsets

  /** What a plan is built from: candidates with their group keys, their cell texts and their match spans. */
  datatype Content = Content(keyed: seq<Keyed>, sources: seq<CellSource>, spans: seq<seq<CharSpan>>) {

    ghost predicate Valid(wd: Widths) {
      && |keyed| == |sources|
      && forall i :: 0 <= i < |keyed| ==> keyed[i].width == DisplayWidth(wd, sources[i].text)
    }
  }

  function SceneOf(wd: Widths, c: Content, width: nat, style: Style): Scene {
    Scene(wd, Grouped(c.keyed, |c.keyed|), c.sources, width, style)
  }

  /** A placement this scene can draw. */
  ghost predicate Drawable(scene: Scene, gs: seq<GroupGeometry>) {
    scene.Covers(gs) && Fitted(scene, gs) && scene.width <= USIZE_MAX
  }

  function HighlightsOf(scene: Scene, spans: seq<seq<CharSpan>>, gs: seq<GroupGeometry>): seq<Highlight>
    requires Drawable(scene, gs)
  {
    GridInBounds(scene, gs);
    var grid := GridOf(scene, gs);
    HeadingHighlights(grid.rowLens, grid.headingMarks)
    + AllCellHighlights(scene.sources, spans, grid.rowLens, grid.cellMarks)
  }

  function RangesOf(scene: Scene, gs: seq<GroupGeometry>): (r: seq<CharSpan>)
    requires Drawable(scene, gs)
    ensures |r| == |GridOf(scene, gs).positions|
  {
    GridInBounds(scene, gs);
    var grid := GridOf(scene, gs);
    Ranges(grid.rowLens, grid.cellMarks, |grid.positions|)
  }

  lemma SceneIsValid(wd: Widths, c: Content, width: nat, style: Style)
    requires c.Valid(wd)
    ensures SceneOf(wd, c, width, style).Valid()
    ensures |Flatten(Grouped(c.keyed, |c.keyed|))| == |c.keyed|
  {
    GroupingPermutes(c.keyed, |c.keyed|);
    forall g, i | 0 <= g < |Grouped(c.keyed, |c.keyed|)| && 0 <= i < |Grouped(c.keyed, |c.keyed|)[g].members|
      ensures Grouped(c.keyed, |c.keyed|)[g].members[i] < |c.sources|
    {
      GroupsPartition(c.keyed, g);
    }
  }

  lemma WindowIsFitted(scene: Scene, budget: nat, offset: nat)
    requires scene.Valid()
    ensures var gs := Window(scene.groups, budget, scene.width, scene.style, offset);
            scene.Covers(gs) && Fitted(scene, gs)
  {
    PlaceSound(scene.groups, scene.width, scene.style.MaxCols(), 0, offset, budget, true);
    PlaceFitted(scene, 0, offset, budget, true);
  }

  lemma {:induction false} BoundsLength(scene: Scene, gs: seq<GroupGeometry>, startPos: nat)
    requires scene.Covers(gs) && startPos >= 1
    ensures |BoundsOf(gs, startPos)| == |Positions(scene.groups, gs)| == Shown(gs)
  {
    if gs != [] {
      assert SoundOne(scene.groups, gs[0]);
      BoundsLength(scene, gs[1..], startPos + gs[0].count);
    }
  }

  lemma HeadingRows(lines: seq<Line>)
    ensures forall k :: 0 <= k < |HeadingMarks(lines)| ==>
              var m := HeadingMarks(lines)[k];
              m.row < |lines| && lines[m.row].Title? && lines[m.row].title.chars == m.len
  {
    if lines != [] {
      var front := lines[..|lines| - 1];
      HeadingRows(front);
      assert forall k :: 0 <= k < |HeadingMarks(front)| ==>
          lines[HeadingMarks(front)[k].row] == front[HeadingMarks(front)[k].row];
    }
  }

  lemma MarkHolds(scene: Scene, gs: seq<GroupGeometry>, k: nat)
    requires Drawable(scene, gs)
    requires k < |CellMarks(scene.Picture(gs, 1))|
    ensures var m := CellMarks(scene.Picture(gs, 1))[k];
            var all := Positions(scene.groups, gs);
            && m.row < |scene.Picture(gs, 1)|
            && 1 <= m.pos <= |all| && all[m.pos - 1] == m.candidate < |scene.sources|
            && ReadsCandidate(scene, LineText(scene.Picture(gs, 1)[m.row]), m)
  {
    hide Scene.Picture, CellMarks, RowMarks, Positions, Sound, Fitted;
    var lines := scene.Picture(gs, 1);
    var all := Positions(scene.groups, gs);
    PictureShows(scene, gs, 1);
    assert all[0..] == all;
    PicturePlaced(scene, gs, 1, all);
    var j := MarkOrigin(lines, k);
    var m := CellMarks(lines)[k];
    assert LineShows(scene, lines[m.row]) && CellsPlaced(lines[m.row], all);
    CellMarkHolds(scene, lines[m.row], m.row, j, all);
  }

  lemma CellMarkHolds(scene: Scene, line: Line, row: nat, j: nat, all: seq<nat>)
    requires LineShows(scene, line) && CellsPlaced(line, all) && line.Cells? && j < |line.cells|
    ensures var m := RowMarks(line.cells, line.column, row)[j];
            && 1 <= m.pos <= |all| && all[m.pos - 1] == m.candidate < |scene.sources|
            && ReadsCandidate(scene, LineText(line), m)
  {
    hide *;
    LineCutsRead(scene, line);
    RowMarksRead(scene.wd, line.cells, line.column, row, j);
    LineCell(scene, line, j);
    CellReads(scene, line, j, RowMarks(line.cells, line.column, row)[j]);
    CellIsPlaced(line, all, j);
  }

  lemma LineCell(scene: Scene, line: Line, j: nat)
    requires LineShows(scene, line) && line.Cells? && j < |line.cells|
    ensures CellShows(scene, line.cells[j], line.column)
    ensures LineText(line) == RowText(line.cells, line.column)
  {
    hide CellShows, RowText;
  }

  lemma CellIsPlaced(line: Line, all: seq<nat>, j: nat)
    requires CellsPlaced(line, all) && line.Cells? && j < |line.cells|
    ensures 1 <= line.cells[j].pos <= |all| && all[line.cells[j].pos - 1] == line.cells[j].candidate
  {
  }

  lemma CellReads(scene: Scene, line: Line, j: nat, m: CellMark)
    requires line.Cells? && j < |line.cells| && CellShows(scene, line.cells[j], line.column)
    requires m.candidate == line.cells[j].candidate
    requires MarkReads(LineText(line), m, line.cells[j].cut.content)
    ensures m.candidate < |scene.sources| && ReadsCandidate(scene, LineText(line), m)
  {
    hide Truncate, LineText, MarkReads;
  }

  /** The mark selects, in its row, the characters of its candidate's text cut to its group's column. */
  ghost predicate ReadsCandidate(scene: Scene, text: Bytes, m: CellMark)
    requires m.candidate < |scene.sources|
  {
    exists g ::
      && 0 <= g < |scene.groups| && m.candidate in scene.groups[g].members
      && MarkReads(text, m, CutFor(scene, g, m.candidate))
  }

  ghost function CutFor(scene: Scene, g: nat, candidate: nat): Bytes
    requires g < |scene.groups| && candidate < |scene.sources|
  {
    Truncate(scene.wd, scene.sources[candidate].text, ColumnWidth(scene.width, scene.groups[g].maxWidth)).content
  }

  ghost predicate CellsInBounds(lines: seq<Line>, sources: nat, positions: nat) {
    forall k :: 0 <= k < |CellMarks(lines)| ==>
      var m := CellMarks(lines)[k];
      m.row < |lines| && m.candidate < sources && 1 <= m.pos <= positions
  }

  lemma AllMarksHold(scene: Scene, gs: seq<GroupGeometry>)
    requires Drawable(scene, gs)
    ensures scene.Covers(gs) && CellsInBounds(scene.Picture(gs, 1), |scene.sources|, |Positions(scene.groups, gs)|)
  {
    hide Scene.Picture, CellMarks, Positions, Sound, Fitted, ReadsCandidate, LineText;
    forall k | 0 <= k < |CellMarks(scene.Picture(gs, 1))|
      ensures var m := CellMarks(scene.Picture(gs, 1))[k];
              m.row < |scene.Picture(gs, 1)| && m.candidate < |scene.sources| && 1 <= m.pos <= |Positions(scene.groups, gs)|
    {
      MarkHolds(scene, gs, k);
    }
  }

  lemma GridInBounds(scene: Scene, gs: seq<GroupGeometry>)
    requires Drawable(scene, gs)
    ensures MarksInBounds(scene.sources, GridOf(scene, gs))
  {
    AllMarksHold(scene, gs);
    HeadingRows(scene.Picture(gs, 1));
    hide Scene.Picture, CellMarks, HeadingMarks, Positions, Scene.Covers, Drawable;
  }

  // ---- the listing and its offsets ----

  /** The row lengths the grid phase keeps are the lossy character counts of the rows. */
  lemma RowLensAreCounts(scene: Scene, gs: seq<GroupGeometry>)
    requires Drawable(scene, gs)
    ensures GridOf(scene, gs).rowLens == Counts(GridOf(scene, gs).rows)
  {
    var lines := scene.Picture(gs, 1);
    PictureShows(scene, gs, 1);
    hide Scene.Picture, LineText, LineChars, LineShows, Count;
    forall k | 0 <= k < |lines|
      ensures LineChars(lines[k]) == Count(LineText(lines[k]))
    {
      LineReads(scene, lines[k]);
    }
    assert Lens(lines) == Counts(Texts(lines));
  }

  /** Distinct positions keep their own ranges. */
  lemma {:induction false} RangeOfMark(lens: seq<nat>, marks: seq<CellMark>, positions: nat, k: nat)
    requires RowsExist(lens, marks) && k < |marks| && marks[k].pos <= positions
    requires forall i, j :: 0 <= i < j < |marks| ==> marks[i].pos != marks[j].pos
    ensures Ranges(lens, marks, positions)[marks[k].pos - 1] == CellRange(lens, marks[k])
  {
    var front := marks[..|marks| - 1];
    if k < |front| {
      RangeOfMark(lens, front, positions, k);
      assert front[k] == marks[k];
    }
  }

  lemma MarkOfPosition(scene: Scene, gs: seq<GroupGeometry>, p: nat) returns (k: nat)
    requires Drawable(scene, gs)
    requires 1 <= p <= |Positions(scene.groups, gs)|
    ensures var grid := GridOf(scene, gs);
            && MarksInBounds(scene.sources, grid)
            && k < |grid.cellMarks| && grid.cellMarks[k].pos == p
            && Ranges(grid.rowLens, grid.cellMarks, |grid.positions|)[p - 1]
               == CellRange(grid.rowLens, grid.cellMarks[k])
  {
    assert scene.Covers(gs);
    hide *;
    GridInBounds(scene, gs);
    GridOnce(scene, gs);
    GridParts(scene, gs);
    var grid := GridOf(scene, gs);
    MarksExist(scene.sources, grid);
    k := RangeOfPosition(grid.rowLens, grid.cellMarks, |grid.positions|, p);
  }

  lemma MarksExist(sources: seq<CellSource>, grid: GridState)
    requires MarksInBounds(sources, grid)
    ensures RowsExist(grid.rowLens, grid.cellMarks)
  {
  }

  lemma RangeOfPosition(lens: seq<nat>, marks: seq<CellMark>, positions: nat, p: nat) returns (k: nat)
    requires RowsExist(lens, marks) && Once(marks, Interval(1, 1 + positions)) && 1 <= p <= positions
    ensures k < |marks| && marks[k].pos == p
    ensures Ranges(lens, marks, positions)[p - 1] == CellRange(lens, marks[k])
  {
    hide Ranges, CellRange;
    assert Interval(1, 1 + positions)(p);
    assert Marked(marks, p);
    k :| 0 <= k < |marks| && marks[k].pos == p;
    RangeOfMark(lens, marks, positions, k);
  }

  /** Every position of the grid has exactly one cell. */
  lemma GridOnce(scene: Scene, gs: seq<GroupGeometry>)
    requires scene.Covers(gs)
    ensures Once(GridOf(scene, gs).cellMarks, Interval(1, 1 + |GridOf(scene, gs).positions|))
  {
    hide *;
    GridParts(scene, gs);
    NothingOnce();
    PictureOnce(scene, gs, 1, [], scene.Picture(gs, 1));
  }

  lemma GridParts(scene: Scene, gs: seq<GroupGeometry>)
    requires scene.Covers(gs)
    ensures var grid := GridOf(scene, gs);
            && scene.Picture(gs, 1) == [] + scene.Picture(gs, 1)
            && grid.cellMarks == CellMarks(scene.Picture(gs, 1))
            && grid.rows == Texts(scene.Picture(gs, 1))
            && |grid.rows| == |grid.rowLens| == |scene.Picture(gs, 1)|
            && grid.positions == Positions(scene.groups, gs)
            && |grid.positions| == Shown(gs)
  {
    ShownIsPositions(scene.groups, gs);
    hide Scene.Picture, CellMarks, Positions, Shown, HeadingMarks;
  }

  lemma NothingOnce()
    ensures Once(CellMarks([]), Interval(1, 1))
  {
  }

  /** A mark's range selects, in the whole listing, what the mark selects in its row. */
  lemma RangeReads(rows: seq<Bytes>, m: CellMark, content: Bytes)
    requires m.row < |rows| && MarkReads(rows[m.row], m, content)
    ensures var r := CellRange(Counts(rows), m);
            && r.end <= Count(Listing(rows))
            && Chars(Listing(rows))[r.start..r.end] == Chars(content)
  {
    hide Chars, Listing, RowStart;
    ListingRow(rows, m.row);
    SliceOfSlice(Chars(Listing(rows)), RowStart(Counts(rows), m.row), Count(rows[m.row]), m.inRowStart, m.contentChars);
  }

  /** The range of a mark reads as some group's cut of the mark's candidate. */
  ghost predicate RangeShows(scene: Scene, grid: GridState, range: CharSpan, candidate: nat) {
    && candidate < |scene.sources|
    && range.end <= Count(Listing(grid.rows))
    && exists g :: 0 <= g < |scene.groups| && candidate in scene.groups[g].members
         && Chars(Listing(grid.rows))[range.start..range.end] == Chars(CutFor(scene, g, candidate))
  }

  lemma MarkRangeShows(scene: Scene, gs: seq<GroupGeometry>, k: nat)
    requires Drawable(scene, gs)
    requires k < |GridOf(scene, gs).cellMarks| && MarksInBounds(scene.sources, GridOf(scene, gs))
    ensures var grid := GridOf(scene, gs);
            && grid.positions[grid.cellMarks[k].pos - 1] == grid.cellMarks[k].candidate
            && RangeShows(scene, grid, CellRange(grid.rowLens, grid.cellMarks[k]), grid.cellMarks[k].candidate)
  {
    hide GridOf, Scene.Picture, CellMarks, LineText, Geometry.Positions, MarkReads, CellRange, Listing, Chars, CutFor, Texts,
         Fitted, Sound;
    var grid := GridOf(scene, gs);
    GridParts(scene, gs);
    MarkHolds(scene, gs, k);
    RowLensAreCounts(scene, gs);
    var m := grid.cellMarks[k];
    TextAt(scene.Picture(gs, 1), m.row);
    var g :| 0 <= g < |scene.groups| && m.candidate in scene.groups[g].members
      && MarkReads(grid.rows[m.row], m, CutFor(scene, g, m.candidate));
    RangeReads(grid.rows, m, CutFor(scene, g, m.candidate));
  }

  lemma TextAt(lines: seq<Line>, k: nat)
    requires k < |lines|
    ensures Texts(lines)[k] == LineText(lines[k])
  {
  }

  /**
   The characters at a position's cell range of the joined rows are exactly the lossy characters
   of its candidate's cut text, however ill-formed the neighbouring bytes are.
   */
  lemma CellsReadBack(scene: Scene, gs: seq<GroupGeometry>, p: nat)
    requires Drawable(scene, gs) && 1 <= p <= |GridOf(scene, gs).positions|
    ensures var grid := GridOf(scene, gs);
            RangeShows(scene, grid, RangesOf(scene, gs)[p - 1], grid.positions[p - 1])
  {
    hide *;
    DrawableIs(scene, gs);
    GridParts(scene, gs);
    var k := MarkOfPosition(scene, gs, p);
    MarkRangeShows(scene, gs, k);
    RangesAre(scene, gs);
  }

  lemma DrawableIs(scene: Scene, gs: seq<GroupGeometry>)
    requires Drawable(scene, gs)
    ensures scene.Covers(gs)
  {
  }

  lemma RangesAre(scene: Scene, gs: seq<GroupGeometry>)
    requires Drawable(scene, gs) && MarksInBounds(scene.sources, GridOf(scene, gs))
    ensures var grid := GridOf(scene, gs); RangesOf(scene, gs) == Ranges(grid.rowLens, grid.cellMarks, |grid.positions|)
  {
    hide GridOf, Ranges, Drawable;
  }

  // ---- highlights ----

  ghost predicate Inside(h: Highlight, range: CharSpan) {
    range.start <= h.span.start && h.span.end <= range.end
  }

  lemma {:induction false} MatchesInside(spans: seq<CharSpan>, visible: nat, shift: nat, pos: nat)
    ensures forall i :: 0 <= i < |MatchHighlights(spans, visible, shift, pos)| ==>
              var h := MatchHighlights(spans, visible, shift, pos)[i];
              h.pos == pos && !h.span.IsEmpty() && shift <= h.span.start && h.span.end <= shift + visible
  {
    if spans != [] {
      MatchesInside(spans[..|spans| - 1], visible, shift, pos);
    }
  }

  lemma CellHighlightsInside(source: CellSource, spans: seq<CharSpan>, m: CellMark, start: nat)
    ensures forall i :: 0 <= i < |CellHighlights(source, spans, m, start)| ==>
              var h := CellHighlights(source, spans, m, start)[i];
              h.pos == m.pos && Inside(h, Span(start, start + m.contentChars))
  {
    hide MatchHighlights, NumberHighlight, RawSpan.IsEmpty;
    var range := Span(start, start + m.contentChars);
    NumberInside(source, m, start);
    match source.matchOffset
    case None => AllInsideConcat(NumberHighlight(source, m, start), [], m.pos, range);
    case Some(offset) =>
      var matches := MatchHighlights(spans, Minus(m.contentChars, offset), start + offset, m.pos);
      MatchesInside(spans, Minus(m.contentChars, offset), start + offset, m.pos);
      forall i | 0 <= i < |matches|
        ensures matches[i].pos == m.pos && Inside(matches[i], range)
      {
        NonEmptySpan(matches[i].span);
      }
      AllInsideConcat(NumberHighlight(source, m, start), matches, m.pos, range);
  }

  ghost predicate AllInside(hs: seq<Highlight>, pos: nat, range: CharSpan) {
    forall i :: 0 <= i < |hs| ==> hs[i].pos == pos && Inside(hs[i], range)
  }

  lemma AllInsideConcat(a: seq<Highlight>, b: seq<Highlight>, pos: nat, range: CharSpan)
    requires AllInside(a, pos, range) && AllInside(b, pos, range)
    ensures AllInside(a + b, pos, range)
  {
    hide Inside;
  }

  lemma NonEmptySpan(s: CharSpan)
    requires !s.IsEmpty()
    ensures s.start < s.end
  {
  }

  lemma NumberInside(source: CellSource, m: CellMark, start: nat)
    ensures AllInside(NumberHighlight(source, m, start), m.pos, Span(start, start + m.contentChars))
  {
  }

  /** Every cell highlight belongs to a mark and lies inside that mark's range. */
  lemma {:induction false} AllCellHighlightsInside(
    sources: seq<CellSource>, spans: seq<seq<CharSpan>>, lens: seq<nat>, marks: seq<CellMark>)
    requires RowsExist(lens, marks)
    requires forall k :: 0 <= k < |marks| ==> marks[k].candidate < |sources|
    ensures forall i :: 0 <= i < |AllCellHighlights(sources, spans, lens, marks)| ==>
              OfMark(AllCellHighlights(sources, spans, lens, marks)[i], lens, marks)
  {
    if marks != [] {
      var front, m := marks[..|marks| - 1], marks[|marks| - 1];
      AllCellHighlightsInside(sources, spans, lens, front);
      CellHighlightsInside(sources[m.candidate], SpansOf(spans, m.candidate), m, CellStart(lens, m));
      hide CellHighlights, Inside, CellStart;
      forall h: Highlight
        ensures OfMark(h, lens, front) ==> OfMark(h, lens, marks)
        ensures h.pos == m.pos && Inside(h, CellRange(lens, m)) ==> OfMark(h, lens, marks)
      {
        if OfMark(h, lens, front) {
          var k :| 0 <= k < |front| && h.pos == front[k].pos && Inside(h, CellRange(lens, front[k]));
          assert marks[k] == front[k];
        }
        assert marks[|marks| - 1] == m;
      }
    }
  }

  ghost predicate OfMark(h: Highlight, lens: seq<nat>, marks: seq<CellMark>)
    requires RowsExist(lens, marks)
  {
    exists k :: 0 <= k < |marks| && h.pos == marks[k].pos && Inside(h, CellRange(lens, marks[k]))
  }

  /** Every heading highlight covers a whole heading row. */
  lemma {:induction false} HeadingHighlightsRow(lens: seq<nat>, marks: seq<HeadingMark>)
    requires forall k :: 0 <= k < |marks| ==> marks[k].row < |lens| && marks[k].len == lens[marks[k].row]
    ensures forall i :: 0 <= i < |HeadingHighlights(lens, marks)| ==>
              OfRow(HeadingHighlights(lens, marks)[i], lens)
  {
    if marks != [] {
      HeadingHighlightsRow(lens, marks[..|marks| - 1]);
      hide RowStart;
      var m := marks[|marks| - 1];
      assert m.len == lens[m.row];
    }
  }

  ghost predicate OfRow(h: Highlight, lens: seq<nat>) {
    exists k :: 0 <= k < |lens| && h.pos == 0 && h.span == Span(RowStart(lens, k), RowStart(lens, k) + lens[k])
  }

  /** A highlight either covers a whole heading row or lies inside its position's cell range. */
  ghost predicate HighlightPlaced(scene: Scene, gs: seq<GroupGeometry>, h: Highlight)
    requires scene.Covers(gs) && MarksInBounds(scene.sources, GridOf(scene, gs))
  {
    var grid := GridOf(scene, gs);
    if h.pos == 0 then OfRow(h, grid.rowLens)
    else
      && h.pos <= |grid.positions|
      && Inside(h, Ranges(grid.rowLens, grid.cellMarks, |grid.positions|)[h.pos - 1])
  }

  lemma MarkedHighlightPlaced(scene: Scene, gs: seq<GroupGeometry>, h: Highlight)
    requires Drawable(scene, gs)
    requires MarksInBounds(scene.sources, GridOf(scene, gs))
    requires OfMark(h, GridOf(scene, gs).rowLens, GridOf(scene, gs).cellMarks)
    ensures HighlightPlaced(scene, gs, h)
  {
    hide GridOf, Ranges, OfMark, Once, Sound, Fitted, Inside;
    var grid := GridOf(scene, gs);
    GridOnce(scene, gs);
    MarksExist(scene.sources, grid);
    MarkInsideRange(grid.rowLens, grid.cellMarks, |grid.positions|, h);
  }

  lemma MarkInsideRange(lens: seq<nat>, marks: seq<CellMark>, positions: nat, h: Highlight)
    requires RowsExist(lens, marks) && Once(marks, Interval(1, 1 + positions)) && OfMark(h, lens, marks)
    ensures 1 <= h.pos <= positions && Inside(h, Ranges(lens, marks, positions)[h.pos - 1])
  {
    hide Ranges, CellRange, Inside, Marked;
    var k :| 0 <= k < |marks| && h.pos == marks[k].pos && Inside(h, CellRange(lens, marks[k]));
    assert Interval(1, 1 + positions)(marks[k].pos);
    RangeOfMark(lens, marks, positions, k);
  }

  /** Highlights never leave the row or the cell they decorate. */
  lemma HighlightsPlaced(scene: Scene, spans: seq<seq<CharSpan>>, gs: seq<GroupGeometry>)
    requires Drawable(scene, gs)
    ensures MarksInBounds(scene.sources, GridOf(scene, gs))
    ensures forall i :: 0 <= i < |HighlightsOf(scene, spans, gs)| ==>
              HighlightPlaced(scene, gs, HighlightsOf(scene, spans, gs)[i])
  {
    GridInBounds(scene, gs);
    var grid := GridOf(scene, gs);
    HeadingLens(scene, gs);
    HeadingHighlightsRow(grid.rowLens, grid.headingMarks);
    AllCellHighlightsInside(scene.sources, spans, grid.rowLens, grid.cellMarks);
    var cells := AllCellHighlights(scene.sources, spans, grid.rowLens, grid.cellMarks);
    hide Scene.Picture, CellMarks, HeadingMarks, OfMark, OfRow, AllCellHighlights, HeadingHighlights, Positions;
    forall i | 0 <= i < |cells|
      ensures HighlightPlaced(scene, gs, cells[i])
    {
      MarkedHighlightPlaced(scene, gs, cells[i]);
    }
    forall i | 0 <= i < |HeadingHighlights(grid.rowLens, grid.headingMarks)|
      ensures HighlightPlaced(scene, gs, HeadingHighlights(grid.rowLens, grid.headingMarks)[i])
    {
      HeadingHasNoPosition(HeadingHighlights(grid.rowLens, grid.headingMarks)[i], grid.rowLens);
    }
  }

  lemma HeadingHasNoPosition(h: Highlight, lens: seq<nat>)
    requires OfRow(h, lens)
    ensures h.pos == 0
  {
  }

  lemma HeadingLens(scene: Scene, gs: seq<GroupGeometry>)
    requires scene.Covers(gs)
    ensures var grid := GridOf(scene, gs);
            forall k :: 0 <= k < |grid.headingMarks| ==>
              grid.headingMarks[k].row < |grid.rowLens| && grid.headingMarks[k].len == grid.rowLens[grid.headingMarks[k].row]
  {
    HeadingRows(scene.Picture(gs, 1));
    hide Scene.Picture, HeadingMarks;
  }
}
