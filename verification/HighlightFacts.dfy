/** What highlights select in the joined rows (src/layout.rs `compute_offsets`). */
module HighlightFacts {
  import opened Bytes
  import opened Lossy
  import opened Spans
  import opened Geometry
  import opened Grid
  import opened GridFacts
  import opened Offsets
  import opened ListingFacts

  // ---- which highlights a list of marks makes ----

  /** The highlight of this span, cut to `visible` characters and moved by `shift`. */
  ghost predicate Marks(h: Highlight, span: CharSpan, visible: nat, shift: nat) {
    var from, to := Min(span.start, visible), Min(span.end, visible);
    from < to && h.span == RawSpan(shift + from, shift + to)
  }

  ghost predicate MarksSome(h: Highlight, spans: seq<CharSpan>, visible: nat, shift: nat) {
    exists k :: 0 <= k < |spans| && Marks(h, spans[k], visible, shift)
  }

  lemma MarksSnoc(h: Highlight, front: seq<CharSpan>, last: CharSpan, visible: nat, shift: nat)
    ensures MarksSome(h, front + [last], visible, shift)
       <==> MarksSome(h, front, visible, shift) || Marks(h, last, visible, shift)
  {
    hide Marks;
    if MarksSome(h, front, visible, shift) {
      var k :| 0 <= k < |front| && Marks(h, front[k], visible, shift);
      assert (front + [last])[k] == front[k];
    }
    assert (front + [last])[|front|] == last;
  }

  lemma ClippedMarks(h: Highlight, span: CharSpan, visible: nat, shift: nat, role: Role, pos: nat)
    ensures (!span.Clip(visible).Shift(shift).IsEmpty() && h == Highlight(role, pos, span.Clip(visible).Shift(shift)))
       <==> h.role == role && h.pos == pos && Marks(h, span, visible, shift)
  {
  }

  lemma {:induction false} MatchMember(spans: seq<CharSpan>, visible: nat, shift: nat, pos: nat, h: Highlight)
    ensures h in MatchHighlights(spans, visible, shift, pos)
       <==> h.role.Match? && h.pos == pos && MarksSome(h, spans, visible, shift)
  {
    hide Marks, RawSpan.Clip, RawSpan.Shift, RawSpan.IsEmpty, MarksSome;
    if spans == [] {
      NothingMarked(h, visible, shift);
    } else {
      var front, last := spans[..|spans| - 1], spans[|spans| - 1];
      MatchMember(front, visible, shift, pos, h);
      assert front + [last] == spans;
      MarksSnoc(h, front, last, visible, shift);
      ClippedMarks(h, last, visible, shift, Match, pos);
    }
  }

  lemma NothingMarked(h: Highlight, visible: nat, shift: nat)
    ensures !MarksSome(h, [], visible, shift)
  {
  }

  /** The cell's match highlights are its visible match spans, its number highlight its visible number. */
  ghost predicate Decorates(h: Highlight, source: CellSource, spans: seq<CharSpan>, m: CellMark, start: nat) {
    && h.pos == m.pos
    && match h.role
       case Heading => false
       case HistoryNumber => source.numberRange.Some? && Marks(h, source.numberRange.value, m.contentChars, start)
       case Match =>
         source.matchOffset.Some?
         && MarksSome(h, spans, Minus(m.contentChars, source.matchOffset.value), start + source.matchOffset.value)
  }

  lemma NumberMember(source: CellSource, m: CellMark, start: nat, h: Highlight)
    ensures h in NumberHighlight(source, m, start)
       <==> && h.role.HistoryNumber? && h.pos == m.pos && source.numberRange.Some?
            && Marks(h, source.numberRange.value, m.contentChars, start)
  {
    hide Marks, RawSpan.Clip, RawSpan.Shift, RawSpan.IsEmpty;
    if source.numberRange.Some? {
      ClippedMarks(h, source.numberRange.value, m.contentChars, start, HistoryNumber, m.pos);
    }
  }

  lemma CellMember(source: CellSource, spans: seq<CharSpan>, m: CellMark, start: nat, h: Highlight)
    ensures h in CellHighlights(source, spans, m, start) <==> Decorates(h, source, spans, m, start)
  {
    hide Marks, MarksSome, MatchHighlights, NumberHighlight;
    NumberMember(source, m, start, h);
    if source.matchOffset.Some? {
      MatchMember(spans, Minus(m.contentChars, source.matchOffset.value), start + source.matchOffset.value, m.pos, h);
    }
  }

  ghost predicate DecoratesMark(
    h: Highlight, sources: seq<CellSource>, spans: seq<seq<CharSpan>>, lens: seq<nat>, m: CellMark)
    requires m.row <= |lens| && m.candidate < |sources|
  {
    Decorates(h, sources[m.candidate], SpansOf(spans, m.candidate), m, CellStart(lens, m))
  }

  ghost predicate DecoratesSome(
    h: Highlight, sources: seq<CellSource>, spans: seq<seq<CharSpan>>, lens: seq<nat>, marks: seq<CellMark>)
    requires RowsExist(lens, marks)
    requires forall k :: 0 <= k < |marks| ==> marks[k].candidate < |sources|
  {
    exists k :: 0 <= k < |marks| && DecoratesMark(h, sources, spans, lens, marks[k])
  }

  lemma {:induction false} AllMember(
    sources: seq<CellSource>, spans: seq<seq<CharSpan>>, lens: seq<nat>, marks: seq<CellMark>, h: Highlight)
    requires RowsExist(lens, marks)
    requires forall k :: 0 <= k < |marks| ==> marks[k].candidate < |sources|
    ensures h in AllCellHighlights(sources, spans, lens, marks) <==> DecoratesSome(h, sources, spans, lens, marks)
  {
    hide *;
    AllStep(sources, spans, lens, marks);
    if marks == [] {
      NoneDecorated(h, sources, spans, lens);
    } else {
      var front, m := marks[..|marks| - 1], marks[|marks| - 1];
      FrontExists(sources, lens, marks);
      AllMember(sources, spans, lens, front, h);
      CellMember(sources[m.candidate], SpansOf(spans, m.candidate), m, CellStart(lens, m), h);
      DecoratesSnoc(h, sources, spans, lens, marks);
    }
  }

  lemma FrontExists(sources: seq<CellSource>, lens: seq<nat>, marks: seq<CellMark>)
    requires marks != [] && RowsExist(lens, marks)
    ensures marks[|marks| - 1].row <= |lens|
    ensures RowsExist(lens, marks[..|marks| - 1])
  {
  }

  lemma AllStep(sources: seq<CellSource>, spans: seq<seq<CharSpan>>, lens: seq<nat>, marks: seq<CellMark>)
    requires RowsExist(lens, marks)
    requires forall k :: 0 <= k < |marks| ==> marks[k].candidate < |sources|
    ensures marks == [] ==> AllCellHighlights(sources, spans, lens, marks) == []
    ensures marks != [] ==>
              var m := marks[|marks| - 1];
              AllCellHighlights(sources, spans, lens, marks)
              == AllCellHighlights(sources, spans, lens, marks[..|marks| - 1])
                 + CellHighlights(sources[m.candidate], SpansOf(spans, m.candidate), m, CellStart(lens, m))
  {
    hide CellHighlights, CellStart, SpansOf;
  }

  lemma NoneDecorated(h: Highlight, sources: seq<CellSource>, spans: seq<seq<CharSpan>>, lens: seq<nat>)
    ensures !DecoratesSome(h, sources, spans, lens, [])
  {
  }

  lemma DecoratesSnoc(
    h: Highlight, sources: seq<CellSource>, spans: seq<seq<CharSpan>>, lens: seq<nat>, marks: seq<CellMark>)
    requires marks != [] && RowsExist(lens, marks)
    requires forall k :: 0 <= k < |marks| ==> marks[k].candidate < |sources|
    ensures var m := marks[|marks| - 1];
            DecoratesSome(h, sources, spans, lens, marks)
            <==> || DecoratesSome(h, sources, spans, lens, marks[..|marks| - 1])
                 || Decorates(h, sources[m.candidate], SpansOf(spans, m.candidate), m, CellStart(lens, m))
  {
    hide Decorates, CellStart, SpansOf;
    var front := marks[..|marks| - 1];
    if DecoratesSome(h, sources, spans, lens, front) {
      var k :| 0 <= k < |front| && DecoratesMark(h, sources, spans, lens, front[k]);
      assert marks[k] == front[k];
    }
    if DecoratesSome(h, sources, spans, lens, marks) {
      var k :| 0 <= k < |marks| && DecoratesMark(h, sources, spans, lens, marks[k]);
      assert k < |front| ==> front[k] == marks[k];
    }
  }

  // ---- what they select ----

  /** The range selects the first characters of this text. */
  ghost predicate ShowsFront(listing: Bytes, range: CharSpan, text: Bytes) {
    && range.Len() <= Count(text) && range.end <= Count(listing)
    && Chars(listing)[range.start..range.end] == Chars(text)[..range.Len()]
  }

  /**
   The selection is the part of `span` that the cell at `range` shows. The span counts characters of `text`
   from character `offset` on.
   */
  ghost predicate ShowsPart(listing: Bytes, at: CharSpan, range: CharSpan, text: Bytes, offset: nat, span: CharSpan) {
    var visible := Minus(range.Len(), offset);
    var from, to := Min(span.start, visible), Min(span.end, visible);
    && from < to && offset + to <= Count(text)
    && at == RawSpan(range.start + offset + from, range.start + offset + to)
    && at.end <= Count(listing) && Chars(listing)[at.start..at.end] == Chars(text)[offset + from..offset + to]
  }

  lemma FrontPart(
    listing: Bytes, h: Highlight, range: CharSpan, text: Bytes, offset: nat, span: CharSpan)
    requires ShowsFront(listing, range, text)
    ensures Marks(h, span, Minus(range.Len(), offset), range.start + offset)
       <==> ShowsPart(listing, h.span, range, text, offset, span)
  {
    hide Chars;
    var visible := Minus(range.Len(), offset);
    var from, to := Min(span.start, visible), Min(span.end, visible);
    if from < to {
      var n := range.Len();
      SliceOfSlice(Chars(listing), range.start, n, offset + from, to - from);
      SliceOfSlice(Chars(text), 0, n, offset + from, to - from);
      assert Chars(text)[0..n] == Chars(text)[..n];
    }
  }

  ghost predicate ShowsSomePart(
    listing: Bytes, at: CharSpan, range: CharSpan, text: Bytes, offset: nat, spans: seq<CharSpan>) {
    exists k :: 0 <= k < |spans| && ShowsPart(listing, at, range, text, offset, spans[k])
  }

  lemma FrontParts(listing: Bytes, h: Highlight, range: CharSpan, text: Bytes, offset: nat, spans: seq<CharSpan>)
    requires ShowsFront(listing, range, text)
    ensures MarksSome(h, spans, Minus(range.Len(), offset), range.start + offset)
       <==> ShowsSomePart(listing, h.span, range, text, offset, spans)
  {
    hide Marks, ShowsPart, ShowsFront;
    forall k | 0 <= k < |spans|
      ensures Marks(h, spans[k], Minus(range.Len(), offset), range.start + offset)
         <==> ShowsPart(listing, h.span, range, text, offset, spans[k])
    {
      FrontPart(listing, h, range, text, offset, spans[k]);
    }
  }

  /** What a highlight of a cell must select, by role. */
  ghost predicate Selects(listing: Bytes, h: Highlight, range: CharSpan, source: CellSource, spans: seq<CharSpan>) {
    match h.role
    case Heading => false
    case HistoryNumber =>
      source.numberRange.Some? && ShowsPart(listing, h.span, range, source.text, 0, source.numberRange.value)
    case Match =>
      source.matchOffset.Some? && ShowsSomePart(listing, h.span, range, source.text, source.matchOffset.value, spans)
  }

  lemma DecoratesSelects(
    listing: Bytes, h: Highlight, source: CellSource, spans: seq<CharSpan>, m: CellMark, start: nat)
    requires h.pos == m.pos && ShowsFront(listing, Span(start, start + m.contentChars), source.text)
    ensures Decorates(h, source, spans, m, start)
       <==> Selects(listing, h, Span(start, start + m.contentChars), source, spans)
  {
    hide Marks, MarksSome, ShowsPart, ShowsSomePart, ShowsFront;
    var range := Span(start, start + m.contentChars);
    assert range.Len() == m.contentChars;
    if source.numberRange.Some? {
      FrontPart(listing, h, range, source.text, 0, source.numberRange.value);
    }
    if source.matchOffset.Some? {
      FrontParts(listing, h, range, source.text, source.matchOffset.value, spans);
    }
  }

  lemma RangeShowsFront(scene: Scene, grid: GridState, range: CharSpan, candidate: nat)
    requires RangeShows(scene, grid, range, candidate)
    ensures candidate < |scene.sources| && ShowsFront(Listing(grid.rows), range, scene.sources[candidate].text)
  {
    hide Chars, Truncate, Listing, ColumnWidth;
    var g :| 0 <= g < |scene.groups| && candidate in scene.groups[g].members
      && Chars(Listing(grid.rows))[range.start..range.end] == Chars(CutFor(scene, g, candidate));
    TruncateFits(scene.wd, scene.sources[candidate].text, ColumnWidth(scene.width, scene.groups[g].maxWidth));
  }

  // ---- every highlight of a placement ----

  /** The highlight belongs to a shown candidate and selects what its role says. */
  ghost predicate SelectsAt(
    listing: Bytes, positions: seq<nat>, ranges: seq<CharSpan>, sources: seq<CellSource>, spans: seq<seq<CharSpan>>,
    h: Highlight)
  {
    && 1 <= h.pos <= |positions| == |ranges| && positions[h.pos - 1] < |sources|
    && var candidate := positions[h.pos - 1];
       Selects(listing, h, ranges[h.pos - 1], sources[candidate], SpansOf(spans, candidate))
  }

  ghost predicate SelectsAtPosition(scene: Scene, spans: seq<seq<CharSpan>>, gs: seq<GroupGeometry>, h: Highlight)
    requires Drawable(scene, gs)
  {
    hide *;
    DrawableIs(scene, gs);
    var grid := GridOf(scene, gs);
    SelectsAt(Listing(grid.rows), grid.positions, RangesOf(scene, gs), scene.sources, spans, h)
  }

  lemma MarkSelectsAt(
    listing: Bytes, positions: seq<nat>, ranges: seq<CharSpan>, sources: seq<CellSource>, spans: seq<seq<CharSpan>>,
    lens: seq<nat>, m: CellMark, h: Highlight)
    requires m.row <= |lens| && h.pos == m.pos && 1 <= m.pos <= |positions| == |ranges|
    requires positions[m.pos - 1] == m.candidate < |sources| && ranges[m.pos - 1] == CellRange(lens, m)
    requires ShowsFront(listing, CellRange(lens, m), sources[m.candidate].text)
    ensures DecoratesMark(h, sources, spans, lens, m) <==> SelectsAt(listing, positions, ranges, sources, spans, h)
  {
    hide Decorates, Selects, ShowsFront, CellStart;
    DecoratesSelects(listing, h, sources[m.candidate], SpansOf(spans, m.candidate), m, CellStart(lens, m));
  }

  lemma AtPosition(scene: Scene, spans: seq<seq<CharSpan>>, gs: seq<GroupGeometry>, h: Highlight)
    requires Drawable(scene, gs)
    ensures scene.Covers(gs)
    ensures SelectsAtPosition(scene, spans, gs, h)
       <==> SelectsAt(Listing(GridOf(scene, gs).rows), GridOf(scene, gs).positions, RangesOf(scene, gs), scene.sources,
                      spans, h)
  {
    DrawableIs(scene, gs);
    hide GridOf, RangesOf, Listing, SelectsAt, Drawable;
  }

  lemma MarkInBounds(sources: seq<CellSource>, grid: GridState, k: nat)
    requires MarksInBounds(sources, grid) && k < |grid.cellMarks|
    ensures grid.cellMarks[k].row <= |grid.rowLens| && grid.cellMarks[k].candidate < |sources|
  {
  }

  /** One mark: the highlights it makes are those that select what its cell shows. */
  lemma MarkSelects(scene: Scene, spans: seq<seq<CharSpan>>, gs: seq<GroupGeometry>, k: nat, h: Highlight)
    requires Drawable(scene, gs) && MarksInBounds(scene.sources, GridOf(scene, gs))
    requires k < |GridOf(scene, gs).cellMarks| && h.pos == GridOf(scene, gs).cellMarks[k].pos
    ensures var grid := GridOf(scene, gs);
            DecoratesMark(h, scene.sources, spans, grid.rowLens, grid.cellMarks[k])
            <==> SelectsAtPosition(scene, spans, gs, h)
  {
    hide *;
    AtPosition(scene, spans, gs, h);
    var grid := GridOf(scene, gs);
    var m := grid.cellMarks[k];
    MarkInBounds(scene.sources, grid, k);
    MarkRangeShows(scene, gs, k);
    RangeOfMarkAt(scene, gs, k);
    RangeShowsFront(scene, grid, CellRange(grid.rowLens, m), m.candidate);
    MarkSelectsAt(Listing(grid.rows), grid.positions, RangesOf(scene, gs), scene.sources, spans, grid.rowLens, m, h);
  }

  lemma RangeOfMarkAt(scene: Scene, gs: seq<GroupGeometry>, k: nat)
    requires Drawable(scene, gs) && MarksInBounds(scene.sources, GridOf(scene, gs))
    requires k < |GridOf(scene, gs).cellMarks|
    ensures var grid := GridOf(scene, gs);
            var m := grid.cellMarks[k];
            && 1 <= m.pos <= |grid.positions|
            && RangesOf(scene, gs)[m.pos - 1] == CellRange(grid.rowLens, m)
  {
    hide GridOf, Fitted, Sound, Ranges, CellRange, RangesOf;
    var grid := GridOf(scene, gs);
    GridOnce(scene, gs);
    RangesAre(scene, gs);
    MarksExist(scene.sources, grid);
    RangeOfMark(grid.rowLens, grid.cellMarks, |grid.positions|, k);
  }

  lemma HeadingRole(lens: seq<nat>, marks: seq<HeadingMark>, h: Highlight)
    requires forall k :: 0 <= k < |marks| ==> marks[k].row <= |lens|
    ensures h in HeadingHighlights(lens, marks) ==> h.role.Heading?
  {
  }

  /**
   A match or number highlight is in the list exactly when it selects, in the joined rows, the visible part
   of one of its candidate's match spans, or of its number.
   */
  lemma HighlightIffSelects(scene: Scene, spans: seq<seq<CharSpan>>, gs: seq<GroupGeometry>, h: Highlight)
    requires Drawable(scene, gs) && !h.role.Heading?
    ensures h in HighlightsOf(scene, spans, gs) <==> SelectsAtPosition(scene, spans, gs, h)
  {
    hide GridOf, Fitted, Sound, HeadingHighlights, AllCellHighlights, DecoratesMark, SelectsAtPosition;
    GridInBounds(scene, gs);
    var grid := GridOf(scene, gs);
    HeadingRole(grid.rowLens, grid.headingMarks, h);
    AllMember(scene.sources, spans, grid.rowLens, grid.cellMarks, h);
    if DecoratesSome(h, scene.sources, spans, grid.rowLens, grid.cellMarks) {
      var k :| 0 <= k < |grid.cellMarks| && DecoratesMark(h, scene.sources, spans, grid.rowLens, grid.cellMarks[k]);
      DecoratesPos(h, scene.sources, spans, grid.rowLens, grid.cellMarks[k]);
      MarkSelects(scene, spans, gs, k, h);
    }
    if SelectsAtPosition(scene, spans, gs, h) {
      SelectsPos(scene, spans, gs, h);
      var k := MarkOfPosition(scene, gs, h.pos);
      MarkSelects(scene, spans, gs, k, h);
    }
  }

  lemma DecoratesPos(h: Highlight, sources: seq<CellSource>, spans: seq<seq<CharSpan>>, lens: seq<nat>, m: CellMark)
    requires m.row <= |lens| && m.candidate < |sources| && DecoratesMark(h, sources, spans, lens, m)
    ensures h.pos == m.pos
  {
  }

  lemma SelectsPos(scene: Scene, spans: seq<seq<CharSpan>>, gs: seq<GroupGeometry>, h: Highlight)
    requires Drawable(scene, gs) && SelectsAtPosition(scene, spans, gs, h)
    ensures 1 <= h.pos <= |Positions(scene.groups, gs)|
  {
    DrawableIs(scene, gs);
    GridParts(scene, gs);
    hide Selects, RangesOf, Positions, Scene.Picture, GridOf, Drawable;
  }

  /** The first visible characters of every shown candidate's text stand at its range. */
  lemma PositionShowsFront(scene: Scene, gs: seq<GroupGeometry>, p: nat)
    requires Drawable(scene, gs) && 1 <= p <= |GridOf(scene, gs).positions|
    ensures var grid := GridOf(scene, gs);
            && grid.positions[p - 1] < |scene.sources|
            && ShowsFront(Listing(grid.rows), RangesOf(scene, gs)[p - 1], scene.sources[grid.positions[p - 1]].text)
  {
    hide *;
    DrawableIs(scene, gs);
    CellsReadBack(scene, gs, p);
    RangeShowsFront(scene, GridOf(scene, gs), RangesOf(scene, gs)[p - 1], GridOf(scene, gs).positions[p - 1]);
  }

  /** Every match span with a visible part is highlighted. */
  lemma VisibleIsHighlighted(scene: Scene, spans: seq<seq<CharSpan>>, gs: seq<GroupGeometry>, h: Highlight, k: nat)
    requires Drawable(scene, gs) && h.role.Match? && 1 <= h.pos <= |GridOf(scene, gs).positions|
    requires GridOf(scene, gs).positions[h.pos - 1] < |scene.sources|
    requires var candidate := GridOf(scene, gs).positions[h.pos - 1];
             var source, range := scene.sources[candidate], RangesOf(scene, gs)[h.pos - 1];
             && source.matchOffset.Some? && k < |SpansOf(spans, candidate)|
             && Marks(h, SpansOf(spans, candidate)[k], Minus(range.Len(), source.matchOffset.value),
                      range.start + source.matchOffset.value)
    ensures h in HighlightsOf(scene, spans, gs)
  {
    hide GridOf, Fitted, Sound, Marks, ShowsFront, ShowsPart, RangesOf, HighlightsOf;
    PositionShowsFront(scene, gs, h.pos);
    var grid := GridOf(scene, gs);
    var candidate := grid.positions[h.pos - 1];
    var source, range := scene.sources[candidate], RangesOf(scene, gs)[h.pos - 1];
    FrontPart(Listing(grid.rows), h, range, source.text, source.matchOffset.value, SpansOf(spans, candidate)[k]);
    HighlightIffSelects(scene, spans, gs, h);
  }

  // ---- headings ----

  /** A heading highlight over the row of this mark. */
  ghost predicate Covers(h: Highlight, lens: seq<nat>, m: HeadingMark)
    requires m.row <= |lens|
  {
    var start := RowStart(lens, m.row);
    m.len > 0 && h == Highlight(Heading, 0, RawSpan(start, start + m.len))
  }

  lemma {:induction false} HeadingMember(lens: seq<nat>, marks: seq<HeadingMark>, h: Highlight)
    requires forall k :: 0 <= k < |marks| ==> marks[k].row <= |lens|
    ensures h in HeadingHighlights(lens, marks) <==> exists k :: 0 <= k < |marks| && Covers(h, lens, marks[k])
  {
    hide RowStart;
    if marks != [] {
      var front := marks[..|marks| - 1];
      HeadingMember(lens, front, h);
      if h in HeadingHighlights(lens, front) {
        var k :| 0 <= k < |front| && Covers(h, lens, front[k]);
        assert marks[k] == front[k];
      }
      if k :| 0 <= k < |marks| && Covers(h, lens, marks[k]) {
        assert k < |front| ==> front[k] == marks[k];
      }
    }
  }

  lemma {:induction false} TitlesAreMarked(lines: seq<Line>, m: HeadingMark)
    ensures m in HeadingMarks(lines) <==> m.row < |lines| && lines[m.row].Title? && lines[m.row].title.chars == m.len
  {
    if lines != [] {
      var front := lines[..|lines| - 1];
      TitlesAreMarked(front, m);
      assert m.row < |front| ==> front[m.row] == lines[m.row];
    }
  }

  /** The highlight selects all of title row `k`, which is not empty. */
  ghost predicate SelectsTitle(rows: seq<Bytes>, lines: seq<Line>, h: Highlight, k: nat) {
    && k < |rows| == |lines| && lines[k].Title? && rows[k] == LineText(lines[k]) && Count(rows[k]) > 0
    && h == Highlight(Heading, 0, RawSpan(RowStart(Counts(rows), k), RowStart(Counts(rows), k) + Count(rows[k])))
    && h.span.end <= Count(Listing(rows)) && Chars(Listing(rows))[h.span.start..h.span.end] == Chars(rows[k])
  }

  ghost predicate SelectsSomeTitle(rows: seq<Bytes>, lines: seq<Line>, h: Highlight) {
    exists k: nat :: SelectsTitle(rows, lines, h, k)
  }

  lemma CoversIsSelects(rows: seq<Bytes>, lines: seq<Line>, m: HeadingMark, h: Highlight)
    requires m.row < |rows| == |lines| && lines[m.row].Title? && rows[m.row] == LineText(lines[m.row])
    requires m.len == Count(rows[m.row])
    ensures Covers(h, Counts(rows), m) <==> SelectsTitle(rows, lines, h, m.row)
  {
    hide Chars, Listing, RowStart, LineText;
    ListingRow(rows, m.row);
  }

  lemma HeadingsAreFirst(scene: Scene, spans: seq<seq<CharSpan>>, gs: seq<GroupGeometry>, h: Highlight)
    requires Drawable(scene, gs) && h.role.Heading?
    ensures MarksInBounds(scene.sources, GridOf(scene, gs))
    ensures var grid := GridOf(scene, gs);
            h in HighlightsOf(scene, spans, gs) <==> h in HeadingHighlights(grid.rowLens, grid.headingMarks)
  {
    hide GridOf, Fitted, Sound, HeadingHighlights, AllCellHighlights, DecoratesSome;
    GridInBounds(scene, gs);
    var grid := GridOf(scene, gs);
    AllMember(scene.sources, spans, grid.rowLens, grid.cellMarks, h);
    if DecoratesSome(h, scene.sources, spans, grid.rowLens, grid.cellMarks) {
      NoCellHeads(h, scene.sources, spans, grid.rowLens, grid.cellMarks);
    }
  }

  lemma NoCellHeads(h: Highlight, sources: seq<CellSource>, spans: seq<seq<CharSpan>>, lens: seq<nat>, marks: seq<CellMark>)
    requires RowsExist(lens, marks)
    requires forall k :: 0 <= k < |marks| ==> marks[k].candidate < |sources|
    requires DecoratesSome(h, sources, spans, lens, marks)
    ensures !h.role.Heading?
  {
    hide MarksSome, Marks;
    var k :| 0 <= k < |marks| && DecoratesMark(h, sources, spans, lens, marks[k]);
  }

  lemma TitleMark(scene: Scene, gs: seq<GroupGeometry>, m: HeadingMark)
    requires Drawable(scene, gs)
    ensures scene.Covers(gs)
    ensures var grid, lines := GridOf(scene, gs), scene.Picture(gs, 1);
            && |grid.rows| == |lines| && grid.rowLens == Counts(grid.rows) && grid.headingMarks == HeadingMarks(lines)
            && (m.row < |lines| && lines[m.row].Title? ==>
                  grid.rows[m.row] == LineText(lines[m.row]) && lines[m.row].title.chars == Count(grid.rows[m.row]))
  {
    DrawableIs(scene, gs);
    hide Scene.Picture, CellMarks, HeadingMarks, Geometry.Positions, LineText, Counts, Drawable;
    RowLensAreCounts(scene, gs);
    if m.row < |scene.Picture(gs, 1)| && scene.Picture(gs, 1)[m.row].Title? {
      TextAt(scene.Picture(gs, 1), m.row);
      LenAt(scene.Picture(gs, 1), GridOf(scene, gs).rows, m.row);
    }
  }

  lemma LenAt(lines: seq<Line>, rows: seq<Bytes>, k: nat)
    requires k < |lines| == |rows| && Lens(lines) == Counts(rows) && lines[k].Title?
    ensures lines[k].title.chars == Count(rows[k])
  {
    assert Lens(lines)[k] == Counts(rows)[k];
  }

  /** The heading highlights are those that select a non-empty title row, all of it. */
  lemma HeadingIffTitle(scene: Scene, spans: seq<seq<CharSpan>>, gs: seq<GroupGeometry>, h: Highlight)
    requires Drawable(scene, gs) && h.role.Heading?
    ensures scene.Covers(gs)
    ensures h in HighlightsOf(scene, spans, gs) <==> SelectsSomeTitle(GridOf(scene, gs).rows, scene.Picture(gs, 1), h)
  {
    hide GridOf, Drawable, Scene.Covers, HighlightsOf, HeadingHighlights, Scene.Picture, Covers, SelectsTitle, Counts,
         HeadingMarks, LineText, Chars;
    DrawableIs(scene, gs);
    HeadingsAreFirst(scene, spans, gs, h);
    var grid, lines := GridOf(scene, gs), scene.Picture(gs, 1);
    HeadingMember(grid.rowLens, grid.headingMarks, h);
    if h in HeadingHighlights(grid.rowLens, grid.headingMarks) {
      var j :| 0 <= j < |grid.headingMarks| && Covers(h, grid.rowLens, grid.headingMarks[j]);
      var m := grid.headingMarks[j];
      TitleMark(scene, gs, m);
      TitlesAreMarked(lines, m);
      CoversIsSelects(grid.rows, lines, m, h);
    }
    if k: nat :| SelectsTitle(grid.rows, lines, h, k) {
      SelectedIsTitle(grid.rows, lines, h, k);
      var m := HeadingMark(k, Count(grid.rows[k]));
      TitleMark(scene, gs, m);
      TitlesAreMarked(lines, m);
      CoversIsSelects(grid.rows, lines, m, h);
      var j :| 0 <= j < |grid.headingMarks| && grid.headingMarks[j] == m;
    }
  }

  lemma SelectedIsTitle(rows: seq<Bytes>, lines: seq<Line>, h: Highlight, k: nat)
    requires SelectsTitle(rows, lines, h, k)
    ensures k < |rows| == |lines| && lines[k].Title? && rows[k] == LineText(lines[k])
  {
    hide LineText, Chars, Listing;
  }
}
