/**
 Turning row-relative marks into listing-wide character ranges, and position-indexed navigation
 (src/layout.rs `row_starts`, `compute_offsets`, `build_navigation`).
 */
module Offsets {
  import opened Bytes
  import opened Lossy
  import opened Spans
  import opened Grid

  datatype Role = Match | Heading | HistoryNumber

  /** A highlight over the listing text; `pos` is 0 for a heading. */
  datatype Highlight = Highlight(role: Role, pos: nat, span: CharSpan)

  datatype Navigation = Navigation(next: nat, prev: nat, left: nat, right: nat)

  /** The listing text that offsets count into: the rows joined by newlines. */
  function Listing(rows: seq<Bytes>): Bytes { Join(rows, NEWLINE) }

  // ---- row starts ----

  /** Characters, joining newlines included, before row `k`. */
  function RowStart(lens: seq<nat>, k: nat): nat
    requires k <= |lens|
  {
    if k == 0 then 0 else RowStart(lens, k - 1) + lens[k - 1] + 1
  }

  method RowStarts(lens: seq<nat>) returns (starts: seq<nat>)
    ensures |starts| == |lens| && forall k :: 0 <= k < |lens| ==> starts[k] == RowStart(lens, k)
  {
    starts := [];
    var acc := 0;
    for k := 0 to |lens|
      invariant |starts| == k && acc == RowStart(lens, k)
      invariant forall j :: 0 <= j < k ==> starts[j] == RowStart(lens, j)
    {
      starts := starts + [acc];
      acc := acc + lens[k] + 1;
    }
  }

  function Counts(rows: seq<Bytes>): (r: seq<nat>)
    ensures |r| == |rows|
  {
    seq(|rows|, k requires 0 <= k < |rows| => Count(rows[k]))
  }

  lemma {:induction false} RowStartOfTail(lens: seq<nat>, k: nat)
    requires 1 <= k <= |lens|
    ensures RowStart(lens, k) == lens[0] + 1 + RowStart(lens[1..], k - 1)
  {
    if k > 1 {
      RowStartOfTail(lens, k - 1);
    }
  }

  lemma ListingHead(rows: seq<Bytes>)
    requires |rows| > 1
    ensures Chars(Listing(rows)) == Chars(rows[0]) + [Scalar([NEWLINE])] + Chars(Listing(rows[1..]))
  {
    var rest := Listing(rows[1..]);
    assert Listing(rows) == rows[0] + ([NEWLINE] + rest);
    assert Chars(rows[0]) + ([Scalar([NEWLINE])] + Chars(rest)) == Chars(rows[0]) + [Scalar([NEWLINE])] + Chars(rest);
    hide *;
    CharsConcat(rows[0], [NEWLINE] + rest);
    AsciiFirst(NEWLINE, rest);
  }

  /** The listing's character count is the arithmetic sum of the row starts. */
  lemma {:induction false} ListingCounts(rows: seq<Bytes>)
    requires rows != []
    ensures Count(Listing(rows)) + 1 == RowStart(Counts(rows), |rows|)
  {
    hide Listing, Chars, RowStart;
    RowStartOfTail(Counts(rows), |rows|);
    assert Counts(rows)[1..] == Counts(rows[1..]);
    if |rows| > 1 {
      ListingHead(rows);
      ListingCounts(rows[1..]);
    } else {
      ListingOne(rows);
      RowStartZero(Counts(rows[1..]));
    }
  }

  /** Row `k` of the listing reads exactly as the row itself, at its row start. */
  lemma {:induction false} ListingRow(rows: seq<Bytes>, k: nat)
    requires k < |rows|
    ensures var start := RowStart(Counts(rows), k);
            && start + Count(rows[k]) <= Count(Listing(rows))
            && Chars(Listing(rows))[start..start + Count(rows[k])] == Chars(rows[k])
  {
    hide Chars, Listing, RowStart;
    RowStartZero(Counts(rows));
    if |rows| == 1 {
      ListingOne(rows);
      WholeSlice(Chars(Listing(rows)));
    } else if k == 0 {
      FirstRow(rows);
    } else {
      ListingRow(rows[1..], k - 1);
      LaterRow(rows, k);
    }
  }

  lemma RowStartZero(lens: seq<nat>)
    ensures RowStart(lens, 0) == 0
  {
  }

  lemma ListingOne(rows: seq<Bytes>)
    requires |rows| == 1
    ensures Listing(rows) == rows[0]
  {
  }

  lemma WholeSlice<T>(s: seq<T>)
    ensures s[0..|s|] == s
  {
  }

  lemma FirstRow(rows: seq<Bytes>)
    requires |rows| > 1
    ensures Count(rows[0]) <= Count(Listing(rows)) && Chars(Listing(rows))[0..Count(rows[0])] == Chars(rows[0])
  {
    hide Chars, Listing;
    ListingHead(rows);
    var head, rest := Chars(rows[0]), [Scalar([NEWLINE])] + Chars(Listing(rows[1..]));
    assert Chars(Listing(rows)) == head + rest;
    SliceOfPrefix(head, rest, 0, |head|);
    WholeSlice(head);
  }

  lemma LaterRow(rows: seq<Bytes>, k: nat)
    requires 1 <= k < |rows|
    requires var start := RowStart(Counts(rows[1..]), k - 1);
             && start + Count(rows[k]) <= Count(Listing(rows[1..]))
             && Chars(Listing(rows[1..]))[start..start + Count(rows[k])] == Chars(rows[k])
    ensures var start := RowStart(Counts(rows), k);
            && start + Count(rows[k]) <= Count(Listing(rows))
            && Chars(Listing(rows))[start..start + Count(rows[k])] == Chars(rows[k])
  {
    hide Chars, Listing, RowStart;
    ListingHead(rows);
    RowStartOfTail(Counts(rows), k);
    assert Counts(rows)[1..] == Counts(rows[1..]);
    var head, rest := Chars(rows[0]) + [Scalar([NEWLINE])], Chars(Listing(rows[1..]));
    SliceWithin(head, rest, [], RowStart(Counts(rows[1..]), k - 1), Count(rows[k]));
    assert head + rest + [] == head + rest;
  }

  // ---- ranges and highlights ----

  function CellStart(lens: seq<nat>, m: CellMark): nat
    requires m.row <= |lens|
  {
    RowStart(lens, m.row) + m.inRowStart
  }

  function CellRange(lens: seq<nat>, m: CellMark): CharSpan
    requires m.row <= |lens|
  {
    Span(CellStart(lens, m), CellStart(lens, m) + m.contentChars)
  }

  ghost predicate RowsExist(lens: seq<nat>, marks: seq<CellMark>) {
    forall k :: 0 <= k < |marks| ==> marks[k].row <= |lens| && marks[k].pos >= 1
  }

  /** Each position's range, as the marks assign them in turn. */
  function Ranges(lens: seq<nat>, marks: seq<CellMark>, positions: nat): (r: seq<CharSpan>)
    requires RowsExist(lens, marks)
    ensures |r| == positions
  {
    if marks == [] then seq(positions, _ => RawSpan(0, 0))
    else
      var m := marks[|marks| - 1];
      var before := Ranges(lens, marks[..|marks| - 1], positions);
      if m.pos <= positions then before[m.pos - 1 := CellRange(lens, m)] else before
  }

  function HeadingHighlights(lens: seq<nat>, marks: seq<HeadingMark>): seq<Highlight>
    requires forall k :: 0 <= k < |marks| ==> marks[k].row <= |lens|
  {
    if marks == [] then []
    else
      var m := marks[|marks| - 1];
      var start := RowStart(lens, m.row);
      HeadingHighlights(lens, marks[..|marks| - 1])
      + if m.len > 0 then [Highlight(Heading, 0, Span(start, start + m.len))] else []
  }

  function NumberHighlight(source: CellSource, m: CellMark, start: nat): seq<Highlight> {
    match source.numberRange
    case None => []
    case Some(number) =>
      var span := number.Clip(m.contentChars).Shift(start);
      if span.IsEmpty() then [] else [Highlight(HistoryNumber, m.pos, span)]
  }

  /** Match spans, cut to the visible part of the match text and moved to the cell. */
  function MatchHighlights(spans: seq<CharSpan>, visible: nat, shift: nat, pos: nat): seq<Highlight> {
    if spans == [] then []
    else
      var span := spans[|spans| - 1].Clip(visible).Shift(shift);
      MatchHighlights(spans[..|spans| - 1], visible, shift, pos)
      + if span.IsEmpty() then [] else [Highlight(Match, pos, span)]
  }

  function CellHighlights(source: CellSource, spans: seq<CharSpan>, m: CellMark, start: nat): seq<Highlight> {
    NumberHighlight(source, m, start)
    + match source.matchOffset
      case None => []
      case Some(offset) => MatchHighlights(spans, Minus(m.contentChars, offset), start + offset, m.pos)
  }

  function SpansOf(spans: seq<seq<CharSpan>>, candidate: nat): seq<CharSpan> {
    if candidate < |spans| then spans[candidate] else []
  }

  function AllCellHighlights(sources: seq<CellSource>, spans: seq<seq<CharSpan>>, lens: seq<nat>, marks: seq<CellMark>)
    : seq<Highlight>
    requires RowsExist(lens, marks)
    requires forall k :: 0 <= k < |marks| ==> marks[k].candidate < |sources|
  {
    if marks == [] then []
    else
      var m := marks[|marks| - 1];
      AllCellHighlights(sources, spans, lens, marks[..|marks| - 1])
      + CellHighlights(sources[m.candidate], SpansOf(spans, m.candidate), m, CellStart(lens, m))
  }

  /** The grid's marks name rows, candidates and positions that exist. */
  ghost predicate MarksInBounds(sources: seq<CellSource>, grid: GridState) {
    && |grid.rows| == |grid.rowLens|
    && (forall k :: 0 <= k < |grid.headingMarks| ==> grid.headingMarks[k].row < |grid.rowLens|)
    && (forall k :: 0 <= k < |grid.cellMarks| ==>
          var m := grid.cellMarks[k];
          m.row < |grid.rowLens| && m.candidate < |sources| && 1 <= m.pos <= |grid.positions|)
  }

  method ComputeOffsets(sources: seq<CellSource>, spans: seq<seq<CharSpan>>, grid: GridState)
    returns (highlights: seq<Highlight>, ranges: seq<CharSpan>)
    requires MarksInBounds(sources, grid)
    ensures highlights
         == HeadingHighlights(grid.rowLens, grid.headingMarks)
            + AllCellHighlights(sources, spans, grid.rowLens, grid.cellMarks)
    ensures ranges == Ranges(grid.rowLens, grid.cellMarks, |grid.positions|)
  {
    hide RowStart, HeadingHighlights, AllCellHighlights, Ranges;
    var starts := RowStarts(grid.rowLens);
    highlights := HeadingOffsets(grid, starts);
    var cells;
    cells, ranges := CellOffsets(sources, spans, grid, starts);
    highlights := highlights + cells;
  }

  method HeadingOffsets(grid: GridState, starts: seq<nat>) returns (highlights: seq<Highlight>)
    requires forall k :: 0 <= k < |grid.headingMarks| ==> grid.headingMarks[k].row < |grid.rowLens|
    requires |starts| == |grid.rowLens| && forall k :: 0 <= k < |starts| ==> starts[k] == RowStart(grid.rowLens, k)
    ensures highlights == HeadingHighlights(grid.rowLens, grid.headingMarks)
  {
    hide RowStart;
    highlights := [];
    for k := 0 to |grid.headingMarks|
      invariant highlights == HeadingHighlights(grid.rowLens, grid.headingMarks[..k])
    {
      var m := grid.headingMarks[k];
      assert grid.headingMarks[..k + 1][..k] == grid.headingMarks[..k];
      if m.len > 0 {
        highlights := highlights + [Highlight(Heading, 0, Span(starts[m.row], starts[m.row] + m.len))];
      }
    }
    assert grid.headingMarks[..|grid.headingMarks|] == grid.headingMarks;
  }

  method CellOffsets(sources: seq<CellSource>, spans: seq<seq<CharSpan>>, grid: GridState, starts: seq<nat>)
    returns (highlights: seq<Highlight>, ranges: seq<CharSpan>)
    requires MarksInBounds(sources, grid)
    requires |starts| == |grid.rowLens| && forall k :: 0 <= k < |starts| ==> starts[k] == RowStart(grid.rowLens, k)
    ensures highlights == AllCellHighlights(sources, spans, grid.rowLens, grid.cellMarks)
    ensures ranges == Ranges(grid.rowLens, grid.cellMarks, |grid.positions|)
  {
    hide RowStart, CellHighlights;
    highlights := [];
    ranges := seq(|grid.positions|, _ => RawSpan(0, 0));
    var marks := grid.cellMarks;
    for k := 0 to |marks|
      invariant ranges == Ranges(grid.rowLens, marks[..k], |grid.positions|)
      invariant highlights == AllCellHighlights(sources, spans, grid.rowLens, marks[..k])
    {
      var m := marks[k];
      assert marks[..k + 1][..k] == marks[..k];
      var start := starts[m.row] + m.inRowStart;
      ranges := ranges[m.pos - 1 := Span(start, start + m.contentChars)];
      var added := HighlightCell(sources[m.candidate], SpansOf(spans, m.candidate), m, start);
      highlights := highlights + added;
    }
    assert marks[..|marks|] == marks;
  }

  lemma MatchNone(visible: nat, shift: nat, pos: nat)
    ensures MatchHighlights([], visible, shift, pos) == []
  {
  }

  lemma MatchNext(spans: seq<CharSpan>, k: nat, visible: nat, shift: nat, pos: nat)
    requires k < |spans|
    ensures var span := spans[k].Clip(visible).Shift(shift);
            MatchHighlights(spans[..k + 1], visible, shift, pos)
            == MatchHighlights(spans[..k], visible, shift, pos) + if span.IsEmpty() then [] else [Highlight(Match, pos, span)]
  {
    hide RawSpan.Clip, RawSpan.Shift, RawSpan.IsEmpty;
    assert spans[..k + 1][..k] == spans[..k];
  }

  method HighlightCell(source: CellSource, spans: seq<CharSpan>, m: CellMark, start: nat)
    returns (added: seq<Highlight>)
    ensures added == CellHighlights(source, spans, m, start)
  {
    hide RawSpan.Clip, RawSpan.Shift, RawSpan.IsEmpty, MatchHighlights;
    added := [];
    MatchNone(if source.matchOffset.Some? then Minus(m.contentChars, source.matchOffset.value) else 0,
              if source.matchOffset.Some? then start + source.matchOffset.value else 0, m.pos);
    if source.numberRange.Some? {
      var span := source.numberRange.value.Clip(m.contentChars).Shift(start);
      if !span.IsEmpty() {
        added := added + [Highlight(HistoryNumber, m.pos, span)];
      }
    }
    if source.matchOffset.Some? {
      ghost var number := added;
      var visible, shift := Minus(m.contentChars, source.matchOffset.value), start + source.matchOffset.value;
      for k := 0 to |spans|
        invariant added == number + MatchHighlights(spans[..k], visible, shift, m.pos)
      {
        MatchNext(spans, k, visible, shift, m.pos);
        var span := spans[k].Clip(visible).Shift(shift);
        if !span.IsEmpty() {
          added := added + [Highlight(Match, m.pos, span)];
        }
      }
      assert spans[..|spans|] == spans;
    }
  }

  // ---- navigation ----

  function NavAt(bounds: seq<GroupBounds>, positions: nat, morePrev: bool, moreNext: bool, pos: nat): Navigation
    requires 1 <= pos <= positions && positions <= |bounds|
  {
    var b := bounds[pos - 1];
    Navigation(
      if pos == positions then (if moreNext then 0 else pos) else pos + 1,
      if pos == 1 then 0 else pos - 1,
      if morePrev then 0 else Max(b.start, Minus(pos, b.rows)),
      Min(b.end, pos + b.rows))
  }

  function Navigations(bounds: seq<GroupBounds>, positions: nat, morePrev: bool, moreNext: bool): (r: seq<Navigation>)
    requires positions <= |bounds|
    ensures |r| == positions
  {
    seq(positions, k requires 0 <= k < positions => NavAt(bounds, positions, morePrev, moreNext, k + 1))
  }

  method BuildNavigation(bounds: seq<GroupBounds>, positions: nat, morePrev: bool, moreNext: bool)
    returns (nav: seq<Navigation>)
    requires positions <= |bounds|
    ensures nav == Navigations(bounds, positions, morePrev, moreNext)
  {
    nav := [];
    for pos := 1 to positions + 1
      invariant nav == Navigations(bounds, positions, morePrev, moreNext)[..pos - 1]
    {
      var next := if pos == positions then (if moreNext then 0 else pos) else pos + 1;
      var prev := if pos == 1 then 0 else pos - 1;
      var group := bounds[pos - 1];
      var left := if morePrev then 0 else Max(group.start, Minus(pos, group.rows));
      var right := Min(group.end, pos + group.rows);
      nav := nav + [Navigation(next, prev, left, right)];
    }
  }
}
