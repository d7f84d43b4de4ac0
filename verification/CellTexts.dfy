/** Where the event number and the match text lie in a composed cell (src/plan.rs `compose_cell_sources`). */
module CellTexts {
  import opened Bytes
  import opened Lossy
  import opened Spans
  import opened Grid
  import opened GridFacts
  import opened Offsets
  import opened Records
  import opened Pipeline

  /** What a cell shows behind its number. */
  function BaseOf(c: Candidate): Bytes { Normalize(if c.d.Some? then c.d.value else c.MatchText()) }

  /** Every byte of the number reads as a character of its own, as it does in decimal digits. */
  predicate PlainNumber(c: Candidate) { c.n.Some? ==> Count(c.n.value) == |c.n.value| }

  predicate NumberFits(c: Candidate, width: nat) { c.n.Some? ==> |c.n.value| <= width }

  /** From character `at` on, the text reads as this content. */
  ghost predicate ReadsFrom(text: Bytes, at: nat, content: Bytes) {
    at <= Count(text) && Chars(text)[at..] == Chars(content)
  }

  /** The span selects exactly this content. */
  ghost predicate ReadsIn(text: Bytes, span: CharSpan, content: Bytes) {
    span.end <= Count(text) && Chars(text)[span.start..span.end] == Chars(content)
  }

  /** A numbered cell reads as blanks, the number, two blanks and the base, whatever bytes the two hold. */
  lemma CellTextReads(c: Candidate, width: nat)
    requires c.n.Some? && |c.n.value| <= width
    ensures Chars(CellSourceOf(c, width).text)
         == Blanks(width - |c.n.value|) + Chars(c.n.value) + Blanks(2) + Chars(BaseOf(c))
  {
    var number, base, padding := c.n.value, BaseOf(c), width - |c.n.value|;
    assert CellSourceOf(c, width).text == Repeat(SPACE, padding) + (number + (Repeat(SPACE, 2) + base));
    hide *;
    SpacesDetached(2, base);
    SpacesRead(2, base);
    CharsConcat(number, Repeat(SPACE, 2) + base);
    SpacesRead(padding, number + (Repeat(SPACE, 2) + base));
    Regroup(Blanks(padding), Chars(number), Blanks(2), Chars(base));
  }

  lemma Regroup<T>(a: seq<T>, b: seq<T>, c: seq<T>, d: seq<T>)
    ensures a + (b + (c + d)) == a + b + c + d
  {
  }

  lemma NumberedCell(c: Candidate, width: nat)
    requires c.n.Some? && |c.n.value| <= width
    ensures var source, padding := CellSourceOf(c, width), width - |c.n.value|;
            && source.numberRange == Some(RawSpan(padding, padding + |c.n.value|))
            && source.matchOffset == if c.d.None? then Some(width + 2) else None
  {
  }

  /** The match text starts at the cell's match offset exactly when the number is plain. */
  lemma MatchOffsetIff(c: Candidate, width: nat)
    requires NumberFits(c, width)
    ensures var source := CellSourceOf(c, width);
            && (source.matchOffset.Some? <==> c.d.None?)
            && (c.d.None? ==> (ReadsFrom(source.text, source.matchOffset.value, Normalize(c.MatchText())) <==> PlainNumber(c)))
  {
    if c.n.Some? {
      NumberedCell(c, width);
      CellTextReads(c, width);
      hide Chars, Normalize, CellSourceOf, Candidate.MatchText, Blanks;
      var front := Blanks(width - |c.n.value|) + Chars(c.n.value) + Blanks(2);
      TailIff(front, Chars(BaseOf(c)), width + 2);
    } else {
      hide Chars, Normalize, Candidate.MatchText;
      assert Chars(BaseOf(c))[0..] == Chars(BaseOf(c));
    }
  }

  lemma TailIff<T>(front: seq<T>, rest: seq<T>, at: nat)
    ensures (at <= |front + rest| && (front + rest)[at..] == rest) <==> at == |front|
  {
  }

  /** The number range selects the number exactly when the number is plain. */
  lemma NumberRangeIff(c: Candidate, width: nat)
    requires NumberFits(c, width)
    ensures var source := CellSourceOf(c, width);
            && (source.numberRange.Some? <==> c.n.Some?)
            && (c.n.Some? ==> (ReadsIn(source.text, source.numberRange.value, c.n.value) <==> PlainNumber(c)))
  {
    if c.n.Some? {
      NumberedCell(c, width);
      CellTextReads(c, width);
      hide Chars, Normalize, CellSourceOf, Candidate.MatchText, Blanks;
      var front, mid := Blanks(width - |c.n.value|), Chars(c.n.value);
      var rest := Blanks(2) + Chars(BaseOf(c));
      Regroup(front, mid, Blanks(2), Chars(BaseOf(c)));
      MiddleIff(front, mid, rest, Chars(CellSourceOf(c, width).text), |c.n.value|);
    }
  }

  lemma MiddleIff<T>(front: seq<T>, mid: seq<T>, rest: seq<T>, all: seq<T>, n: nat)
    requires |mid| <= n && all == front + (mid + rest)
    ensures (|front| + n <= |all| && all[|front|..|front| + n] == mid) <==> n == |mid|
  {
  }

  /** Every number fits the shared width, so the two conditions above hold for every cell of a plan. */
  lemma {:induction false} NumbersFit(cs: seq<Candidate>, i: nat)
    requires i < |cs|
    ensures NumberFits(cs[i], NumberWidth(cs)) && NumberWidth(cs) >= 5
  {
    var front := cs[..|cs| - 1];
    if i < |front| {
      NumbersFit(front, i);
    } else if front != [] {
      NumbersFit(front, 0);
    }
  }

  /** A control byte gets into a cell only from the number, which is not blanked. */
  lemma ControlIffInNumber(c: Candidate, width: nat, b: byte)
    requires IsControl(b)
    ensures b in CellSourceOf(c, width).text <==> c.n.Some? && b in c.n.value
  {
    hide Candidate.MatchText;
    assert b !in BaseOf(c);
    if c.n.Some? {
      var padding := Minus(width, |c.n.value|);
      assert b !in Repeat(SPACE, padding) && b !in Repeat(SPACE, 2);
      assert CellSourceOf(c, width).text == Repeat(SPACE, padding) + c.n.value + Repeat(SPACE, 2) + BaseOf(c);
    }
  }

  ghost predicate NumberFills(cs: seq<Candidate>, width: nat) {
    exists i :: 0 <= i < |cs| && cs[i].n.Some? && |cs[i].n.value| == width
  }

  /** The shared width is five or that of the longest number, and no more. */
  lemma {:induction false} NumberWidthLeast(cs: seq<Candidate>)
    ensures NumberWidth(cs) == 5 || NumberFills(cs, NumberWidth(cs))
  {
    if cs != [] {
      var front, last := cs[..|cs| - 1], cs[|cs| - 1];
      NumberWidthLeast(front);
      if NumberFills(front, NumberWidth(front)) {
        var i :| 0 <= i < |front| && front[i].n.Some? && |front[i].n.value| == NumberWidth(front);
        assert cs[i] == front[i];
      }
    }
  }

  /**
   A number that is not plain: `a` with the two bytes of U+00E9 as its number. The cell reads as seven
   characters with `a` the last of them, but its match offset is 7 and its number range ends one past
   the number. A cell that shows all of it gets no match highlight, whatever its spans are, and a number
   highlight over the number and the blank behind it.
   */
  lemma MultiByteNumberMisplaced(spans: seq<CharSpan>, row: nat, inRowStart: nat, pos: nat, start: nat)
    ensures var c := Candidate([97], None, None, Some([0xC3, 0xA9]), 0);
            var source := CellSourceOf(c, NumberWidth([c]));
            var m := CellMark(row, inRowStart, Count(source.text), 0, pos);
            && !PlainNumber(c)
            && Chars(source.text) == Blanks(3) + [Scalar([0xC3, 0xA9])] + Blanks(2) + [Scalar([97])]
            && source.matchOffset == Some(7) && source.numberRange == Some(RawSpan(3, 5))
            && CellHighlights(source, spans, m, start)
               == [Highlight(HistoryNumber, pos, RawSpan(start + 3, start + 5))]
            && Chars(source.text)[3..5] == [Scalar([0xC3, 0xA9]), BLANK]
  {
    var n: Bytes := [0xC3, 0xA9];
    var c := Candidate([97], None, None, Some(n), 0);
    assert NumberWidth([]) == 5 && [c][..0] == [] && NumberWidth([c]) == 5;
    var source := CellSourceOf(c, 5);
    TwoBytesRead();
    assert BaseOf(c) == [97];
    CellTextReads(c, 5);
    NothingVisible(spans, start + 7, pos);
    hide Chars, Normalize, MatchHighlights;
    assert Count(source.text) == 7;
    var m := CellMark(row, inRowStart, 7, 0, pos);
    assert MatchHighlights(spans, Minus(m.contentChars, 7), start + 7, m.pos) == [];
  }

  lemma TwoBytesRead()
    ensures Chars([0xC3, 0xA9]) == [Scalar([0xC3, 0xA9])]
    ensures Chars([97]) == [Scalar([97])]
  {
    var s: Bytes := [0xC3, 0xA9];
    assert UnitLen(s) == 2 && s[..2] == s && s[2..] == [];
    var a: Bytes := [97];
    assert UnitLen(a) == 1 && a[..1] == a && a[1..] == [];
  }

  /** No span shows in a cell that has no room for the match text. */
  lemma {:induction false} NothingVisible(spans: seq<CharSpan>, shift: nat, pos: nat)
    ensures MatchHighlights(spans, 0, shift, pos) == []
  {
    if spans != [] {
      NothingVisible(spans[..|spans| - 1], shift, pos);
    }
  }
}
