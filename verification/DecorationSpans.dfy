/** What the spans of quotes, substitutions and escapes select (the scanners of src/syntax.rs). */
module DecorationSpans {
  import opened Bytes
  import opened Lossy
  import opened Spans
  import opened Lexer
  import LexerLocality
  import opened TokenOffsets

  // ----- How decorations are spelled -----

  /** An escape is a backslash and the byte after it; every other decoration starts and ends next to ASCII. */
  ghost predicate Spelled(s: Bytes, d: Decoration) {
    && d.start < d.end <= |s| && s[d.start] < 0x80
    && if d.kind == Escape then s[d.start] == BACKSLASH && d.end == Min(d.start + 2, |s|) else TokenOffsets.Cut(s, d.end)
  }

  ghost predicate AllSpelled(s: Bytes, ds: seq<Decoration>) {
    forall i :: 0 <= i < |ds| ==> Spelled(s, ds[i])
  }

  lemma SpelledSnoc(s: Bytes, ds: seq<Decoration>, d: Decoration)
    requires AllSpelled(s, ds) && Spelled(s, d)
    ensures AllSpelled(s, ds + [d])
  {
    hide Spelled;
  }

  lemma EscapeSpelled(s: Bytes, at: nat, b: Builder, dollar: bool)
    requires at < |s| && s[at] == BACKSLASH && AllSpelled(s, b.decorations)
    ensures AllSpelled(s, ScanEscape(s, at, b, dollar).builder.decorations)
  {
    SpelledSnoc(s, b.decorations, Decoration(Escape, at, Min(at + 2, |s|)));
    hide AllSpelled, DecodeDollarEscape;
  }

  lemma {:induction false} SubstitutionCloses(s: Bytes, at: nat, depth: nat, opening: byte)
    requires at <= |s| && (opening == OPEN_PAREN || opening == OPEN_BRACE)
    ensures TokenOffsets.Cut(s, SubstitutionEnd(s, at, depth, opening))
    decreases |s| - at
  {
    if at < |s| {
      if s[at] == BACKSLASH {
        SubstitutionCloses(s, Min(at + 2, |s|), depth, opening);
      } else if s[at] == QUOTE {
        SubstitutionCloses(s, SkipQuote(s, at + 1, QUOTE), depth, opening);
      } else if s[at] == DOUBLE {
        SubstitutionCloses(s, SkipQuote(s, at + 1, DOUBLE), depth, opening);
      } else if s[at] == opening {
        SubstitutionCloses(s, at + 1, depth + 1, opening);
      } else if s[at] != Closing(opening) {
        SubstitutionCloses(s, at + 1, depth, opening);
      } else if depth > 1 {
        SubstitutionCloses(s, at + 1, depth - 1, opening);
      }
    }
  }

  lemma SubstitutionSpelled(s: Bytes, at: nat, b: Builder)
    requires OpensSubstitution(s, at) && AllSpelled(s, b.decorations)
    ensures AllSpelled(s, ScanSubstitution(s, at, b).builder.decorations)
  {
    SubstitutionCloses(s, at + 2, 1, s[at + 1]);
    SpelledSnoc(s, b.decorations, Decoration(Substitution, at, SubstitutionEnd(s, at + 2, 1, s[at + 1])));
    hide AllSpelled, SubstitutionEnd;
  }

  /** What a quote opened at `open` needs when its scanner stands at `at`. */
  ghost predicate Opened(s: Bytes, open: nat, at: nat, b: Builder) {
    open < at <= |s| && s[open] < 0x80 && AllSpelled(s, b.decorations)
  }

  lemma QuoteSpelled(s: Bytes, open: nat, at: nat, b: Builder, kind: Kind, end: nat)
    requires Opened(s, open, at, b) && kind != Escape && open < end <= |s| && TokenOffsets.Cut(s, end)
    ensures AllSpelled(s, b.decorations + [Decoration(kind, open, end)])
  {
    SpelledSnoc(s, b.decorations, Decoration(kind, open, end));
  }

  lemma {:induction false} SingleSpelled(s: Bytes, at: nat, open: nat, b: Builder)
    requires Opened(s, open, at, b)
    ensures AllSpelled(s, InSingle(s, at, open, b).builder.decorations)
    decreases |s| - at
  {
    hide AllSpelled;
    if at == |s| {
      QuoteSpelled(s, open, at, b, SingleQuote, |s|);
    } else if s[at] == QUOTE {
      QuoteSpelled(s, open, at, b, SingleQuote, at + 1);
    } else {
      SingleSpelled(s, at + 1, open, b.Raw([s[at]]));
    }
  }

  lemma {:induction false} DoubleSpelled(s: Bytes, at: nat, open: nat, b: Builder)
    requires Opened(s, open, at, b)
    ensures AllSpelled(s, InDouble(s, at, open, b).builder.decorations)
    decreases |s| - at
  {
    hide AllSpelled, ScanEscape, ScanSubstitution;
    if at == |s| {
      QuoteSpelled(s, open, at, b, DoubleQuote, |s|);
    } else if s[at] == DOUBLE {
      QuoteSpelled(s, open, at, b, DoubleQuote, at + 1);
    } else if s[at] == BACKSLASH {
      EscapeSpelled(s, at, b, false);
      DoubleSpelled(s, ScanEscape(s, at, b, false).next, open, ScanEscape(s, at, b, false).builder);
    } else if OpensSubstitution(s, at) {
      SubstitutionSpelled(s, at, b);
      DoubleSpelled(s, ScanSubstitution(s, at, b).next, open, ScanSubstitution(s, at, b).builder);
    } else {
      DoubleSpelled(s, at + 1, open, b.Raw([s[at]]));
    }
  }

  lemma {:induction false} DollarSpelled(s: Bytes, at: nat, open: nat, b: Builder)
    requires Opened(s, open, at, b)
    ensures AllSpelled(s, InDollar(s, at, open, b).builder.decorations)
    decreases |s| - at
  {
    hide AllSpelled, ScanEscape;
    if at == |s| {
      QuoteSpelled(s, open, at, b, DollarQuote, |s|);
    } else if s[at] == QUOTE {
      QuoteSpelled(s, open, at, b, DollarQuote, at + 1);
    } else if s[at] == BACKSLASH {
      EscapeSpelled(s, at, b, true);
      DollarSpelled(s, ScanEscape(s, at, b, true).next, open, ScanEscape(s, at, b, true).builder);
    } else {
      DollarSpelled(s, at + 1, open, b.Raw([s[at]]));
    }
  }

  lemma PartSpelled(s: Bytes, at: nat, b: Builder)
    requires at < |s| && AllSpelled(s, b.decorations)
    ensures AllSpelled(s, WordPart(s, at, b).builder.decorations)
  {
    hide AllSpelled, ScanEscape, ScanSubstitution, InSingle, InDouble, InDollar, IsGlob;
    if s[at] == BACKSLASH {
      EscapeSpelled(s, at, b, false);
    } else if s[at] == QUOTE {
      SingleSpelled(s, at + 1, at, b.Quoted());
    } else if s[at] == DOUBLE {
      DoubleSpelled(s, at + 1, at, b.Quoted());
    } else if s[at] == DOLLAR && at + 1 < |s| && s[at + 1] == QUOTE {
      DollarSpelled(s, at + 2, at, b.Quoted());
    } else if OpensSubstitution(s, at) {
      SubstitutionSpelled(s, at, b);
    }
  }

  ghost predicate WordSpelled(s: Bytes, word: Option<Builder>) { word.Some? ==> AllSpelled(s, word.value.decorations) }

  ghost predicate LexemesSpelled(s: Bytes, ls: seq<Lexeme>) {
    forall i :: 0 <= i < |ls| && ls[i].WordToken? ==> AllSpelled(s, ls[i].word.decorations)
  }

  lemma StepSpelled(s: Bytes, at: nat, comments: bool, word: Option<Builder>)
    requires at < |s| && WordSpelled(s, word)
    ensures var turn := Lexer.Step(s, at, comments, word); WordSpelled(s, turn.word) && LexemesSpelled(s, turn.out)
  {
    var b := if word.Some? then word.value else NewWord(at);
    assert AllSpelled(s, b.decorations);
    PartSpelled(s, at, b);
    hide AllSpelled, WordPart, OperatorLen, IsRedirect, Find;
  }

  lemma {:induction false} LexFromSpelled(s: Bytes, at: nat, comments: bool, word: Option<Builder>)
    requires at <= |s| && WordSpelled(s, word)
    ensures LexemesSpelled(s, LexFrom(s, at, comments, word))
    decreases |s| - at
  {
    hide AllSpelled, Lexer.Step;
    if at < |s| {
      StepSpelled(s, at, comments, word);
      var turn := Lexer.Step(s, at, comments, word);
      LexFromSpelled(s, turn.next, comments, turn.word);
    }
  }

  /** Decoration `j` of lexeme `i`, when there is one. */
  ghost predicate Emits(s: Bytes, comments: bool, i: nat, j: nat) {
    i < |Lex(s, comments)| && Lex(s, comments)[i].WordToken? && j < |Lex(s, comments)[i].word.decorations|
  }

  lemma DecorationSpelled(s: Bytes, comments: bool, i: nat, j: nat)
    requires Emits(s, comments, i, j)
    ensures Spelled(s, Lex(s, comments)[i].word.decorations[j])
  {
    LexFromSpelled(s, 0, comments, None);
    hide Spelled, LexFrom;
    assert AllSpelled(s, Lex(s, comments)[i].word.decorations);
  }

  // ----- What their spans select -----

  /** The span of every quote and substitution the lexer marks holds exactly its own characters. */
  lemma DecorationSpansAreExact(s: Bytes, comments: bool, i: nat, j: nat)
    requires Emits(s, comments, i, j) && Lex(s, comments)[i].word.decorations[j].kind != Escape
    ensures var d := Lex(s, comments)[i].word.decorations[j];
            && d.start < d.end <= |s|
            && var span := TokenSpan(s, d.start, d.end);
               span.end <= Count(s) && Chars(s)[span.start..span.end] == Chars(s[d.start..d.end])
  {
    hide Lex, Chars, OffsetFrom;
    DecorationSpelled(s, comments, i, j);
    var d := Lex(s, comments)[i].word.decorations[j];
    CutIsBoundary(s, d.start);
    CutIsBoundary(s, d.end);
    SpanIsExact(s, d.start, d.end);
  }

  /**
   The span of an escape the lexer marks holds the backslash and the character after it exactly when that character
   is one byte long. Before a longer well-formed character it is empty; at the end of the text it holds the backslash.
   */
  lemma EscapeSpanExactIff(s: Bytes, comments: bool, i: nat, j: nat)
    requires Emits(s, comments, i, j) && Lex(s, comments)[i].word.decorations[j].kind == Escape
    ensures var d := Lex(s, comments)[i].word.decorations[j];
            && d.start < d.end <= |s|
            && var span, next := TokenSpan(s, d.start, d.end), s[d.start + 1..];
               if next == [] then span == RawSpan(Count(s[..d.start]), Count(s[..d.start]) + 1)
               else
                 && (span == RawSpan(Count(s[..d.start]), Count(s[..d.start]) + 2) <==> UnitLen(next) == 1)
                 && (UnitLen(next) > 1 && UnitIsValid(next) ==> span.IsEmpty())
                 && (UnitLen(next) > 1 && !UnitIsValid(next) ==> span.Len() == 1)
  {
    hide Lex, Chars, OffsetFrom, UnitLen, UnitIsValid;
    DecorationSpelled(s, comments, i, j);
    var d := Lex(s, comments)[i].word.decorations[j];
    if d.start + 1 < |s| {
      EscapePairIff(s, d.start);
    } else {
      LastBackslash(s);
    }
  }

  lemma LastBackslash(s: Bytes)
    requires s != [] && s[|s| - 1] == BACKSLASH
    ensures TokenSpan(s, |s| - 1, |s|) == RawSpan(Count(s[..|s| - 1]), Count(s[..|s| - 1]) + 1)
  {
    var n := |s| - 1;
    CutIsBoundary(s, n);
    CutIsBoundary(s, |s|);
    assert s[..n] + [BACKSLASH] == s && s[..|s|] == s && [BACKSLASH] + [] == [BACKSLASH];
    hide *;
    SpanIsExact(s, n, |s|);
    AsciiFirst(BACKSLASH, []);
    DetachedBackslash();
    CharsConcat(s[..n], [BACKSLASH]);
  }

  lemma DetachedBackslash()
    ensures Detached([BACKSLASH]) && Chars([]) == []
  {
  }

  lemma {:induction false} NoOperator(operators: seq<string>, s: Bytes)
    requires s != [] && forall i :: 0 <= i < |operators| ==> operators[i] != "" && operators[i][0] as int != s[0] as int
    ensures FirstOperator(operators, s) == 0
  {
    if operators != [] {
      assert operators[0] != "" && operators[0][0] as int != s[0] as int;
      NoOperator(operators[1..], s);
    }
  }

  /**
   An escape before a two-byte character: a backslash and U+00E9 lex as one word with one escape over the
   backslash and the first byte, and the escape is delivered with an empty span.
   */
  lemma EscapeBeforeTwoBytes(comments: bool)
    ensures var s: Bytes := [BACKSLASH, 0xC3, 0xA9];
            && Lex(s, comments)
               == [WordToken(RawWord(0, 3, Some([0xC3, 0xA9]), false, [Decoration(Escape, 0, 2)]))]
            && TokenSpan(s, 0, 2) == RawSpan(0, 0)
  {
    var s: Bytes := [BACKSLASH, 0xC3, 0xA9];
    var b := NewWord(0).Quoted().Decorated(Escape, 0, 2).Raw([0xC3]);
    OneByteOn(s, comments, b);
    EscapeFirst(s, comments);
    assert b.Raw([0xA9]).literal == [0xC3, 0xA9];
    assert b.Raw([0xA9]).decorations == [Decoration(Escape, 0, 2)];
    TwoBytesInside(s);
  }

  lemma EscapeFirst(s: Bytes, comments: bool)
    requires s == [BACKSLASH, 0xC3, 0xA9]
    ensures Lex(s, comments)
         == LexFrom(s, 2, comments, Some(NewWord(0).Quoted().Decorated(Escape, 0, 2).Raw([0xC3])))
  {
    assert s[0..] == s;
    NoOperator(OPERATORS, s);
    hide FirstOperator, IsRedirect, IsGlob;
    assert LexFrom(s, 0, comments, None)
        == [] + LexFrom(s, 2, comments, Some(NewWord(0).Quoted().Decorated(Escape, 0, 2).Raw([0xC3])));
  }

  lemma OneByteOn(s: Bytes, comments: bool, b: Builder)
    requires s == [BACKSLASH, 0xC3, 0xA9]
    ensures LexFrom(s, 2, comments, Some(b)) == [WordToken(b.Raw([0xA9]).Finish(3))]
  {
    hide *;
    PlainByte(s, 2, comments, b);
    LexerLocality.LexUnfolds(s, 2, comments, Some(b));
    LexerLocality.LexUnfolds(s, 3, comments, Some(b.Raw([0xA9])));
    FlushWord(b.Raw([0xA9]), 3);
  }

  lemma FlushWord(b: Builder, end: nat)
    ensures Flush(Some(b), end) == [WordToken(b.Finish(end))]
  {
  }

  /** A byte outside ASCII continues the word under way. */
  lemma PlainByte(s: Bytes, at: nat, comments: bool, b: Builder)
    requires at < |s| && s[at] >= 0x80
    ensures Lexer.Step(s, at, comments, Some(b)) == Lexer.Turn(at + 1, Some(b.Raw([s[at]])), [])
  {
    NoOperator(OPERATORS, s[at..]);
    hide FirstOperator, IsRedirect, ScanEscape, InSingle, InDouble, InDollar, ScanSubstitution, Find, Builder.Raw;
  }

  lemma TwoBytesInside(s: Bytes)
    requires s == [BACKSLASH, 0xC3, 0xA9]
    ensures TokenSpan(s, 0, 2) == RawSpan(0, 0)
  {
    assert UnitLen(s) == 1 && UnitLen(s[1..]) == 2 && UnitIsValid(s[1..]);
    assert OffsetFrom(s[1..], 1, 1) == 0;
  }
}
