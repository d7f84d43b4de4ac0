/** The lexer only looks at what it consumes: tokenization splits at top-level command separators. */
module LexerLocality {
  import opened Bytes
  import opened Lexer

  // ----- Moving things by an offset -----

  function MoveDecorations(ds: seq<Decoration>, d: nat): (r: seq<Decoration>)
    ensures |r| == |ds|
  {
    seq(|ds|, i requires 0 <= i < |ds| => Decoration(ds[i].kind, ds[i].start + d, ds[i].end + d))
  }

  function MoveBuilder(b: Builder, d: nat): Builder {
    b.(start := b.start + d, decorations := MoveDecorations(b.decorations, d))
  }

  function MoveWord(w: RawWord, d: nat): RawWord {
    w.(start := w.start + d, end := w.end + d, decorations := MoveDecorations(w.decorations, d))
  }

  function MoveLexeme(x: Lexeme, d: nat): Lexeme {
    match x
    case Structural(kind, start, end) => Structural(kind, start + d, end + d)
    case WordToken(word) => WordToken(MoveWord(word, d))
  }

  function MoveLexemes(ls: seq<Lexeme>, d: nat): (r: seq<Lexeme>)
    ensures |r| == |ls|
  {
    seq(|ls|, i requires 0 <= i < |ls| => MoveLexeme(ls[i], d))
  }

  function MoveScan(r: Scan, d: nat): Scan { Scan(r.next + d, MoveBuilder(r.builder, d)) }

  function MoveOption(word: Option<Builder>, d: nat): Option<Builder> {
    match word
    case None => None
    case Some(b) => Some(MoveBuilder(b, d))
  }

  function MoveTurn(t: Turn, d: nat): Turn {
    Turn(t.next + d, MoveOption(t.word, d), MoveLexemes(t.out, d))
  }

  lemma MoveDecorated(b: Builder, kind: Kind, from: nat, to: nat, d: nat)
    ensures MoveBuilder(b.Decorated(kind, from, to), d) == MoveBuilder(b, d).Decorated(kind, from + d, to + d)
  {
    var ds := b.decorations;
    assert MoveDecorations(ds + [Decoration(kind, from, to)], d)
        == MoveDecorations(ds, d) + [Decoration(kind, from + d, to + d)];
  }

  lemma MoveConcat(a: seq<Lexeme>, b: seq<Lexeme>, d: nat)
    ensures MoveLexemes(a + b, d) == MoveLexemes(a, d) + MoveLexemes(b, d)
  {
  }

  // ----- A part of a longer string -----

  /** `m` is what `s` holds from `d` on, for the length of `m`. */
  ghost predicate Embeds(s: Bytes, m: Bytes, d: nat) {
    d + |m| <= |s| && s[d..d + |m|] == m
  }

  lemma EmbedsAt(s: Bytes, m: Bytes, d: nat, k: nat)
    requires Embeds(s, m, d) && k < |m|
    ensures s[d + k] == m[k]
  {
  }

  lemma EmbedsFits(s: Bytes, m: Bytes, d: nat)
    requires Embeds(s, m, d)
    ensures d + |m| <= |s|
  {
  }

  /** Either the part reaches the end, or the scan stopped strictly inside it. */
  predicate Stops(s: Bytes, m: Bytes, d: nat, next: nat) { d + |m| == |s| || next < d + |m| }

  lemma {:induction false} SkipLocal(s: Bytes, m: Bytes, d: nat, at: nat, quote: byte)
    requires Embeds(s, m, d) && at <= |m| && Stops(s, m, d, SkipQuote(s, d + at, quote))
    ensures SkipQuote(s, d + at, quote) == d + SkipQuote(m, at, quote)
    decreases |m| - at
  {
    if at < |m| {
      EmbedsAt(s, m, d, at);
      if m[at] == BACKSLASH {
        SkipLocal(s, m, d, Min(at + 2, |m|), quote);
      } else if m[at] != quote {
        SkipLocal(s, m, d, at + 1, quote);
      }
    }
  }

  /** One byte of a substitution: where the scan goes on, or that it ends here. */
  function SubstitutionStep(s: Bytes, at: nat, depth: nat, opening: byte): (r: (nat, Option<nat>))
    requires at < |s|
    ensures at < r.0 <= |s|
  {
    if s[at] == BACKSLASH then (Min(at + 2, |s|), Some(depth))
    else if s[at] == QUOTE || s[at] == DOUBLE then (SkipQuote(s, at + 1, s[at]), Some(depth))
    else if s[at] == opening then (at + 1, Some(depth + 1))
    else if s[at] != Closing(opening) then (at + 1, Some(depth))
    else (at + 1, if depth <= 1 then None else Some(depth - 1))
  }

  lemma SubstitutionSteps(s: Bytes, at: nat, depth: nat, opening: byte)
    requires at <= |s|
    ensures at == |s| ==> SubstitutionEnd(s, at, depth, opening) == at
    ensures at < |s| ==>
              var (next, more) := SubstitutionStep(s, at, depth, opening);
              SubstitutionEnd(s, at, depth, opening)
              == if more.Some? then SubstitutionEnd(s, next, more.value, opening) else next
  {
    hide SkipQuote;
  }

  lemma StepStaysLocal(s: Bytes, m: Bytes, d: nat, at: nat, depth: nat, opening: byte)
    requires Embeds(s, m, d) && at < |m| && d + at < |s|
    requires Stops(s, m, d, SubstitutionStep(s, d + at, depth, opening).0)
    ensures SubstitutionStep(s, d + at, depth, opening).0 == d + SubstitutionStep(m, at, depth, opening).0
    ensures SubstitutionStep(s, d + at, depth, opening).1 == SubstitutionStep(m, at, depth, opening).1
  {
    EmbedsAt(s, m, d, at);
    EmbedsFits(s, m, d);
    hide SkipQuote, Embeds, Closing;
    if m[at] != BACKSLASH && (m[at] == QUOTE || m[at] == DOUBLE) {
      SkipLocal(s, m, d, at + 1, m[at]);
    }
  }

  lemma {:induction false} SubstitutionLocal(s: Bytes, m: Bytes, d: nat, at: nat, depth: nat, opening: byte)
    requires Embeds(s, m, d) && at <= |m| && d + |m| <= |s|
    requires Stops(s, m, d, SubstitutionEnd(s, d + at, depth, opening))
    ensures SubstitutionEnd(s, d + at, depth, opening) == d + SubstitutionEnd(m, at, depth, opening)
    decreases |m| - at
  {
    hide SubstitutionEnd, SubstitutionStep, Embeds, SkipQuote;
    SubstitutionSteps(s, d + at, depth, opening);
    SubstitutionSteps(m, at, depth, opening);
    if at < |m| {
      StepStaysLocal(s, m, d, at, depth, opening);
      var (next, more) := SubstitutionStep(m, at, depth, opening);
      if more.Some? {
        SubstitutionLocal(s, m, d, next, more.value, opening);
      }
    }
  }

  lemma DollarEscapeLocal(a: Bytes, b: Bytes)
    requires a != [] && a <= b
    requires DecodeDollarEscape(b).Some? ==> DecodeDollarEscape(b).value.consumed <= |a|
    ensures DecodeDollarEscape(a) == DecodeDollarEscape(b)
  {
  }

  lemma EmbedsTail(s: Bytes, m: Bytes, d: nat, k: nat)
    requires Embeds(s, m, d) && k <= |m|
    ensures m[k..] <= s[d + k..]
    ensures d + |m| == |s| ==> m[k..] == s[d + k..]
  {
    assert s[d + k..][..|m| - k] == m[k..];
  }

  lemma EscapeLocal(s: Bytes, m: Bytes, d: nat, at: nat, b: Builder, dollar: bool)
    requires Embeds(s, m, d) && at < |m| && Stops(s, m, d, ScanEscape(s, d + at, MoveBuilder(b, d), dollar).next)
    ensures ScanEscape(s, d + at, MoveBuilder(b, d), dollar) == MoveScan(ScanEscape(m, at, b, dollar), d)
  {
    hide DecodeDollarEscape, MoveDecorations;
    MoveDecorated(b.Quoted(), Escape, at, Min(at + 2, |m|), d);
    if at + 1 < |m| {
      EmbedsAt(s, m, d, at + 1);
      EmbedsTail(s, m, d, at + 1);
      if dollar {
        DollarEscapeLocal(m[at + 1..], s[d + at + 1..]);
      }
    }
  }

  lemma OpensLocal(s: Bytes, m: Bytes, d: nat, at: nat)
    requires Embeds(s, m, d) && at < |m|
    ensures OpensSubstitution(m, at) ==> OpensSubstitution(s, d + at) && s[d + at + 1] == m[at + 1]
    ensures OpensSubstitution(s, d + at) && d + at + 1 < d + |m| ==> OpensSubstitution(m, at)
    ensures s[d + at] == m[at]
  {
    EmbedsAt(s, m, d, at);
    if at + 1 < |m| {
      EmbedsAt(s, m, d, at + 1);
    }
  }

  lemma ScanSubstitutionLocal(s: Bytes, m: Bytes, d: nat, at: nat, b: Builder)
    requires Embeds(s, m, d) && OpensSubstitution(m, at) && OpensSubstitution(s, d + at)
    requires Stops(s, m, d, ScanSubstitution(s, d + at, MoveBuilder(b, d)).next)
    ensures ScanSubstitution(s, d + at, MoveBuilder(b, d)) == MoveScan(ScanSubstitution(m, at, b), d)
  {
    hide MoveDecorations, SubstitutionEnd;
    OpensLocal(s, m, d, at);
    SubstitutionLocal(s, m, d, at + 2, 1, m[at + 1]);
    MoveDecorated(b.Quoted().NotLiteral(), Substitution, at, SubstitutionEnd(m, at + 2, 1, m[at + 1]), d);
  }

  lemma {:induction false} SingleLocal(s: Bytes, m: Bytes, d: nat, at: nat, open: nat, b: Builder)
    requires Embeds(s, m, d) && at <= |m| && Stops(s, m, d, InSingle(s, d + at, d + open, MoveBuilder(b, d)).next)
    ensures InSingle(s, d + at, d + open, MoveBuilder(b, d)) == MoveScan(InSingle(m, at, open, b), d)
    decreases |m| - at
  {
    hide MoveDecorations, Embeds;
    if at == |m| {
      EmbedsFits(s, m, d);
      MoveDecorated(b.NotLiteral(), SingleQuote, open, at, d);
    } else {
      EmbedsAt(s, m, d, at);
      EmbedsFits(s, m, d);
      if m[at] == QUOTE {
        MoveDecorated(b, SingleQuote, open, at + 1, d);
      } else {
        SingleLocal(s, m, d, at + 1, open, b.Raw([m[at]]));
      }
    }
  }

  lemma {:induction false} DoubleLocal(s: Bytes, m: Bytes, d: nat, at: nat, open: nat, b: Builder)
    requires Embeds(s, m, d) && at <= |m| && Stops(s, m, d, InDouble(s, d + at, d + open, MoveBuilder(b, d)).next)
    ensures InDouble(s, d + at, d + open, MoveBuilder(b, d)) == MoveScan(InDouble(m, at, open, b), d)
    decreases |m| - at
  {
    hide MoveDecorations, Embeds, ScanEscape, ScanSubstitution, OpensSubstitution;
    EmbedsFits(s, m, d);
    if at == |m| {
      MoveDecorated(b.NotLiteral(), DoubleQuote, open, at, d);
    } else {
      OpensLocal(s, m, d, at);
      var moved := MoveBuilder(b, d);
      if m[at] == DOUBLE {
        MoveDecorated(b, DoubleQuote, open, at + 1, d);
      } else if m[at] == BACKSLASH {
        EscapeLocal(s, m, d, at, b, false);
        var inner := ScanEscape(m, at, b, false);
        DoubleLocal(s, m, d, inner.next, open, inner.builder);
      } else if OpensSubstitution(s, d + at) {
        LateOpening(s, m, d, at);
        ScanSubstitutionLocal(s, m, d, at, b);
        var inner := ScanSubstitution(m, at, b);
        DoubleLocal(s, m, d, inner.next, open, inner.builder);
      } else {
        DoubleLocal(s, m, d, at + 1, open, b.Raw([m[at]]));
      }
    }
  }

  /** A substitution cannot open on the last byte of a string. */
  lemma LateOpening(s: Bytes, m: Bytes, d: nat, at: nat)
    requires Embeds(s, m, d) && at < |m| && OpensSubstitution(s, d + at)
    ensures d + at + 1 < |s|
  {
  }

  lemma {:induction false} DollarLocal(s: Bytes, m: Bytes, d: nat, at: nat, open: nat, b: Builder)
    requires Embeds(s, m, d) && at <= |m| && Stops(s, m, d, InDollar(s, d + at, d + open, MoveBuilder(b, d)).next)
    ensures InDollar(s, d + at, d + open, MoveBuilder(b, d)) == MoveScan(InDollar(m, at, open, b), d)
    decreases |m| - at
  {
    hide MoveDecorations, Embeds, ScanEscape;
    EmbedsFits(s, m, d);
    if at == |m| {
      MoveDecorated(b.NotLiteral(), DollarQuote, open, at, d);
    } else {
      EmbedsAt(s, m, d, at);
      if m[at] == QUOTE {
        MoveDecorated(b, DollarQuote, open, at + 1, d);
      } else if m[at] == BACKSLASH {
        EscapeLocal(s, m, d, at, b, true);
        var inner := ScanEscape(m, at, b, true);
        DollarLocal(s, m, d, inner.next, open, inner.builder);
      } else {
        DollarLocal(s, m, d, at + 1, open, b.Raw([m[at]]));
      }
    }
  }

  lemma PartLocal(s: Bytes, m: Bytes, d: nat, at: nat, b: Builder)
    requires Embeds(s, m, d) && at < |m| && Stops(s, m, d, WordPart(s, d + at, MoveBuilder(b, d)).next)
    ensures WordPart(s, d + at, MoveBuilder(b, d)) == MoveScan(WordPart(m, at, b), d)
  {
    hide MoveDecorations, Embeds, ScanEscape, ScanSubstitution, InSingle, InDouble, InDollar, OpensSubstitution;
    EmbedsFits(s, m, d);
    OpensLocal(s, m, d, at);
    if at + 1 < |m| {
      EmbedsAt(s, m, d, at + 1);
    }
    if m[at] == BACKSLASH {
      EscapeLocal(s, m, d, at, b, false);
    } else if m[at] == QUOTE {
      SingleLocal(s, m, d, at + 1, at, b.Quoted());
    } else if m[at] == DOUBLE {
      DoubleLocal(s, m, d, at + 1, at, b.Quoted());
    } else if m[at] == DOLLAR && d + at + 1 < |s| && s[d + at + 1] == QUOTE {
      DollarLocal(s, m, d, at + 2, at, b.Quoted());
    } else if OpensSubstitution(s, d + at) {
      LateOpening(s, m, d, at);
      ScanSubstitutionLocal(s, m, d, at, b);
    }
  }

  // ----- Turns -----

  lemma SpellsLocal(text: string, a: Bytes, b: Bytes)
    requires a <= b
    ensures Spells(text, a) <==> Spells(text, b) && |text| <= |a|
  {
  }

  lemma {:induction false} OperatorLocal(operators: seq<string>, a: Bytes, b: Bytes)
    requires a <= b && FirstOperator(operators, b) <= |a|
    ensures FirstOperator(operators, a) == FirstOperator(operators, b)
  {
    if operators != [] {
      SpellsLocal(operators[0], a, b);
      if !Spells(operators[0], b) {
        OperatorLocal(operators[1..], a, b);
      }
    }
  }

  lemma CommentLocal(a: Bytes, b: Bytes)
    requires a <= b && (a == b || Find(b, NEWLINE) < |a|)
    ensures Find(a, NEWLINE) == Find(b, NEWLINE)
  {
    var i := Find(b, NEWLINE);
    assert a[..i] == b[..i];
    FindAt(a, NEWLINE, i);
  }

  lemma FlushMoves(word: Option<Builder>, end: nat, d: nat)
    ensures Flush(MoveOption(word, d), d + end) == MoveLexemes(Flush(word, end), d)
  {
    hide MoveDecorations;
  }

  lemma MoveStructural(word: Option<Builder>, end: nat, kind: Kind, to: nat, d: nat)
    ensures Flush(MoveOption(word, d), d + end) + [Structural(kind, d + end, d + to)]
            == MoveLexemes(Flush(word, end) + [Structural(kind, end, to)], d)
  {
    hide Flush, MoveOption;
    FlushMoves(word, end, d);
    MoveConcat(Flush(word, end), [Structural(kind, end, to)], d);
  }

  /** Where one turn may stop: at the very end of the part only when it leaves no word and is no comment. */
  ghost predicate TurnStops(s: Bytes, m: Bytes, d: nat, turn: Turn) {
    || Stops(s, m, d, turn.next)
    || (turn.next == d + |m| && turn.word.None? && turn.out != [] && turn.out[|turn.out| - 1].Structural?
        && turn.out[|turn.out| - 1].kind == Operator)
  }

  lemma StepLocal(s: Bytes, m: Bytes, d: nat, at: nat, comments: bool, word: Option<Builder>)
    requires Embeds(s, m, d) && at < |m| && TurnStops(s, m, d, Step(s, d + at, comments, MoveOption(word, d)))
    ensures Step(s, d + at, comments, MoveOption(word, d)) == MoveTurn(Step(m, at, comments, word), d)
  {
    hide MoveLexemes, Embeds, WordPart, OperatorLen, IsRedirect, Find, Flush;
    EmbedsFits(s, m, d);
    EmbedsAt(s, m, d, at);
    EmbedsTail(s, m, d, at);
    FlushMoves(word, at, d);
    var turn := Step(s, d + at, comments, MoveOption(word, d));
    if m[at] == NEWLINE {
      MoveStructural(word, at, Operator, at + 1, d);
    } else if IsSpace(m[at]) {
    } else if comments && m[at] == HASH && word.None? {
      CommentLocal(m[at..], s[d + at..]);
      CommentMoves(at, at + Find(m[at..], NEWLINE), d);
    } else {
      var n := OperatorLen(s[d + at..]);
      OperatorWhen(m[at..], s[d + at..]);
      if n > 0 {
        SliceOfSlice(s, d, |m|, at, n);
        EmbedsSlice(s, m, d, at, n);
        MoveStructural(word, at, if IsRedirect(m[at..at + n]) then Redirect else Operator, at + n, d);
      } else {
        var b := if word.Some? then word.value else NewWord(at);
        NewMoves(at, d);
        PartLocal(s, m, d, at, b);
        MoveNothing(d);
      }
    }
  }

  lemma MoveNothing(d: nat)
    ensures MoveLexemes([], d) == []
  {
  }

  lemma NewMoves(at: nat, d: nat)
    ensures MoveBuilder(NewWord(at), d) == NewWord(d + at)
  {
  }

  lemma CommentMoves(at: nat, end: nat, d: nat)
    ensures MoveLexemes([Structural(Comment, at, end)], d) == [Structural(Comment, d + at, d + end)]
  {
  }

  lemma EmbedsSlice(s: Bytes, m: Bytes, d: nat, at: nat, n: nat)
    requires Embeds(s, m, d) && at + n <= |m|
    ensures s[d + at..d + at + n] == m[at..at + n]
  {
    SliceOfSlice(s, d, |m|, at, n);
  }

  lemma OperatorWhen(a: Bytes, b: Bytes)
    requires a <= b
    ensures OperatorLen(b) <= |a| ==> OperatorLen(a) == OperatorLen(b)
  {
    hide FirstOperator;
    if OperatorLen(b) <= |a| {
      OperatorLocal(OPERATORS, a, b);
    }
  }

  /** Lexing the end of a string is lexing that end on its own, moved. */
  lemma {:induction false} LexMoves(s: Bytes, m: Bytes, at: nat, comments: bool, word: Option<Builder>)
    requires |m| <= |s| && Embeds(s, m, |s| - |m|) && at <= |m|
    ensures LexFrom(s, |s| - |m| + at, comments, MoveOption(word, |s| - |m|))
            == MoveLexemes(LexFrom(m, at, comments, word), |s| - |m|)
    decreases |m| - at
  {
    hide Embeds, Step, Flush, MoveLexemes;
    var d := |s| - |m|;
    if at == |m| {
      FlushMoves(word, at, d);
    } else {
      StepLocal(s, m, d, at, comments, word);
      var turn := Step(m, at, comments, word);
      LexMoves(s, m, turn.next, comments, turn.word);
      MoveConcat(turn.out, LexFrom(m, turn.next, comments, turn.word), d);
    }
  }

  // ----- Splitting at a separator -----

  /** A top-level command separator that ends at `e`. */
  ghost predicate SeparatorAt(s: Bytes, x: Lexeme, e: nat) {
    x.Structural? && x.kind == Operator && x.start <= x.end == e <= |s| && IsSeparator(s[x.start..x.end])
  }

  ghost predicate HasSeparator(s: Bytes, ls: seq<Lexeme>, e: nat) {
    exists i :: 0 <= i < |ls| && SeparatorAt(s, ls[i], e)
  }

  /** What a turn emits: at most a word, then at most one structural token ending where the turn does. */
  lemma TurnEnds(s: Bytes, at: nat, comments: bool, word: Option<Builder>, i: nat)
    requires at < |s| && i < |Step(s, at, comments, word).out| && Step(s, at, comments, word).out[i].Structural?
    ensures var turn := Step(s, at, comments, word);
            i == |turn.out| - 1 && turn.word.None? && turn.out[i].start == at && turn.out[i].end == turn.next
  {
    hide WordPart, OperatorLen, IsRedirect, Find;
  }

  /** One unfolding of the lexer. */
  lemma LexUnfolds(s: Bytes, at: nat, comments: bool, word: Option<Builder>)
    requires at <= |s|
    ensures at == |s| ==> LexFrom(s, at, comments, word) == Flush(word, at)
    ensures at < |s| ==>
              var turn := Step(s, at, comments, word);
              LexFrom(s, at, comments, word) == turn.out + LexFrom(s, turn.next, comments, turn.word)
  {
    hide Step, Flush;
  }

  /** The lexemes from `at` on split at `e`. */
  ghost predicate SplitsAt(s: Bytes, at: nat, comments: bool, word: Option<Builder>, e: nat)
    requires at <= |s|
  {
    && at < e <= |s|
    && var front := LexFrom(s[..e], at, comments, word);
       && LexFrom(s, at, comments, word) == front + MoveLexemes(Lex(s[e..], comments), e)
       && front != [] && SeparatorAt(s, front[|front| - 1], e)
  }

  /** The front alone takes the same turn, as long as that does not stop behind the front. */
  lemma TurnOfFront(s: Bytes, at: nat, comments: bool, word: Option<Builder>, e: nat)
    requires at < e <= |s| && TurnStops(s, s[..e], 0, Step(s, at, comments, word))
    ensures Step(s[..e], at, comments, word) == Step(s, at, comments, word)
  {
    hide Step, Embeds, MoveLexemes, TurnStops;
    PrefixEmbeds(s, e);
    NothingMoves(word);
    StepLocal(s, s[..e], 0, at, comments, word);
    TurnStays(Step(s[..e], at, comments, word));
  }

  /** The separator is what this turn emits last. */
  lemma SplitsHere(s: Bytes, at: nat, comments: bool, word: Option<Builder>, e: nat, k: nat)
    requires at < |s| && k < |Step(s, at, comments, word).out| && SeparatorAt(s, Step(s, at, comments, word).out[k], e)
    ensures SplitsAt(s, at, comments, word, e)
  {
    hide Step, LexFrom, IsSeparator, MoveLexemes, Embeds;
    var turn := Step(s, at, comments, word);
    TurnEnds(s, at, comments, word, k);
    TurnOfFront(s, at, comments, word, e);
    SuffixEmbeds(s, e);
    LexMoves(s, s[e..], 0, comments, None);
    LexUnfolds(s, at, comments, word);
    LexUnfolds(s[..e], at, comments, word);
    LexUnfolds(s[..e], e, comments, None);
    assert turn.out + [] == turn.out;
  }

  lemma SplitsLater(s: Bytes, at: nat, comments: bool, word: Option<Builder>, e: nat)
    requires at < |s|
    requires var turn := Step(s, at, comments, word); SplitsAt(s, turn.next, comments, turn.word, e)
    ensures SplitsAt(s, at, comments, word, e)
  {
    hide Step, LexFrom, IsSeparator, MoveLexemes;
    var turn := Step(s, at, comments, word);
    TurnOfFront(s, at, comments, word, e);
    LexUnfolds(s, at, comments, word);
    LexUnfolds(s[..e], at, comments, word);
    var rest, moved := LexFrom(s[..e], turn.next, comments, turn.word), MoveLexemes(Lex(s[e..], comments), e);
    assert turn.out + (rest + moved) == (turn.out + rest) + moved;
  }

  lemma {:induction false} LexSplitFrom(s: Bytes, at: nat, comments: bool, word: Option<Builder>, e: nat)
    requires at <= |s| && HasSeparator(s, LexFrom(s, at, comments, word), e)
    ensures SplitsAt(s, at, comments, word, e)
    decreases |s| - at
  {
    hide Step, LexFrom, SeparatorAt, SplitsAt, Flush;
    var ls := LexFrom(s, at, comments, word);
    var k :| 0 <= k < |ls| && SeparatorAt(s, ls[k], e);
    LexUnfolds(s, at, comments, word);
    if at == |s| {
      FlushedIsNoSeparator(s, at, word, k, e);
    } else {
      var turn := Step(s, at, comments, word);
      if k < |turn.out| {
        SplitsHere(s, at, comments, word, e, k);
      } else {
        assert SeparatorAt(s, LexFrom(s, turn.next, comments, turn.word)[k - |turn.out|], e);
        LexSplitFrom(s, turn.next, comments, turn.word, e);
        SplitsLater(s, at, comments, word, e);
      }
    }
  }

  lemma FlushedIsNoSeparator(s: Bytes, end: nat, word: Option<Builder>, k: nat, e: nat)
    requires k < |Flush(word, end)|
    ensures !SeparatorAt(s, Flush(word, end)[k], e)
  {
  }

  lemma PrefixEmbeds(s: Bytes, e: nat)
    requires e <= |s|
    ensures Embeds(s, s[..e], 0)
  {
  }

  lemma SuffixEmbeds(s: Bytes, e: nat)
    requires e <= |s|
    ensures Embeds(s, s[e..], e)
  {
  }

  lemma NothingMoves(word: Option<Builder>)
    ensures MoveOption(word, 0) == word
  {
    if word.Some? {
      assert MoveDecorations(word.value.decorations, 0) == word.value.decorations;
    }
  }

  lemma TurnStays(t: Turn)
    ensures MoveTurn(t, 0) == t
  {
    NothingMoves(t.word);
    forall i | 0 <= i < |t.out|
      ensures MoveLexeme(t.out[i], 0) == t.out[i]
    {
      if t.out[i].WordToken? {
        assert MoveDecorations(t.out[i].word.decorations, 0) == t.out[i].word.decorations;
      }
    }
    assert MoveLexemes(t.out, 0) == t.out;
  }

  /** If a top-level separator ends at `e`, the lexemes are those of the front and, moved, those of the rest. */
  lemma LexSplits(s: Bytes, comments: bool, e: nat)
    requires HasSeparator(s, Lex(s, comments), e)
    ensures e <= |s|
    ensures Lex(s, comments) == Lex(s[..e], comments) + MoveLexemes(Lex(s[e..], comments), e)
    ensures var front := Lex(s[..e], comments); front != [] && SeparatorAt(s, front[|front| - 1], e)
  {
    hide LexFrom, MoveLexemes, HasSeparator, SeparatorAt;
    LexSplitFrom(s, 0, comments, None, e);
    assert SplitsAt(s, 0, comments, None, e);
  }
}
