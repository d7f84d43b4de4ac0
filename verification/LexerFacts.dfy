/** Tokenization accounts for every byte once, and decorations nest. */
module LexerFacts {
  import opened Bytes
  import opened Lexer

  // ----- Decorations -----

  ghost predicate Inside(d: Decoration, lo: nat, hi: nat) { lo <= d.start < d.end <= hi }

  ghost predicate Apart(d: Decoration, e: Decoration) { d.end <= e.start || e.end <= d.start }

  ghost predicate Within(d: Decoration, e: Decoration) { e.start <= d.start && d.end <= e.end }

  /** Any two decorations are apart, or the earlier one lies inside the later one. */
  ghost predicate Laminar(ds: seq<Decoration>) {
    forall i, j :: 0 <= i < j < |ds| ==> Apart(ds[i], ds[j]) || Within(ds[i], ds[j])
  }

  ghost predicate Neat(ds: seq<Decoration>, lo: nat, hi: nat) {
    (forall i :: 0 <= i < |ds| ==> Inside(ds[i], lo, hi)) && Laminar(ds)
  }

  /** No decoration straddles an offset. */
  ghost predicate Clear(ds: seq<Decoration>, open: nat) {
    forall i :: 0 <= i < |ds| ==> ds[i].end <= open || open <= ds[i].start
  }

  lemma Decorates(ds: seq<Decoration>, lo: nat, hi: nat, kind: Kind, from: nat, to: nat, open: nat)
    requires Neat(ds, lo, hi) && Clear(ds, from) && Clear(ds, open)
    requires lo <= from < to && hi <= to && open <= from
    ensures Neat(ds + [Decoration(kind, from, to)], lo, to) && Clear(ds + [Decoration(kind, from, to)], open)
  {
    var d := Decoration(kind, from, to);
    forall i | 0 <= i < |ds|
      ensures Apart(ds[i], d) || Within(ds[i], d)
    {
      assert Inside(ds[i], lo, hi);
    }
  }

  lemma Widens(ds: seq<Decoration>, lo: nat, hi: nat, further: nat)
    requires Neat(ds, lo, hi) && hi <= further
    ensures Neat(ds, lo, further) && Clear(ds, hi) && Clear(ds, further)
  {
    forall i | 0 <= i < |ds|
      ensures Inside(ds[i], lo, further) && ds[i].end <= hi
    {
      assert Inside(ds[i], lo, hi);
    }
  }

  /** The word under way is as it should be at `at`, with no decoration across `open`. */
  ghost predicate Good(b: Builder, at: nat, open: nat) {
    b.start <= open <= at && Neat(b.decorations, b.start, at) && Clear(b.decorations, open)
  }

  ghost predicate Keeps(b: Builder, open: nat, r: Scan) { r.builder.start == b.start && Good(r.builder, r.next, open) }

  lemma GoodLater(b: Builder, at: nat, open: nat, next: nat)
    requires Good(b, at, open) && at <= next
    ensures Good(b, next, open)
    ensures forall text :: Good(b.Raw(text), next, open)
    ensures Good(b.NotLiteral(), next, open) && Good(b.Quoted(), next, open)
    ensures Good(b.Quoted(), at, at)
  {
    Widens(b.decorations, b.start, at, next);
  }

  /** Closing a quote: the decoration from `from` takes in everything since. */
  lemma GoodDecorated(b: Builder, at: nat, from: nat, kind: Kind, to: nat, open: nat)
    requires Good(b, at, from) && Clear(b.decorations, open) && b.start <= open <= from < to && at <= to
    ensures Good(b.Decorated(kind, from, to), to, open)
  {
    Decorates(b.decorations, b.start, at, kind, from, to, open);
  }

  lemma EscapeKeeps(s: Bytes, at: nat, b: Builder, dollar: bool, open: nat)
    requires at < |s| && Good(b, at, open)
    ensures Keeps(b, open, ScanEscape(s, at, b, dollar))
  {
    hide Neat, Clear, DecodeDollarEscape;
    var to := Min(at + 2, |s|);
    GoodLater(b, at, open, at);
    GoodDecorated(b.Quoted(), at, at, Escape, to, open);
    GoodLater(b.Quoted().Decorated(Escape, at, to), to, open, ScanEscape(s, at, b, dollar).next);
  }

  lemma SubstitutionKeeps(s: Bytes, at: nat, b: Builder, open: nat)
    requires OpensSubstitution(s, at) && Good(b, at, open)
    ensures Keeps(b, open, ScanSubstitution(s, at, b))
  {
    hide Neat, Clear, SubstitutionEnd;
    GoodLater(b, at, open, at);
    var end := SubstitutionEnd(s, at + 2, 1, s[at + 1]);
    GoodDecorated(b.Quoted().NotLiteral(), at, at, Substitution, end, open);
  }

  lemma {:induction false} SingleKeeps(s: Bytes, at: nat, from: nat, b: Builder, open: nat)
    requires from < at <= |s| && Good(b, at, from) && Clear(b.decorations, open) && b.start <= open <= from
    ensures Keeps(b, open, InSingle(s, at, from, b))
    decreases |s| - at
  {
    hide Neat, Clear;
    GoodLater(b, at, from, at);
    if at == |s| {
      GoodDecorated(b.NotLiteral(), at, from, SingleQuote, at, open);
    } else if s[at] == QUOTE {
      GoodDecorated(b, at, from, SingleQuote, at + 1, open);
    } else {
      GoodLater(b, at, from, at + 1);
      SingleKeeps(s, at + 1, from, b.Raw([s[at]]), open);
    }
  }

  /** Decorations pushed after `from` do not straddle an earlier offset. */
  lemma StillClear(b: Builder, at: nat, from: nat, open: nat, r: Scan)
    requires Good(b, at, from) && Clear(b.decorations, open) && b.start <= open <= from
    requires Keeps(b, from, r) && b.decorations <= r.builder.decorations
    requires forall i :: |b.decorations| <= i < |r.builder.decorations| ==> from <= r.builder.decorations[i].start
    ensures Clear(r.builder.decorations, open)
  {
    var ds := r.builder.decorations;
    forall i | 0 <= i < |ds|
      ensures ds[i].end <= open || open <= ds[i].start
    {
      if i < |b.decorations| {
        assert ds[i] == b.decorations[i];
      }
    }
  }

  lemma EscapePushes(s: Bytes, at: nat, b: Builder, dollar: bool)
    requires at < |s|
    ensures ScanEscape(s, at, b, dollar).builder.decorations == b.decorations + [Decoration(Escape, at, Min(at + 2, |s|))]
  {
    hide DecodeDollarEscape;
  }

  lemma SubstitutionPushes(s: Bytes, at: nat, b: Builder)
    requires OpensSubstitution(s, at)
    ensures var r := ScanSubstitution(s, at, b);
            r.builder.decorations == b.decorations + [Decoration(Substitution, at, r.next)]
  {
    hide SubstitutionEnd;
  }

  lemma {:induction false} DoubleKeeps(s: Bytes, at: nat, from: nat, b: Builder, open: nat)
    requires from < at <= |s| && Good(b, at, from) && Clear(b.decorations, open) && b.start <= open <= from
    ensures Keeps(b, open, InDouble(s, at, from, b))
    decreases |s| - at
  {
    hide Neat, Clear, ScanEscape, ScanSubstitution, OpensSubstitution;
    GoodLater(b, at, from, at);
    if at == |s| {
      GoodDecorated(b.NotLiteral(), at, from, DoubleQuote, at, open);
    } else if s[at] == DOUBLE {
      GoodDecorated(b, at, from, DoubleQuote, at + 1, open);
    } else if s[at] == BACKSLASH {
      var inner := ScanEscape(s, at, b, false);
      EscapeKeeps(s, at, b, false, from);
      EscapePushes(s, at, b, false);
      StillClear(b, at, from, open, inner);
      DoubleKeeps(s, inner.next, from, inner.builder, open);
    } else if OpensSubstitution(s, at) {
      var inner := ScanSubstitution(s, at, b);
      SubstitutionKeeps(s, at, b, from);
      SubstitutionPushes(s, at, b);
      StillClear(b, at, from, open, inner);
      DoubleKeeps(s, inner.next, from, inner.builder, open);
    } else {
      GoodLater(b, at, from, at + 1);
      DoubleKeeps(s, at + 1, from, b.Raw([s[at]]), open);
    }
  }

  lemma {:induction false} DollarKeeps(s: Bytes, at: nat, from: nat, b: Builder, open: nat)
    requires from < at <= |s| && Good(b, at, from) && Clear(b.decorations, open) && b.start <= open <= from
    ensures Keeps(b, open, InDollar(s, at, from, b))
    decreases |s| - at
  {
    hide Neat, Clear, ScanEscape;
    GoodLater(b, at, from, at);
    if at == |s| {
      GoodDecorated(b.NotLiteral(), at, from, DollarQuote, at, open);
    } else if s[at] == QUOTE {
      GoodDecorated(b, at, from, DollarQuote, at + 1, open);
    } else if s[at] == BACKSLASH {
      var inner := ScanEscape(s, at, b, true);
      EscapeKeeps(s, at, b, true, from);
      EscapePushes(s, at, b, true);
      StillClear(b, at, from, open, inner);
      DollarKeeps(s, inner.next, from, inner.builder, open);
    } else {
      GoodLater(b, at, from, at + 1);
      DollarKeeps(s, at + 1, from, b.Raw([s[at]]), open);
    }
  }

  lemma PartKeeps(s: Bytes, at: nat, b: Builder)
    requires at < |s| && b.start <= at && Neat(b.decorations, b.start, at)
    ensures var r := WordPart(s, at, b); r.builder.start == b.start && Neat(r.builder.decorations, b.start, r.next)
  {
    hide Neat, Clear, ScanEscape, ScanSubstitution, InSingle, InDouble, InDollar, OpensSubstitution, IsGlob;
    Widens(b.decorations, b.start, at, at);
    Widens(b.decorations, b.start, at, at + 1);
    if s[at] == BACKSLASH {
      EscapeKeeps(s, at, b, false, at);
    } else if s[at] == QUOTE {
      SingleKeeps(s, at + 1, at, b.Quoted(), at);
    } else if s[at] == DOUBLE {
      DoubleKeeps(s, at + 1, at, b.Quoted(), at);
    } else if s[at] == DOLLAR && at + 1 < |s| && s[at + 1] == QUOTE {
      Widens(b.decorations, b.start, at, at + 2);
      DollarKeeps(s, at + 2, at, b.Quoted(), at);
    } else if OpensSubstitution(s, at) {
      SubstitutionKeeps(s, at, b, at);
    }
  }

  // ----- Lexemes -----

  ghost predicate Holds(x: Lexeme, k: nat) { x.Start() <= k < x.End() }

  ghost predicate Sound(x: Lexeme, lo: nat, hi: nat) {
    && lo <= x.Start() < x.End() <= hi
    && (x.WordToken? ==> Neat(x.word.decorations, x.word.start, x.word.end))
  }

  /** Lexemes between two offsets: non-empty, in order, apart, words with neat decorations. */
  ghost predicate Placed(ls: seq<Lexeme>, lo: nat, hi: nat) {
    && (forall i :: 0 <= i < |ls| ==> Sound(ls[i], lo, hi))
    && (forall i, j :: 0 <= i < j < |ls| ==> ls[i].End() <= ls[j].Start())
  }

  ghost predicate InSome(ls: seq<Lexeme>, k: nat) {
    exists i :: 0 <= i < |ls| && Holds(ls[i], k)
  }

  /** Every byte in a range lies in a lexeme, or is blank space between lexemes. */
  ghost predicate Covers(s: Bytes, ls: seq<Lexeme>, lo: nat, hi: nat)
    requires hi <= |s|
  {
    forall k :: lo <= k < hi ==> InSome(ls, k) || IsSpace(s[k])
  }

  ghost predicate WordUnderWay(word: Option<Builder>, at: nat) {
    word.Some? ==> word.value.start < at && Neat(word.value.decorations, word.value.start, at)
  }

  ghost function Begin(word: Option<Builder>, at: nat): nat {
    if word.Some? then word.value.start else at
  }

  lemma FlushPlaces(s: Bytes, word: Option<Builder>, at: nat)
    requires at <= |s| && WordUnderWay(word, at)
    ensures Placed(Flush(word, at), Begin(word, at), at) && Covers(s, Flush(word, at), Begin(word, at), at)
  {
    hide Neat;
    if word.Some? {
      var ls := Flush(word, at);
      forall k | word.value.start <= k < at
        ensures InSome(ls, k)
      {
        assert Holds(ls[0], k);
      }
    }
  }

  lemma StructuralPlaces(s: Bytes, kind: Kind, from: nat, to: nat)
    requires from < to <= |s|
    ensures Placed([Structural(kind, from, to)], from, to) && Covers(s, [Structural(kind, from, to)], from, to)
  {
    var ls := [Structural(kind, from, to)];
    forall k | from <= k < to
      ensures InSome(ls, k)
    {
      assert Holds(ls[0], k);
    }
  }

  lemma PlacedConcat(s: Bytes, a: seq<Lexeme>, b: seq<Lexeme>, lo: nat, mid: nat, from: nat, hi: nat)
    requires lo <= mid <= from <= hi <= |s| && Placed(a, lo, mid) && Placed(b, from, hi)
    requires Covers(s, a, lo, mid) && Covers(s, b, from, hi) && forall k :: mid <= k < from ==> IsSpace(s[k])
    ensures Placed(a + b, lo, hi) && Covers(s, a + b, lo, hi)
  {
    hide Neat, Holds;
    var c := a + b;
    forall i | 0 <= i < |c|
      ensures Sound(c[i], lo, hi)
    {
      if i < |a| {
        assert Sound(a[i], lo, mid);
      } else {
        assert Sound(b[i - |a|], from, hi);
      }
    }
    forall i, j | 0 <= i < j < |c|
      ensures c[i].End() <= c[j].Start()
    {
      if i < |a| && |a| <= j {
        assert Sound(a[i], lo, mid) && Sound(b[j - |a|], from, hi);
      }
    }
    forall k | lo <= k < hi && !IsSpace(s[k])
      ensures InSome(c, k)
    {
      if k < mid {
        var i :| 0 <= i < |a| && Holds(a[i], k);
        assert Holds(c[i], k);
      } else {
        var i :| 0 <= i < |b| && Holds(b[i], k);
        assert Holds(c[|a| + i], k);
      }
    }
  }

  /** One turn: what it emits covers its bytes, up to the word it leaves under way. */
  lemma StepPlaces(s: Bytes, at: nat, comments: bool, word: Option<Builder>)
    requires at < |s| && WordUnderWay(word, at)
    ensures var turn := Step(s, at, comments, word);
            var from := Begin(turn.word, turn.next);
            && WordUnderWay(turn.word, turn.next) && Begin(word, at) <= from <= |s|
            && Placed(turn.out, Begin(word, at), from) && Covers(s, turn.out, Begin(word, at), from)
  {
    hide Placed, Covers, Neat, WordPart, OperatorLen, IsRedirect, IsSpace, Flush, Find;
    var turn := Step(s, at, comments, word);
    FlushPlaces(s, word, at);
    NoneNeat(at);
    if turn.word.Some? {
      NothingPlaces(s, at);
      PartKeeps(s, at, if word.Some? then word.value else NewWord(at));
      NothingPlaces(s, turn.word.value.start);
    } else if turn.out == Flush(word, at) {
      BlankStep(s, at, comments, word);
      NothingPlaces(s, turn.next);
      PlacedConcat(s, turn.out, [], Begin(word, at), at, turn.next, turn.next);
      assert turn.out + [] == turn.out;
    } else {
      var last := turn.out[|turn.out| - 1];
      StructuralPlaces(s, last.kind, at, turn.next);
      CommentAlone(s, at, comments, word);
      assert turn.out == Flush(word, at) + [last];
      PlacedConcat(s, Flush(word, at), [last], Begin(word, at), at, at, turn.next);
    }
  }

  lemma NoneNeat(at: nat)
    ensures Neat(NewWord(at).decorations, at, at)
  {
  }

  lemma NothingPlaces(s: Bytes, at: nat)
    requires at <= |s|
    ensures Placed([], at, at) && Covers(s, [], at, at)
  {
  }

  lemma BlankStep(s: Bytes, at: nat, comments: bool, word: Option<Builder>)
    requires at < |s|
    ensures var turn := Step(s, at, comments, word);
            turn.word.None? && turn.out == Flush(word, at) ==> turn.next == at + 1 && IsSpace(s[at])
  {
    hide WordPart, OperatorLen, IsRedirect, Find;
  }

  lemma CommentAlone(s: Bytes, at: nat, comments: bool, word: Option<Builder>)
    requires at < |s|
    ensures var turn := Step(s, at, comments, word);
            turn.word.None? && turn.out != Flush(word, at) ==>
              exists kind :: turn.out == Flush(word, at) + [Structural(kind, at, turn.next)]
  {
    hide WordPart, OperatorLen, IsRedirect, Find;
    var turn := Step(s, at, comments, word);
    if turn.word.None? && turn.out != Flush(word, at) {
      var last := turn.out[|turn.out| - 1];
      assert turn.out == Flush(word, at) + [Structural(last.kind, at, turn.next)];
    }
  }

  lemma {:induction false} LexFromPlaces(s: Bytes, at: nat, comments: bool, word: Option<Builder>)
    requires at <= |s| && WordUnderWay(word, at)
    ensures var ls := LexFrom(s, at, comments, word);
            Placed(ls, Begin(word, at), |s|) && Covers(s, ls, Begin(word, at), |s|)
    decreases |s| - at
  {
    hide Placed, Covers, Step, WordUnderWay, Flush;
    if at == |s| {
      FlushPlaces(s, word, at);
    } else {
      var turn := Step(s, at, comments, word);
      StepPlaces(s, at, comments, word);
      LexFromPlaces(s, turn.next, comments, turn.word);
      var from := Begin(turn.word, turn.next);
      PlacedConcat(s, turn.out, LexFrom(s, turn.next, comments, turn.word), Begin(word, at), from, from, |s|);
    }
  }

  /**
  Tokenization of any bytes: lexemes are non-empty, in order and apart; every byte is in one of them
  or is blank space; the decorations of a word lie inside it, and any two are apart or nested.
  */
  lemma LexPartitions(s: Bytes, comments: bool)
    ensures var ls := Lex(s, comments);
            && (forall i :: 0 <= i < |ls| ==> ls[i].Start() < ls[i].End() <= |s|)
            && (forall i, j :: 0 <= i < j < |ls| ==> ls[i].End() <= ls[j].Start())
            && (forall k :: 0 <= k < |s| ==> InSome(ls, k) || IsSpace(s[k]))
            && (forall i :: 0 <= i < |ls| && ls[i].WordToken? ==>
                  Neat(ls[i].word.decorations, ls[i].word.start, ls[i].word.end))
  {
    hide Neat, InSome;
    LexFromPlaces(s, 0, comments, None);
    var ls := Lex(s, comments);
    assert forall i :: 0 <= i < |ls| ==> Sound(ls[i], 0, |s|);
  }

  // ----- Literals -----

  /** A byte whose expansion can change what a word says. */
  predicate Expands(b: byte) { b == DOLLAR || b == BACKTICK || IsGlob(b) }

  /** An unquoted word under way spells its own bytes, and stays literal until one of them expands. */
  ghost predicate Straight(b: Builder, s: Bytes, at: nat) {
    && b.start <= at <= |s|
    && (b.plain ==>
          && b.literal == s[b.start..at]
          && (b.literalOk <==> forall k :: b.start <= k < at ==> !Expands(s[k])))
  }

  lemma {:induction false} SingleKeepsPlain(s: Bytes, at: nat, open: nat, b: Builder)
    requires at <= |s|
    ensures InSingle(s, at, open, b).builder.plain == b.plain
    decreases |s| - at
  {
    if at < |s| && s[at] != QUOTE {
      SingleKeepsPlain(s, at + 1, open, b.Raw([s[at]]));
    }
  }

  lemma {:induction false} DoubleStaysQuoted(s: Bytes, at: nat, open: nat, b: Builder)
    requires at <= |s| && !b.plain
    ensures !InDouble(s, at, open, b).builder.plain
    decreases |s| - at
  {
    hide DecodeDollarEscape, SubstitutionEnd;
    if at < |s| && s[at] != DOUBLE {
      if s[at] == BACKSLASH {
        var inner := ScanEscape(s, at, b, false);
        DoubleStaysQuoted(s, inner.next, open, inner.builder);
      } else if OpensSubstitution(s, at) {
        var inner := ScanSubstitution(s, at, b);
        DoubleStaysQuoted(s, inner.next, open, inner.builder);
      } else {
        DoubleStaysQuoted(s, at + 1, open, b.Raw([s[at]]));
      }
    }
  }

  lemma {:induction false} DollarStaysQuoted(s: Bytes, at: nat, open: nat, b: Builder)
    requires at <= |s| && !b.plain
    ensures !InDollar(s, at, open, b).builder.plain
    decreases |s| - at
  {
    hide DecodeDollarEscape;
    if at < |s| && s[at] != QUOTE {
      if s[at] == BACKSLASH {
        var inner := ScanEscape(s, at, b, true);
        DollarStaysQuoted(s, inner.next, open, inner.builder);
      } else {
        DollarStaysQuoted(s, at + 1, open, b.Raw([s[at]]));
      }
    }
  }

  lemma PartStraight(s: Bytes, at: nat, b: Builder)
    requires at < |s| && Straight(b, s, at)
    ensures b.start == WordPart(s, at, b).builder.start ==> Straight(WordPart(s, at, b).builder, s, WordPart(s, at, b).next)
  {
    hide DecodeDollarEscape, SubstitutionEnd, InSingle, InDouble, InDollar;
    if s[at] == QUOTE {
      SingleKeepsPlain(s, at + 1, at, b.Quoted());
    } else if s[at] == DOUBLE {
      DoubleStaysQuoted(s, at + 1, at, b.Quoted());
    } else if s[at] == DOLLAR && at + 1 < |s| && s[at + 1] == QUOTE {
      DollarStaysQuoted(s, at + 2, at, b.Quoted());
    }
    assert s[b.start..at + 1] == s[b.start..at] + [s[at]];
  }

  ghost predicate WordStraight(s: Bytes, word: Option<Builder>, at: nat) {
    word.Some? ==> Straight(word.value, s, at)
  }

  /** What a finished word promises about its literal. */
  ghost predicate Literal(s: Bytes, x: Lexeme) {
    x.WordToken? && x.word.plain ==>
      && x.word.start <= x.word.end <= |s|
      && x.word.literal
         == if forall k :: x.word.start <= k < x.word.end ==> !Expands(s[k]) then Some(s[x.word.start..x.word.end]) else None
  }

  lemma FlushLiteral(s: Bytes, word: Option<Builder>, at: nat)
    requires WordStraight(s, word, at)
    ensures forall i :: 0 <= i < |Flush(word, at)| ==> Literal(s, Flush(word, at)[i])
  {
  }

  lemma StepLiteral(s: Bytes, at: nat, comments: bool, word: Option<Builder>)
    requires at < |s| && WordUnderWay(word, at) && WordStraight(s, word, at)
    ensures var turn := Step(s, at, comments, word);
            && WordStraight(s, turn.word, turn.next)
            && forall i :: 0 <= i < |turn.out| ==> Literal(s, turn.out[i])
  {
    hide WordPart, OperatorLen, IsRedirect, IsSpace, Flush, Find, Expands, Neat;
    FlushLiteral(s, word, at);
    NoneNeat(at);
    var b := if word.Some? then word.value else NewWord(at);
    assert s[at..at] == [];
    PartKeeps(s, at, b);
    PartStraight(s, at, b);
  }

  lemma {:induction false} LexFromLiteral(s: Bytes, at: nat, comments: bool, word: Option<Builder>)
    requires at <= |s| && WordUnderWay(word, at) && WordStraight(s, word, at)
    ensures forall i :: 0 <= i < |LexFrom(s, at, comments, word)| ==> Literal(s, LexFrom(s, at, comments, word)[i])
    decreases |s| - at
  {
    hide Step, Flush, Literal, WordStraight, WordUnderWay, Placed, Covers;
    if at == |s| {
      FlushLiteral(s, word, at);
    } else {
      var turn := Step(s, at, comments, word);
      StepPlaces(s, at, comments, word);
      StepLiteral(s, at, comments, word);
      LexFromLiteral(s, turn.next, comments, turn.word);
    }
  }

  /** An unquoted word has a literal exactly when none of its bytes expands, and then it is its own text. */
  lemma PlainWordsAreLiteral(s: Bytes, comments: bool, i: nat)
    requires i < |Lex(s, comments)| && Lex(s, comments)[i].WordToken? && Lex(s, comments)[i].word.plain
    ensures var w := Lex(s, comments)[i].word;
            && w.start < w.end <= |s|
            && (w.literal.Some? <==> forall k :: w.start <= k < w.end ==> !Expands(s[k]))
            && (w.literal.Some? ==> w.literal.value == s[w.start..w.end])
  {
    hide LexFrom, Expands, Neat, InSome;
    LexFromLiteral(s, 0, comments, None);
    LexPartitions(s, comments);
    assert Literal(s, Lex(s, comments)[i]);
  }

  // ----- Operators -----

  /** No operator of the list that is spelled here is longer than `n` bytes, and one of that length is, unless `n` is 0. */
  ghost predicate Longest(operators: seq<string>, s: Bytes, n: nat) {
    && (forall i :: 0 <= i < |operators| && Spells(operators[i], s) ==> |operators[i]| <= n)
    && (n > 0 ==> exists i :: 0 <= i < |operators| && Spells(operators[i], s) && |operators[i]| == n)
  }

  ghost predicate LongFirst(operators: seq<string>) {
    forall i, j :: 0 <= i < j < |operators| ==> |operators[i]| >= |operators[j]|
  }

  lemma {:induction false} FirstIsLongest(operators: seq<string>, s: Bytes)
    requires LongFirst(operators)
    ensures Longest(operators, s, FirstOperator(operators, s))
  {
    hide Spells;
    if operators != [] {
      if Spells(operators[0], s) {
        assert forall i :: 0 <= i < |operators| ==> |operators[i]| <= |operators[0]|;
      } else {
        FirstIsLongest(operators[1..], s);
        LongestBehind(operators, s, FirstOperator(operators[1..], s));
      }
    }
  }

  lemma LongestBehind(operators: seq<string>, s: Bytes, n: nat)
    requires operators != [] && !Spells(operators[0], s) && Longest(operators[1..], s, n)
    ensures Longest(operators, s, n)
  {
    hide Spells;
    forall i | 0 <= i < |operators| && Spells(operators[i], s)
      ensures |operators[i]| <= n
    {
      assert i > 0 && operators[1..][i - 1] == operators[i];
    }
    if n > 0 {
      var i :| 0 <= i < |operators[1..]| && Spells(operators[1..][i], s) && |operators[1..][i]| == n;
      assert operators[i + 1] == operators[1..][i];
    }
  }

  /** The token is a newline, a comment, or the longest operator spelled where it starts. */
  ghost predicate TakesLongest(s: Bytes, x: Lexeme) {
    x.Structural? ==>
      && x.start < x.end <= |s|
      && (x.kind == Comment || s[x.start] == NEWLINE || Longest(OPERATORS, s[x.start..], x.end - x.start))
  }

  lemma TurnTakesLongest(s: Bytes, at: nat, comments: bool, word: Option<Builder>)
    requires at < |s|
    ensures forall x :: x in Step(s, at, comments, word).out ==> TakesLongest(s, x)
  {
    hide Longest, WordPart, IsRedirect, FirstOperator, OPERATORS;
    OperatorIsLongest(s[at..]);
    if comments && s[at] == HASH && word.None? {
      assert s[at..][0] == HASH;
    }
  }

  lemma OperatorIsLongest(s: Bytes)
    ensures Longest(OPERATORS, s, OperatorLen(s))
  {
    FirstIsLongest(OPERATORS, s);
    hide Longest, FirstOperator;
  }

  /** Every operator token is the longest operator spelled where it starts. */
  lemma {:induction false} OperatorsAreLongest(s: Bytes, at: nat, comments: bool, word: Option<Builder>)
    requires at <= |s|
    ensures forall x :: x in LexFrom(s, at, comments, word) ==> TakesLongest(s, x)
    decreases |s| - at
  {
    hide Step, TakesLongest;
    if at == |s| {
      FlushTakesLongest(s, word);
    } else {
      var turn := Step(s, at, comments, word);
      TurnTakesLongest(s, at, comments, word);
      OperatorsAreLongest(s, turn.next, comments, turn.word);
    }
  }

  lemma FlushTakesLongest(s: Bytes, word: Option<Builder>)
    ensures forall x :: x in Flush(word, |s|) ==> TakesLongest(s, x)
  {
  }
}
