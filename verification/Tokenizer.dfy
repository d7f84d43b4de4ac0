/** Tokenization and analysis as src/syntax.rs runs them: index loops over one mutable word and five flags. */
module Tokenizer {
  import opened Bytes
  import opened Spans
  import opened Lexer
  import opened Analysis
  import TokenOffsets

  class WordBuilder {
    const start: nat
    var literal: Bytes
    var literalOk: bool
    var plain: bool
    var decorations: seq<Decoration>

    ghost function Value(): Builder
      reads this
    {
      Builder(start, literal, literalOk, plain, decorations)
    }

    constructor (start: nat)
      ensures Value() == NewWord(start)
    {
      this.start, literal, literalOk, plain, decorations := start, [], true, true, [];
    }

    method Raw(bytes: Bytes)
      modifies this
      ensures Value() == old(Value()).Raw(bytes)
    {
      literal := literal + bytes;
    }

    method NotLiteral()
      modifies this
      ensures Value() == old(Value()).NotLiteral()
    {
      literalOk := false;
    }

    method Quoted()
      modifies this
      ensures Value() == old(Value()).Quoted()
    {
      plain := false;
    }

    method Decorate(kind: Kind, from: nat, to: nat)
      modifies this
      ensures Value() == old(Value()).Decorated(kind, from, to)
    {
      decorations := decorations + [Decoration(kind, from, to)];
    }

    method Finish(end: nat) returns (w: RawWord)
      ensures w == Value().Finish(end)
    {
      w := RawWord(start, end, if literalOk then Some(literal) else None, plain, decorations);
    }
  }

  method ScanEscape(s: Bytes, at: nat, builder: WordBuilder, dollar: bool) returns (next: nat)
    requires at < |s|
    modifies builder
    ensures var r := Lexer.ScanEscape(s, at, old(builder.Value()), dollar);
            next == r.next && builder.Value() == r.builder
  {
    hide DecodeDollarEscape;
    builder.Quoted();
    builder.Decorate(Escape, at, Min(at + 2, |s|));
    if at + 1 >= |s| {
      builder.NotLiteral();
      return |s|;
    }
    if dollar {
      var decoded := DecodeDollarEscape(s[at + 1..]);
      if decoded.Some? {
        builder.Raw(decoded.value.bytes);
        return at + 1 + decoded.value.consumed;
      }
      builder.NotLiteral();
      return at + 2;
    }
    if s[at + 1] != NEWLINE {
      builder.Raw([s[at + 1]]);
    }
    return at + 2;
  }

  method ScanSingleQuote(s: Bytes, at: nat, builder: WordBuilder) returns (next: nat)
    requires at < |s|
    modifies builder
    ensures var r := InSingle(s, at + 1, at, old(builder.Value()).Quoted());
            next == r.next && builder.Value() == r.builder
  {
    builder.Quoted();
    var i := at + 1;
    while i < |s| && s[i] != QUOTE
      invariant i <= |s|
      invariant InSingle(s, i, at, builder.Value()) == InSingle(s, at + 1, at, old(builder.Value()).Quoted())
    {
      builder.Raw([s[i]]);
      i := i + 1;
    }
    next := if i < |s| then i + 1 else |s|;
    if i == |s| {
      builder.NotLiteral();
    }
    builder.Decorate(SingleQuote, at, next);
  }

  method ScanDoubleQuote(s: Bytes, at: nat, builder: WordBuilder) returns (next: nat)
    requires at < |s|
    modifies builder
    ensures var r := InDouble(s, at + 1, at, old(builder.Value()).Quoted());
            next == r.next && builder.Value() == r.builder
  {
    hide Lexer.ScanEscape, Lexer.ScanSubstitution;
    builder.Quoted();
    var i := at + 1;
    while i < |s|
      invariant i <= |s|
      invariant InDouble(s, i, at, builder.Value()) == InDouble(s, at + 1, at, old(builder.Value()).Quoted())
    {
      if s[i] == DOUBLE {
        builder.Decorate(DoubleQuote, at, i + 1);
        return i + 1;
      } else if s[i] == BACKSLASH {
        i := ScanEscape(s, i, builder, false);
      } else if OpensSubstitution(s, i) {
        i := ScanSubstitution(s, i, builder);
      } else {
        builder.Raw([s[i]]);
        i := i + 1;
      }
    }
    builder.NotLiteral();
    builder.Decorate(DoubleQuote, at, |s|);
    return |s|;
  }

  method ScanDollarQuote(s: Bytes, at: nat, builder: WordBuilder) returns (next: nat)
    requires at + 1 < |s|
    modifies builder
    ensures var r := InDollar(s, at + 2, at, old(builder.Value()).Quoted());
            next == r.next && builder.Value() == r.builder
  {
    hide Lexer.ScanEscape;
    builder.Quoted();
    var i := at + 2;
    while i < |s|
      invariant i <= |s|
      invariant InDollar(s, i, at, builder.Value()) == InDollar(s, at + 2, at, old(builder.Value()).Quoted())
    {
      if s[i] == QUOTE {
        builder.Decorate(DollarQuote, at, i + 1);
        return i + 1;
      } else if s[i] == BACKSLASH {
        i := ScanEscape(s, i, builder, true);
      } else {
        builder.Raw([s[i]]);
        i := i + 1;
      }
    }
    builder.NotLiteral();
    builder.Decorate(DollarQuote, at, |s|);
    return |s|;
  }

  method SkipOver(s: Bytes, at: nat, quote: byte) returns (next: nat)
    requires at < |s|
    ensures next == SkipQuote(s, at + 1, quote)
  {
    var i := at + 1;
    while i < |s|
      invariant i <= |s| && SkipQuote(s, i, quote) == SkipQuote(s, at + 1, quote)
    {
      if s[i] == BACKSLASH {
        i := Min(i + 2, |s|);
      } else if s[i] == quote {
        return i + 1;
      } else {
        i := i + 1;
      }
    }
    return |s|;
  }

  method ScanSubstitution(s: Bytes, at: nat, builder: WordBuilder) returns (next: nat)
    requires OpensSubstitution(s, at)
    modifies builder
    ensures var r := Lexer.ScanSubstitution(s, at, old(builder.Value()));
            next == r.next && builder.Value() == r.builder
  {
    hide SkipQuote;
    builder.Quoted();
    builder.NotLiteral();
    var opening := s[at + 1];
    var depth, i := 1, at + 2;
    while i < |s| && depth > 0
      invariant i <= |s|
      invariant SubstitutionEnd(s, at + 2, 1, opening) == if depth > 0 then SubstitutionEnd(s, i, depth, opening) else i
      invariant builder.Value() == old(builder.Value()).Quoted().NotLiteral()
    {
      if s[i] == BACKSLASH {
        i := Min(i + 2, |s|);
      } else if s[i] == QUOTE || s[i] == DOUBLE {
        i := SkipOver(s, i, s[i]);
      } else if s[i] == opening {
        depth, i := depth + 1, i + 1;
      } else if s[i] == Closing(opening) {
        depth, i := depth - 1, i + 1;
      } else {
        i := i + 1;
      }
    }
    builder.Decorate(Substitution, at, i);
    return i;
  }

  // ----- tokenize -----

  /** A token names a word by its place in the list of words. */
  datatype RawToken = RawStructural(kind: Kind, start: nat, end: nat) | RawWordAt(index: nat, start: nat, end: nat)

  datatype Lexed = Lexed(tokens: seq<RawToken>, words: seq<RawWord>) {
    ghost predicate Valid() {
      forall i :: 0 <= i < |tokens| && tokens[i].RawWordAt? ==>
        && tokens[i].index < |words|
        && tokens[i].start == words[tokens[i].index].start && tokens[i].end == words[tokens[i].index].end
    }

    /** The lexemes the tokens stand for. */
    ghost function Lexemes(): (r: seq<Lexeme>)
      requires Valid()
      ensures |r| == |tokens|
    {
      seq(|tokens|, i requires 0 <= i < |tokens| =>
        match tokens[i]
        case RawStructural(kind, start, end) => Structural(kind, start, end)
        case RawWordAt(index, _, _) => WordToken(words[index]))
    }

    function PushStructural(kind: Kind, start: nat, end: nat): Lexed {
      this.(tokens := tokens + [RawStructural(kind, start, end)])
    }

    function PushWord(w: RawWord): Lexed {
      Lexed(tokens + [RawWordAt(|words|, w.start, w.end)], words + [w])
    }
  }

  lemma PushedStructural(l: Lexed, kind: Kind, start: nat, end: nat)
    requires l.Valid()
    ensures var p := l.PushStructural(kind, start, end);
            p.Valid() && p.Lexemes() == l.Lexemes() + [Structural(kind, start, end)]
  {
  }

  lemma PushedWord(l: Lexed, w: RawWord)
    requires l.Valid()
    ensures var p := l.PushWord(w); p.Valid() && p.Lexemes() == l.Lexemes() + [WordToken(w)]
  {
  }

  ghost function Under(word: WordBuilder?): Option<Builder>
    reads word
  {
    if word == null then None else Some(word.Value())
  }

  method FlushWord(lexed: Lexed, word: WordBuilder?, end: nat) returns (r: Lexed)
    requires lexed.Valid()
    ensures r.Valid() && r.Lexemes() == lexed.Lexemes() + Flush(Under(word), end)
  {
    hide Lexed.Lexemes, Lexed.Valid;
    if word == null {
      assert lexed.Lexemes() + [] == lexed.Lexemes();
      return lexed;
    }
    var w := word.Finish(end);
    PushedWord(lexed, w);
    return lexed.PushWord(w);
  }

  method ScanWordPart(s: Bytes, at: nat, builder: WordBuilder) returns (next: nat)
    requires at < |s|
    modifies builder
    ensures var r := WordPart(s, at, old(builder.Value())); next == r.next && builder.Value() == r.builder
  {
    hide InSingle, InDouble, InDollar, Lexer.ScanEscape, Lexer.ScanSubstitution;
    if s[at] == BACKSLASH {
      next := ScanEscape(s, at, builder, false);
    } else if s[at] == QUOTE {
      next := ScanSingleQuote(s, at, builder);
    } else if s[at] == DOUBLE {
      next := ScanDoubleQuote(s, at, builder);
    } else if s[at] == DOLLAR && at + 1 < |s| && s[at + 1] == QUOTE {
      next := ScanDollarQuote(s, at, builder);
    } else if OpensSubstitution(s, at) {
      next := ScanSubstitution(s, at, builder);
    } else {
      if s[at] == DOLLAR || s[at] == BACKTICK || IsGlob(s[at]) {
        builder.NotLiteral();
      }
      builder.Raw([s[at]]);
      next := at + 1;
    }
  }

  method Tokenize(s: Bytes, comments: bool) returns (lexed: Lexed)
    ensures lexed.Valid() && lexed.Lexemes() == Lex(s, comments)
  {
    hide Lexed.Lexemes, Lexed.Valid, WordPart, OperatorLen, IsRedirect, Find, Flush, IsSpace, LexFrom;
    lexed := Lexed([], []);
    var word: WordBuilder? := null;
    var i := 0;
    NothingLexed(s, comments);
    while i < |s|
      invariant i <= |s| && lexed.Valid() && (word != null ==> fresh(word))
      invariant lexed.Lexemes() + LexFrom(s, i, comments, Under(word)) == Lex(s, comments)
      decreases |s| - i
    {
      LexStep(s, i, comments, Under(word), lexed.Lexemes());
      ghost var turn := Step(s, i, comments, Under(word));
      var b := s[i];
      if b == NEWLINE {
        var flushed := FlushWord(lexed, word, i);
        PushedStructural(flushed, Operator, i, i + 1);
        Regrouped(lexed.Lexemes(), Flush(Under(word), i), [Structural(Operator, i, i + 1)]);
        lexed, word, i := flushed.PushStructural(Operator, i, i + 1), null, i + 1;
      } else if IsSpace(b) {
        lexed := FlushWord(lexed, word, i);
        word, i := null, i + 1;
      } else if comments && b == HASH && word == null {
        var end := i + Find(s[i..], NEWLINE);
        assert s[i..][0] == HASH;
        PushedStructural(lexed, Comment, i, end);
        lexed, i := lexed.PushStructural(Comment, i, end), end;
      } else {
        var n := OperatorLen(s[i..]);
        if n > 0 {
          var kind := if IsRedirect(s[i..i + n]) then Redirect else Operator;
          var flushed := FlushWord(lexed, word, i);
          PushedStructural(flushed, kind, i, i + n);
          Regrouped(lexed.Lexemes(), Flush(Under(word), i), [Structural(kind, i, i + n)]);
          lexed, word, i := flushed.PushStructural(kind, i, i + n), null, i + n;
        } else {
          if word == null {
            word := new WordBuilder(i);
          }
          assert lexed.Lexemes() + [] == lexed.Lexemes();
          i := ScanWordPart(s, i, word);
        }
      }
    }
    LexEnd(s, comments, Under(word));
    lexed := FlushWord(lexed, word, |s|);
  }

  lemma NothingLexed(s: Bytes, comments: bool)
    ensures Lexed([], []).Valid() && Lexed([], []).Lexemes() + LexFrom(s, 0, comments, None) == Lex(s, comments)
  {
    hide LexFrom;
  }

  lemma LexStep(s: Bytes, at: nat, comments: bool, word: Option<Builder>, done: seq<Lexeme>)
    requires at < |s|
    ensures var turn := Step(s, at, comments, word);
            done + LexFrom(s, at, comments, word) == (done + turn.out) + LexFrom(s, turn.next, comments, turn.word)
  {
    hide Step;
    var turn := Step(s, at, comments, word);
    var rest := LexFrom(s, turn.next, comments, turn.word);
    assert done + (turn.out + rest) == (done + turn.out) + rest;
  }

  lemma LexEnd(s: Bytes, comments: bool, word: Option<Builder>)
    ensures LexFrom(s, |s|, comments, word) == Flush(word, |s|)
  {
  }

  lemma Regrouped<T>(a: seq<T>, b: seq<T>, c: seq<T>)
    ensures (a + b) + c == a + (b + c)
  {
  }

  // ----- analyze -----

  /** One token as delivered: a role over a character span. */
  datatype Token = Token(kind: Kind, span: CharSpan)

  function OffsetAt(s: Bytes, k: nat): nat { TokenOffsets.OffsetFrom(s, Min(k, |s|), 0) }

  function TokenOf(s: Bytes, r: Role): Token { Token(r.kind, Span(OffsetAt(s, r.start), OffsetAt(s, r.end))) }

  function TokensOf(s: Bytes, roles: seq<Role>): (r: seq<Token>)
    ensures |r| == |roles|
  {
    seq(|roles|, i requires 0 <= i < |roles| => TokenOf(s, roles[i]))
  }

  lemma TokensConcat(s: Bytes, a: seq<Role>, b: seq<Role>)
    ensures TokensOf(s, a + b) == TokensOf(s, a) + TokensOf(s, b)
  {
    hide TokenOf;
  }

  lemma AnalyzeStep(n: Names, s: Bytes, ls: seq<Lexeme>, i: nat, p: Position, done: seq<Role>)
    requires AllSpan(s, ls) && i < |ls| && AllSpan(s, ls[i..]) && AllSpan(s, ls[i + 1..])
    ensures Fits(s, ls[i])
    ensures var (roles, next) := Classify(n, p, ls[i], TextOf(s, ls[i]));
            done + AnalyzeFrom(n, s, ls[i..], p) == (done + roles) + AnalyzeFrom(n, s, ls[i + 1..], next)
  {
    hide Classify, Fits;
    assert ls[i..][0] == ls[i] && ls[i..][1..] == ls[i + 1..];
    var (roles, next) := Classify(n, p, ls[i], TextOf(s, ls[i]));
    Regrouped(done, roles, AnalyzeFrom(n, s, ls[i + 1..], next));
  }

  lemma SpansFrom(s: Bytes, ls: seq<Lexeme>, i: nat)
    requires AllSpan(s, ls) && i <= |ls|
    ensures AllSpan(s, ls[i..])
  {
    hide Fits;
  }

  /** One token through the offset table. */
  method PushToken(s: Bytes, offsets: array<nat>, kind: Kind, start: nat, end: nat) returns (t: Token)
    requires TokenOffsets.IsTable(s, offsets)
    ensures t == TokenOf(s, Role(kind, start, end))
  {
    hide TokenOffsets.OffsetFrom;
    t := Token(kind, Span(offsets[Min(start, offsets.Length - 1)], offsets[Min(end, offsets.Length - 1)]));
  }

  /** The tokens of one word: its role, its decorations in the order they were closed, and its path role. */
  method PushWordTokens(n: Names, s: Bytes, offsets: array<nat>, w: RawWord, kind: Kind) returns (out: seq<Token>)
    requires TokenOffsets.IsTable(s, offsets)
    ensures out == TokensOf(s, WordRoles(n, w, kind))
  {
    hide TokenOffsets.OffsetFrom, TokenOf;
    var first := PushToken(s, offsets, kind, w.start, w.end);
    out := [first];
    ghost var roles := WordRoles(n, w, kind);
    for i := 0 to |w.decorations|
      invariant out == TokensOf(s, roles[..i + 1])
    {
      var d := w.decorations[i];
      var t := PushToken(s, offsets, d.kind, d.start, d.end);
      out := out + [t];
      assert roles[..i + 2] == roles[..i + 1] + [Role(d.kind, d.start, d.end)];
    }
    if w.literal.Some? && IsPathCandidate(w.literal.value) && n.pathExists(w.literal.value) {
      var t := PushToken(s, offsets, Path, w.start, w.end);
      out := out + [t];
      assert roles == roles[..|w.decorations| + 1] + [Role(Path, w.start, w.end)];
    } else {
      assert roles == roles[..|w.decorations| + 1];
    }
  }

  lemma StructuralStep(n: Names, p: Position, kind: Kind, start: nat, end: nat, text: Bytes)
    ensures Classify(n, p, Structural(kind, start, end), text)
            == ([Role(kind, start, end)],
                if kind == Redirect then p.(redirect := true)
                else if kind == Operator && IsSeparator(text) then COMMAND_START else p)
  {
    hide WordRole, WordRoles, IsSeparator;
  }

  lemma WordStep(n: Names, p: Position, w: RawWord, text: Bytes)
    ensures Classify(n, p, WordToken(w), text) == (WordRoles(n, w, WordRole(n, p, w, text).0), WordRole(n, p, w, text).1)
  {
    hide WordRole, WordRoles;
  }

  /** The whole analysis, on character spans. */
  method AnalyzeBuffer(n: Names, s: Bytes, comments: bool) returns (result: seq<Token>)
    ensures result == TokensOf(s, Analyze(n, s, comments))
  {
    hide AnalyzeFrom, AllSpan, Fits, Classify, WordRoles, TokenOf, TokensOf, Lex, IsSeparator, ResolveCommand,
         WrapperOf, TakesValue, IsOption, IsAssignment, StartsCommand, IsReserved, TokenOffsets.OffsetFrom, TokenOffsets.IsTable;
    var lexed := Tokenize(s, comments);
    var offsets := TokenOffsets.BuildOffsets(s);
    LexSpans(s, comments);
    ghost var ls := Lex(s, comments);
    ghost var roles: seq<Role> := [];
    result := [];
    var command, wrapper, value, optionsDone, redirect := true, None, false, false, false;
    EmptyTokens(s);
    assert ls[0..] == ls && [] + Analyze(n, s, comments) == Analyze(n, s, comments);
    SpansFrom(s, ls, 0);
    for i := 0 to |lexed.tokens|
      invariant TokenOffsets.IsTable(s, offsets) && AllSpan(s, ls[i..]) && result == TokensOf(s, roles)
      invariant roles + AnalyzeFrom(n, s, ls[i..], Position(command, wrapper, value, optionsDone, redirect))
                == Analyze(n, s, comments)
    {
      ghost var p := Position(command, wrapper, value, optionsDone, redirect);
      SpansFrom(s, ls, i + 1);
      AnalyzeStep(n, s, ls, i, p, roles);
      SpansOne(s, ls[i]);
      match lexed.tokens[i]
      case RawStructural(kind, start, end) =>
        StructuralStep(n, p, kind, start, end, s[start..end]);
        var t := PushToken(s, offsets, kind, start, end);
        OneToken(s, Role(kind, start, end));
        TokensConcat(s, roles, [Role(kind, start, end)]);
        roles, result := roles + [Role(kind, start, end)], result + [t];
        if kind == Redirect {
          redirect := true;
        } else if kind == Operator && IsSeparator(s[start..end]) {
          command, wrapper, value, optionsDone, redirect := true, None, false, false, false;
        }
      case RawWordAt(index, start, end) =>
        var w := lexed.words[index];
        var raw := s[w.start..w.end];
        WordStep(n, p, w, raw);
        var kind := Word;
        if redirect {
          redirect := false;
        } else if wrapper.Some? {
          if value {
            value := false;
          } else if !optionsDone && IsOption(w, raw) {
            kind, value := Option, TakesValue(wrapper.value, raw);
          } else if !optionsDone && w.plain && raw == Ascii("--") {
            kind, optionsDone := Option, true;
          } else if IsAssignment(w, raw) {
            kind := Assignment;
          } else {
            kind, command, wrapper := ResolveCommand(n, w, raw), false, None;
          }
        } else if command && IsAssignment(w, raw) {
          kind := Assignment;
        } else if command {
          var found := WrapperOf(w, raw);
          if found.Some? {
            kind, wrapper, value, optionsDone := Precommand, found, false, false;
          } else if IsReserved(n, w, raw) {
            kind, command := Reserved, StartsCommand(raw);
          } else {
            kind, command := ResolveCommand(n, w, raw), false;
          }
        } else if IsOption(w, raw) {
          kind := Option;
        }
        assert WordRole(n, p, w, raw) == (kind, Position(command, wrapper, value, optionsDone, redirect));
        var out := PushWordTokens(n, s, offsets, w, kind);
        TokensConcat(s, roles, WordRoles(n, w, kind));
        roles, result := roles + WordRoles(n, w, kind), result + out;
    }
    assert ls[|ls|..] == [];
    AnalyzeEnd(n, s, Position(command, wrapper, value, optionsDone, redirect));
    assert roles + [] == roles;
  }

  lemma SpansOne(s: Bytes, x: Lexeme)
    requires Fits(s, x)
    ensures x.Start() <= x.End() <= |s| && TextOf(s, x) == s[x.Start()..x.End()]
  {
  }

  lemma EmptyTokens(s: Bytes)
    ensures TokensOf(s, []) == []
  {
  }

  lemma OneToken(s: Bytes, r: Role)
    ensures TokensOf(s, [r]) == [TokenOf(s, r)]
  {
    hide TokenOf;
  }

  lemma AnalyzeEnd(n: Names, s: Bytes, p: Position)
    requires AllSpan(s, [])
    ensures AnalyzeFrom(n, s, [], p) == []
  {
  }
}
