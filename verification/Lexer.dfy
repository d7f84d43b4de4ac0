/** The shell lexer of src/syntax.rs: words, structural tokens, and the decorations inside words. */
module Lexer {
  import opened Bytes

  const BACKSLASH: byte := 92
  const QUOTE: byte := 39
  const DOUBLE: byte := 34
  const DOLLAR: byte := 36
  const BACKTICK: byte := 96
  const HASH: byte := 35
  const OPEN_PAREN: byte := 40
  const CLOSE_PAREN: byte := 41
  const OPEN_BRACE: byte := 123
  const CLOSE_BRACE: byte := 125

  datatype Kind =
    | Command | Reserved | Alias | Function | Builtin | Precommand | Unknown | Word | Assignment | Option
    | Redirect | Operator | Comment
    | SingleQuote | DoubleQuote | DollarQuote | Escape | Substitution | Path

  datatype Decoration = Decoration(kind: Kind, start: nat, end: nat)

  /** A finished word; `literal` is its text when no expansion can change it. */
  datatype RawWord = RawWord(start: nat, end: nat, literal: Option<Bytes>, plain: bool, decorations: seq<Decoration>)

  datatype Lexeme = Structural(kind: Kind, start: nat, end: nat) | WordToken(word: RawWord) {
    function Start(): nat { if Structural? then start else word.start }

    function End(): nat { if Structural? then end else word.end }
  }

  /** The word being built. */
  datatype Builder = Builder(start: nat, literal: Bytes, literalOk: bool, plain: bool, decorations: seq<Decoration>) {
    function Raw(bytes: Bytes): Builder { this.(literal := literal + bytes) }

    function NotLiteral(): Builder { this.(literalOk := false) }

    function Quoted(): Builder { this.(plain := false) }

    function Decorated(kind: Kind, from: nat, to: nat): Builder {
      this.(decorations := decorations + [Decoration(kind, from, to)])
    }

    function Finish(end: nat): RawWord {
      RawWord(start, end, if literalOk then Some(literal) else None, plain, decorations)
    }
  }

  function NewWord(start: nat): Builder { Builder(start, [], true, true, []) }

  /** Where a scanner stopped, and the word so far. */
  datatype Scan = Scan(next: nat, builder: Builder)

  // ----- Escapes -----

  function Hex(b: byte): Option<nat> {
    if 48 <= b <= 57 then Some((b - 48) as nat)
    else if 97 <= b <= 102 then Some((b - 97) as nat + 10)
    else if 65 <= b <= 70 then Some((b - 65) as nat + 10)
    else None
  }

  datatype Decoded = Decoded(bytes: Bytes, consumed: nat)

  function SimpleEscape(b: byte): Option<byte> {
    match b
    case 97 => Some(7)
    case 98 => Some(8)
    case 101 => Some(27)
    case 102 => Some(12)
    case 110 => Some(10)
    case 114 => Some(13)
    case 116 => Some(9)
    case 118 => Some(11)
    case 92 => Some(92)
    case 39 => Some(39)
    case 34 => Some(34)
    case _ => None
  }

  /** The escape at the front of `s` inside `$'...'`. */
  function DecodeDollarEscape(s: Bytes): (r: Option<Decoded>)
    ensures r.Some? ==> 1 <= r.value.consumed <= |s| && r.value.consumed <= 3
  {
    if s == [] then None
    else
      match SimpleEscape(s[0])
      case Some(b) => Some(Decoded([b], 1))
      case None =>
        if s[0] == 120 && |s| >= 3 && Hex(s[1]).Some? && Hex(s[2]).Some?
        then Some(Decoded([(16 * Hex(s[1]).value + Hex(s[2]).value) as byte], 3))
        else None
  }

  function ScanEscape(s: Bytes, at: nat, b: Builder, dollar: bool): (r: Scan)
    requires at < |s|
    ensures at < r.next <= |s|
  {
    var marked := b.Quoted().Decorated(Escape, at, Min(at + 2, |s|));
    if at + 1 >= |s| then Scan(|s|, marked.NotLiteral())
    else if dollar then
      match DecodeDollarEscape(s[at + 1..])
      case Some(d) => Scan(at + 1 + d.consumed, marked.Raw(d.bytes))
      case None => Scan(at + 2, marked.NotLiteral())
    else Scan(at + 2, if s[at + 1] == NEWLINE then marked else marked.Raw([s[at + 1]]))
  }

  // ----- Substitutions -----

  function SkipQuote(s: Bytes, at: nat, quote: byte): (r: nat)
    requires at <= |s|
    ensures at <= r <= |s| && (at < |s| ==> at < r)
    decreases |s| - at
  {
    if at == |s| then |s|
    else if s[at] == BACKSLASH then SkipQuote(s, Min(at + 2, |s|), quote)
    else if s[at] == quote then at + 1
    else SkipQuote(s, at + 1, quote)
  }

  function Closing(opening: byte): byte { if opening == OPEN_PAREN then CLOSE_PAREN else CLOSE_BRACE }

  function SubstitutionEnd(s: Bytes, at: nat, depth: nat, opening: byte): (r: nat)
    requires at <= |s|
    ensures at <= r <= |s|
    decreases |s| - at
  {
    if at == |s| then at
    else if s[at] == BACKSLASH then SubstitutionEnd(s, Min(at + 2, |s|), depth, opening)
    else if s[at] == QUOTE then SubstitutionEnd(s, SkipQuote(s, at + 1, QUOTE), depth, opening)
    else if s[at] == DOUBLE then SubstitutionEnd(s, SkipQuote(s, at + 1, DOUBLE), depth, opening)
    else if s[at] == opening then SubstitutionEnd(s, at + 1, depth + 1, opening)
    else if s[at] == Closing(opening) then
      if depth <= 1 then at + 1 else SubstitutionEnd(s, at + 1, depth - 1, opening)
    else SubstitutionEnd(s, at + 1, depth, opening)
  }

  predicate OpensSubstitution(s: Bytes, at: nat) {
    at + 1 < |s| && s[at] == DOLLAR && (s[at + 1] == OPEN_PAREN || s[at + 1] == OPEN_BRACE)
  }

  function ScanSubstitution(s: Bytes, at: nat, b: Builder): (r: Scan)
    requires OpensSubstitution(s, at)
    ensures at < r.next <= |s|
  {
    var end := SubstitutionEnd(s, at + 2, 1, s[at + 1]);
    Scan(end, b.Quoted().NotLiteral().Decorated(Substitution, at, end))
  }

  // ----- Quotes: each continues at `at` inside a quote opened at `open` -----

  function InSingle(s: Bytes, at: nat, open: nat, b: Builder): (r: Scan)
    requires at <= |s|
    ensures at <= r.next <= |s|
    decreases |s| - at
  {
    if at == |s| then Scan(|s|, b.NotLiteral().Decorated(SingleQuote, open, |s|))
    else if s[at] == QUOTE then Scan(at + 1, b.Decorated(SingleQuote, open, at + 1))
    else InSingle(s, at + 1, open, b.Raw([s[at]]))
  }

  function InDouble(s: Bytes, at: nat, open: nat, b: Builder): (r: Scan)
    requires at <= |s|
    ensures at <= r.next <= |s|
    decreases |s| - at
  {
    if at == |s| then Scan(|s|, b.NotLiteral().Decorated(DoubleQuote, open, |s|))
    else if s[at] == DOUBLE then Scan(at + 1, b.Decorated(DoubleQuote, open, at + 1))
    else if s[at] == BACKSLASH then
      var inner := ScanEscape(s, at, b, false); InDouble(s, inner.next, open, inner.builder)
    else if OpensSubstitution(s, at) then
      var inner := ScanSubstitution(s, at, b); InDouble(s, inner.next, open, inner.builder)
    else InDouble(s, at + 1, open, b.Raw([s[at]]))
  }

  function InDollar(s: Bytes, at: nat, open: nat, b: Builder): (r: Scan)
    requires at <= |s|
    ensures at <= r.next <= |s|
    decreases |s| - at
  {
    if at == |s| then Scan(|s|, b.NotLiteral().Decorated(DollarQuote, open, |s|))
    else if s[at] == QUOTE then Scan(at + 1, b.Decorated(DollarQuote, open, at + 1))
    else if s[at] == BACKSLASH then
      var inner := ScanEscape(s, at, b, true); InDollar(s, inner.next, open, inner.builder)
    else InDollar(s, at + 1, open, b.Raw([s[at]]))
  }

  // ----- One step of the lexer -----

  predicate IsGlob(b: byte) { b == 42 || b == 63 || b == 91 || b == 93 || b == 123 || b == 125 || b == 126 }

  /** The part of a word that starts at `at`. */
  function WordPart(s: Bytes, at: nat, b: Builder): (r: Scan)
    requires at < |s|
    ensures at < r.next <= |s|
  {
    if s[at] == BACKSLASH then ScanEscape(s, at, b, false)
    else if s[at] == QUOTE then InSingle(s, at + 1, at, b.Quoted())
    else if s[at] == DOUBLE then InDouble(s, at + 1, at, b.Quoted())
    else if s[at] == DOLLAR && at + 1 < |s| && s[at + 1] == QUOTE then InDollar(s, at + 2, at, b.Quoted())
    else if OpensSubstitution(s, at) then ScanSubstitution(s, at, b)
    else if s[at] == DOLLAR || s[at] == BACKTICK || IsGlob(s[at]) then Scan(at + 1, b.NotLiteral().Raw([s[at]]))
    else Scan(at + 1, b.Raw([s[at]]))
  }

  predicate IsSpace(b: byte) { b == SPACE || 9 <= b <= 10 || 12 <= b <= 13 }

  const OPERATORS: seq<string> :=
    ["<<<", ";;&", ">>&", "&&", "||", ";;", ";&", ">>", "<<", "<&", ">&", "<>", ">|", ";", "|", "&", "(", ")", "<", ">"]

  predicate Spells(text: string, s: Bytes) {
    |text| <= |s| && forall i :: 0 <= i < |text| ==> s[i] as int == text[i] as int
  }

  /** The first operator of a list that `s` starts with, or no bytes at all. */
  function FirstOperator(operators: seq<string>, s: Bytes): (n: nat)
    ensures n <= |s|
  {
    if operators == [] then 0
    else if Spells(operators[0], s) then |operators[0]|
    else FirstOperator(operators[1..], s)
  }

  function OperatorLen(s: Bytes): (n: nat)
    ensures n <= |s|
  {
    FirstOperator(OPERATORS, s)
  }

  predicate IsOneOf(text: Bytes, spellings: seq<string>) {
    exists i :: 0 <= i < |spellings| && |spellings[i]| == |text| && Spells(spellings[i], text)
  }

  predicate IsRedirect(text: Bytes) {
    IsOneOf(text, ["<", ">", ">>", "<<", "<<<", "<&", ">&", "<>", ">|", ">>&"])
  }

  predicate IsSeparator(text: Bytes) {
    IsOneOf(text, ["\n", ";", ";;", ";&", ";;&", "&&", "||", "|", "&", "(", ")"])
  }

  /** The lexer after one turn of its loop: the next offset, the word under way, and what was emitted. */
  datatype Turn = Turn(next: nat, word: Option<Builder>, out: seq<Lexeme>)

  function Flush(word: Option<Builder>, end: nat): seq<Lexeme> {
    match word
    case None => []
    case Some(b) => [WordToken(b.Finish(end))]
  }

  function Step(s: Bytes, at: nat, comments: bool, word: Option<Builder>): (r: Turn)
    requires at < |s|
    ensures at < r.next <= |s|
  {
    if s[at] == NEWLINE then Turn(at + 1, None, Flush(word, at) + [Structural(Operator, at, at + 1)])
    else if IsSpace(s[at]) then Turn(at + 1, None, Flush(word, at))
    else if comments && s[at] == HASH && word.None? then
      var end := at + Find(s[at..], NEWLINE);
      assert s[at..][0] == HASH;
      Turn(end, None, [Structural(Comment, at, end)])
    else
      var n := OperatorLen(s[at..]);
      if n > 0 then
        var kind := if IsRedirect(s[at..at + n]) then Redirect else Operator;
        Turn(at + n, None, Flush(word, at) + [Structural(kind, at, at + n)])
      else
        var part := WordPart(s, at, if word.Some? then word.value else NewWord(at));
        Turn(part.next, Some(part.builder), [])
  }

  function LexFrom(s: Bytes, at: nat, comments: bool, word: Option<Builder>): seq<Lexeme>
    requires at <= |s|
    decreases |s| - at
  {
    if at == |s| then Flush(word, |s|)
    else
      var turn := Step(s, at, comments, word);
      turn.out + LexFrom(s, turn.next, comments, turn.word)
  }

  /** `tokenize`, words in place. */
  function Lex(s: Bytes, comments: bool): seq<Lexeme> {
    LexFrom(s, 0, comments, None)
  }
}
