/** Quoted text reads back: whatever bytes a word is to hold, quotes that hold them lex to that literal (src/syntax.rs). */
module Quoting {
  import opened Bytes
  import opened Lexer
  import LexerLocality
  import DecorationSpans

  // ----- Single quotes -----

  lemma {:induction false} SingleReads(s: Bytes, at: nat, close: nat, open: nat, b: Builder)
    requires at <= close < |s| && s[close] == QUOTE && QUOTE !in s[at..close]
    ensures InSingle(s, at, open, b) == Scan(close + 1, b.Raw(s[at..close]).Decorated(SingleQuote, open, close + 1))
    decreases close - at
  {
    hide InSingle;
    SingleTurn(s, at, open, b);
    if at == close {
      assert b.literal + s[at..close] == b.literal;
    } else {
      assert s[at] == s[at..close][0] && s[at + 1..close] == s[at..close][1..];
      SingleReads(s, at + 1, close, open, b.Raw([s[at]]));
      assert b.literal + [s[at]] + s[at + 1..close] == b.literal + s[at..close];
    }
  }

  lemma SingleTurn(s: Bytes, at: nat, open: nat, b: Builder)
    requires at < |s|
    ensures InSingle(s, at, open, b)
         == if s[at] == QUOTE then Scan(at + 1, b.Decorated(SingleQuote, open, at + 1))
            else InSingle(s, at + 1, open, b.Raw([s[at]]))
  {
  }

  /** A buffer that is one part of a word is that word. */
  lemma OnePart(s: Bytes, comments: bool, b: Builder)
    requires s != [] && !IsSpace(s[0]) && s[0] != HASH && OperatorLen(s) == 0
    requires WordPart(s, 0, NewWord(0)) == Scan(|s|, b)
    ensures Lex(s, comments) == [WordToken(b.Finish(|s|))]
  {
    hide LexFrom, WordPart, OperatorLen;
    assert s[0..] == s;
    LexerLocality.LexUnfolds(s, 0, comments, None);
    LexerLocality.LexUnfolds(s, |s|, comments, Some(b));
  }

  /** Text without a single quote reads back from between two of them. */
  lemma SingleQuotesKeep(t: Bytes, comments: bool)
    requires QUOTE !in t
    ensures var s := [QUOTE] + t + [QUOTE];
            Lex(s, comments)
            == [WordToken(RawWord(0, |s|, Some(t), false, [Decoration(SingleQuote, 0, |s|)]))]
  {
    hide LexFrom, InSingle, OperatorLen, FirstOperator;
    var s := [QUOTE] + t + [QUOTE];
    assert s[1..|s| - 1] == t;
    SingleReads(s, 1, |s| - 1, 0, NewWord(0).Quoted());
    DecorationSpans.NoOperator(OPERATORS, s);
    QuotePart(s);
    var b := NewWord(0).Quoted().Raw(t).Decorated(SingleQuote, 0, |s|);
    NoOperatorHere(s);
    OnePart(s, comments, b);
    assert b.literal == t && b.decorations == [Decoration(SingleQuote, 0, |s|)];
  }

  lemma QuotePart(s: Bytes)
    requires s != [] && s[0] == QUOTE
    ensures WordPart(s, 0, NewWord(0)) == InSingle(s, 1, 0, NewWord(0).Quoted())
  {
    hide InSingle, InDouble, InDollar;
  }

  lemma NoOperatorHere(s: Bytes)
    requires FirstOperator(OPERATORS, s) == 0
    ensures OperatorLen(s) == 0
  {
    hide FirstOperator;
  }

  // ----- Dollar quotes -----

  function HexDigit(n: nat): (b: byte)
    requires n < 16
    ensures Hex(b) == Some(n)
  {
    (if n < 10 then 48 + n else 87 + n) as byte
  }

  /** Every byte as `\x` and its two digits. */
  function Hexed(t: Bytes): Bytes {
    if t == [] then []
    else [BACKSLASH, 120, HexDigit(t[0] as nat / 16), HexDigit(t[0] as nat % 16)] + Hexed(t[1..])
  }

  lemma HexReads(s: Bytes, at: nat, x: byte, b: Builder)
    requires at + 4 <= |s|
    requires s[at..at + 4] == [BACKSLASH, 120, HexDigit(x as nat / 16), HexDigit(x as nat % 16)]
    ensures var r := ScanEscape(s, at, b, true);
            r.next == at + 4 && r.builder == b.Quoted().Decorated(Escape, at, at + 2).Raw([x])
  {
    hide HexDigit, Hex;
    var four := s[at..at + 4];
    assert s[at + 1] == four[1] && s[at + 2] == four[2] && s[at + 3] == four[3];
    assert 16 * (x as nat / 16) + x as nat % 16 == x as nat;
  }

  lemma DollarTurn(s: Bytes, at: nat, open: nat, b: Builder)
    requires at < |s|
    ensures s[at] == QUOTE ==> InDollar(s, at, open, b) == Scan(at + 1, b.Decorated(DollarQuote, open, at + 1))
    ensures s[at] == BACKSLASH ==>
              var inner := ScanEscape(s, at, b, true);
              InDollar(s, at, open, b) == InDollar(s, inner.next, open, inner.builder)
  {
    hide ScanEscape;
  }

  lemma {:induction false} HexedReads(s: Bytes, at: nat, t: Bytes, open: nat, b: Builder)
    requires at < |s| && s[at..] == Hexed(t) + [QUOTE]
    ensures var r := InDollar(s, at, open, b);
            && r.next == |s|
            && r.builder.start == b.start && r.builder.literal == b.literal + t
            && r.builder.literalOk == b.literalOk && (r.builder.plain ==> b.plain)
    decreases t
  {
    hide InDollar, ScanEscape, HexDigit;
    DollarTurn(s, at, open, b);
    if t == [] {
      assert s[at] == s[at..][0];
      assert b.literal + t == b.literal;
    } else {
      var rest := s[at..];
      assert s[at..at + 4] == rest[..4] && s[at + 4..] == rest[4..];
      assert s[at] == rest[0];
      HexReads(s, at, t[0], b);
      var inner := ScanEscape(s, at, b, true);
      HexedReads(s, at + 4, t[1..], open, inner.builder);
      assert b.literal + [t[0]] + t[1..] == b.literal + t;
    }
  }

  /** Any bytes at all read back from a dollar quote that spells them in hexadecimal. */
  lemma DollarQuotesKeep(t: Bytes, comments: bool) returns (w: RawWord)
    ensures var s := [DOLLAR, QUOTE] + Hexed(t) + [QUOTE];
            && Lex(s, comments) == [WordToken(w)]
            && w.start == 0 && w.end == |s| && w.literal == Some(t) && !w.plain
  {
    hide LexFrom, InDollar, OperatorLen, FirstOperator, Hexed;
    var s := [DOLLAR, QUOTE] + Hexed(t) + [QUOTE];
    assert s[2..] == Hexed(t) + [QUOTE];
    HexedReads(s, 2, t, 0, NewWord(0).Quoted());
    DecorationSpans.NoOperator(OPERATORS, s);
    NoOperatorHere(s);
    DollarPart(s);
    var b := InDollar(s, 2, 0, NewWord(0).Quoted()).builder;
    OnePart(s, comments, b);
    w := b.Finish(|s|);
    assert [] + t == t;
  }

  lemma DollarPart(s: Bytes)
    requires |s| >= 2 && s[0] == DOLLAR && s[1] == QUOTE
    ensures WordPart(s, 0, NewWord(0)) == InDollar(s, 2, 0, NewWord(0).Quoted())
  {
    hide InSingle, InDouble, InDollar;
  }
}
