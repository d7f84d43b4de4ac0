/** Byte ranges of tokens as character spans (`LossyOffsets` of src/syntax.rs). */
module TokenOffsets {
  import opened Bytes
  import opened Lossy
  import opened Spans
  import Lexer
  import LexerFacts

  /** What `LossyOffsets` holds for offset `k` when `chars` characters came before `s`. */
  function OffsetFrom(s: Bytes, k: nat, chars: nat): nat
    requires k <= |s|
    decreases |s|
  {
    if k == 0 then chars
    else
      var n := UnitLen(s);
      if k < n then if UnitIsValid(s) then 0 else chars
      else OffsetFrom(s[n..], k - n, chars + 1)
  }

  // ----- Building the table -----

  /** After `byte` bytes, which make up `chars` characters, the rest of the table is that of the rest. */
  ghost predicate Reached(s: Bytes, byte: nat, chars: nat) {
    && byte <= |s|
    && forall k :: byte <= k <= |s| ==> OffsetFrom(s, k, 0) == OffsetFrom(s[byte..], k - byte, chars)
  }

  lemma ReachedStart(s: Bytes)
    ensures Reached(s, 0, 0)
  {
    assert s[0..] == s;
  }

  lemma ReachedNext(s: Bytes, byte: nat, chars: nat)
    requires Reached(s, byte, chars) && byte < |s|
    ensures var n := UnitLen(s[byte..]);
            && Reached(s, byte + n, chars + 1)
            && OffsetFrom(s, byte, 0) == chars && OffsetFrom(s, byte + n, 0) == chars + 1
            && forall k :: byte < k < byte + n ==> OffsetFrom(s, k, 0) == if UnitIsValid(s[byte..]) then 0 else chars
  {
    hide UnitLen, UnitIsValid;
    var t := s[byte..];
    var n := UnitLen(t);
    assert t[n..] == s[byte + n..];
    forall k | byte + n <= k <= |s|
      ensures OffsetFrom(s, k, 0) == OffsetFrom(s[byte + n..], k - (byte + n), chars + 1)
    {
      assert OffsetFrom(s, k, 0) == OffsetFrom(t, k - byte, chars);
    }
  }

  /** Everything up to `byte` is in the table, and nothing else has been written. */
  ghost predicate Filled(s: Bytes, offsets: array<nat>, byte: nat)
    reads offsets
  {
    && offsets.Length == |s| + 1 && byte <= |s|
    && (forall k :: 0 <= k <= byte ==> offsets[k] == OffsetFrom(s, k, 0))
    && (forall k :: byte < k <= |s| ==> offsets[k] == 0)
  }

  /** Characters of a validated run: only their first and last offsets are written. */
  method FillValid(s: Bytes, offsets: array<nat>, byte: nat, len: nat, chars: nat) returns (more: nat)
    requires Filled(s, offsets, byte) && Reached(s, byte, chars)
    requires byte + len <= |s| && ValidRun(s[byte..byte + len]) == len
    modifies offsets
    ensures Filled(s, offsets, byte + len) && Reached(s, byte + len, more)
  {
    hide UnitLen, UnitIsValid, Reached, ValidRun, First, Chars, OffsetFrom;
    var offset := 0;
    more := chars;
    while offset < len
      invariant offset <= len
      invariant ValidRun(s[byte + offset..byte + len]) == len - offset
      invariant Filled(s, offsets, byte + offset) && Reached(s, byte + offset, more)
    {
      var v := s[byte + offset..byte + len];
      var t := s[byte + offset..];
      assert t == v + s[byte + len..];
      ValidUnit(v, s[byte + len..]);
      UnitIsValidIs(v, t);
      ReachedNext(s, byte + offset, more);
      var n := UnitLen(t);
      assert v[n..] == s[byte + offset + n..byte + len];
      offsets[byte + offset] := more;
      more := more + 1;
      offsets[byte + offset + n] := more;
      offset := offset + n;
    }
  }

  lemma UnitIsValidIs(v: Bytes, t: Bytes)
    requires v != [] && ValidRun(v) == |v| && v <= t && UnitLen(t) == UnitLen(v)
    ensures UnitIsValid(t)
  {
    ValidRunHead(v);
    hide UnitLen;
  }

  ghost predicate IsTable(s: Bytes, offsets: array<nat>)
    reads offsets
  {
    offsets.Length == |s| + 1 && forall k :: 0 <= k <= |s| ==> offsets[k] == OffsetFrom(s, k, 0)
  }

  method BuildOffsets(s: Bytes) returns (offsets: array<nat>)
    ensures fresh(offsets) && IsTable(s, offsets)
  {
    hide UnitLen, UnitIsValid, Reached, ValidRun, First, Chars;
    offsets := new nat[|s| + 1](_ => 0);
    var byte, chars := 0, 0;
    ReachedStart(s);
    while byte < |s|
      invariant Filled(s, offsets, byte) && Reached(s, byte, chars)
    {
      var rest := s[byte..];
      ValidRunStops(rest);
      ValidPrefixIsValid(rest);
      match FromUtf8(rest) {
        case AllValid =>
          assert rest[..|rest|] == s[byte..byte + |rest|];
          chars := FillValid(s, offsets, byte, |rest|, chars);
          byte := |s|;
        case Invalid(upTo, errorLen) =>
          if upTo > 0 {
            assert rest[..upTo] == s[byte..byte + upTo];
            chars := FillValid(s, offsets, byte, upTo, chars);
            byte := byte + upTo;
          } else {
            assert rest[0..] == rest;
            InvalidUnit(rest);
            ReachedNext(s, byte, chars);
            var badLen := if errorLen.Some? then errorLen.value else |s| - byte;
            for offset := 0 to badLen
              invariant forall k :: 0 <= k < byte ==> offsets[k] == OffsetFrom(s, k, 0)
              invariant forall k :: byte <= k < byte + offset ==> offsets[k] == chars
              invariant forall k :: byte + offset < k <= |s| ==> offsets[k] == 0
            {
              offsets[byte + offset] := chars;
            }
            chars := chars + 1;
            offsets[byte + badLen] := chars;
            InvalidTable(s, byte, chars - 1);
            byte := byte + badLen;
          }
      }
    }
  }

  lemma InvalidTable(s: Bytes, byte: nat, chars: nat)
    requires Reached(s, byte, chars) && byte < |s| && !UnitIsValid(s[byte..])
    ensures forall k :: byte <= k < byte + UnitLen(s[byte..]) ==> OffsetFrom(s, k, 0) == chars
  {
    hide UnitLen, UnitIsValid, Reached, OffsetFrom;
    ReachedNext(s, byte, chars);
  }

  // ----- What the table says -----

  /** At a character boundary the table holds the number of characters before it. */
  lemma {:induction false} OffsetAtBoundary(s: Bytes, k: nat, chars: nat)
    requires k <= |s| && Boundary(s, k)
    ensures OffsetFrom(s, k, chars) == chars + StartsBefore(s, k)
    decreases |s|
  {
    hide UnitLen, UnitIsValid;
    if k > 0 {
      OffsetAtBoundary(s[UnitLen(s)..], k - UnitLen(s), chars + 1);
    }
  }

  /** Offsets next to an ASCII byte, and the two ends, are character boundaries. */
  predicate Cut(s: Bytes, k: nat) {
    k <= |s| && (k == 0 || k == |s| || s[k] < 0x80 || s[k - 1] < 0x80)
  }

  lemma UnitHasNoAscii(s: Bytes, i: nat)
    requires s != [] && i < UnitLen(s) && UnitLen(s) > 1
    ensures s[i] >= 0x80
  {
  }

  lemma {:induction false} CutIsBoundary(s: Bytes, k: nat)
    requires Cut(s, k)
    ensures Boundary(s, k)
    decreases |s|
  {
    hide UnitLen;
    if k > 0 {
      var n := UnitLen(s);
      if k < n {
        UnitHasNoAscii(s, k);
        UnitHasNoAscii(s, k - 1);
      } else {
        CutIsBoundary(s[n..], k - n);
      }
    }
  }

  /** The span a token is delivered with. */
  function TokenSpan(s: Bytes, start: nat, end: nat): CharSpan
    requires start <= |s| && end <= |s|
  {
    Span(OffsetFrom(s, start, 0), OffsetFrom(s, end, 0))
  }

  /** Between two boundaries the span holds exactly the characters of the bytes in between. */
  lemma SpanIsExact(s: Bytes, start: nat, end: nat)
    requires start <= end <= |s| && Boundary(s, start) && Boundary(s, end)
    ensures var span := TokenSpan(s, start, end);
            && span == RawSpan(Count(s[..start]), Count(s[..end]))
            && span.end <= Count(s) && Chars(s)[span.start..span.end] == Chars(s[start..end])
  {
    hide OffsetFrom, StartsBefore, Boundary, Chars;
    OffsetAtBoundary(s, start, 0);
    OffsetAtBoundary(s, end, 0);
    CountOfPrefix(s, start);
    CountOfPrefix(s, end);
    CharsBetween(s, start, end);
  }

  // ----- Words and structural tokens begin and end at boundaries -----

  ghost predicate CutAt(s: Bytes, x: Lexer.Lexeme) { Cut(s, x.Start()) && Cut(s, x.End()) }

  ghost predicate AllCut(s: Bytes, ls: seq<Lexer.Lexeme>) {
    forall i :: 0 <= i < |ls| ==> CutAt(s, ls[i])
  }

  lemma OperatorIsAscii(s: Bytes)
    ensures var n := Lexer.OperatorLen(s); n > 0 ==> s[0] < 0x80 && s[n - 1] < 0x80
  {
    hide Lexer.FirstOperator;
    OperatorsAscii(Lexer.OPERATORS, s);
  }

  lemma {:induction false} OperatorsAscii(operators: seq<string>, s: Bytes)
    requires forall i, j :: 0 <= i < |operators| && 0 <= j < |operators[i]| ==> operators[i][j] as int < 0x80
    ensures var n := Lexer.FirstOperator(operators, s); n > 0 ==> s[0] < 0x80 && s[n - 1] < 0x80
  {
    if operators != [] {
      var first := operators[0];
      assert forall j :: 0 <= j < |first| ==> first[j] as int < 0x80;
      OperatorsAscii(operators[1..], s);
    }
  }

  ghost predicate StartsAtCut(s: Bytes, at: nat, word: Option<Lexer.Builder>) {
    if word.Some? then Cut(s, word.value.start) else Cut(s, at)
  }

  lemma FlushCuts(s: Bytes, at: nat, word: Option<Lexer.Builder>)
    requires StartsAtCut(s, at, word) && Cut(s, at)
    ensures AllCut(s, Lexer.Flush(word, at))
  {
  }

  lemma StepCuts(s: Bytes, at: nat, comments: bool, word: Option<Lexer.Builder>)
    requires at < |s| && StartsAtCut(s, at, word) && LexerFacts.WordUnderWay(word, at)
    ensures var turn := Lexer.Step(s, at, comments, word);
            AllCut(s, turn.out) && StartsAtCut(s, turn.next, turn.word)
  {
    hide Lexer.WordPart, Lexer.OperatorLen, Lexer.IsRedirect, Lexer.Flush, LexerFacts.Neat, Find;
    OperatorIsAscii(s[at..]);
    if s[at] < 0x80 {
      FlushCuts(s, at, word);
    }
    var turn := Lexer.Step(s, at, comments, word);
    if turn.word.Some? {
      LexerFacts.NoneNeat(at);
      LexerFacts.PartKeeps(s, at, if word.Some? then word.value else Lexer.NewWord(at));
    } else {
      var n := Lexer.OperatorLen(s[at..]);
      if n > 0 {
        assert s[at..][n - 1] == s[at + n - 1];
      }
      CommentStops(s, at);
    }
  }

  lemma CommentStops(s: Bytes, at: nat)
    requires at < |s|
    ensures Cut(s, at + Find(s[at..], NEWLINE))
  {
    var i := Find(s[at..], NEWLINE);
    if i < |s[at..]| {
      assert s[at..][i] == s[at + i];
    }
  }

  lemma {:induction false} LexFromCuts(s: Bytes, at: nat, comments: bool, word: Option<Lexer.Builder>)
    requires at <= |s| && StartsAtCut(s, at, word) && LexerFacts.WordUnderWay(word, at)
    ensures AllCut(s, Lexer.LexFrom(s, at, comments, word))
    decreases |s| - at
  {
    hide Lexer.Step, Lexer.Flush, CutAt, StartsAtCut, LexerFacts.WordUnderWay, LexerFacts.Placed, LexerFacts.Covers;
    if at == |s| {
      FlushCuts(s, at, word);
    } else {
      StepCuts(s, at, comments, word);
      LexerFacts.StepPlaces(s, at, comments, word);
      var turn := Lexer.Step(s, at, comments, word);
      LexFromCuts(s, turn.next, comments, turn.word);
    }
  }

  /** The span of every word and structural token holds exactly its own characters, for any bytes. */
  lemma LexemeSpansAreExact(s: Bytes, comments: bool, i: nat)
    requires i < |Lexer.Lex(s, comments)|
    ensures var x := Lexer.Lex(s, comments)[i]; x.Start() < x.End() <= |s|
    ensures var x := Lexer.Lex(s, comments)[i];
            var span := TokenSpan(s, x.Start(), x.End());
            && span == RawSpan(Count(s[..x.Start()]), Count(s[..x.End()]))
            && span.end <= Count(s) && Chars(s)[span.start..span.end] == Chars(s[x.Start()..x.End()])
  {
    hide Lexer.LexFrom, Count, Chars, LexerFacts.Neat, LexerFacts.InSome;
    LexFromCuts(s, 0, comments, None);
    LexerFacts.LexPartitions(s, comments);
    var x := Lexer.Lex(s, comments)[i];
    assert CutAt(s, x);
    CutIsBoundary(s, x.Start());
    CutIsBoundary(s, x.End());
    SpanIsExact(s, x.Start(), x.End());
  }

  // ----- An escape covers its character only when that is one byte long -----

  /** A backslash and the byte after it: the span holds both characters exactly when the second is one byte long. */
  lemma EscapePairIff(s: Bytes, at: nat)
    requires at + 1 < |s| && s[at] == Lexer.BACKSLASH
    ensures TokenSpan(s, at, at + 2) == RawSpan(Count(s[..at]), Count(s[..at]) + 2) <==> UnitLen(s[at + 1..]) == 1
    ensures UnitLen(s[at + 1..]) > 1 && UnitIsValid(s[at + 1..]) ==> TokenSpan(s, at, at + 2).IsEmpty()
    ensures UnitLen(s[at + 1..]) > 1 && !UnitIsValid(s[at + 1..]) ==> TokenSpan(s, at, at + 2).Len() == 1
  {
    CutIsBoundary(s, at);
    CutIsBoundary(s, at + 1);
    CountOfPrefix(s, at);
    OffsetAtBoundary(s, at, 0);
    var c := Count(s[..at]);
    ReachedAt(s, at);
    AsciiUnit(s[at..]);
    assert s[at..][1..] == s[at + 1..];
    hide UnitLen, UnitIsValid, Boundary, OffsetFrom, Count, Reached, StartsBefore;
    ReachedNext(s, at, c);
    ReachedNext(s, at + 1, c + 1);
  }

  lemma AsciiUnit(s: Bytes)
    requires s != [] && s[0] < 0x80
    ensures UnitLen(s) == 1 && UnitIsValid(s)
  {
  }

  /** One whole unit on, for the table, for boundaries and for counts alike. */
  lemma UnitStep(s: Bytes, at: nat, k: nat, chars: nat)
    requires 0 < at <= k <= |s| && Boundary(s, at)
    ensures var n := UnitLen(s);
            && n <= at && Boundary(s[n..], at - n)
            && OffsetFrom(s, k, chars) == OffsetFrom(s[n..], k - n, chars + 1)
            && StartsBefore(s, at) == 1 + StartsBefore(s[n..], at - n)
            && s[n..][at - n..] == s[at..]
  {
    hide UnitLen, UnitIsValid;
  }

  lemma {:induction false} OffsetBeyond(s: Bytes, at: nat, k: nat, chars: nat)
    requires at <= k <= |s| && Boundary(s, at)
    ensures OffsetFrom(s, k, chars) == OffsetFrom(s[at..], k - at, chars + StartsBefore(s, at))
    decreases |s|
  {
    hide *;
    if at == 0 {
      assert s[0..] == s;
      NothingBefore(s);
    } else {
      UnitStep(s, at, k, chars);
      OffsetBeyond(s[UnitLen(s)..], at - UnitLen(s), k - UnitLen(s), chars + 1);
    }
  }

  lemma NothingBefore(s: Bytes)
    ensures StartsBefore(s, 0) == 0
  {
  }

  lemma ReachedAt(s: Bytes, at: nat)
    requires at <= |s| && Boundary(s, at)
    ensures Reached(s, at, StartsBefore(s, at))
  {
    hide OffsetFrom, Boundary, StartsBefore;
    forall k | at <= k <= |s|
      ensures OffsetFrom(s, k, 0) == OffsetFrom(s[at..], k - at, StartsBefore(s, at))
    {
      OffsetBeyond(s, at, k, 0);
    }
  }
}
