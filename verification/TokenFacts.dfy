/** Delivered tokens lie inside the text, and split at command separators (`analyze` of src/syntax.rs). */
module TokenFacts {
  import opened Bytes
  import opened Lossy
  import opened Spans
  import opened Lexer
  import opened LexerLocality
  import opened Analysis
  import opened TokenOffsets
  import DecorationSpans
  import opened Tokenizer

  // ----- Every role starts at a character boundary -----

  ghost predicate RoleFits(s: Bytes, r: Role) { TokenOffsets.Cut(s, r.start) && r.start <= r.end <= |s| }

  ghost predicate RolesFit(s: Bytes, roles: seq<Role>) {
    forall i :: 0 <= i < |roles| ==> RoleFits(s, roles[i])
  }

  lemma RolesConcat(s: Bytes, a: seq<Role>, b: seq<Role>)
    requires RolesFit(s, a) && RolesFit(s, b)
    ensures RolesFit(s, a + b)
  {
    hide RoleFits;
  }

  lemma ClassifyFits(n: Names, s: Bytes, p: Position, x: Lexeme, text: Bytes)
    requires Fits(s, x) && CutAt(s, x) && (x.WordToken? ==> DecorationSpans.AllSpelled(s, x.word.decorations))
    ensures RolesFit(s, Classify(n, p, x, text).0)
  {
    hide WordRole, IsSeparator, IsPathCandidate;
    if x.WordToken? {
      var ds := x.word.decorations;
      forall i | 0 <= i < |ds|
        ensures RoleFits(s, Role(ds[i].kind, ds[i].start, ds[i].end))
      {
        assert DecorationSpans.Spelled(s, ds[i]);
      }
    }
  }

  lemma {:induction false} AnalyzeFits(n: Names, s: Bytes, ls: seq<Lexeme>, p: Position)
    requires AllSpan(s, ls) && AllCut(s, ls) && DecorationSpans.LexemesSpelled(s, ls)
    ensures RolesFit(s, AnalyzeFrom(n, s, ls, p))
    decreases |ls|
  {
    hide Classify, RolesFit, CutAt, Fits, DecorationSpans.AllSpelled;
    if ls == [] {
      NoRoles(s);
    } else {
      assert Fits(s, ls[0]) && CutAt(s, ls[0]);
      var text := TextOf(s, ls[0]);
      var (roles, next) := Classify(n, p, ls[0], text);
      ClassifyFits(n, s, p, ls[0], text);
      AnalyzeFits(n, s, ls[1..], next);
      RolesConcat(s, roles, AnalyzeFrom(n, s, ls[1..], next));
    }
  }

  lemma NoRoles(s: Bytes)
    ensures RolesFit(s, [])
  {
  }

  lemma AnalysisFits(n: Names, s: Bytes, comments: bool)
    ensures RolesFit(s, Analyze(n, s, comments))
  {
    hide AnalyzeFrom, RolesFit, LexFrom, AllSpan, AllCut, DecorationSpans.LexemesSpelled;
    LexSpans(s, comments);
    LexFromCuts(s, 0, comments, None);
    DecorationSpans.LexFromSpelled(s, 0, comments, None);
    AnalyzeFits(n, s, Lex(s, comments), COMMAND_START);
  }

  // ----- Tokens lie inside the text -----

  lemma {:induction false} OffsetBound(s: Bytes, k: nat, chars: nat)
    requires k <= |s|
    ensures OffsetFrom(s, k, chars) <= chars + Count(s)
    decreases |s|
  {
    hide UnitLen, UnitIsValid, First;
    if k > 0 && UnitLen(s) <= k {
      OffsetBound(s[UnitLen(s)..], k - UnitLen(s), chars + 1);
    }
  }

  /** The tokens `analyze` delivers. */
  function Tokens(n: Names, s: Bytes, comments: bool): seq<Token> { TokensOf(s, Analyze(n, s, comments)) }

  /** Every delivered span lies inside the text. */
  lemma TokensWithinText(n: Names, s: Bytes, comments: bool, i: nat)
    requires i < |Tokens(n, s, comments)|
    ensures Tokens(n, s, comments)[i].span.end <= Count(s)
  {
    hide Analyze, OffsetFrom, Chars;
    var r := Analyze(n, s, comments)[i];
    OffsetBound(s, Min(r.start, |s|), 0);
    OffsetBound(s, Min(r.end, |s|), 0);
  }

  // ----- Tokens split at separators -----

  function MoveTokens(tokens: seq<Token>, chars: nat): (r: seq<Token>)
    ensures |r| == |tokens|
  {
    seq(|tokens|, i requires 0 <= i < |tokens| => Token(tokens[i].kind, tokens[i].span.Shift(chars)))
  }

  /** The table entry of a character boundary counts on; inside a well-formed character it stays 0. */
  lemma {:induction false} OffsetShifts(s: Bytes, k: nat, a: nat, b: nat)
    requires k <= |s|
    ensures || OffsetFrom(s, k, a + b) == OffsetFrom(s, k, a) + b
            || OffsetFrom(s, k, a + b) == 0 == OffsetFrom(s, k, a)
    decreases |s|
  {
    hide UnitLen, UnitIsValid;
    if k > 0 && UnitLen(s) <= k {
      OffsetShifts(s[UnitLen(s)..], k - UnitLen(s), a + 1, b);
    }
  }

  lemma {:induction false} OffsetOfPrefix(s: Bytes, e: nat, k: nat, chars: nat)
    requires k <= e <= |s| && Boundary(s, e)
    ensures OffsetFrom(s[..e], k, chars) == OffsetFrom(s, k, chars)
    decreases |s|
  {
    if k > 0 {
      UnitOfPrefix(s, e);
      var n := UnitLen(s);
      assert s[..e][n..] == s[n..][..e - n];
      hide UnitLen;
      if n <= k {
        OffsetOfPrefix(s[n..], e - n, k - n, chars + 1);
      }
    }
  }

  lemma FrontToken(s: Bytes, e: nat, r: Role)
    requires e <= |s| && Boundary(s, e) && RoleFits(s[..e], r)
    ensures TokenOf(s, r) == TokenOf(s[..e], r)
  {
    hide OffsetFrom, Boundary;
    OffsetOfPrefix(s, e, r.start, 0);
    OffsetOfPrefix(s, e, r.end, 0);
  }

  lemma RestToken(s: Bytes, e: nat, r: Role)
    requires e <= |s| && Boundary(s, e) && RoleFits(s[e..], r)
    ensures TokenOf(s, Role(r.kind, r.start + e, r.end + e))
         == Token(r.kind, TokenOf(s[e..], r).span.Shift(Count(s[..e])))
  {
    hide OffsetFrom, Boundary, StartsBefore, Chars;
    var t, c := s[e..], StartsBefore(s, e);
    CountOfPrefix(s, e);
    OffsetBeyond(s, e, e + r.start, 0);
    OffsetBeyond(s, e, e + r.end, 0);
    CutIsBoundary(t, r.start);
    OffsetAtBoundary(t, r.start, 0);
    OffsetAtBoundary(t, r.start, c);
    OffsetShifts(t, r.end, 0, c);
  }

  lemma FrontTokens(s: Bytes, e: nat, roles: seq<Role>)
    requires e <= |s| && Boundary(s, e) && RolesFit(s[..e], roles)
    ensures TokensOf(s, roles) == TokensOf(s[..e], roles)
  {
    hide TokenOf, Boundary, RoleFits;
    forall i | 0 <= i < |roles|
      ensures TokenOf(s, roles[i]) == TokenOf(s[..e], roles[i])
    {
      FrontToken(s, e, roles[i]);
    }
  }

  lemma RestTokens(s: Bytes, e: nat, roles: seq<Role>)
    requires e <= |s| && Boundary(s, e) && RolesFit(s[e..], roles)
    ensures TokensOf(s, MoveRoles(roles, e)) == MoveTokens(TokensOf(s[e..], roles), Count(s[..e]))
  {
    hide TokenOf, Boundary, RoleFits, RawSpan.Shift, Chars;
    forall i | 0 <= i < |roles|
      ensures TokensOf(s, MoveRoles(roles, e))[i] == MoveTokens(TokensOf(s[e..], roles), Count(s[..e]))[i]
    {
      RestToken(s, e, roles[i]);
      TokenKind(s[e..], roles[i]);
    }
  }

  lemma TokenKind(s: Bytes, r: Role)
    ensures TokenOf(s, r).kind == r.kind
  {
    hide OffsetAt;
  }

  lemma SeparatorIsBoundary(s: Bytes, comments: bool, e: nat)
    requires HasSeparator(s, Lex(s, comments), e)
    ensures e <= |s| && Boundary(s, e)
  {
    LexFromCuts(s, 0, comments, None);
    hide LexFrom, IsSeparator, TokenOffsets.Cut;
    LexSpans(s, comments);
    var i :| 0 <= i < |Lex(s, comments)| && SeparatorAt(s, Lex(s, comments)[i], e);
    assert CutAt(s, Lex(s, comments)[i]) && Fits(s, Lex(s, comments)[i]);
    CutIsBoundary(s, e);
  }

  /**
   If a top-level command separator ends at byte `e`, the tokens delivered for the text are those of the text up to
   `e` followed by those of the rest, moved by the characters before `e`.
   */
  lemma TokensCompose(n: Names, s: Bytes, comments: bool, e: nat)
    requires HasSeparator(s, Lex(s, comments), e)
    ensures e <= |s|
    ensures Tokens(n, s, comments) == Tokens(n, s[..e], comments) + MoveTokens(Tokens(n, s[e..], comments), Count(s[..e]))
  {
    hide Analyze, HasSeparator, Lex, TokensOf, Chars, Boundary, RolesFit, MoveTokens, MoveRoles;
    SeparatorIsBoundary(s, comments, e);
    AnalysisComposes(n, s, comments, e);
    var front, rest := Analyze(n, s[..e], comments), Analyze(n, s[e..], comments);
    AnalysisFits(n, s[..e], comments);
    AnalysisFits(n, s[e..], comments);
    FrontTokens(s, e, front);
    RestTokens(s, e, rest);
    TokensConcat(s, front, MoveRoles(rest, e));
  }
}
