/** Roles of words and tokens: the command-position machine of src/syntax.rs over a lexed buffer. */
module Analysis {
  import opened Bytes
  import opened Lexer
  import opened LexerFacts
  import opened LexerLocality

  /** What the shell knows, and the file system seen through two predicates. */
  datatype Names = Names(aliases: set<Bytes>, functions: set<Bytes>, builtins: set<Bytes>, reserved: set<Bytes>,
                         pathExists: Bytes -> bool, executable: Bytes -> bool)

  datatype Wrapper = ByCommand | ByExec | ByNohup | BySudo

  /** Where the machine stands between two lexemes. */
  datatype Position = Position(
    command: bool, wrapper: Option<Wrapper>, value: bool, optionsDone: bool, redirect: bool)

  const COMMAND_START: Position := Position(true, None, false, false, false)

  /** A role over a byte range. */
  datatype Role = Role(kind: Kind, start: nat, end: nat)

  function LookupOf(w: RawWord, raw: Bytes): Bytes { if w.literal.Some? then w.literal.value else raw }

  predicate IsReserved(n: Names, w: RawWord, raw: Bytes) { w.plain && LookupOf(w, raw) in n.reserved }

  function ResolveCommand(n: Names, w: RawWord, raw: Bytes): Kind {
    var name := LookupOf(w, raw);
    if IsReserved(n, w, raw) then Reserved
    else if w.plain && name in n.aliases then Alias
    else if w.plain && name in n.functions then Function
    else if w.plain && name in n.builtins then Builtin
    else if n.executable(name) then Command
    else Unknown
  }

  function WrapperOf(w: RawWord, raw: Bytes): Option<Wrapper> {
    if !w.plain then None
    else if raw == Ascii("command") then Some(ByCommand)
    else if raw == Ascii("exec") then Some(ByExec)
    else if raw == Ascii("nohup") then Some(ByNohup)
    else if raw == Ascii("sudo") then Some(BySudo)
    else None
  }

  predicate TakesValue(w: Wrapper, option: Bytes) {
    match w
    case ByExec => option == Ascii("-a")
    case BySudo =>
      IsOneOf(option, ["-u", "--user", "-g", "--group", "-p", "--prompt", "-r", "--role", "-t", "--type", "-C",
                       "--close-from", "-D", "--chdir", "-R", "--chroot", "-T", "--command-timeout", "--host"])
    case _ => false
  }

  predicate IsOption(w: RawWord, raw: Bytes) { w.plain && |raw| > 1 && raw[0] == 45 }

  predicate IsAlpha(b: byte) { 65 <= b <= 90 || 97 <= b <= 122 || b == 95 }

  predicate IsAssignment(w: RawWord, raw: Bytes) {
    var equal := Find(raw, 61);
    && w.plain && 0 < equal < |raw| && IsAlpha(raw[0])
    && forall i :: 1 <= i < equal ==> IsAlpha(raw[i]) || 48 <= raw[i] <= 57
  }

  predicate StartsCommand(raw: Bytes) {
    IsOneOf(raw, ["if", "then", "else", "elif", "while", "until", "do", "in", "!"])
  }

  predicate IsPathCandidate(text: Bytes) {
    SLASH in text || text == Ascii(".") || text == Ascii("..")
  }

  const SLASH: byte := 47

  /** The role of one word, and where the machine stands after it. */
  function WordRole(n: Names, p: Position, w: RawWord, raw: Bytes): (Kind, Position) {
    if p.redirect then (Word, p.(redirect := false))
    else if p.wrapper.Some? then
      if p.value then (Word, p.(value := false))
      else if !p.optionsDone && IsOption(w, raw) then (Option, p.(value := TakesValue(p.wrapper.value, raw)))
      else if !p.optionsDone && w.plain && raw == Ascii("--") then (Option, p.(optionsDone := true))
      else if IsAssignment(w, raw) then (Assignment, p)
      else (ResolveCommand(n, w, raw), p.(command := false, wrapper := None))
    else if p.command && IsAssignment(w, raw) then (Assignment, p)
    else if p.command then
      if WrapperOf(w, raw).Some? then
        (Precommand, p.(wrapper := WrapperOf(w, raw), value := false, optionsDone := false))
      else if IsReserved(n, w, raw) then (Reserved, p.(command := StartsCommand(raw)))
      else (ResolveCommand(n, w, raw), p.(command := false))
    else (if IsOption(w, raw) then Option else Word, p)
  }

  /** A word's own role, its decorations, and its path role when its literal names something that exists. */
  function WordRoles(n: Names, w: RawWord, kind: Kind): seq<Role> {
    [Role(kind, w.start, w.end)]
    + seq(|w.decorations|, i requires 0 <= i < |w.decorations| =>
        Role(w.decorations[i].kind, w.decorations[i].start, w.decorations[i].end))
    + if w.literal.Some? && IsPathCandidate(w.literal.value) && n.pathExists(w.literal.value)
      then [Role(Path, w.start, w.end)] else []
  }

  predicate Fits(s: Bytes, x: Lexeme) { x.Start() <= x.End() <= |s| }

  function TextOf(s: Bytes, x: Lexeme): Bytes
    requires Fits(s, x)
  {
    s[x.Start()..x.End()]
  }

  /** One turn of the analysis. */
  function Classify(n: Names, p: Position, x: Lexeme, text: Bytes): (seq<Role>, Position) {
    match x
    case Structural(kind, start, end) =>
      ([Role(kind, start, end)],
       if kind == Redirect then p.(redirect := true)
       else if kind == Operator && IsSeparator(text) then COMMAND_START
       else p)
    case WordToken(w) =>
      var (kind, next) := WordRole(n, p, w, text);
      (WordRoles(n, w, kind), next)
  }

  ghost predicate AllSpan(s: Bytes, ls: seq<Lexeme>) {
    forall i :: 0 <= i < |ls| ==> Fits(s, ls[i])
  }

  function AnalyzeFrom(n: Names, s: Bytes, ls: seq<Lexeme>, p: Position): seq<Role>
    requires AllSpan(s, ls)
    decreases |ls|
  {
    if ls == [] then []
    else
      assert Fits(s, ls[0]);
      var (roles, next) := Classify(n, p, ls[0], TextOf(s, ls[0]));
      roles + AnalyzeFrom(n, s, ls[1..], next)
  }

  lemma LexSpans(s: Bytes, comments: bool)
    ensures AllSpan(s, Lex(s, comments))
  {
    hide Lex, Neat, InSome;
    LexPartitions(s, comments);
  }

  /** `analyze`, on byte offsets and with a resolver that is a pure predicate. */
  function Analyze(n: Names, s: Bytes, comments: bool): seq<Role> {
    LexSpans(s, comments);
    AnalyzeFrom(n, s, Lex(s, comments), COMMAND_START)
  }

  // ----- Analysis composes at separators -----

  function MoveRoles(roles: seq<Role>, d: nat): (r: seq<Role>)
    ensures |r| == |roles|
  {
    seq(|roles|, i requires 0 <= i < |roles| => Role(roles[i].kind, roles[i].start + d, roles[i].end + d))
  }

  function PositionAfter(n: Names, s: Bytes, ls: seq<Lexeme>, p: Position): Position
    requires AllSpan(s, ls)
    decreases |ls|
  {
    if ls == [] then p
    else
      assert Fits(s, ls[0]);
      PositionAfter(n, s, ls[1..], Classify(n, p, ls[0], TextOf(s, ls[0])).1)
  }

  lemma {:induction false} AnalyzeConcat(n: Names, s: Bytes, a: seq<Lexeme>, b: seq<Lexeme>, p: Position)
    requires AllSpan(s, a) && AllSpan(s, b) && AllSpan(s, a + b)
    ensures AnalyzeFrom(n, s, a + b, p) == AnalyzeFrom(n, s, a, p) + AnalyzeFrom(n, s, b, PositionAfter(n, s, a, p))
    decreases |a|
  {
    hide Classify, Fits;
    if a == [] {
      assert a + b == b;
    } else {
      assert (a + b)[1..] == a[1..] + b && (a + b)[0] == a[0];
      assert AllSpan(s, a[1..]) && AllSpan(s, (a + b)[1..]);
      assert Fits(s, a[0]);
      AnalyzeConcat(n, s, a[1..], b, Classify(n, p, a[0], TextOf(s, a[0])).1);
    }
  }

  lemma {:induction false} PositionConcat(n: Names, s: Bytes, a: seq<Lexeme>, x: Lexeme, p: Position)
    requires AllSpan(s, a) && Fits(s, x) && AllSpan(s, a + [x])
    ensures PositionAfter(n, s, a + [x], p) == Classify(n, PositionAfter(n, s, a, p), x, TextOf(s, x)).1
    decreases |a|
  {
    hide Classify, Fits;
    if a == [] {
      assert a + [x] == [x];
    } else {
      assert (a + [x])[1..] == a[1..] + [x] && (a + [x])[0] == a[0];
      assert AllSpan(s, a[1..]) && AllSpan(s, (a + [x])[1..]);
      assert Fits(s, a[0]);
      PositionConcat(n, s, a[1..], x, Classify(n, p, a[0], TextOf(s, a[0])).1);
    }
  }

  /** A separator puts the machine back where a buffer starts, whatever came before it. */
  lemma SeparatorResets(n: Names, s: Bytes, ls: seq<Lexeme>, p: Position, e: nat)
    requires AllSpan(s, ls) && ls != [] && SeparatorAt(s, ls[|ls| - 1], e)
    ensures PositionAfter(n, s, ls, p) == COMMAND_START
  {
    hide WordRole, WordRoles, IsSeparator;
    var front, x := ls[..|ls| - 1], ls[|ls| - 1];
    assert front + [x] == ls;
    PositionConcat(n, s, front, x, p);
  }

  lemma {:induction false} AnalyzePrefix(n: Names, s: Bytes, e: nat, ls: seq<Lexeme>, p: Position)
    requires e <= |s| && AllSpan(s[..e], ls)
    ensures AllSpan(s, ls)
    ensures AnalyzeFrom(n, s, ls, p) == AnalyzeFrom(n, s[..e], ls, p)
    ensures PositionAfter(n, s, ls, p) == PositionAfter(n, s[..e], ls, p)
    decreases |ls|
  {
    hide Classify;
    if ls != [] {
      assert Fits(s[..e], ls[0]);
      assert TextOf(s, ls[0]) == TextOf(s[..e], ls[0]);
      AnalyzePrefix(n, s, e, ls[1..], Classify(n, p, ls[0], TextOf(s, ls[0])).1);
      assert forall i :: 0 < i < |ls| ==> ls[i] == ls[1..][i - 1];
    }
  }

  lemma ClassifyMoves(n: Names, p: Position, x: Lexeme, text: Bytes, d: nat)
    ensures var (roles, next) := Classify(n, p, x, text);
            Classify(n, p, MoveLexeme(x, d), text) == (MoveRoles(roles, d), next)
  {
    match x
    case Structural(kind, start, end) =>
      assert MoveRoles([Role(kind, start, end)], d) == [Role(kind, start + d, end + d)];
    case WordToken(w) =>
      WordRoleMoves(n, p, w, text, d);
      WordRolesMove(n, w, WordRole(n, p, w, text).0, d);
  }

  lemma WordRoleMoves(n: Names, p: Position, w: RawWord, text: Bytes, d: nat)
    ensures WordRole(n, p, MoveWord(w, d), text) == WordRole(n, p, w, text)
  {
    hide MoveDecorations, TakesValue, StartsCommand;
  }

  lemma WordRolesMove(n: Names, w: RawWord, kind: Kind, d: nat)
    ensures WordRoles(n, MoveWord(w, d), kind) == MoveRoles(WordRoles(n, w, kind), d)
  {
  }

  lemma {:induction false} AnalyzeMoves(n: Names, s: Bytes, d: nat, ls: seq<Lexeme>, p: Position)
    requires d <= |s| && AllSpan(s[d..], ls)
    ensures AllSpan(s, MoveLexemes(ls, d))
    ensures AnalyzeFrom(n, s, MoveLexemes(ls, d), p) == MoveRoles(AnalyzeFrom(n, s[d..], ls, p), d)
    decreases |ls|
  {
    hide Classify, MoveLexeme;
    MovedSpans(s, d, ls);
    if ls != [] {
      var x, text := ls[0], TextOf(s[d..], ls[0]);
      assert MoveLexemes(ls, d)[1..] == MoveLexemes(ls[1..], d);
      MovedText(s, d, x);
      ClassifyMoves(n, p, x, text, d);
      AnalyzeMoves(n, s, d, ls[1..], Classify(n, p, x, text).1);
      var here, rest := Classify(n, p, x, text).0, AnalyzeFrom(n, s[d..], ls[1..], Classify(n, p, x, text).1);
      assert MoveRoles(here + rest, d) == MoveRoles(here, d) + MoveRoles(rest, d);
    }
  }

  lemma MovedSpans(s: Bytes, d: nat, ls: seq<Lexeme>)
    requires d <= |s| && AllSpan(s[d..], ls)
    ensures AllSpan(s, MoveLexemes(ls, d))
  {
    forall i | 0 <= i < |ls|
      ensures Fits(s, MoveLexemes(ls, d)[i])
    {
      assert Fits(s[d..], ls[i]);
    }
  }

  lemma MovedText(s: Bytes, d: nat, x: Lexeme)
    requires d <= |s| && Fits(s[d..], x)
    ensures Fits(s, MoveLexeme(x, d)) && TextOf(s, MoveLexeme(x, d)) == TextOf(s[d..], x)
  {
  }

  /**
  If a top-level command separator ends at `e`, the analysis of the buffer is the analysis of the text
  up to `e`, followed by the analysis of the rest on its own, moved by `e`.
  */
  lemma AnalysisComposes(n: Names, s: Bytes, comments: bool, e: nat)
    requires HasSeparator(s, Lex(s, comments), e)
    ensures e <= |s|
    ensures Analyze(n, s, comments) == Analyze(n, s[..e], comments) + MoveRoles(Analyze(n, s[e..], comments), e)
  {
    hide Lex, HasSeparator, SeparatorAt, MoveLexemes, AllSpan, AnalyzeFrom, PositionAfter;
    LexSplits(s, comments, e);
    LexSpans(s, comments);
    LexSpans(s[..e], comments);
    LexSpans(s[e..], comments);
    var front, rest := Lex(s[..e], comments), Lex(s[e..], comments);
    AnalyzePrefix(n, s, e, front, COMMAND_START);
    AnalyzeMoves(n, s, e, rest, COMMAND_START);
    AnalyzeConcat(n, s, front, MoveLexemes(rest, e), COMMAND_START);
    SeparatorResets(n, s, front, COMMAND_START, e);
  }

  // ----- One command for each separator -----

  /** Roles of a word that is looked up as a command. */
  predicate NamesCommand(kind: Kind) {
    kind == Command || kind == Alias || kind == Function || kind == Builtin || kind == Unknown
  }

  predicate IsArgument(kind: Kind) { kind == Word || kind == Kind.Option }

  /** The command has been named, and no wrapper asks for another. */
  predicate Named(p: Position) { !p.command && p.wrapper.None? }

  function WordKinds(n: Names, s: Bytes, ls: seq<Lexeme>, p: Position): seq<Kind>
    requires AllSpan(s, ls)
    decreases |ls|
  {
    if ls == [] then []
    else
      assert Fits(s, ls[0]);
      var text := TextOf(s, ls[0]);
      (if ls[0].WordToken? then [WordRole(n, p, ls[0].word, text).0] else [])
      + WordKinds(n, s, ls[1..], Classify(n, p, ls[0], text).1)
  }

  ghost predicate NoSeparator(s: Bytes, ls: seq<Lexeme>)
    requires AllSpan(s, ls)
  {
    forall i :: 0 <= i < |ls| && ls[i].Structural? && ls[i].kind == Operator ==>
      Fits(s, ls[i]) && !IsSeparator(TextOf(s, ls[i]))
  }

  lemma RoleNames(n: Names, p: Position, w: RawWord, raw: Bytes)
    ensures var (kind, next) := WordRole(n, p, w, raw);
            && (NamesCommand(kind) ==> Named(next))
            && (Named(p) ==> Named(next) && IsArgument(kind))
  {
    hide TakesValue, StartsCommand, IsOption, IsAssignment, WrapperOf, IsReserved;
  }

  lemma NamedStays(n: Names, p: Position, x: Lexeme, text: Bytes)
    requires Named(p) && (x.Structural? && x.kind == Operator ==> !IsSeparator(text))
    ensures Named(Classify(n, p, x, text).1)
  {
    hide WordRole, WordRoles, IsSeparator;
    if x.WordToken? {
      RoleNames(n, p, x.word, text);
    }
  }

  lemma {:induction false} OnlyArguments(n: Names, s: Bytes, ls: seq<Lexeme>, p: Position)
    requires AllSpan(s, ls) && NoSeparator(s, ls) && Named(p)
    ensures forall i :: 0 <= i < |WordKinds(n, s, ls, p)| ==> IsArgument(WordKinds(n, s, ls, p)[i])
    decreases |ls|
  {
    hide WordRole, Classify, IsSeparator, Named, IsArgument, Fits;
    if ls != [] {
      assert Fits(s, ls[0]) && AllSpan(s, ls[1..]);
      var text := TextOf(s, ls[0]);
      NamedStays(n, p, ls[0], text);
      if ls[0].WordToken? {
        RoleNames(n, p, ls[0].word, text);
      }
      OnlyArguments(n, s, ls[1..], Classify(n, p, ls[0], text).1);
    }
  }

  lemma WordNext(n: Names, p: Position, w: RawWord, text: Bytes)
    ensures Classify(n, p, WordToken(w), text).1 == WordRole(n, p, w, text).1
  {
    hide WordRole, WordRoles;
  }

  /** Every word after one that is looked up as a command is an argument. */
  ghost predicate ArgumentsFollow(kinds: seq<Kind>) {
    forall i, j :: 0 <= i < j < |kinds| && NamesCommand(kinds[i]) ==> IsArgument(kinds[j])
  }

  /** Between two separators at most one word is looked up as a command, and every word after it is an argument. */
  lemma {:induction false} OneCommandEach(n: Names, s: Bytes, ls: seq<Lexeme>, p: Position)
    requires AllSpan(s, ls) && NoSeparator(s, ls)
    ensures ArgumentsFollow(WordKinds(n, s, ls, p))
    decreases |ls|
  {
    hide WordRole, Classify, IsSeparator, Named, IsArgument, NamesCommand, Fits;
    if ls != [] {
      assert Fits(s, ls[0]) && AllSpan(s, ls[1..]);
      var text := TextOf(s, ls[0]);
      var next := Classify(n, p, ls[0], text).1;
      OneCommandEach(n, s, ls[1..], next);
      var rest := WordKinds(n, s, ls[1..], next);
      if ls[0].WordToken? {
        var first := WordRole(n, p, ls[0].word, text).0;
        WordNext(n, p, ls[0].word, text);
        RoleNames(n, p, ls[0].word, text);
        if Named(next) {
          OnlyArguments(n, s, ls[1..], next);
        }
        FirstThenArguments(first, rest);
        assert WordKinds(n, s, ls, p) == [first] + rest;
      } else {
        assert WordKinds(n, s, ls, p) == [] + rest == rest;
      }
    }
  }

  lemma FirstThenArguments(first: Kind, rest: seq<Kind>)
    requires ArgumentsFollow(rest)
    requires NamesCommand(first) ==> forall j :: 0 <= j < |rest| ==> IsArgument(rest[j])
    ensures ArgumentsFollow([first] + rest)
  {
    hide NamesCommand, IsArgument;
    var kinds := [first] + rest;
    forall i, j | 0 <= i < j < |kinds| && NamesCommand(kinds[i])
      ensures IsArgument(kinds[j])
    {
      assert kinds[j] == rest[j - 1];
    }
  }
}
