/** Which kind every word of a buffer is delivered under, told from the words before it (`analyze` of src/syntax.rs). */
module CommandKinds {
  import opened Bytes
  import opened Lexer
  import LexerLocality
  import opened Analysis
  import TokenOffsets
  import opened Tokenizer
  import TokenFacts
  import DecorationSpans

  // ----- The words since the last separator -----

  ghost predicate Separates(s: Bytes, x: Lexeme) {
    Fits(s, x) && x.Structural? && x.kind == Operator && IsSeparator(TextOf(s, x))
  }

  /** The lexemes from `a` up to `k` stand in one simple command, which begins at `a`. */
  ghost predicate OneCommand(s: Bytes, ls: seq<Lexeme>, a: nat, k: nat) {
    && a <= k <= |ls|
    && (a > 0 ==> Separates(s, ls[a - 1]))
    && (forall i :: a <= i < k ==> !Separates(s, ls[i]))
  }

  /** A redirection stands before `k` with no word in between: a word at `k` is its target. */
  ghost predicate Targeted(ls: seq<Lexeme>, a: nat, k: nat) {
    exists r :: a <= r < k <= |ls| && ls[r].Structural? && ls[r].kind == Redirect
      && forall q :: r < q < k ==> ls[q].Structural?
  }

  predicate IsWrapper(w: RawWord, text: Bytes) {
    w.plain && (text == Ascii("command") || text == Ascii("exec") || text == Ascii("nohup") || text == Ascii("sudo"))
  }

  /** A reserved word behind which a command is expected. */
  predicate OpensCommand(n: Names, w: RawWord, text: Bytes) {
    w.plain && (if w.literal.Some? then w.literal.value else text) in n.reserved && StartsCommand(text)
  }

  /** Word `i` leaves the command still to come: a redirection target, an assignment, or a word like `if`. */
  ghost predicate Leads(n: Names, s: Bytes, ls: seq<Lexeme>, a: nat, i: nat)
    requires i < |ls| && Fits(s, ls[i])
  {
    ls[i].WordToken? ==>
      var w, text := ls[i].word, TextOf(s, ls[i]);
      Targeted(ls, a, i) || IsAssignment(w, text) || (!IsWrapper(w, text) && OpensCommand(n, w, text))
  }

  ghost predicate AllLead(n: Names, s: Bytes, ls: seq<Lexeme>, a: nat, k: nat)
    requires AllSpan(s, ls) && k <= |ls|
  {
    forall i :: a <= i < k ==> Fits(s, ls[i]) && Leads(n, s, ls, a, i)
  }

  /** Where the machine stands before lexeme `k`. */
  ghost function Before(n: Names, s: Bytes, ls: seq<Lexeme>, k: nat): Position
    requires AllSpan(s, ls) && k <= |ls|
  {
    FrontSpans(s, ls, k);
    PositionAfter(n, s, ls[..k], COMMAND_START)
  }

  lemma FrontSpans(s: Bytes, ls: seq<Lexeme>, k: nat)
    requires AllSpan(s, ls) && k <= |ls|
    ensures AllSpan(s, ls[..k])
  {
    hide Fits;
  }

  lemma BeforeNext(n: Names, s: Bytes, ls: seq<Lexeme>, k: nat)
    requires AllSpan(s, ls) && k < |ls|
    ensures Fits(s, ls[k])
    ensures Before(n, s, ls, k + 1) == Classify(n, Before(n, s, ls, k), ls[k], TextOf(s, ls[k])).1
  {
    hide Classify, PositionAfter, Fits;
    FrontSpans(s, ls, k);
    FrontSpans(s, ls, k + 1);
    assert ls[..k + 1] == ls[..k] + [ls[k]];
    PositionConcat(n, s, ls[..k], ls[k], COMMAND_START);
  }

  lemma BeforeFirst(n: Names, s: Bytes, ls: seq<Lexeme>, a: nat, k: nat)
    requires AllSpan(s, ls) && OneCommand(s, ls, a, k)
    ensures Before(n, s, ls, a) == COMMAND_START
  {
    hide Classify, IsSeparator;
    FrontSpans(s, ls, a);
    if a == 0 {
      assert ls[..0] == [];
    } else {
      var x := ls[a - 1];
      assert Fits(s, x) && ls[..a][|ls[..a]| - 1] == x;
      SeparatorResets(n, s, ls[..a], COMMAND_START, x.End());
    }
  }

  lemma TargetedNext(ls: seq<Lexeme>, a: nat, k: nat)
    requires a <= k < |ls|
    ensures !Targeted(ls, a, a)
    ensures Targeted(ls, a, k + 1) <==> ls[k].Structural? && (ls[k].kind == Redirect || Targeted(ls, a, k))
  {
    if Targeted(ls, a, k + 1) {
      var r :| a <= r < k + 1 && ls[r].Structural? && ls[r].kind == Redirect && forall q :: r < q < k + 1 ==> ls[q].Structural?;
      assert r < k ==> Targeted(ls, a, k);
    }
    if ls[k].Structural? && Targeted(ls, a, k) {
      var r :| a <= r < k && ls[r].Structural? && ls[r].kind == Redirect && forall q :: r < q < k ==> ls[q].Structural?;
      assert forall q :: r < q < k + 1 ==> ls[q].Structural?;
    }
    if ls[k].Structural? && ls[k].kind == Redirect {
      assert Targeted(ls, a, k + 1);
    }
  }

  lemma WrapperIs(w: RawWord, text: Bytes)
    ensures IsWrapper(w, text) <==> WrapperOf(w, text).Some?
  {
    hide Ascii;
  }

  // ----- One turn of the machine -----

  lemma StructuralTurn(n: Names, p: Position, x: Lexeme, s: Bytes)
    requires Fits(s, x) && x.Structural? && !Separates(s, x)
    ensures Classify(n, p, x, TextOf(s, x)).1 == if x.kind == Redirect then p.(redirect := true) else p
  {
    hide IsSeparator;
  }

  lemma LeadTurn(n: Names, p: Position, w: RawWord, text: Bytes)
    requires p.command && p.wrapper.None?
    requires p.redirect || IsAssignment(w, text) || (!IsWrapper(w, text) && OpensCommand(n, w, text))
    ensures Classify(n, p, WordToken(w), text).1 == p.(redirect := false)
  {
    WrapperIs(w, text);
    hide IsAssignment, WrapperOf, IsWrapper, StartsCommand, ResolveCommand, IsOption, TakesValue, WordRoles;
  }

  /** Before the command of a simple command, the machine only remembers an open redirection. */
  lemma {:induction false} LeadsBefore(n: Names, s: Bytes, ls: seq<Lexeme>, a: nat, k: nat)
    requires AllSpan(s, ls) && OneCommand(s, ls, a, k) && AllLead(n, s, ls, a, k)
    ensures Before(n, s, ls, k) == COMMAND_START.(redirect := Targeted(ls, a, k))
    decreases k
  {
    hide Classify, IsAssignment, OpensCommand, IsWrapper, Separates, Targeted, Before, Fits;
    if k == a {
      BeforeFirst(n, s, ls, a, k);
      if a < |ls| {
        TargetedNext(ls, a, a);
      } else {
        NotTargeted(ls, a);
      }
    } else {
      LeadsBefore(n, s, ls, a, k - 1);
      var x, p := ls[k - 1], Before(n, s, ls, k - 1);
      BeforeNext(n, s, ls, k - 1);
      TargetedNext(ls, a, k - 1);
      if x.Structural? {
        StructuralTurn(n, p, x, s);
      } else {
        assert Leads(n, s, ls, a, k - 1);
        LeadTurn(n, p, x.word, TextOf(s, x));
      }
    }
  }

  lemma NotTargeted(ls: seq<Lexeme>, a: nat)
    ensures !Targeted(ls, a, a)
  {
  }

  // ----- What is delivered -----

  /** The token of lexeme `k`, behind those of the lexemes before it, is delivered under this kind. */
  ghost predicate Delivers(n: Names, s: Bytes, comments: bool, k: nat, kind: Kind) {
    var ls, tokens := Lex(s, comments), TokenFacts.Tokens(n, s, comments);
    && k < |ls| && Fits(s, ls[k])
    && var at := Earlier(n, s, comments, k);
       at < |tokens| && tokens[at] == Token(kind, TokenOffsets.TokenSpan(s, ls[k].Start(), ls[k].End()))
  }

  /** How many tokens are delivered for the lexemes before `k`. */
  ghost function Earlier(n: Names, s: Bytes, comments: bool, k: nat): nat
    requires k <= |Lex(s, comments)|
  {
    LexSpans(s, comments);
    FrontSpans(s, Lex(s, comments), k);
    |AnalyzeFrom(n, s, Lex(s, comments)[..k], COMMAND_START)|
  }

  lemma WordFirst(n: Names, s: Bytes, ls: seq<Lexeme>, p: Position)
    requires AllSpan(s, ls) && ls != [] && ls[0].WordToken?
    ensures Fits(s, ls[0])
    ensures var w := ls[0].word;
            && AnalyzeFrom(n, s, ls, p) != []
            && AnalyzeFrom(n, s, ls, p)[0] == Analysis.Role(WordRole(n, p, w, TextOf(s, ls[0])).0, w.start, w.end)
  {
    hide WordRole, IsPathCandidate;
  }

  /** The kind of a word is what the machine says of it where it stands. */
  lemma WordIsDelivered(n: Names, s: Bytes, comments: bool, k: nat)
    requires k < |Lex(s, comments)| && Lex(s, comments)[k].WordToken?
    ensures AllSpan(s, Lex(s, comments)) && Fits(s, Lex(s, comments)[k])
    ensures var x := Lex(s, comments)[k];
            Delivers(n, s, comments, k, WordRole(n, Before(n, s, Lex(s, comments), k), x.word, TextOf(s, x)).0)
  {
    hide AnalyzeFrom, Lex, WordRole, Fits, AllSpan, PositionAfter, TokenOffsets.OffsetFrom;
    LexSpans(s, comments);
    var ls := Lex(s, comments);
    FrontSpans(s, ls, k);
    SpansFrom(s, ls, k);
    SpanOfOne(s, ls, k);
    assert ls[..k] + ls[k..] == ls;
    AnalyzeConcat(n, s, ls[..k], ls[k..], COMMAND_START);
    WordFirst(n, s, ls[k..], Before(n, s, ls, k));
  }

  lemma SpanOfOne(s: Bytes, ls: seq<Lexeme>, k: nat)
    requires AllSpan(s, ls) && k < |ls|
    ensures Fits(s, ls[k]) && ls[k].Start() <= ls[k].End() <= |s|
  {
  }

  /** The word's literal looks like a path, and something exists there. */
  ghost predicate NamesPath(n: Names, w: RawWord) {
    && w.literal.Some?
    && var text := w.literal.value;
       (47 in text || text == [46] || text == [46, 46]) && n.pathExists(text)
  }

  /** These are the roles of a word of some kind: its own, those of its decorations, and a path's when it names one. */
  ghost predicate RolesOf(n: Names, w: RawWord, roles: seq<Analysis.Role>) {
    var path := if NamesPath(n, w) then 1 else 0;
    && |roles| == 1 + |w.decorations| + path
    && (forall i :: 0 <= i < |w.decorations| ==>
          roles[1 + i] == Analysis.Role(w.decorations[i].kind, w.decorations[i].start, w.decorations[i].end))
    && (path == 1 ==> roles[|roles| - 1] == Analysis.Role(Path, w.start, w.end))
  }

  lemma WordRolesAre(n: Names, w: RawWord, kind: Kind)
    ensures RolesOf(n, w, WordRoles(n, w, kind))
  {
    if w.literal.Some? {
      PathLooks(w.literal.value);
    }
    hide IsPathCandidate;
  }

  lemma PathLooks(text: Bytes)
    ensures IsPathCandidate(text) <==> 47 in text || text == [46] || text == [46, 46]
  {
    assert Ascii(".") == [46] && Ascii("..") == [46, 46];
  }

  lemma WordTurn(n: Names, s: Bytes, ls: seq<Lexeme>, k: nat)
    requires AllSpan(s, ls) && k < |ls| && ls[k].WordToken?
    ensures AllSpan(s, ls[..k]) && AllSpan(s, ls[..k + 1])
    ensures var before, after := AnalyzeFrom(n, s, ls[..k], COMMAND_START), AnalyzeFrom(n, s, ls[..k + 1], COMMAND_START);
            |before| <= |after| <= |AnalyzeFrom(n, s, ls, COMMAND_START)|
            && RolesOf(n, ls[k].word, AnalyzeFrom(n, s, ls, COMMAND_START)[|before|..|after|])
  {
    hide WordRoles, WordRole, Fits, RolesOf, PositionAfter;
    FrontSpans(s, ls, k);
    FrontSpans(s, ls, k + 1);
    assert AllSpan(s, [ls[k]]) && AllSpan(s, ls[k + 1..]);
    assert ls[..k] + [ls[k]] == ls[..k + 1] && ls[..k + 1] + ls[k + 1..] == ls;
    AnalyzeConcat(n, s, ls[..k], [ls[k]], COMMAND_START);
    AnalyzeConcat(n, s, ls[..k + 1], ls[k + 1..], COMMAND_START);
    OneWord(n, s, ls[k], PositionAfter(n, s, ls[..k], COMMAND_START));
  }

  lemma OneWord(n: Names, s: Bytes, x: Lexeme, p: Position)
    requires Fits(s, x) && x.WordToken? && AllSpan(s, [x])
    ensures RolesOf(n, x.word, AnalyzeFrom(n, s, [x], p))
  {
    hide WordRole, WordRoles, Fits, RolesOf;
    var kind := WordRole(n, p, x.word, TextOf(s, x)).0;
    WordRolesAre(n, x.word, kind);
    assert [x][1..] == [];
    assert AnalyzeFrom(n, s, [x], p) == WordRoles(n, x.word, kind) + [];
    assert WordRoles(n, x.word, kind) + [] == WordRoles(n, x.word, kind);
  }

  /** The token stands over these bytes, in characters. */
  ghost predicate Over(s: Bytes, t: Token, kind: Kind, start: nat, end: nat) {
    start <= |s| && end <= |s| && t == Token(kind, TokenOffsets.TokenSpan(s, start, end))
  }

  /**
   Behind its own token a word delivers one for each of its decorations, and last a path over the whole word exactly when
   its literal looks like one and names something that exists.
   */
  lemma WordTokens(n: Names, s: Bytes, comments: bool, k: nat)
    requires k < |Lex(s, comments)| && Lex(s, comments)[k].WordToken?
    ensures var tokens, w := TokenFacts.Tokens(n, s, comments), Lex(s, comments)[k].word;
            var at, next, path := Earlier(n, s, comments, k), Earlier(n, s, comments, k + 1), NamesPath(n, w);
            && next == at + 1 + |w.decorations| + (if path then 1 else 0) <= |tokens|
            && (forall i :: 0 <= i < |w.decorations| ==>
                  Over(s, tokens[at + 1..][i], w.decorations[i].kind, w.decorations[i].start, w.decorations[i].end))
            && (path ==> Over(s, tokens[next - 1], Path, w.start, w.end))
  {
    hide AnalyzeFrom, Lex, Over, NamesPath, Fits, TokenFacts.RolesFit;
    LexSpans(s, comments);
    TokenFacts.AnalysisFits(n, s, comments);
    var ls := Lex(s, comments);
    WordTurn(n, s, ls, k);
    FrontSpans(s, ls, k);
    FrontSpans(s, ls, k + 1);
    var roles, at, w := AnalyzeFrom(n, s, ls, COMMAND_START), Earlier(n, s, comments, k), ls[k].word;
    var next := Earlier(n, s, comments, k + 1);
    forall i | 0 <= i < |w.decorations|
      ensures Over(s, TokenFacts.Tokens(n, s, comments)[at + 1..][i],
                   w.decorations[i].kind, w.decorations[i].start, w.decorations[i].end)
    {
      assert roles[at..next][1 + i] == roles[at + 1 + i];
      RoleIsOver(s, roles, at + 1 + i);
    }
    if NamesPath(n, w) {
      assert roles[at..next][next - at - 1] == roles[next - 1];
      RoleIsOver(s, roles, next - 1);
    }
  }

  lemma RoleIsOver(s: Bytes, roles: seq<Analysis.Role>, i: nat)
    requires TokenFacts.RolesFit(s, roles) && i < |roles|
    ensures Over(s, TokensOf(s, roles)[i], roles[i].kind, roles[i].start, roles[i].end)
  {
    hide TokenOffsets.OffsetFrom;
  }

  // ----- The kinds -----

  /** The kind of a word that names a command: the namespace first, in this order, then the file system. */
  ghost predicate LooksUp(n: Names, w: RawWord, text: Bytes, kind: Kind) {
    var name := if w.literal.Some? then w.literal.value else text;
    && (kind == Reserved <==> w.plain && name in n.reserved)
    && (kind == Alias <==> w.plain && name in n.aliases && name !in n.reserved)
    && (kind == Function <==> w.plain && name in n.functions && name !in n.reserved + n.aliases)
    && (kind == Builtin <==> w.plain && name in n.builtins && name !in n.reserved + n.aliases + n.functions)
    && (kind == Command <==> !(w.plain && name in n.reserved + n.aliases + n.functions + n.builtins) && n.executable(name))
    && (kind == Unknown <==> !(w.plain && name in n.reserved + n.aliases + n.functions + n.builtins) && !n.executable(name))
  }

  lemma ResolveLooksUp(n: Names, w: RawWord, text: Bytes)
    ensures LooksUp(n, w, text, ResolveCommand(n, w, text))
  {
  }

  /** What the first words of a simple command are delivered as. */
  ghost predicate FirstKind(n: Names, w: RawWord, text: Bytes, targeted: bool, kind: Kind) {
    if targeted then kind == Word
    else if IsAssignment(w, text) then kind == Assignment
    else if IsWrapper(w, text) then kind == Precommand
    else LooksUp(n, w, text, kind)
  }

  lemma FirstRole(n: Names, targeted: bool, w: RawWord, text: Bytes)
    ensures FirstKind(n, w, text, targeted, WordRole(n, COMMAND_START.(redirect := targeted), w, text).0)
  {
    WrapperIs(w, text);
    ResolveLooksUp(n, w, text);
    ReservedIsReserved(n, w, text);
    hide IsAssignment, WrapperOf, IsWrapper, StartsCommand, ResolveCommand, LooksUp, IsReserved;
  }

  lemma ReservedIsReserved(n: Names, w: RawWord, text: Bytes)
    ensures IsReserved(n, w, text) ==> ResolveCommand(n, w, text) == Reserved
  {
  }

  /**
   A word with only redirection targets, assignments and words like `if` before it in its simple command is delivered
   as a target, an assignment, a wrapper, or else under the kind its name is looked up to.
   */
  lemma CommandWordKind(n: Names, s: Bytes, comments: bool, a: nat, k: nat) returns (kind: Kind)
    requires k < |Lex(s, comments)| && Lex(s, comments)[k].WordToken? && OneCommand(s, Lex(s, comments), a, k)
    requires AllSpan(s, Lex(s, comments)) && AllLead(n, s, Lex(s, comments), a, k)
    ensures Delivers(n, s, comments, k, kind)
    ensures FirstKind(n, Lex(s, comments)[k].word, TextOf(s, Lex(s, comments)[k]), Targeted(Lex(s, comments), a, k), kind)
  {
    hide *;
    var ls := Lex(s, comments);
    WordIsDelivered(n, s, comments, k);
    LeadsBefore(n, s, ls, a, k);
    FirstRole(n, Targeted(ls, a, k), ls[k].word, TextOf(s, ls[k]));
    kind := WordRole(n, Before(n, s, ls, k), ls[k].word, TextOf(s, ls[k])).0;
  }

  // ----- Behind a wrapper -----

  /** The wrapper this text names, as far as its options are concerned. */
  ghost predicate Takes(wrapper: Bytes, option: Bytes) {
    if wrapper == Ascii("exec") then option == Ascii("-a")
    else
      && wrapper == Ascii("sudo")
      && IsOneOf(option, ["-u", "--user", "-g", "--group", "-p", "--prompt", "-r", "--role", "-t", "--type", "-C",
                          "--close-from", "-D", "--chdir", "-R", "--chroot", "-T", "--command-timeout", "--host"])
  }

  /** An option that takes a value stands before `k`, with nothing but redirections since: a word at `k` is its value. */
  ghost predicate ValueDue(s: Bytes, ls: seq<Lexeme>, a: nat, v: nat, k: nat)
    requires v < k <= |ls| && AllSpan(s, ls)
  {
    k > v + 1 &&
      var x := ls[k - 1];
      assert Fits(s, x) && Fits(s, ls[v]);
      if x.Structural? || Targeted(ls, a, k - 1) then ValueDue(s, ls, a, v, k - 1)
      else !ValueDue(s, ls, a, v, k - 1) && IsOption(x.word, TextOf(s, x)) && Takes(TextOf(s, ls[v]), TextOf(s, x))
  }

  /** Word `i` belongs to the wrapper at `v`: a target, a value, an option, or an assignment. */
  ghost predicate Serves(s: Bytes, ls: seq<Lexeme>, a: nat, v: nat, i: nat)
    requires v < i < |ls| && AllSpan(s, ls) && Fits(s, ls[i])
  {
    ls[i].WordToken? ==>
      var w, text := ls[i].word, TextOf(s, ls[i]);
      Targeted(ls, a, i) || ValueDue(s, ls, a, v, i) || IsOption(w, text) || IsAssignment(w, text)
  }

  /** The word at `v` is a wrapper that stands where a command is expected. */
  ghost predicate Wraps(n: Names, s: Bytes, ls: seq<Lexeme>, a: nat, v: nat)
    requires AllSpan(s, ls)
  {
    && v < |ls| && a <= v && AllLead(n, s, ls, a, v) && ls[v].WordToken? && Fits(s, ls[v])
    && !Targeted(ls, a, v) && !IsAssignment(ls[v].word, TextOf(s, ls[v])) && IsWrapper(ls[v].word, TextOf(s, ls[v]))
  }

  /** Everything between the wrapper at `v` and `k` belongs to it. */
  ghost predicate Wrapped(n: Names, s: Bytes, ls: seq<Lexeme>, a: nat, v: nat, k: nat)
    requires AllSpan(s, ls)
  {
    && Wraps(n, s, ls, a, v) && v < k <= |ls|
    && forall i :: v < i < k ==> Fits(s, ls[i]) && Serves(s, ls, a, v, i)
  }

  lemma TakesIs(w: RawWord, text: Bytes, option: Bytes)
    requires WrapperOf(w, text).Some?
    ensures TakesValue(WrapperOf(w, text).value, option) <==> Takes(text, option)
  {
    assert |Ascii("exec")| == 4 && |Ascii("sudo")| == 4 && |Ascii("command")| == 7 && |Ascii("nohup")| == 5;
    assert Ascii("exec")[0] == 101 && Ascii("sudo")[0] == 115;
    hide IsOneOf, Ascii;
  }

  /** Where the machine stands behind a wrapper. */
  ghost function Behind(wrapper: Option<Wrapper>, due: bool, targeted: bool): Position {
    Position(true, wrapper, due, false, targeted)
  }

  lemma WrapperTurn(n: Names, w: RawWord, text: Bytes)
    requires !IsAssignment(w, text) && IsWrapper(w, text)
    ensures Classify(n, COMMAND_START, WordToken(w), text).1 == Behind(WrapperOf(w, text), false, false)
  {
    WrapperIs(w, text);
    hide IsAssignment, WrapperOf, IsWrapper, WordRoles;
  }

  lemma ServesTurn(n: Names, wrapper: Wrapper, due: bool, targeted: bool, w: RawWord, text: Bytes)
    requires targeted || due || IsOption(w, text) || IsAssignment(w, text)
    ensures Classify(n, Behind(Some(wrapper), due, targeted), WordToken(w), text).1
         == Behind(Some(wrapper), if targeted then due else !due && IsOption(w, text) && TakesValue(wrapper, text), false)
  {
    hide IsAssignment, WordRoles, TakesValue, ResolveCommand, WrapperOf, IsReserved, StartsCommand;
    DashesAreOption(w, text);
  }

  /** `--` is an option word like any other, so it never ends the options. */
  lemma DashesAreOption(w: RawWord, text: Bytes)
    ensures w.plain && text == Ascii("--") ==> IsOption(w, text)
  {
  }

  lemma {:induction false} WrappedBefore(n: Names, s: Bytes, ls: seq<Lexeme>, a: nat, v: nat, k: nat)
    requires AllSpan(s, ls) && OneCommand(s, ls, a, k) && Wrapped(n, s, ls, a, v, k)
    ensures Fits(s, ls[v]) && WrapperOf(ls[v].word, TextOf(s, ls[v])).Some?
    ensures Before(n, s, ls, k)
         == Behind(WrapperOf(ls[v].word, TextOf(s, ls[v])), ValueDue(s, ls, a, v, k), Targeted(ls, a, k))
    decreases k
  {
    hide Classify, IsAssignment, IsOption, OpensCommand, IsWrapper, Separates, Targeted, Before, Fits, AllLead, Takes,
         TakesValue, WrapperOf, Behind;
    WrapperIs(ls[v].word, TextOf(s, ls[v]));
    var x := ls[k - 1];
    BeforeNext(n, s, ls, k - 1);
    TargetedNext(ls, a, k - 1);
    if k == v + 1 {
      LeadsBefore(n, s, ls, a, v);
      WrapperTurn(n, x.word, TextOf(s, x));
    } else {
      WrappedBefore(n, s, ls, a, v, k - 1);
      var wrapper := WrapperOf(ls[v].word, TextOf(s, ls[v])).value;
      var due, targeted := ValueDue(s, ls, a, v, k - 1), Targeted(ls, a, k - 1);
      if x.Structural? {
        StructuralTurn(n, Before(n, s, ls, k - 1), x, s);
        BehindRedirect(Some(wrapper), due, targeted);
      } else {
        assert Serves(s, ls, a, v, k - 1);
        ServesTurn(n, wrapper, due, targeted, x.word, TextOf(s, x));
        TakesIs(ls[v].word, TextOf(s, ls[v]), TextOf(s, x));
      }
    }
  }

  lemma BehindRedirect(wrapper: Option<Wrapper>, due: bool, targeted: bool)
    ensures Behind(wrapper, due, targeted).(redirect := true) == Behind(wrapper, due, true)
  {
  }

  /** What the words behind a wrapper are delivered as. */
  ghost predicate WrappedKind(n: Names, w: RawWord, text: Bytes, due: bool, targeted: bool, kind: Kind) {
    if targeted || due then kind == Word
    else if IsOption(w, text) then kind == Kind.Option
    else if IsAssignment(w, text) then kind == Assignment
    else LooksUp(n, w, text, kind)
  }

  lemma WrappedRole(n: Names, wrapper: Wrapper, due: bool, targeted: bool, w: RawWord, text: Bytes)
    ensures WrappedKind(n, w, text, due, targeted, WordRole(n, Behind(Some(wrapper), due, targeted), w, text).0)
  {
    ResolveLooksUp(n, w, text);
    DashesAreOption(w, text);
    hide IsAssignment, IsOption, ResolveCommand, LooksUp, TakesValue, WrapperOf, IsReserved, StartsCommand;
  }

  /** A word with a wrapper before it, and only the wrapper's own words in between. */
  lemma WrappedWordKind(n: Names, s: Bytes, comments: bool, a: nat, v: nat, k: nat) returns (kind: Kind)
    requires k < |Lex(s, comments)| && Lex(s, comments)[k].WordToken? && OneCommand(s, Lex(s, comments), a, k)
    requires AllSpan(s, Lex(s, comments)) && Wrapped(n, s, Lex(s, comments), a, v, k)
    ensures Delivers(n, s, comments, k, kind)
    ensures var ls := Lex(s, comments);
            && v < k && Fits(s, ls[k])
            && WrappedKind(n, ls[k].word, TextOf(s, ls[k]), ValueDue(s, ls, a, v, k), Targeted(ls, a, k), kind)
  {
    hide *;
    var ls := Lex(s, comments);
    WordIsDelivered(n, s, comments, k);
    WrapsBefore(n, s, ls, a, v, k);
    WrappedBefore(n, s, ls, a, v, k);
    WrappedRole(n, WrapperOf(ls[v].word, TextOf(s, ls[v])).value, ValueDue(s, ls, a, v, k), Targeted(ls, a, k),
                ls[k].word, TextOf(s, ls[k]));
    kind := WordRole(n, Before(n, s, ls, k), ls[k].word, TextOf(s, ls[k])).0;
  }

  lemma WrapsBefore(n: Names, s: Bytes, ls: seq<Lexeme>, a: nat, v: nat, k: nat)
    requires AllSpan(s, ls) && Wrapped(n, s, ls, a, v, k)
    ensures v < k <= |ls| && ls[v].WordToken? && Fits(s, ls[v])
  {
    hide Serves, Fits, AllLead, IsAssignment, IsWrapper, Targeted;
  }

  // ----- Behind the command -----

  /** The command of the simple command that begins at `a` is named at `m`. */
  ghost predicate NamedAt(n: Names, s: Bytes, ls: seq<Lexeme>, a: nat, m: nat)
    requires AllSpan(s, ls)
  {
    && a <= m < |ls| && ls[m].WordToken? && Fits(s, ls[m]) && !Targeted(ls, a, m)
    && var w, text := ls[m].word, TextOf(s, ls[m]);
       && !IsAssignment(w, text)
       && ((AllLead(n, s, ls, a, m) && !IsWrapper(w, text) && !OpensCommand(n, w, text))
           || exists v: nat :: NamedBehind(n, s, ls, a, v, m))
  }

  ghost predicate NamedBehind(n: Names, s: Bytes, ls: seq<Lexeme>, a: nat, v: nat, m: nat)
    requires AllSpan(s, ls) && m < |ls| && ls[m].WordToken? && Fits(s, ls[m])
  {
    Wrapped(n, s, ls, a, v, m) && !ValueDue(s, ls, a, v, m) && !IsOption(ls[m].word, TextOf(s, ls[m]))
  }

  /** The machine looks no command up any more. */
  ghost predicate Spent(p: Position, targeted: bool) { !p.command && p.wrapper.None? && p.redirect == targeted }

  lemma NamingTurn(n: Names, w: RawWord, text: Bytes)
    requires !IsAssignment(w, text) && !IsWrapper(w, text) && !OpensCommand(n, w, text)
    ensures Spent(Classify(n, COMMAND_START, WordToken(w), text).1, false)
  {
    WrapperIs(w, text);
    hide IsAssignment, WrapperOf, IsWrapper, WordRoles, ResolveCommand, StartsCommand;
  }

  lemma NamingBehindTurn(n: Names, wrapper: Wrapper, w: RawWord, text: Bytes)
    requires !IsAssignment(w, text) && !IsOption(w, text)
    ensures Spent(Classify(n, Behind(Some(wrapper), false, false), WordToken(w), text).1, false)
  {
    DashesAreOption(w, text);
    hide IsAssignment, IsOption, WordRoles, ResolveCommand, TakesValue;
  }

  lemma SpentTurn(n: Names, p: Position, w: RawWord, text: Bytes)
    requires Spent(p, p.redirect)
    ensures Spent(Classify(n, p, WordToken(w), text).1, false)
  {
    hide IsAssignment, IsOption, WordRoles, ResolveCommand, TakesValue, WrapperOf;
  }

  lemma {:induction false} SpentBefore(n: Names, s: Bytes, ls: seq<Lexeme>, a: nat, m: nat, k: nat)
    requires AllSpan(s, ls) && OneCommand(s, ls, a, k) && NamedAt(n, s, ls, a, m) && m < k
    ensures Spent(Before(n, s, ls, k), Targeted(ls, a, k))
    decreases k
  {
    hide Classify, IsAssignment, IsOption, OpensCommand, IsWrapper, Separates, Targeted, Before, Fits, AllLead, Wrapped, Spent;
    var x := ls[k - 1];
    BeforeNext(n, s, ls, k - 1);
    TargetedNext(ls, a, k - 1);
    if k == m + 1 {
      NamesAt(n, s, ls, a, m);
    } else {
      SpentBefore(n, s, ls, a, m, k - 1);
      var p := Before(n, s, ls, k - 1);
      if x.Structural? {
        StructuralTurn(n, p, x, s);
        SpentRedirect(p);
      } else {
        SpentIs(p);
        SpentTurn(n, p, x.word, TextOf(s, x));
      }
    }
  }

  lemma SpentRedirect(p: Position)
    ensures Spent(p, p.redirect) ==> Spent(p.(redirect := true), true)
    ensures forall targeted :: Spent(p, targeted) ==> targeted == p.redirect
  {
  }

  lemma SpentIs(p: Position)
    ensures forall targeted :: Spent(p, targeted) ==> Spent(p, p.redirect)
  {
  }

  lemma NamesAt(n: Names, s: Bytes, ls: seq<Lexeme>, a: nat, m: nat)
    requires AllSpan(s, ls) && OneCommand(s, ls, a, m) && NamedAt(n, s, ls, a, m)
    ensures Fits(s, ls[m]) && Spent(Classify(n, Before(n, s, ls, m), ls[m], TextOf(s, ls[m])).1, false)
  {
    hide Classify, IsAssignment, IsOption, OpensCommand, IsWrapper, Separates, Targeted, Before, Fits, AllLead, Wrapped, Spent,
         ValueDue, OneCommand;
    var w, text := ls[m].word, TextOf(s, ls[m]);
    if AllLead(n, s, ls, a, m) && !IsWrapper(w, text) && !OpensCommand(n, w, text) {
      LeadsBefore(n, s, ls, a, m);
      NamingTurn(n, w, text);
    } else {
      var v: nat :| NamedBehind(n, s, ls, a, v, m);
      WrapsBefore(n, s, ls, a, v, m);
      WrappedBefore(n, s, ls, a, v, m);
      NamingBehindTurn(n, WrapperOf(ls[v].word, TextOf(s, ls[v])).value, w, text);
    }
  }

  /** Arguments: an unquoted word that starts with a dash and has more to it is an option. */
  ghost predicate ArgumentKind(w: RawWord, text: Bytes, targeted: bool, kind: Kind) {
    kind == if !targeted && w.plain && |text| > 1 && text[0] == 45 then Kind.Option else Word
  }

  lemma ArgumentRole(n: Names, p: Position, w: RawWord, text: Bytes)
    requires Spent(p, p.redirect)
    ensures ArgumentKind(w, text, p.redirect, WordRole(n, p, w, text).0)
  {
    hide IsAssignment, ResolveCommand, TakesValue, WrapperOf;
  }

  lemma ArgumentWordKind(n: Names, s: Bytes, comments: bool, a: nat, m: nat, k: nat) returns (kind: Kind)
    requires k < |Lex(s, comments)| && Lex(s, comments)[k].WordToken? && OneCommand(s, Lex(s, comments), a, k)
    requires AllSpan(s, Lex(s, comments)) && NamedAt(n, s, Lex(s, comments), a, m) && m < k
    ensures Delivers(n, s, comments, k, kind)
    ensures var ls := Lex(s, comments);
            Fits(s, ls[k]) && ArgumentKind(ls[k].word, TextOf(s, ls[k]), Targeted(ls, a, k), kind)
  {
    hide *;
    var ls := Lex(s, comments);
    WordIsDelivered(n, s, comments, k);
    SpentBefore(n, s, ls, a, m, k);
    var p := Before(n, s, ls, k);
    SpentRedirect(p);
    ArgumentRole(n, p, ls[k].word, TextOf(s, ls[k]));
    kind := WordRole(n, p, ls[k].word, TextOf(s, ls[k])).0;
  }

  ghost predicate SomewhereWrapped(n: Names, s: Bytes, ls: seq<Lexeme>, a: nat, k: nat)
    requires AllSpan(s, ls)
  {
    exists v: nat :: Wrapped(n, s, ls, a, v, k)
  }

  ghost predicate EarlierNamed(n: Names, s: Bytes, ls: seq<Lexeme>, a: nat, k: nat)
    requires AllSpan(s, ls)
  {
    exists m: nat :: m < k && NamedAt(n, s, ls, a, m)
  }

  /** These three are all the words there are. */
  lemma {:induction false} EveryWordStands(n: Names, s: Bytes, ls: seq<Lexeme>, a: nat, k: nat)
    requires AllSpan(s, ls) && OneCommand(s, ls, a, k)
    ensures AllLead(n, s, ls, a, k) || SomewhereWrapped(n, s, ls, a, k) || EarlierNamed(n, s, ls, a, k)
    decreases k
  {
    hide IsAssignment, IsOption, OpensCommand, IsWrapper, Separates, Targeted, ValueDue;
    if k > a {
      EveryWordStands(n, s, ls, a, k - 1);
      assert Fits(s, ls[k - 1]);
      if AllLead(n, s, ls, a, k - 1) {
        LeadOrWrapOrName(n, s, ls, a, k);
      } else if SomewhereWrapped(n, s, ls, a, k - 1) {
        WrapOrName(n, s, ls, a, k);
      }
    }
  }

  lemma LeadOrWrapOrName(n: Names, s: Bytes, ls: seq<Lexeme>, a: nat, k: nat)
    requires AllSpan(s, ls) && OneCommand(s, ls, a, k) && k > a && AllLead(n, s, ls, a, k - 1) && Fits(s, ls[k - 1])
    ensures AllLead(n, s, ls, a, k) || Wrapped(n, s, ls, a, k - 1, k) || NamedAt(n, s, ls, a, k - 1)
  {
    hide IsAssignment, IsOption, OpensCommand, IsWrapper, Separates, Targeted, ValueDue;
  }

  lemma WrapOrName(n: Names, s: Bytes, ls: seq<Lexeme>, a: nat, k: nat)
    requires AllSpan(s, ls) && OneCommand(s, ls, a, k) && k > a && SomewhereWrapped(n, s, ls, a, k - 1) && Fits(s, ls[k - 1])
    ensures SomewhereWrapped(n, s, ls, a, k) || NamedAt(n, s, ls, a, k - 1)
  {
    hide IsAssignment, IsOption, OpensCommand, IsWrapper, Separates, Targeted, ValueDue, Wraps;
    var v: nat :| Wrapped(n, s, ls, a, v, k - 1);
    if Serves(s, ls, a, v, k - 1) {
      assert Wrapped(n, s, ls, a, v, k);
    } else {
      WrapsBefore(n, s, ls, a, v, k - 1);
      WrapperStarts(n, s, ls, a, v);
      assert NamedBehind(n, s, ls, a, v, k - 1);
    }
  }

  lemma WrapperStarts(n: Names, s: Bytes, ls: seq<Lexeme>, a: nat, v: nat)
    requires AllSpan(s, ls) && Wraps(n, s, ls, a, v)
    ensures a <= v < |ls|
  {
    hide IsAssignment, IsWrapper, AllLead, Targeted;
  }

  // ----- Two dashes end nothing -----

  predicate IsLetter(b: byte) { 97 <= b <= 122 || b == 45 }

  /** A letter or a dash continues a word, or starts one. */
  lemma LetterTurn(s: Bytes, at: nat, comments: bool, word: Option<Builder>)
    requires at < |s| && IsLetter(s[at])
    ensures Lexer.Step(s, at, comments, word)
         == Lexer.Turn(at + 1, Some((if word.Some? then word.value else NewWord(at)).Raw([s[at]])), [])
  {
    DecorationSpans.NoOperator(OPERATORS, s[at..]);
    hide FirstOperator, IsRedirect, Lexer.ScanEscape, InSingle, InDouble, InDollar, Lexer.ScanSubstitution, Find, Builder.Raw;
  }

  lemma {:induction false} LettersTurn(s: Bytes, at: nat, to: nat, comments: bool, b: Builder)
    requires at <= to <= |s| && forall i :: at <= i < to ==> IsLetter(s[i])
    ensures LexFrom(s, at, comments, Some(b)) == LexFrom(s, to, comments, Some(b.Raw(s[at..to])))
    decreases |s| - at
  {
    hide LexFrom, Lexer.Step, IsLetter;
    if at == to {
      assert b.literal + s[at..to] == b.literal;
    } else {
      LetterTurn(s, at, comments, Some(b));
      LexerLocality.LexUnfolds(s, at, comments, Some(b));
      LettersTurn(s, at + 1, to, comments, b.Raw([s[at]]));
      assert b.literal + [s[at]] + s[at + 1..to] == b.literal + s[at..to];
      assert [] + LexFrom(s, to, comments, Some(b.Raw(s[at..to]))) == LexFrom(s, to, comments, Some(b.Raw(s[at..to])));
    }
  }

  /** A word of letters and dashes up to a blank or the end. */
  function Plain(s: Bytes, at: nat, to: nat): Lexeme
    requires at <= to <= |s|
  {
    WordToken(RawWord(at, to, Some(s[at..to]), true, []))
  }

  /** A word ends at a blank and at the end of the buffer. */
  lemma WordEnds(s: Bytes, to: nat, comments: bool, b: Builder)
    requires to <= |s| && (to < |s| ==> s[to] == SPACE)
    ensures LexFrom(s, to, comments, Some(b))
         == [WordToken(b.Finish(to))] + if to == |s| then [] else LexFrom(s, to + 1, comments, None)
  {
    hide LexFrom, Lexer.OperatorLen, Lexer.WordPart;
    LexerLocality.LexUnfolds(s, to, comments, Some(b));
  }

  lemma WordStarts(s: Bytes, at: nat, comments: bool)
    requires at < |s| && IsLetter(s[at])
    ensures LexFrom(s, at, comments, None) == LexFrom(s, at + 1, comments, Some(NewWord(at).Raw([s[at]])))
  {
    hide LexFrom, Lexer.Step, IsLetter;
    LetterTurn(s, at, comments, None);
    LexerLocality.LexUnfolds(s, at, comments, None);
    var rest := LexFrom(s, at + 1, comments, Some(NewWord(at).Raw([s[at]])));
    assert [] + rest == rest;
  }

  lemma PlainWord(s: Bytes, at: nat, to: nat, comments: bool)
    requires at < to <= |s| && (to < |s| ==> s[to] == SPACE) && forall i :: at <= i < to ==> IsLetter(s[i])
    ensures LexFrom(s, at, comments, None)
         == [Plain(s, at, to)] + if to == |s| then [] else LexFrom(s, to + 1, comments, None)
  {
    hide LexFrom, IsLetter;
    var b := NewWord(at).Raw([s[at]]);
    WordStarts(s, at, comments);
    LettersTurn(s, at + 1, to, comments, b);
    WordEnds(s, to, comments, b.Raw(s[at + 1..to]));
    assert b.Raw(s[at + 1..to]).literal == s[at..to];
  }

  /** The bytes of `sudo -- -x`. */
  function SudoDashes(): Bytes { Ascii("sudo -- -x") }

  lemma SudoBytes()
    ensures var s := SudoDashes();
            && |s| == 10 && s[4] == SPACE && s[7] == SPACE
            && (forall i :: 0 <= i < 4 || 5 <= i < 7 || 8 <= i < 10 ==> IsLetter(s[i]))
            && s[0..4] == Ascii("sudo") && s[5..7] == Ascii("--") && s[8..10] == Ascii("-x")
  {
  }

  lemma SudoDashesLex(comments: bool)
    ensures var s := SudoDashes();
            |s| == 10 && Lex(s, comments) == [Plain(s, 0, 4), Plain(s, 5, 7), Plain(s, 8, 10)]
  {
    hide LexFrom, IsLetter, SudoDashes, Plain;
    var s := SudoDashes();
    SudoBytes();
    PlainWord(s, 0, 4, comments);
    PlainWord(s, 5, 7, comments);
    PlainWord(s, 8, 10, comments);
  }

  lemma NoEqualSign(w: RawWord, text: Bytes)
    requires 61 !in text
    ensures !IsAssignment(w, text)
  {
  }

  lemma SudoTexts(s: Bytes, ls: seq<Lexeme>)
    requires s == SudoDashes() && |s| == 10 && ls == [Plain(s, 0, 4), Plain(s, 5, 7), Plain(s, 8, 10)]
    ensures AllSpan(s, ls) && Fits(s, ls[0]) && Fits(s, ls[1]) && Fits(s, ls[2])
    ensures TextOf(s, ls[0]) == Ascii("sudo") && TextOf(s, ls[1]) == Ascii("--") && TextOf(s, ls[2]) == Ascii("-x")
    ensures !IsAssignment(ls[0].word, TextOf(s, ls[0])) && IsWrapper(ls[0].word, TextOf(s, ls[0]))
    ensures IsOption(ls[1].word, TextOf(s, ls[1])) && IsOption(ls[2].word, TextOf(s, ls[2]))
    ensures !Takes(TextOf(s, ls[0]), TextOf(s, ls[1]))
  {
    SudoBytes();
    NoEqualSign(ls[0].word, Ascii("sudo"));
    DashesTakeNothing();
    hide IsAssignment, Takes, SudoDashes;
  }

  lemma DashesTakeNothing()
    ensures !Takes(Ascii("sudo"), Ascii("--"))
  {
    var dashes := Ascii("--");
    assert |Ascii("sudo")| == 4 && Ascii("sudo")[0] != Ascii("exec")[0];
    assert dashes[1] == 45;
  }

  /** Nothing in a buffer of words alone is a redirection target. */
  lemma NoTargets(ls: seq<Lexeme>, k: nat)
    requires k <= |ls| && forall i :: 0 <= i < |ls| ==> ls[i].WordToken?
    ensures !Targeted(ls, 0, k)
  {
  }

  lemma SudoWraps(n: Names, s: Bytes, ls: seq<Lexeme>)
    requires AllSpan(s, ls) && |ls| == 3 && forall i :: 0 <= i < 3 ==> ls[i].WordToken? && Fits(s, ls[i])
    requires !IsAssignment(ls[0].word, TextOf(s, ls[0])) && IsWrapper(ls[0].word, TextOf(s, ls[0]))
    requires IsOption(ls[1].word, TextOf(s, ls[1])) && !Takes(TextOf(s, ls[0]), TextOf(s, ls[1]))
    ensures OneCommand(s, ls, 0, 2) && Wrapped(n, s, ls, 0, 0, 2)
    ensures !ValueDue(s, ls, 0, 0, 2) && !Targeted(ls, 0, 2)
  {
    hide IsAssignment, IsWrapper, IsOption, Takes, Fits, IsSeparator;
    NoTargets(ls, 0);
    NoTargets(ls, 1);
    NoTargets(ls, 2);
  }

  /**
   After `sudo --` the next word that starts with a dash is still delivered as an option, not looked up: the branch that
   would end the wrapper's options is never taken, because `--` is an option word like any other.
   */
  lemma DashesEndNothing(n: Names, comments: bool)
    ensures Delivers(n, SudoDashes(), comments, 2, Kind.Option)
  {
    hide *;
    var s := SudoDashes();
    SudoDashesLex(comments);
    var ls := Lex(s, comments);
    SudoTexts(s, ls);
    AreWords(s, ls);
    SudoWraps(n, s, ls);
    var kind := WrappedWordKind(n, s, comments, 0, 0, 2);
    OptionBehind(n, ls[2].word, TextOf(s, ls[2]), kind);
  }

  lemma AreWords(s: Bytes, ls: seq<Lexeme>)
    requires |s| == 10 && ls == [Plain(s, 0, 4), Plain(s, 5, 7), Plain(s, 8, 10)]
    ensures forall i :: 0 <= i < 3 ==> ls[i].WordToken? && Fits(s, ls[i])
  {
  }

  lemma OptionBehind(n: Names, w: RawWord, text: Bytes, kind: Kind)
    requires IsOption(w, text) && WrappedKind(n, w, text, false, false, kind)
    ensures kind == Kind.Option
  {
    hide IsOption;
  }
}
