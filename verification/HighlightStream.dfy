/** The body of a highlight event: the delivered tokens of a buffer, as text (src/wire.rs `serialize_highlights`). */
module HighlightStream {
  import opened Bytes
  import opened Decimals
  import Lossy
  import Spans
  import opened Lexer
  import Analysis
  import Tokenizer
  import TokenFacts
  import Wire
  import WireFacts

  predicate Printable(s: string) { s != "" && forall i :: 0 <= i < |s| ==> ' ' < s[i] < '~' }

  /** The role a decoration is delivered under. */
  function DecorationName(kind: Kind): (r: Option<string>)
    ensures r.Some? ==> Printable(r.value)
  {
    match kind
    case SingleQuote => Some("single-quote")
    case DoubleQuote => Some("double-quote")
    case DollarQuote => Some("dollar-quote")
    case Escape => Some("escape")
    case Substitution => Some("substitution")
    case _ => None
  }

  /** The role a token or a whole word is delivered under. */
  function TokenName(kind: Kind): (r: Option<string>)
    ensures r.Some? ==> Printable(r.value)
  {
    match kind
    case Path => Some("path")
    case Assignment => Some("assignment")
    case Option => Some("option")
    case Redirect => Some("redirect")
    case Operator => Some("operator")
    case Comment => Some("comment")
    case _ => None
  }

  /** The role a word in command position is delivered under. */
  function CommandName(kind: Kind): (r: Option<string>)
    ensures r.Some? ==> Printable(r.value)
  {
    match kind
    case Command => Some("command")
    case Reserved => Some("reserved")
    case Alias => Some("alias")
    case Function => Some("function")
    case Builtin => Some("builtin")
    case Precommand => Some("precommand")
    case Unknown => Some("unknown")
    case _ => None
  }

  /** The role a kind is delivered under; a plain word is not delivered. */
  function RoleName(kind: Kind): (r: Option<string>)
    ensures r.Some? ==> Printable(r.value)
  {
    if CommandName(kind).Some? then CommandName(kind)
    else if TokenName(kind).Some? then TokenName(kind)
    else DecorationName(kind)
  }

  function RoleOf(kind: Kind): Option<Bytes> {
    match RoleName(kind)
    case Some(name) => Some(Ascii(name))
    case None => None
  }

  datatype Entry = Entry(role: Bytes, span: Spans.CharSpan) {
    function Parts(): seq<Bytes> { [role, Digits(span.start), Digits(span.Len())] }
  }

  /** What is delivered, in the order of the analysis, which decides how overlaps show. */
  function Entries(tokens: seq<Tokenizer.Token>): seq<Entry> {
    if tokens == [] then []
    else
      var last := tokens[|tokens| - 1];
      Entries(tokens[..|tokens| - 1])
      + match RoleOf(last.kind)
        case Some(role) => [Entry(role, last.span)]
        case None => []
  }

  function Fields(entries: seq<Entry>): (fields: seq<Bytes>)
    ensures |fields| == |entries|
  {
    seq(|entries|, i requires 0 <= i < |entries| => Wire.Tuple(entries[i].Parts()))
  }

  /** The body: how many entries, then each as `role start len`. */
  function Body(tokens: seq<Tokenizer.Token>): Bytes {
    Terminated([Digits(|Entries(tokens)|)] + Fields(Entries(tokens)), NUL)
  }

  lemma TerminatedSnoc(fields: seq<Bytes>, last: Bytes)
    ensures Terminated(fields + [last], NUL) == Terminated(fields, NUL) + last + [NUL]
  {
    TerminatedConcat(fields, [last], NUL);
    assert Terminated([last][1..], NUL) == [];
    assert Terminated([last], NUL) == last + [NUL];
    hide Terminated;
    assert Terminated(fields, NUL) + (last + [NUL]) == Terminated(fields, NUL) + last + [NUL];
  }

  lemma FieldsUpTo(entries: seq<Entry>, i: nat)
    requires i < |entries|
    ensures Fields(entries[..i + 1]) == Fields(entries[..i]) + [Wire.Tuple(entries[i].Parts())]
  {
    hide Wire.Tuple;
  }

  method SerializeHighlights(tokens: seq<Tokenizer.Token>) returns (out: Bytes)
    ensures out == Body(tokens)
  {
    hide RoleOf, Wire.Tuple, Digits, Terminated, Fields;
    var entries: seq<Entry> := [];
    for i := 0 to |tokens|
      invariant entries == Entries(tokens[..i])
    {
      assert tokens[..i + 1][..i] == tokens[..i];
      var role := RoleOf(tokens[i].kind);
      if role.Some? {
        entries := entries + [Entry(role.value, tokens[i].span)];
      }
    }
    assert tokens[..|tokens|] == tokens;
    ghost var head := [Digits(|entries|)];
    out := Digits(|entries|) + [NUL];
    FirstField(entries);
    for i := 0 to |entries|
      invariant out == Terminated(head + Fields(entries[..i]), NUL)
    {
      var e := entries[i];
      out := out + Wire.Tuple(e.Parts()) + [NUL];
      FieldsUpTo(entries, i);
      TerminatedSnoc(head + Fields(entries[..i]), Wire.Tuple(e.Parts()));
      assert head + (Fields(entries[..i]) + [Wire.Tuple(e.Parts())]) == head + Fields(entries[..i]) + [Wire.Tuple(e.Parts())];
    }
    assert entries[..|entries|] == entries;
  }

  lemma FirstField(entries: seq<Entry>)
    ensures Terminated([Digits(|entries|)] + Fields(entries[..0]), NUL) == Digits(|entries|) + [NUL]
  {
    hide Digits;
    TerminatedSnoc([], Digits(|entries|));
    assert [Digits(|entries|)] + Fields(entries[..0]) == [] + [Digits(|entries|)];
    assert [] + Digits(|entries|) + [NUL] == Digits(|entries|) + [NUL];
  }

  // ----- A reader gets the entries back -----

  lemma RoleIsWord(kind: Kind)
    requires RoleOf(kind).Some?
    ensures Wire.IsWord(RoleOf(kind).value) && Free(RoleOf(kind).value, NUL)
  {
    hide RoleName;
    var name := RoleName(kind).value;
    var role := Ascii(name);
    forall i | 0 <= i < |role|
      ensures role[i] > 32
    {
      assert name[i] > ' ';
    }
  }

  lemma {:induction false} EntriesAreTokens(tokens: seq<Tokenizer.Token>, i: nat)
    requires i < |Entries(tokens)|
    ensures exists k :: 0 <= k < |tokens| && RoleOf(tokens[k].kind) == Some(Entries(tokens)[i].role)
              && tokens[k].span == Entries(tokens)[i].span
  {
    hide RoleOf;
    var front := tokens[..|tokens| - 1];
    if i < |Entries(front)| {
      EntriesAreTokens(front, i);
      var k :| 0 <= k < |front| && RoleOf(front[k].kind) == Some(Entries(front)[i].role)
               && front[k].span == Entries(front)[i].span;
      assert tokens[k] == front[k];
    } else {
      assert tokens[|tokens| - 1].span == Entries(tokens)[i].span;
    }
  }

  lemma EntryReads(tokens: seq<Tokenizer.Token>, i: nat)
    requires i < |Entries(tokens)|
    ensures var parts := Entries(tokens)[i].Parts();
            Wire.Words(Wire.Tuple(parts)) == parts && Free(Wire.Tuple(parts), NUL)
  {
    hide RoleOf, Entries, Digits, Wire.Tuple, Wire.Words;
    EntriesAreTokens(tokens, i);
    var e := Entries(tokens)[i];
    var k :| 0 <= k < |tokens| && RoleOf(tokens[k].kind) == Some(e.role) && tokens[k].span == e.span;
    RoleIsWord(tokens[k].kind);
    WireFacts.DigitsWord(e.span.start);
    WireFacts.DigitsWord(e.span.Len());
    WireFacts.WordsOfTuple(e.Parts());
    assert AllFree(e.Parts(), NUL);
    WireFacts.TupleFree(e.Parts());
  }

  /** The body splits into the count and one field for each entry, and each field into its role, start and length. */
  lemma BodyReadsBack(tokens: seq<Tokenizer.Token>)
    ensures var body, entries := Body(tokens), Entries(tokens);
            && body != [] && body[|body| - 1] == NUL
            && Split(body[..|body| - 1], NUL) == [Digits(|entries|)] + Fields(entries)
            && forall i :: 0 <= i < |entries| ==> Wire.Words(Fields(entries)[i]) == entries[i].Parts()
  {
    hide Entries, Digits, Wire.Tuple, Wire.Words, Join, Terminated, Split, Entry.Parts;
    var entries := Entries(tokens);
    var fields := [Digits(|entries|)] + Fields(entries);
    WireFacts.DigitsWord(|entries|);
    forall i | 0 <= i < |entries|
      ensures Wire.Words(Fields(entries)[i]) == entries[i].Parts() && Free(Fields(entries)[i], NUL)
    {
      EntryReads(tokens, i);
    }
    assert AllFree(fields, NUL);
    TerminatedIsJoin(fields, NUL);
    SplitJoin(fields, NUL);
    var body := Body(tokens);
    assert body[..|body| - 1] == Join(fields, NUL);
  }

  /** Every entry of an analysed buffer lies inside the buffer. */
  lemma EntriesWithinBuffer(n: Analysis.Names, buffer: Bytes, comments: bool, i: nat)
    requires i < |Entries(TokenFacts.Tokens(n, buffer, comments))|
    ensures Entries(TokenFacts.Tokens(n, buffer, comments))[i].span.end <= Lossy.Count(buffer)
  {
    hide Entries, RoleOf, TokenFacts.Tokens, Lossy.Chars;
    var tokens := TokenFacts.Tokens(n, buffer, comments);
    EntriesAreTokens(tokens, i);
    var k :| 0 <= k < |tokens| && tokens[k].span == Entries(tokens)[i].span;
    TokenFacts.TokensWithinText(n, buffer, comments, k);
  }

  lemma NoTokens(n: Analysis.Names, comments: bool)
    ensures TokenFacts.Tokens(n, [], comments) == [] && Body([]) == Digits(0) + [NUL]
  {
    FirstField([]);
    assert Entries([]) == [] && Fields([]) == [];
    hide Digits, Terminated;
    assert [Digits(0)] + [] == [Digits(0)];
  }
}
