/** Requests and notifications read back: every accepted field list is the written form of what it is read as. */
module SessionRequests {
  import opened Bytes
  import opened Decimals
  import opened Matching
  import opened Pipeline
  import opened Sessions
  import Framing

  // ----- Written forms -----

  function BoolField(b: bool): Bytes { if b then Ascii("true") else Ascii("false") }

  function ModeField(m: Mode): Bytes {
    match m
    case Prefix => Ascii("prefix")
    case Substring => Ascii("substring")
    case Typo => Ascii("typo")
  }

  function SlotField(slot: Slot): Bytes { if slot.Live? then Ascii("live") else Ascii("cache") }

  /** A request as a client writes it, under a request id. */
  function Fields(id: Bytes, r: Request): seq<Bytes> {
    match r
    case SnapshotNamespace(payload) => [Ascii("namespace-snapshot"), id, payload]
    case StoreCandidates(slot, generation, inputGeneration, payload) =>
      [Ascii("store"), id, SlotField(slot), Digits(generation), Digits(inputGeneration), payload]
    case WriteHistory(append, generation, payload) =>
      [if append then Ascii("history-append") else Ascii("history-snapshot"), id, Digits(generation), payload]
    case PlanHistory(generation, limit, p) =>
      [Ascii("plan"), id, Digits(generation), p.query, ModeField(p.mode), BoolField(p.smartCase), Digits(p.rows),
       Digits(p.width), Digits(limit), Digits(p.offset)]
    case Complete(inputGeneration, offset, selected, rows, width) =>
      [Ascii("completion"), id, Digits(inputGeneration), Digits(offset), Digits(selected), Digits(rows), Digits(width)]
    case Invalid => []
  }

  predicate IsIdentifier(n: nat) { 1 <= n <= I64_MAX }

  /** What a request that is not invalid may hold. */
  predicate Proper(r: Request) {
    match r
    case SnapshotNamespace(_) => true
    case StoreCandidates(_, generation, inputGeneration, _) => IsIdentifier(generation) && IsIdentifier(inputGeneration)
    case WriteHistory(_, generation, _) => IsIdentifier(generation)
    case PlanHistory(generation, limit, p) =>
      && IsIdentifier(generation) && IsIdentifier(limit) && p.offset <= USIZE_MAX
      && p.producer.History? && !p.trailingSpace
    case Complete(inputGeneration, offset, _, _, _) => IsIdentifier(inputGeneration) && offset <= I64_MAX
    case Invalid => false
  }

  // ----- Scalars -----

  lemma ReferenceIsPrinted(value: Bytes, n: nat)
    ensures ParseReference(value) == Some(n) <==> n <= I64_MAX && value == Digits(n)
  {
    CanonicalParsesPrinted(value, n);
  }

  lemma PositiveIsPrinted(value: Bytes, n: nat)
    ensures n >= 1 && n <= USIZE_MAX ==> (ParsePositive(value) == Some(n) <==> value == Digits(n))
    ensures ParsePositive(value).Some? ==> value == Digits(ParsePositive(value).value)
  {
    CanonicalParsesPrinted(value, n);
    if CanonicalSpec(value).Some? {
      CanonicalParsesPrinted(value, CanonicalSpec(value).value);
    }
  }

  lemma Kinds()
    ensures Ascii("namespace-snapshot")[0] == 110 && Ascii("store")[0] == 115 && Ascii("plan")[0] == 112
    ensures Ascii("completion")[0] == 99 && Ascii("history-append")[8] == 97 && Ascii("history-snapshot")[8] == 115
    ensures |Ascii("history-append")| == 14 && |Ascii("history-snapshot")| == 16
    ensures Ascii("history-append")[0] == 104 && Ascii("history-snapshot")[0] == 104
  {
  }

  lemma Words(b: bool, m: Mode, slot: Slot)
    ensures ParseBool(BoolField(b)) == Some(b) && ParseMode(ModeField(m)) == Some(m) && ParseSlot(SlotField(slot)) == Some(slot)
  {
    assert Ascii("true")[0] == 116 && Ascii("false")[0] == 102;
    assert Ascii("prefix")[0] == 112 && Ascii("substring")[0] == 115 && Ascii("typo")[0] == 116;
    assert Ascii("live")[0] == 108 && Ascii("cache")[0] == 99;
  }

  lemma WordsBack(value: Bytes)
    ensures ParseBool(value).Some? ==> value == BoolField(ParseBool(value).value)
    ensures ParseMode(value).Some? ==> value == ModeField(ParseMode(value).value)
    ensures ParseSlot(value).Some? ==> value == SlotField(ParseSlot(value).value)
  {
  }

  lemma LayoutReads(producer: Producer, query: Bytes, mode: Bytes, smartCase: Bytes, rows: Bytes, width: Bytes,
                    trailing: bool, offset: nat)
    ensures match ParseLayout(producer, query, mode, smartCase, rows, width, trailing, offset)
            case None => true
            case Some(p) =>
              && p.producer == producer && p.query == query && p.trailingSpace == trailing && p.offset == offset
              && mode == ModeField(p.mode) && smartCase == BoolField(p.smartCase)
              && rows == Digits(p.rows) && width == Digits(p.width)
  {
    hide ParseMode, ParseBool, ParsePositive;
    WordsBack(mode);
    WordsBack(smartCase);
    PositiveIsPrinted(rows, 1);
    PositiveIsPrinted(width, 1);
  }

  lemma LayoutParses(p: Screen)
    ensures ParseLayout(p.producer, p.query, ModeField(p.mode), BoolField(p.smartCase), Digits(p.rows), Digits(p.width),
                        p.trailingSpace, p.offset) == Some(p)
  {
    hide ParseMode, ParseBool, ParsePositive, ModeField, BoolField;
    Words(p.smartCase, p.mode, Live);
    PositiveIsPrinted(Digits(p.rows), p.rows);
    PositiveIsPrinted(Digits(p.width), p.width);
  }

  // ----- Requests -----

  /** Every proper request is read back from its written form. */
  lemma WrittenIsRead(id: Bytes, r: Request)
    requires Proper(r)
    ensures ParseRequest(Fields(id, r)) == r
  {
    hide Ascii, ParseMode, ParseBool, ParsePositive, ParseReference, ParseLayout, ParseIdentifier, CanonicalSpec, Digits,
         ModeField, BoolField, SlotField, ParseSlot;
    Kinds();
    match r
    case SnapshotNamespace(payload) =>
    case StoreCandidates(slot, generation, inputGeneration, payload) =>
      Words(true, Prefix, slot);
      IdentifierIsPrinted(Digits(generation), generation);
      IdentifierIsPrinted(Digits(inputGeneration), inputGeneration);
    case WriteHistory(append, generation, payload) =>
      IdentifierIsPrinted(Digits(generation), generation);
    case PlanHistory(generation, limit, p) =>
      IdentifierIsPrinted(Digits(generation), generation);
      IdentifierIsPrinted(Digits(limit), limit);
      CanonicalParsesPrinted(Digits(p.offset), p.offset);
      LayoutParses(p);
    case Complete(inputGeneration, offset, selected, rows, width) =>
      IdentifierIsPrinted(Digits(inputGeneration), inputGeneration);
      ReferenceIsPrinted(Digits(offset), offset);
      PositiveIsPrinted(Digits(selected), selected);
      PositiveIsPrinted(Digits(rows), rows);
      PositiveIsPrinted(Digits(width), width);
  }

  lemma StoreReads(f: seq<Bytes>)
    requires ParseStore(f) != Invalid && f[0] == Ascii("store")
    ensures Proper(ParseStore(f)) && f == Fields(f[1], ParseStore(f))
  {
    hide Ascii, ParseSlot, SlotField, ParseIdentifier, Digits;
    WordsBack(f[2]);
    IdentifierIsPrinted(f[3], ParseIdentifier(f[3]).value);
    IdentifierIsPrinted(f[4], ParseIdentifier(f[4]).value);
  }

  lemma HistoryReads(f: seq<Bytes>, append: bool)
    requires ParseHistory(f, append) != Invalid
    requires f[0] == if append then Ascii("history-append") else Ascii("history-snapshot")
    ensures Proper(ParseHistory(f, append)) && f == Fields(f[1], ParseHistory(f, append))
  {
    hide Ascii, ParseIdentifier, Digits;
    IdentifierIsPrinted(f[2], ParseIdentifier(f[2]).value);
  }

  lemma PlanReads(f: seq<Bytes>)
    requires ParsePlan(f) != Invalid && f[0] == Ascii("plan")
    ensures Proper(ParsePlan(f)) && f == Fields(f[1], ParsePlan(f))
  {
    hide Ascii, ParseIdentifier, Digits, CanonicalSpec, ParseLayout, ModeField, BoolField;
    IdentifierIsPrinted(f[2], ParseIdentifier(f[2]).value);
    IdentifierIsPrinted(f[8], ParseIdentifier(f[8]).value);
    CanonicalParsesPrinted(f[9], CanonicalSpec(f[9]).value);
    LayoutReads(History, f[3], f[4], f[5], f[6], f[7], false, CanonicalSpec(f[9]).value);
  }

  lemma CompletionReads(f: seq<Bytes>)
    requires ParseCompletion(f) != Invalid && f[0] == Ascii("completion")
    ensures Proper(ParseCompletion(f)) && f == Fields(f[1], ParseCompletion(f))
  {
    hide Ascii, ParseIdentifier, ParseReference, ParsePositive, Digits;
    IdentifierIsPrinted(f[2], ParseIdentifier(f[2]).value);
    ReferenceIsPrinted(f[3], ParseReference(f[3]).value);
    PositiveIsPrinted(f[4], 1);
    PositiveIsPrinted(f[5], 1);
    PositiveIsPrinted(f[6], 1);
  }

  /** A field list is read as a request exactly when it is that request's written form. */
  lemma RequestIffWritten(f: seq<Bytes>, r: Request)
    requires r != Invalid
    ensures ParseRequest(f) == r <==> |f| >= 2 && Proper(r) && f == Fields(f[1], r)
  {
    if |f| >= 2 && Proper(r) && f == Fields(f[1], r) {
      WrittenIsRead(f[1], r);
    }
    if ParseRequest(f) == r {
      ReadIsWritten(f);
    }
  }

  lemma ReadIsWritten(f: seq<Bytes>)
    requires ParseRequest(f) != Invalid
    ensures |f| >= 2 && Proper(ParseRequest(f)) && f == Fields(f[1], ParseRequest(f))
  {
    hide Ascii, ParseStore, ParseHistory, ParsePlan, ParseCompletion, Digits;
    if f[0] == Ascii("namespace-snapshot") {
    } else if f[0] == Ascii("store") {
      StoreReads(f);
      SizeOf(f);
    } else if f[0] == Ascii("history-snapshot") {
      HistoryReads(f, false);
      SizeOf(f);
    } else if f[0] == Ascii("history-append") {
      HistoryReads(f, true);
      SizeOf(f);
    } else if f[0] == Ascii("plan") {
      PlanReads(f);
      SizeOf(f);
    } else {
      CompletionReads(f);
      SizeOf(f);
    }
  }

  lemma SizeOf(f: seq<Bytes>)
    ensures ParseStore(f) != Invalid ==> |f| == 6
    ensures ParseHistory(f, true) != Invalid || ParseHistory(f, false) != Invalid ==> |f| == 4
    ensures ParsePlan(f) != Invalid ==> |f| == 10
    ensures ParseCompletion(f) != Invalid ==> |f| == 7
  {
  }

  // ----- Input notifications -----

  /** An `input` notification with its delay, as zsh writes it. */
  function InputFields(i: Input, delay: nat): seq<Bytes> {
    [Ascii("input"), Digits(i.generation), Digits(i.candidateGeneration), Digits(delay), i.cwd, i.params.query,
     ModeField(i.params.mode), BoolField(i.params.smartCase), Digits(i.params.rows), Digits(i.params.width),
     BoolField(i.params.trailingSpace), i.buffer, BoolField(i.interactiveComments)]
  }

  /** A notification just accepted: pending for its delay, or settled at once by a delay of zero. */
  predicate JustRead(i: Input, delay: nat, now: nat) {
    && IsIdentifier(i.generation) && i.candidateGeneration <= I64_MAX && delay <= DELAY_MS_MAX
    && i.params.offset == 0 && i.resolved.None?
    && i.expiry == (if delay == 0 then None else Some(now + delay))
  }

  lemma DelayIsPrinted(value: Bytes, n: nat)
    ensures ParseDelay(value) == Some(n) <==> n <= DELAY_MS_MAX && value == Digits(n)
  {
    CanonicalParsesPrinted(value, n);
  }

  /** A notification is accepted as an input exactly when it is that input's written form. */
  lemma InputIffWritten(f: seq<Bytes>, now: nat, i: Input)
    requires f != [] && f[0] == Ascii("input")
    ensures ParseInput(f, now) == Some(i) <==> exists delay :: JustRead(i, delay, now) && f == InputFields(i, delay)
  {
    if ParseInput(f, now) == Some(i) {
      var delay := InputReads(f, now);
    }
    forall delay | JustRead(i, delay, now) && f == InputFields(i, delay)
      ensures ParseInput(f, now) == Some(i)
    {
      InputParses(i, delay, now);
    }
  }

  lemma InputReads(f: seq<Bytes>, now: nat) returns (delay: nat)
    requires f != [] && f[0] == Ascii("input") && ParseInput(f, now).Some?
    ensures var i := ParseInput(f, now).value; JustRead(i, delay, now) && f == InputFields(i, delay)
  {
    hide Ascii, ParseIdentifier, ParseReference, ParseDelay, ParseBool, ParseLayout, Digits, ModeField, BoolField;
    delay := ParseDelay(f[3]).value;
    IdentifierIsPrinted(f[1], ParseIdentifier(f[1]).value);
    ReferenceIsPrinted(f[2], ParseReference(f[2]).value);
    DelayIsPrinted(f[3], delay);
    WordsBack(f[10]);
    WordsBack(f[12]);
    LayoutReads(Compsys, f[5], f[6], f[7], f[8], f[9], ParseBool(f[10]).value, 0);
  }

  lemma InputParses(i: Input, delay: nat, now: nat)
    requires JustRead(i, delay, now)
    ensures ParseInput(InputFields(i, delay), now) == Some(i)
  {
    hide Ascii, ParseIdentifier, ParseReference, ParseDelay, ParseBool, ParseLayout, Digits, ModeField, BoolField;
    IdentifierIsPrinted(Digits(i.generation), i.generation);
    ReferenceIsPrinted(Digits(i.candidateGeneration), i.candidateGeneration);
    DelayIsPrinted(Digits(delay), delay);
    Words(i.params.trailingSpace, i.params.mode, Live);
    Words(i.interactiveComments, i.params.mode, Live);
    LayoutParses(i.params);
  }

  // ----- Namespace snapshots -----

  function SetOf(names: seq<Bytes>): set<Bytes> { set name | name in names }

  /** The payload a client writes for its lists of names and its path. */
  function NamespacePayload(aliases: seq<Bytes>, functions: seq<Bytes>, builtins: seq<Bytes>, reserved: seq<Bytes>, path: Bytes)
    : seq<Bytes>
  {
    [Framing.EncodeAll(aliases), Framing.EncodeAll(functions), Framing.EncodeAll(builtins), Framing.EncodeAll(reserved), path]
  }

  /** A snapshot is read back as the sets of its four lists, in their places, and its path. */
  lemma NamespaceReads(aliases: seq<Bytes>, functions: seq<Bytes>, builtins: seq<Bytes>, reserved: seq<Bytes>, path: Bytes)
    requires Framing.Sized(aliases) && Framing.Sized(functions) && Framing.Sized(builtins) && Framing.Sized(reserved)
    requires Framing.Sized(NamespacePayload(aliases, functions, builtins, reserved, path))
    ensures ParseNamespace(Framing.EncodeAll(NamespacePayload(aliases, functions, builtins, reserved, path)))
            == Some(Namespace(SetOf(aliases), SetOf(functions), SetOf(builtins), SetOf(reserved), path))
  {
    hide Framing.DecodeSpec, Framing.EncodeAll, Framing.Sized;
    var fields := NamespacePayload(aliases, functions, builtins, reserved, path);
    Framing.DecodeIffEncoded(Framing.EncodeAll(fields), fields);
    Framing.DecodeIffEncoded(fields[0], aliases);
    Framing.DecodeIffEncoded(fields[1], functions);
    Framing.DecodeIffEncoded(fields[2], builtins);
    Framing.DecodeIffEncoded(fields[3], reserved);
  }

  // ----- The greeting -----

  /** Lower-case hexadecimal digits, and at least one of them. */
  ghost predicate IsHex(value: Bytes) {
    |value| > 0 && forall i :: 0 <= i < |value| ==> 48 <= value[i] <= 57 || 97 <= value[i] <= 102
  }

  /**
   A session opens exactly for a greeting with the worker's own stamp; another stamp is answered with the worker's and ends
   the session, and anything else ends it without an answer.
   */
  lemma GreetingIff(o: Outside, w: World, fields: seq<Bytes>)
    ensures var turn := ProcessHello(o, w, fields);
            && (turn.stop.None? <==> fields == [Ascii("hello"), o.stamp] && IsHex(o.stamp))
            && (turn.stop.None? ==> turn.world == World(true, w.session) && turn.log == [Ready(o.stamp)])
            && (turn.stop.Some? ==> turn.world == w)
            && (turn.stop.Some? && turn.log != [] <==>
                  |fields| == 2 && fields[0] == Ascii("hello") && IsHex(fields[1]) && fields[1] != o.stamp)
            && (turn.stop.Some? ==>
                  if turn.log != [] then turn.log == [Incompatible(o.stamp)] && turn.stop == Some(Ok(End.Rejected))
                  else turn.stop == Some(Err(Protocol)))
  {
    hide Ascii;
    if |fields| == 2 {
      assert IsBuildStamp(fields[1]) <==> IsHex(fields[1]);
      assert fields == [fields[0], fields[1]];
    }
  }
}
