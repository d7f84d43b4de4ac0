/** A run as a chain of acts, and what it does with every accepted store (`run` and `store_candidates` of src/worker.rs). */
module SessionStores {
  import opened Bytes
  import opened Decimals
  import opened Records
  import opened Sessions
  import opened SessionEvents
  import opened SessionReplies
  import Framing

  /** What moves a session: a look at the quiet period, or a message. */
  datatype Act = Expiry(world: World, now: nat) | Message(world: World, message: Bytes, now: nat)

  function LogOf(o: Outside, act: Act): seq<Event> {
    if act.Expiry? then SettleExpired(o, act.world.session, act.now).log
    else ProcessMessage(o, act.world, act.message, act.now).log
  }

  function WorldAfter(o: Outside, act: Act): World {
    if act.Expiry? then act.world.(session := SettleExpired(o, act.world.session, act.now).session)
    else ProcessMessage(o, act.world, act.message, act.now).world
  }

  /** Each act starts where the one before it ended. */
  ghost predicate Chained(o: Outside, w: World, acts: seq<Act>)
    decreases |acts|
  {
    acts != [] ==> acts[0].world == w && Chained(o, WorldAfter(o, acts[0]), acts[1..])
  }

  function LogOfAll(o: Outside, acts: seq<Act>): seq<Event> {
    if acts == [] then [] else LogOf(o, acts[0]) + LogOfAll(o, acts[1..])
  }

  function MessagesOf(acts: seq<Act>): seq<Bytes> {
    if acts == [] then [] else (if acts[0].Message? then [acts[0].message] else []) + MessagesOf(acts[1..])
  }

  function LastWorld(o: Outside, w: World, acts: seq<Act>): World
    decreases |acts|
  {
    if acts == [] then w else LastWorld(o, WorldAfter(o, acts[0]), acts[1..])
  }

  /** The acts from `w` to `last`, what they write and which messages they handle. */
  ghost predicate Links(o: Outside, w: World, acts: seq<Act>, last: World, log: seq<Event>, messages: seq<Bytes>) {
    Chained(o, w, acts) && LastWorld(o, w, acts) == last && LogOfAll(o, acts) == log && MessagesOf(acts) == messages
  }

  lemma NoActs(o: Outside, w: World)
    ensures Links(o, w, [], w, [], [])
  {
  }

  lemma LinkFirst(o: Outside, act: Act, acts: seq<Act>, last: World, log: seq<Event>, messages: seq<Bytes>)
    requires Links(o, WorldAfter(o, act), acts, last, log, messages)
    ensures Links(o, act.world, [act] + acts, last, LogOf(o, act) + log,
                  (if act.Message? then [act.message] else []) + messages)
  {
    hide LogOf, WorldAfter;
    assert ([act] + acts)[1..] == acts;
  }

  lemma {:induction false} LinkBoth(
    o: Outside, w: World, a: seq<Act>, mid: World, logA: seq<Event>, messagesA: seq<Bytes>,
    b: seq<Act>, last: World, logB: seq<Event>, messagesB: seq<Bytes>)
    requires Links(o, w, a, mid, logA, messagesA) && Links(o, mid, b, last, logB, messagesB)
    ensures Links(o, w, a + b, last, logA + logB, messagesA + messagesB)
    decreases |a|
  {
    hide LogOf, WorldAfter;
    if a == [] {
      assert a + b == b && logA + logB == logB && messagesA + messagesB == messagesB;
    } else {
      var next := WorldAfter(o, a[0]);
      var first := if a[0].Message? then [a[0].message] else [];
      LinkBoth(o, next, a[1..], mid, LogOfAll(o, a[1..]), MessagesOf(a[1..]), b, last, logB, messagesB);
      LinkFirst(o, a[0], a[1..] + b, last, LogOfAll(o, a[1..]) + logB, MessagesOf(a[1..]) + messagesB);
      assert [a[0]] + (a[1..] + b) == a + b;
      assert LogOf(o, a[0]) + (LogOfAll(o, a[1..]) + logB) == logA + logB;
      assert first + (MessagesOf(a[1..]) + messagesB) == messagesA + messagesB;
    }
  }

  /** The looks at the quiet period among acts: each reads the clock once. */
  function Looks(acts: seq<Act>): nat {
    if acts == [] then 0 else (if acts[0].Expiry? then 1 else 0) + Looks(acts[1..])
  }

  /** Every look takes the next reading of the clock, and a message is handled at the reading of the look before it. */
  ghost predicate Timed(acts: seq<Act>, clock: nat -> nat, tick: nat)
    decreases |acts|
  {
    acts != [] ==>
      if acts[0].Expiry? then acts[0].now == clock(tick) && Timed(acts[1..], clock, tick + 1)
      else tick > 0 && acts[0].now == clock(tick - 1) && Timed(acts[1..], clock, tick)
  }

  lemma {:induction false} TimedBoth(a: seq<Act>, b: seq<Act>, clock: nat -> nat, tick: nat)
    requires Timed(a, clock, tick) && Timed(b, clock, tick + Looks(a))
    ensures Timed(a + b, clock, tick) && Looks(a + b) == Looks(a) + Looks(b)
    decreases |a|
  {
    if a == [] {
      assert a + b == b;
    } else {
      assert (a + b)[1..] == a[1..] + b;
      TimedBoth(a[1..], b, clock, if a[0].Expiry? then tick + 1 else tick);
    }
  }

  lemma TimedPair(due: Act, act: Act, clock: nat -> nat, tick: nat)
    requires due.Expiry? && act.Message? && due.now == act.now == clock(tick)
    ensures Timed([due, act], clock, tick) && Looks([due, act]) == 1
  {
    assert [due, act][1..] == [act] && [act][1..] == [];
    assert Timed([act], clock, tick + 1) && Looks([act]) == 0;
  }

  /** A message is handled in two acts. */
  lemma HandleLinks(o: Outside, w: World, message: Bytes, clock: nat -> nat, tick: nat) returns (acts: seq<Act>)
    ensures var turn := Handle(o, w, message, clock(tick)); Links(o, w, acts, turn.world, turn.log, [message])
    ensures Timed(acts, clock, tick) && Looks(acts) == 1
  {
    var now := clock(tick);
    var due := Expiry(w, now);
    var next := WorldAfter(o, due);
    var act := Message(next, message, now);
    hide SettleExpired, ProcessMessage, Links, Timed, Looks;
    TimedPair(due, act, clock, tick);
    NoActs(o, WorldAfter(o, act));
    LinkFirst(o, act, [], WorldAfter(o, act), [], []);
    LinkFirst(o, due, [act] + [], WorldAfter(o, act), LogOf(o, act) + [], [message] + []);
    acts := [due] + ([act] + []);
    assert acts == [due, act];
    assert LogOf(o, act) + [] == LogOf(o, act) && [] + ([message] + []) == [message];
  }

  lemma {:induction false} HandleAllLinks(o: Outside, w: World, messages: seq<Bytes>, clock: nat -> nat, tick: nat)
    returns (acts: seq<Act>, n: nat)
    ensures n <= |messages|
    ensures var turn := HandleAll(o, w, messages, clock, tick);
            Links(o, w, acts, turn.world, turn.log, messages[..n]) && (turn.stop.None? ==> n == |messages|)
    ensures Timed(acts, clock, tick) && Looks(acts) == n
    decreases |messages|
  {
    hide Handle, Links, Timed;
    if messages == [] {
      acts, n := [], 0;
      NoActs(o, w);
      NeverLooked(clock, tick);
    } else {
      var first := Handle(o, w, messages[0], clock(tick));
      acts := HandleLinks(o, w, messages[0], clock, tick);
      n := 1;
      assert messages[..1] == [messages[0]];
      if first.stop.None? {
        var rest := HandleAll(o, first.world, messages[1..], clock, tick + 1);
        var more, m := HandleAllLinks(o, first.world, messages[1..], clock, tick + 1);
        LinkBoth(o, w, acts, first.world, first.log, [messages[0]], more, rest.world, rest.log, messages[1..][..m]);
        assert [messages[0]] + messages[1..][..m] == messages[..1 + m];
        TimedBoth(acts, more, clock, tick);
        acts, n := acts + more, 1 + m;
      }
    }
  }

  lemma NeverLooked(clock: nat -> nat, tick: nat)
    ensures Timed([], clock, tick) && Looks([]) == 0
  {
  }

  /** The run from here is a chain of acts over the messages that arrive, in order. */
  ghost predicate RunLinks(o: Outside, w: World, acts: seq<Act>, run: Run, messages: seq<Bytes>) {
    && Chained(o, w, acts) && LogOfAll(o, acts) == run.log && MessagesOf(acts) <= messages
    && (run.result == Ok(Eof) ==> MessagesOf(acts) == messages)
  }

  lemma LinksRun(
    o: Outside, w: World, a: seq<Act>, mid: World, log: seq<Event>, messages: seq<Bytes>,
    b: seq<Act>, rest: Run, later: seq<Bytes>)
    requires Links(o, w, a, mid, log, messages) && RunLinks(o, mid, b, rest, later)
    ensures RunLinks(o, w, a + b, rest.(log := log + rest.log), messages + later)
  {
    LinkBoth(o, w, a, mid, log, messages, b, LastWorld(o, mid, b), rest.log, MessagesOf(b));
    hide Chained, LogOfAll, MessagesOf, LastWorld;
    assert later == MessagesOf(b) + later[|MessagesOf(b)|..];
  }

  lemma LinksStop(o: Outside, w: World, acts: seq<Act>, last: World, run: Run, messages: seq<Bytes>, n: nat)
    requires n <= |messages| && Links(o, w, acts, last, run.log, messages[..n])
    requires run.result == Ok(Eof) ==> n == |messages|
    ensures RunLinks(o, w, acts, run, messages)
  {
    hide Chained, LogOfAll, MessagesOf, LastWorld;
    assert messages[..|messages|] == messages;
  }

  lemma {:induction false} RunIsChain(
    o: Outside, w: World, decoder: Framing.State, script: seq<Wait>, clock: nat -> nat, tick: nat)
    returns (acts: seq<Act>)
    ensures RunLinks(o, w, acts, RunFrom(o, w, decoder, script, clock, tick), Framing.Consume(decoder, DataOf(script)).frames)
    ensures Timed(acts, clock, tick)
    decreases |script|
  {
    hide *;
    RunStep(o, w, decoder, script, clock, tick);
    DataStep(decoder, script);
    if script == [] {
      acts := [];
      NoActs(o, w);
      NeverLooked(clock, tick);
      LinksStop(o, w, [], w, RunFrom(o, w, decoder, script, clock, tick), [], 0);
    } else if script[0].Expired? {
      var act := Expiry(w, clock(tick));
      AfterExpiry(o, w, clock(tick));
      var more := RunIsChain(o, WorldAfter(o, act), decoder, script[1..], clock, tick + 1);
      NoActs(o, WorldAfter(o, act));
      LinkFirst(o, act, [], WorldAfter(o, act), [], []);
      acts := [act] + more;
      TimedLook(act, more, clock, tick);
      ExpiryLinks(o, act, more, RunFrom(o, WorldAfter(o, act), decoder, script[1..], clock, tick + 1),
                  Framing.Consume(decoder, DataOf(script[1..])).frames);
    } else {
      var bytes := script[0].bytes;
      var read := Framing.Consume(decoder, bytes);
      var turn := HandleAll(o, w, read.frames, clock, tick);
      var first, n := HandleAllLinks(o, w, read.frames, clock, tick);
      if turn.stop.Some? || read.error.Some? {
        acts := first;
        StopIsNoEof(o, w, read.frames, clock, tick);
        var messages := Framing.Consume(decoder, DataOf(script)).frames;
        assert messages[..n] == read.frames[..n];
        LinksStop(o, w, acts, turn.world, RunFrom(o, w, decoder, script, clock, tick), messages, n);
      } else {
        var more := RunIsChain(o, turn.world, read.state, script[1..], clock, tick + |read.frames|);
        acts := first + more;
        TimedBoth(first, more, clock, tick);
        assert read.frames[..n] == read.frames;
        LinksRun(o, w, first, turn.world, turn.log, read.frames, more,
                 RunFrom(o, turn.world, read.state, script[1..], clock, tick + |read.frames|),
                 Framing.Consume(read.state, DataOf(script[1..])).frames);
      }
    }
  }

  lemma TimedLook(act: Act, more: seq<Act>, clock: nat -> nat, tick: nat)
    requires act.Expiry? && act.now == clock(tick) && Timed(more, clock, tick + 1)
    ensures Timed([act] + more, clock, tick)
  {
    assert ([act] + more)[1..] == more;
  }

  lemma AfterExpiry(o: Outside, w: World, now: nat)
    ensures WorldAfter(o, Expiry(w, now)) == w.(session := SettleExpired(o, w.session, now).session)
  {
    hide SettleExpired;
  }

  lemma ExpiryLinks(o: Outside, act: Act, more: seq<Act>, rest: Run, messages: seq<Bytes>)
    requires act.Expiry? && RunLinks(o, WorldAfter(o, act), more, rest, messages)
    ensures RunLinks(o, act.world, [act] + more,
                     rest.(log := SettleExpired(o, act.world.session, act.now).log + rest.log), messages)
  {
    LinkFirst(o, act, more, LastWorld(o, WorldAfter(o, act), more), rest.log, MessagesOf(more));
    hide Chained, LogOfAll, MessagesOf, LastWorld, SettleExpired, ProcessMessage, WorldAfter;
    assert [] + MessagesOf(more) == MessagesOf(more);
  }

  // ----- Stores -----

  /** The fields of a message that asks to store candidates. */
  ghost predicate AsksStore(act: Act, fields: seq<Bytes>) {
    && act.Message? && act.world.ready && Framing.DecodeSpec(act.message) == Ok(fields)
    && |fields| >= 2 && ParseIdentifier(fields[1]).Some? && ParseRequest(fields).StoreCandidates?
  }

  /** It names the current input and carries a sound payload. */
  ghost predicate IsAccepted(act: Act, fields: seq<Bytes>)
    requires AsksStore(act, fields)
  {
    Binds(act.world.session, ParseRequest(fields).inputGeneration) && ParseStored(ParseRequest(fields).payload).Some?
  }

  /** What the slots hold under the stored generation right after the store. */
  function FoundAfter(s: Session, request: Request): Option<Stored>
    requires request.StoreCandidates? && ParseStored(request.payload).Some?
  {
    s.slots.Insert(request.slot, Held(request.generation, ParseStored(request.payload).value)).Find(request.generation)
  }

  /** At `at` the log answers the store: `ok` exactly when it was accepted, and then its plan at once. */
  ghost predicate StoreAnsweredAt(o: Outside, act: Act, fields: seq<Bytes>, log: seq<Event>, at: nat)
    requires AsksStore(act, fields)
  {
    var s, request := act.world.session, ParseRequest(fields);
    && at < |log| && log[at].Reply? && log[at].id == fields[1] && (log[at].ok <==> IsAccepted(act, fields))
    && (IsAccepted(act, fields) ==>
          && FoundAfter(s, request).Some? && at + 1 < |log|
          && log[at + 1]
             == PlanReady(request.inputGeneration,
                          PlanBody(o, s.input.value.params, FoundAfter(s, request).value, DirFrom(o, s.input.value.cwd), 0),
                          Store))
  }

  lemma StoreActLog(o: Outside, act: Act, fields: seq<Bytes>)
    requires AsksStore(act, fields)
    ensures ProcessRequest(o, act.world.session, fields).Ok?
    ensures LogOf(o, act) == ProcessRequest(o, act.world.session, fields).value.log
  {
    hide AnswerTo, SettleAgainst, ReplyOf, ParseIdentifier, ParseRequest, AcceptInput, AcceptFlush;
    if fields[0] == Ascii("input") || fields[0] == Ascii("flush") {
      NotificationsWriteNothing(fields);
    }
  }

  lemma StoreActAnswers(o: Outside, act: Act, fields: seq<Bytes>)
    requires AsksStore(act, fields)
    ensures StoreAnsweredAt(o, act, fields, LogOf(o, act), 0)
  {
    StoreActLog(o, act, fields);
    hide LogOf, ProcessRequest, ParseRequest, ParseStored, ParseIdentifier, PlanBody, DirFrom, Slots.Find, Slots.Insert,
         Binds, Code;
    StoreAnswered(o, act.world.session, fields);
  }

  lemma {:induction false} ActInLog(o: Outside, acts: seq<Act>, i: nat)
    requires i < |acts|
    ensures var at := |LogOfAll(o, acts[..i])|;
            && at + |LogOf(o, acts[i])| <= |LogOfAll(o, acts)|
            && LogOfAll(o, acts)[at..at + |LogOf(o, acts[i])|] == LogOf(o, acts[i])
  {
    hide LogOf;
    if i == 0 {
      assert acts[..0] == [];
    } else {
      ActInLog(o, acts[1..], i - 1);
      assert acts[..i][1..] == acts[1..][..i - 1];
      var first, rest := LogOf(o, acts[0]), LogOfAll(o, acts[1..]);
      SliceWithin(first, rest, [], |LogOfAll(o, acts[1..][..i - 1])|, |LogOf(o, acts[i])|);
      assert first + rest + [] == first + rest;
    }
  }

  lemma AnsweredLater(o: Outside, act: Act, fields: seq<Bytes>, log: seq<Event>, at: nat)
    requires AsksStore(act, fields) && StoreAnsweredAt(o, act, fields, LogOf(o, act), 0)
    requires at + |LogOf(o, act)| <= |log| && log[at..at + |LogOf(o, act)|] == LogOf(o, act)
    ensures StoreAnsweredAt(o, act, fields, log, at)
  {
    hide AsksStore, IsAccepted, FoundAfter, LogOf, PlanBody, DirFrom, ParseRequest;
    var here := LogOf(o, act);
    assert here[0] == log[at];
    assert |here| > 1 ==> here[1] == log[at + 1];
  }

  /**
   A run is a chain of acts over the messages that arrive. Every message in it that asks to store candidates is
   answered `ok` exactly when it names the current input with a sound payload, and every such `ok` is followed at once
   by the plan computed from what the slots then hold under that generation.
   */
  lemma StoresArePlannedAtOnce(o: Outside, script: seq<Wait>, clock: nat -> nat) returns (acts: seq<Act>)
    ensures RunLinks(o, START, acts, Whole(o, script, clock), Framing.Consume(Framing.START, DataOf(script)).frames)
    ensures forall i, fields :: 0 <= i < |acts| && AsksStore(acts[i], fields) ==>
              StoreAnsweredAt(o, acts[i], fields, Whole(o, script, clock).log, |LogOfAll(o, acts[..i])|)
  {
    hide *;
    WholeIs(o, script, clock);
    acts := RunIsChain(o, START, Framing.START, script, clock, 0);
    ChainLog(o, START, acts, Whole(o, script, clock), Framing.Consume(Framing.START, DataOf(script)).frames);
    forall i, fields | 0 <= i < |acts| && AsksStore(acts[i], fields)
      ensures StoreAnsweredAt(o, acts[i], fields, Whole(o, script, clock).log, |LogOfAll(o, acts[..i])|)
    {
      ActInLog(o, acts, i);
      StoreActAnswers(o, acts[i], fields);
      AnsweredLater(o, acts[i], fields, Whole(o, script, clock).log, |LogOfAll(o, acts[..i])|);
    }
  }

  lemma ChainLog(o: Outside, w: World, acts: seq<Act>, run: Run, messages: seq<Bytes>)
    requires RunLinks(o, w, acts, run, messages)
    ensures LogOfAll(o, acts) == run.log
  {
    hide Chained, LogOfAll, MessagesOf;
  }

  // ----- A store whose plan is computed from other candidates -----

  function StoreFields(id: nat, slot: Bytes, payload: Bytes): seq<Bytes> {
    [Ascii("store"), Digits(id), slot, Digits(5), Digits(1), payload]
  }

  function LiveStore(): seq<Bytes> { StoreFields(7, Ascii("live"), Empty()) }

  function CacheStore(): seq<Bytes> { StoreFields(8, Ascii("cache"), OneHeader()) }

  lemma StoreFieldsParse(id: nat, slot: Bytes, payload: Bytes)
    requires 1 <= id <= I64_MAX && ParseSlot(slot).Some?
    ensures ParseIdentifier(StoreFields(id, slot, payload)[1]).Some?
    ensures ParseRequest(StoreFields(id, slot, payload)) == StoreCandidates(ParseSlot(slot).value, 5, 1, payload)
  {
    IdentifierIsPrinted(Digits(id), id);
    IdentifierIsPrinted(Digits(5), 5);
    IdentifierIsPrinted(Digits(1), 1);
    assert Ascii("store") != Ascii("namespace-snapshot") by {
      assert |Ascii("store")| != |Ascii("namespace-snapshot")|;
    }
    hide ParseSlot, ParseIdentifier, Digits, Ascii;
  }

  /** A payload that holds nothing, and one that holds a header without fields. */
  function Empty(): Bytes { [] }

  function OneHeader(): Bytes { [98, 0] }

  lemma EmptyMeans()
    ensures ParsePayload(Empty()) == Ok(Source([], [])) && Sane(Source([], []))
  {
    assert Split([], REC_SEP) == [[]] && ReadRecord([]) == [Field([], [])] && ReadRecords([]) == [[Field([], [])]];
    hide Split, ReadRecord, BatchOf, CandidateOf;
    assert Interpret([]) == Source([], []);
    assert Interpret([[Field([], [])]]) == Source([], []);
  }

  lemma OneHeaderMeans()
    ensures ParsePayload(OneHeader()) == Ok(Source([NO_FIELDS], [])) && Sane(Source([NO_FIELDS], []))
  {
    hide ReadRecords, Interpret, Sane, ReadRecord, Split;
    var body: Bytes := [98];
    BodyIsHeader(body);
    HeaderMeans(body);
    assert OneHeader()[..1] == body;
    ParsedIsSane(OneHeader());
  }

  lemma BodyIsHeader(body: Bytes)
    requires body == [98]
    ensures ReadRecords(body) == [[Field(body, [])]]
  {
    assert ReadField(body) == Field(body, []);
    assert Split(body, REC_SEP) == [body] && Split(body, FIELD_SEP) == [body];
    hide Split, ReadField;
    assert ReadRecord(body) == [Field(body, [])];
  }

  lemma HeaderMeans(body: Bytes)
    requires body == [98]
    ensures Interpret([[Field(body, [])]]) == Source([NO_FIELDS], [])
  {
    var record := [Field(body, [])];
    assert Ascii("b") == body && record[1..] == [] && BatchOf([]) == NO_FIELDS;
    hide BatchOf, CandidateOf;
    assert Interpret([]) == Source([], []);
  }

  /** What each of them stores. */
  function EmptySource(): Stored {
    EmptyMeans();
    hide Sane;
    Source([], [])
  }

  function HeaderSource(): Stored {
    OneHeaderMeans();
    hide Sane;
    Source([NO_FIELDS], [])
  }

  /**
   Two stores under generation 5 for the current input: an empty payload into the live slot, then one batch header
   into the cache slot. The second is answered `ok` and held by the cache slot, but its plan is computed from
   the first.
   */
  lemma CacheStoreIsShadowed(o: Outside, s: Session) returns (first: Step, second: Step)
    requires Binds(s, 1)
    ensures ProcessRequest(o, s, LiveStore()) == Ok(first)
    ensures ProcessRequest(o, first.session, CacheStore()) == Ok(second)
    ensures second.session.slots.cache == Some(Held(5, HeaderSource())) && HeaderSource() != EmptySource()
    ensures second.log
         == [Reply(true, Digits(8), []),
             PlanReady(1, PlanBody(o, s.input.value.params, EmptySource(), DirFrom(o, s.input.value.cwd), 0), Store)]
  {
    EmptyMeans();
    OneHeaderMeans();
    SlotsParse();
    hide ParsePayload, ParseSlot, ParseRequest, ParseIdentifier, PlanBody, DirFrom, Code, Digits, Ascii, ProcessRequest,
         StoreFields, Sane, Empty, OneHeader;
    first := StoreRuns(o, s, 7, Ascii("live"), Empty());
    second := StoreRuns(o, first.session, 8, Ascii("cache"), OneHeader());
  }

  lemma SlotsParse()
    ensures ParseSlot(Ascii("live")) == Some(Live) && ParseSlot(Ascii("cache")) == Some(Cache)
  {
    assert |Ascii("live")| != |Ascii("cache")|;
    hide Ascii;
  }

  /** What one of the two stores does. */
  lemma StoreRuns(o: Outside, s: Session, id: nat, slot: Bytes, payload: Bytes) returns (step: Step)
    requires Binds(s, 1) && 1 <= id <= I64_MAX && ParseSlot(slot).Some?
    requires ParsePayload(payload).Ok? && Sane(ParsePayload(payload).value)
    ensures ProcessRequest(o, s, StoreFields(id, slot, payload)) == Ok(step)
    ensures var slots := s.slots.Insert(ParseSlot(slot).value, Held(5, ParsePayload(payload).value));
            var found, input := slots.Find(5), s.input.value;
            && found.Some? && step.session.slots == slots && step.session.input.Some?
            && step.session.input.value == input.(expiry := None, resolved := Some(5))
            && step.log == [Reply(true, Digits(id), []),
                            PlanReady(1, PlanBody(o, input.params, found.value, DirFrom(o, input.cwd), 0), Store)]
  {
    var f := StoreFields(id, slot, payload);
    StoreFieldsParse(id, slot, payload);
    hide ParsePayload, ParseSlot, ParseRequest, ParseIdentifier, PlanBody, DirFrom, Code, Digits, Ascii, ProcessRequest,
         Slots.Find, Slots.Insert, Sane;
    StoreRequestRuns(o, s, f);
    StoreAnswered(o, s, f);
    step := ProcessRequest(o, s, f).value;
  }

  lemma StoreRequestRuns(o: Outside, s: Session, fields: seq<Bytes>)
    requires |fields| >= 2 && ParseIdentifier(fields[1]).Some?
    ensures ProcessRequest(o, s, fields).Ok?
  {
    hide ParseIdentifier, AnswerTo, SettleAgainst, ReplyOf, ParseRequest;
  }
}
