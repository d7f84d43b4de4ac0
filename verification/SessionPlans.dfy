/** Every plan a session ever writes is one the reference parser accepts. */
module SessionPlans {
  import opened Bytes
  import opened Lossy
  import opened Records
  import opened Histories
  import opened Pipeline
  import opened Sessions
  import opened SessionEvents
  import Capstone
  import Framing
  import Wire

  // ----- Sources are no larger than the messages they came in -----

  lemma {:induction false} SplitAtMost(s: Bytes, sep: byte)
    ensures |Split(s, sep)| <= |s| + 1
    decreases |s|
  {
    hide Split;
    SplitStep(s, sep);
    var i := Find(s, sep);
    if i < |s| {
      SplitAtMost(s[i + 1..], sep);
    }
  }

  lemma {:induction false} InterpretAtMost(records: seq<seq<Field>>)
    ensures |Interpret(records).candidates| <= |records|
  {
    hide BatchOf, CandidateOf;
    if records != [] {
      InterpretAtMost(records[..|records| - 1]);
    }
  }

  lemma ParsedAtMost(payload: Bytes)
    requires ParsePayload(payload).Ok?
    ensures |ParsePayload(payload).value.candidates| <= |payload| + 1
  {
    hide Interpret, ReadRecord, Split;
    var body := if payload == [] then [] else payload[..|payload| - 1];
    SplitAtMost(body, REC_SEP);
    InterpretAtMost(ReadRecords(body));
  }

  lemma {:induction false} FieldAtMost(fields: seq<Bytes>, i: nat)
    requires i < |fields|
    ensures |fields[i]| + 2 <= |Framing.EncodeAll(fields)|
  {
    if i > 0 {
      FieldAtMost(fields[1..], i - 1);
    }
  }

  // ----- The bound a session keeps -----

  ghost predicate Small(s: Source) { |s.candidates| <= I64_MAX }

  ghost predicate SmallSlots(slots: Slots) {
    (slots.live.Some? ==> Small(slots.live.value.source)) && (slots.cache.Some? ==> Small(slots.cache.value.source))
  }

  /** A plan body within a vector's size reads back; an empty answer is not a plan. */
  ghost predicate Readable(body: Bytes) {
    |body| <= I64_MAX ==> exists plan :: Wire.ParseSpec(body) == Ok(plan)
  }

  ghost predicate Fine(e: Event) {
    match e
    case PlanReady(_, body, _) => Readable(body)
    case Reply(ok, _, body) => ok && body != [] ==> Readable(body)
    case _ => true
  }

  ghost predicate AllFine(log: seq<Event>) {
    forall i :: 0 <= i < |log| ==> Fine(log[i])
  }

  /** The pipeline as a session calls it. */
  function Planned(env: Env, p: Screen, source: Stored, isDir: Bytes -> bool, selected: nat): Bytes {
    Capstone.SaneIsIndexed(source);
    Computed(env, p, source, isDir, selected)
  }

  /** A session's surroundings with the pipeline in its place. */
  function Genuine(
    env: Env, isDir: (Bytes, Bytes) -> bool, highlight: (Namespace, Bytes, bool, Bytes) -> Bytes, stamp: Bytes): Outside
  {
    Outside((p: Screen, source: Stored, dir: Bytes -> bool, selected: nat) => Planned(env, p, source, dir, selected),
            isDir, highlight, stamp)
  }

  /** All that the session's part of the proof needs of the pipeline. */
  ghost predicate PlansRead(o: Outside) {
    forall p: Screen, source: Stored, dir: Bytes -> bool, selected: nat ::
      Small(source) ==> Readable(o.planner(p, source, dir, selected))
  }

  lemma PlannedReads(env: Env, p: Screen, source: Stored, isDir: Bytes -> bool, selected: nat)
    requires Small(source) && AsciiWidths(env.wd)
    ensures Readable(Planned(env, p, source, isDir, selected))
  {
    hide Computed, Sane, Wire.ParseSpec, WirePlanOf, Indexed, AsciiWidths;
    Capstone.SaneIsIndexed(source);
    if |Computed(env, p, source, isDir, selected)| <= I64_MAX {
      Capstone.EveryPlanParses(env, p, source, isDir, selected);
    }
  }

  lemma GenuineReads(
    env: Env, isDir: (Bytes, Bytes) -> bool, highlight: (Namespace, Bytes, bool, Bytes) -> Bytes, stamp: Bytes)
    requires AsciiWidths(env.wd)
    ensures PlansRead(Genuine(env, isDir, highlight, stamp))
  {
    hide Planned, Small, Readable, AsciiWidths;
    var o := Genuine(env, isDir, highlight, stamp);
    forall p: Screen, source: Stored, dir: Bytes -> bool, selected: nat | Small(source)
      ensures Readable(o.planner(p, source, dir, selected))
    {
      PlannedReads(env, p, source, dir, selected);
    }
  }

  lemma BodyReads(o: Outside, p: Screen, source: Stored, isDir: Bytes -> bool, selected: nat)
    requires Small(source) && PlansRead(o)
    ensures Readable(PlanBody(o, p, source, isDir, selected))
  {
    hide Small, Readable;
  }

  lemma FoundIsSmall(slots: Slots, generation: nat)
    requires SmallSlots(slots) && slots.Find(generation).Some?
    ensures Small(slots.Find(generation).value)
  {
  }

  lemma SettleIsFine(o: Outside, s: Session, generation: nat, cause: Cause)
    requires SmallSlots(s.slots) && PlansRead(o)
    ensures var step := SettleAgainst(o, s, generation, cause);
            AllFine(step.log) && step.session.slots == s.slots
  {
    hide PlanBody, Readable, SmallSlots, Slots.Find, DirFrom, Small;
    if s.input.Some? && generation != 0 && s.slots.Find(generation).Some? {
      FoundIsSmall(s.slots, generation);
      BodyReads(o, s.input.value.params, s.slots.Find(generation).value, DirFrom(o, s.input.value.cwd), 0);
    }
  }

  lemma FineConcat(a: seq<Event>, b: seq<Event>)
    requires AllFine(a) && AllFine(b)
    ensures AllFine(a + b)
  {
    hide Fine;
  }

  lemma HighlightIsFine(o: Outside, s: Session, input: Input)
    ensures AllFine(HighlightOf(o, s, input))
  {
  }

  lemma InputIsFine(o: Outside, s: Session, fields: seq<Bytes>, now: nat)
    requires SmallSlots(s.slots) && PlansRead(o) && AcceptInput(o, s, fields, now).Ok?
    ensures var step := AcceptInput(o, s, fields, now).value; AllFine(step.log) && step.session.slots == s.slots
  {
    hide *;
    var input := AcceptShape(o, s, fields, now);
    HighlightIsFine(o, s, input);
    var held := s.(input := Some(input));
    SettleIsFine(o, held, input.candidateGeneration, Accepted);
    FineConcat(HighlightOf(o, s, input), SettleAgainst(o, held, input.candidateGeneration, Accepted).log);
  }

  lemma FlushIsFine(o: Outside, s: Session, fields: seq<Bytes>)
    requires SmallSlots(s.slots) && PlansRead(o) && AcceptFlush(o, s, fields).Ok?
    ensures var step := AcceptFlush(o, s, fields).value; AllFine(step.log) && step.session.slots == s.slots
  {
    hide SettleAgainst, ParseIdentifier, SmallSlots, Fine;
    if s.input.Some? {
      SettleIsFine(o, s, s.input.value.candidateGeneration, Flush);
    }
  }

  lemma WindowIsSmall(history: Retained, limit: nat)
    ensures Small(WindowFor(history, limit))
  {
    hide WindowOf;
    WindowIsSane(history.entries, limit);
  }

  lemma StoredIsSmall(payload: Bytes)
    requires ParseStored(payload).Some? && |payload| < I64_MAX
    ensures Small(ParseStored(payload).value)
  {
    hide ParsePayload, Sane;
    ParsedAtMost(payload);
  }

  lemma CompletionIsFine(o: Outside, s: Session, request: Request)
    requires SmallSlots(s.slots) && PlansRead(o) && request.Complete?
    ensures var answer := AnswerTo(o, s, request);
            answer.session == s && (answer.result.Ok? ==> Readable(answer.result.value))
  {
    hide PlanBody, Readable, SmallSlots, Slots.Find, DirFrom, Small;
    if AnswerTo(o, s, request).result.Ok? {
      var input := s.input.value;
      FoundIsSmall(s.slots, input.resolved.value);
      BodyReads(o, input.params.(offset := request.offset, rows := request.rows, width := request.width),
                s.slots.Find(input.resolved.value).value, DirFrom(o, input.cwd), request.selected);
    }
  }

  lemma PlanIsFine(o: Outside, s: Session, request: Request)
    requires PlansRead(o) && request.PlanHistory?
    ensures var answer := AnswerTo(o, s, request);
            answer.session == s && (answer.result.Ok? ==> Readable(answer.result.value))
  {
    hide PlanBody, Readable, WindowFor, NoDir, Small;
    WindowIsSmall(s.history, request.limit);
    BodyReads(o, request.params, WindowFor(s.history, request.limit), NoDir(), 0);
  }

  lemma AnswerIsFine(o: Outside, s: Session, request: Request)
    requires SmallSlots(s.slots) && PlansRead(o)
    requires request.StoreCandidates? ==> |request.payload| < I64_MAX
    ensures var answer := AnswerTo(o, s, request);
            && SmallSlots(answer.session.slots)
            && (answer.result.Ok? && answer.result.value != [] ==> Readable(answer.result.value))
  {
    hide PlanBody, Readable, ParseStored, ParseNamespace, Retain, WindowFor, Small, Slots.Find;
    if request.Complete? {
      CompletionIsFine(o, s, request);
    } else if request.PlanHistory? {
      PlanIsFine(o, s, request);
    } else if request.StoreCandidates? && ParseStored(request.payload).Some? {
      StoredIsSmall(request.payload);
    }
  }

  lemma PayloadIsField(f: seq<Bytes>)
    requires ParseRequest(f).StoreCandidates?
    ensures |f| == 6 && ParseRequest(f).payload == f[5]
  {
    hide ParseReference;
  }

  lemma ReplyIsFine(id: Bytes, result: Result<Bytes, string>)
    requires result.Ok? && result.value != [] ==> Readable(result.value)
    ensures AllFine([ReplyOf(id, result)])
  {
    hide Readable, Code;
  }

  lemma RequestIsFine(o: Outside, s: Session, fields: seq<Bytes>)
    requires SmallSlots(s.slots) && PlansRead(o) && ProcessRequest(o, s, fields).Ok?
    requires forall i :: 0 <= i < |fields| ==> |fields[i]| < I64_MAX
    ensures var step := ProcessRequest(o, s, fields).value; AllFine(step.log) && SmallSlots(step.session.slots)
  {
    hide *;
    RequestShape(o, s, fields);
    var request := ParseRequest(fields);
    if request.StoreCandidates? {
      PayloadIsField(fields);
    }
    AnswerIsFine(o, s, request);
    var answer := AnswerTo(o, s, request);
    ReplyIsFine(fields[1], answer.result);
    if answer.settle.Some? {
      SettleIsFine(o, answer.session, answer.settle.value, Store);
      FineConcat([ReplyOf(fields[1], answer.result)],
                 SettleAgainst(o, answer.session, answer.settle.value, Store).log);
    }
  }

  lemma MessageIsFine(o: Outside, w: World, message: Bytes, now: nat)
    requires SmallSlots(w.session.slots) && PlansRead(o) && |message| <= I64_MAX
    ensures var turn := ProcessMessage(o, w, message, now); AllFine(turn.log) && SmallSlots(turn.world.session.slots)
  {
    hide AcceptInput, AcceptFlush, ProcessRequest, SmallSlots, Framing.DecodeSpec;
    if Framing.DecodeSpec(message).Ok? {
      var fields := Framing.DecodeSpec(message).value;
      Framing.DecodeIffEncoded(message, fields);
      forall i | 0 <= i < |fields|
        ensures |fields[i]| < I64_MAX
      {
        FieldAtMost(fields, i);
      }
      if w.ready && Dispatch(o, w.session, fields, now).Ok? {
        if fields != [] && fields[0] == Ascii("input") {
          InputIsFine(o, w.session, fields, now);
        } else if fields != [] && fields[0] == Ascii("flush") {
          FlushIsFine(o, w.session, fields);
        } else {
          RequestIsFine(o, w.session, fields);
        }
      }
    }
  }

  lemma ExpiryIsFine(o: Outside, s: Session, now: nat)
    requires SmallSlots(s.slots) && PlansRead(o)
    ensures var step := SettleExpired(o, s, now); AllFine(step.log) && step.session.slots == s.slots
  {
    hide SettleAgainst, SmallSlots, Fine;
    if Due(s, now) {
      SettleIsFine(o, s, s.input.value.candidateGeneration, Quiet);
    }
  }

  lemma HandleIsFine(o: Outside, w: World, message: Bytes, now: nat)
    requires SmallSlots(w.session.slots) && PlansRead(o) && |message| <= I64_MAX
    ensures var turn := Handle(o, w, message, now); AllFine(turn.log) && SmallSlots(turn.world.session.slots)
  {
    hide SettleExpired, ProcessMessage, SmallSlots, AllFine;
    ExpiryIsFine(o, w.session, now);
    var due := SettleExpired(o, w.session, now);
    var next := w.(session := due.session);
    MessageIsFine(o, next, message, now);
    FineConcat(due.log, ProcessMessage(o, next, message, now).log);
  }

  lemma NothingIsFine()
    ensures AllFine([]) && SmallSlots(START.session.slots)
  {
  }

  lemma {:induction false} HandleAllIsFine(o: Outside, w: World, messages: seq<Bytes>, clock: nat -> nat, tick: nat)
    requires SmallSlots(w.session.slots) && PlansRead(o)
    requires forall i :: 0 <= i < |messages| ==> |messages[i]| <= I64_MAX
    ensures var turn := HandleAll(o, w, messages, clock, tick);
            AllFine(turn.log) && SmallSlots(turn.world.session.slots)
    decreases |messages|
  {
    hide Handle, SmallSlots, AllFine;
    NothingIsFine();
    if messages != [] {
      var first := Handle(o, w, messages[0], clock(tick));
      HandleIsFine(o, w, messages[0], clock(tick));
      if first.stop.None? {
        HandleAllIsFine(o, first.world, messages[1..], clock, tick + 1);
        FineConcat(first.log, HandleAll(o, first.world, messages[1..], clock, tick + 1).log);
      }
    }
  }

  ghost predicate SmallData(decoder: Framing.State, script: seq<Wait>)
    decreases |script|
  {
    script != [] ==>
      match script[0]
      case Expired => SmallData(decoder, script[1..])
      case Data(bytes) =>
        var read := Framing.Consume(decoder, bytes);
        && (forall i :: 0 <= i < |read.frames| ==> |read.frames[i]| <= I64_MAX)
        && SmallData(read.state, script[1..])
  }

  lemma {:induction false} RunIsFine(o: Outside, w: World, decoder: Framing.State, script: seq<Wait>, clock: nat -> nat, tick: nat)
    requires SmallSlots(w.session.slots) && PlansRead(o) && SmallData(decoder, script)
    ensures AllFine(RunFrom(o, w, decoder, script, clock, tick).log)
    decreases |script|
  {
    hide SettleExpired, HandleAll, Framing.Consume, SmallSlots, AllFine, Closing;
    NothingIsFine();
    if script != [] {
      match script[0]
      case Expired =>
        var due := SettleExpired(o, w.session, clock(tick));
        var next := w.(session := due.session);
        ExpiryIsFine(o, w.session, clock(tick));
        RunIsFine(o, next, decoder, script[1..], clock, tick + 1);
        FineConcat(due.log, RunFrom(o, next, decoder, script[1..], clock, tick + 1).log);
      case Data(bytes) =>
        var read := Framing.Consume(decoder, bytes);
        var turn := HandleAll(o, w, read.frames, clock, tick);
        HandleAllIsFine(o, w, read.frames, clock, tick);
        if turn.stop.None? && read.error.None? {
          RunIsFine(o, turn.world, read.state, script[1..], clock, tick + |read.frames|);
          FineConcat(turn.log, RunFrom(o, turn.world, read.state, script[1..], clock, tick + |read.frames|).log);
        }
    }
  }

  /** Every plan in a `plan-ready` event or in an `ok` reply is accepted by the reference parser. */
  ghost predicate PlansReadable(log: seq<Event>) {
    && (forall i :: 0 <= i < |log| && log[i].PlanReady? ==> Readable(log[i].body))
    && (forall i :: 0 <= i < |log| && Okay(log[i]) && log[i].body != [] ==> Readable(log[i].body))
  }

  /**
  Over every run whose messages fit in a vector, whatever payloads, history, inputs and requests it
  holds: each plan in a `plan-ready` event or in an `ok` reply is accepted by the reference parser.
  */
  lemma EveryPlanWrittenParses(
    env: Env, isDir: (Bytes, Bytes) -> bool, highlight: (Namespace, Bytes, bool, Bytes) -> Bytes, stamp: Bytes,
    script: seq<Wait>, clock: nat -> nat)
    requires AsciiWidths(env.wd) && SmallData(Framing.START, script)
    ensures PlansReadable(Whole(Genuine(env, isDir, highlight, stamp), script, clock).log)
  {
    hide *;
    var o := Genuine(env, isDir, highlight, stamp);
    GenuineReads(env, isDir, highlight, stamp);
    NothingIsFine();
    WholeIs(o, script, clock);
    RunIsFine(o, START, Framing.START, script, clock, 0);
    FineSays(Whole(o, script, clock).log);
  }

  lemma FineSays(log: seq<Event>)
    requires AllFine(log)
    ensures PlansReadable(log)
  {
    hide Readable;
  }
}
