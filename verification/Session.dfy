/** The worker session of src/worker.rs as a state machine: requests, notifications, and what they write. */
module Sessions {
  import opened Bytes
  import opened Decimals
  import opened Records
  import opened Histories
  import opened Matching
  import opened Pipeline
  import Framing

  const DELAY_MS_MAX: nat := 10000

  /** A parsed payload: what `record::parse` promises about it is part of the type. */
  type Stored = s: Source | Sane(s) witness Source([], [])

  /** A row, column or selection count off the wire. */
  type Positive = n: nat | 1 <= n <= USIZE_MAX witness 1

  /** Layout parameters with at least one row and one column. */
  type Screen = p: Params | 1 <= p.rows <= USIZE_MAX && 1 <= p.width <= USIZE_MAX
    witness Params(Compsys, [], Prefix, false, 1, 1, false, 0)

  /** The layout of the completion list, which is what every input asks for. */
  type CompletionScreen = p: Screen | p.producer.Compsys? witness Params(Compsys, [], Prefix, false, 1, 1, false, 0)

  /** The history index a session may hold. */
  type Retained = i: Index | SaneEntries(i.entries) && |i.entries| <= RETENTION_CAP witness UNINITIALIZED

  datatype Namespace =
    Namespace(aliases: set<Bytes>, functions: set<Bytes>, builtins: set<Bytes>, reserved: set<Bytes>, path: Bytes)

  /** The last accepted `input`; `expiry` is the end of its quiet period, absent once it has settled. */
  datatype Input = Input(
    generation: nat, candidateGeneration: nat, cwd: Bytes, buffer: Bytes, interactiveComments: bool,
    params: CompletionScreen, resolved: Option<nat>, expiry: Option<nat>)

  datatype Held = Held(generation: nat, source: Stored)

  datatype Slot = Live | Cache

  datatype Slots = Slots(live: Option<Held>, cache: Option<Held>) {
    function Insert(slot: Slot, held: Held): Slots {
      if slot.Live? then this.(live := Some(held)) else this.(cache := Some(held))
    }

    /** The first slot holding this generation. */
    function Find(generation: nat): Option<Stored> {
      if live.Some? && live.value.generation == generation then Some(live.value.source)
      else if cache.Some? && cache.value.generation == generation then Some(cache.value.source)
      else None
    }
  }

  datatype Session = Session(namespace: Option<Namespace>, slots: Slots, history: Retained, input: Option<Input>)

  const FRESH: Session := Session(None, Slots(None, None), UNINITIALIZED, None)

  /** What a session consults: the plan pipeline, the file system, the lexer's verdict, and the build stamp. */
  datatype Outside = Outside(
    planner: (Screen, Stored, Bytes -> bool, nat) -> Bytes,
    isDir: (Bytes, Bytes) -> bool, highlight: (Namespace, Bytes, bool, Bytes) -> Bytes, stamp: Bytes)

  /** What made an input settle. */
  datatype Cause = Quiet | Flush | Accepted | Store

  /** One message written to the client. The cause is not written; it is kept for stating properties. */
  datatype Event =
    | Ready(stamp: Bytes)
    | Incompatible(stamp: Bytes)
    | Reply(ok: bool, id: Bytes, body: Bytes)
    | Highlight(generation: nat, body: Bytes)
    | PlanReady(generation: nat, body: Bytes, cause: Cause)
    | CaptureRequired(generation: nat, cause: Cause)

  datatype Error = Framing(error: Framing.Error) | Protocol

  datatype End = Eof | Rejected

  datatype Step = Step(session: Session, log: seq<Event>)

  // ----- Scalars -----

  function ParseReference(value: Bytes): Option<nat> {
    match CanonicalSpec(value)
    case Some(n) => if n <= I64_MAX then Some(n) else None
    case None => None
  }

  function ParseIdentifier(value: Bytes): Option<nat> {
    match ParseReference(value)
    case Some(n) => if n > 0 then Some(n) else None
    case None => None
  }

  function ParseDelay(value: Bytes): Option<nat> {
    match CanonicalSpec(value)
    case Some(n) => if n <= DELAY_MS_MAX then Some(n) else None
    case None => None
  }

  function ParsePositive(value: Bytes): Option<Positive> {
    match CanonicalSpec(value)
    case Some(n) => if n > 0 then Some(n) else None
    case None => None
  }

  function ParseBool(value: Bytes): Option<bool> {
    if value == Ascii("true") then Some(true) else if value == Ascii("false") then Some(false) else None
  }

  function ParseMode(value: Bytes): Option<Mode> {
    if value == Ascii("prefix") then Some(Prefix)
    else if value == Ascii("substring") then Some(Substring)
    else if value == Ascii("typo") then Some(Typo)
    else None
  }

  function ParseSlot(value: Bytes): Option<Slot> {
    if value == Ascii("live") then Some(Live) else if value == Ascii("cache") then Some(Cache) else None
  }

  predicate IsBuildStamp(value: Bytes) {
    value != [] && forall i :: 0 <= i < |value| ==> IsDigit(value[i]) || 97 <= value[i] <= 102
  }

  /** An identifier is the printed form of a positive `i64`, and nothing else. */
  lemma IdentifierIsPrinted(value: Bytes, n: nat)
    ensures ParseIdentifier(value) == Some(n) <==> 1 <= n <= I64_MAX && value == Digits(n)
  {
    CanonicalParsesPrinted(value, n);
  }

  // ----- Requests -----

  datatype Request =
    | SnapshotNamespace(payload: Bytes)
    | StoreCandidates(slot: Slot, generation: nat, inputGeneration: nat, payload: Bytes)
    | WriteHistory(append: bool, generation: nat, payload: Bytes)
    | PlanHistory(generation: nat, limit: nat, params: Screen)
    | Complete(inputGeneration: nat, offset: nat, selected: Positive, rows: Positive, width: Positive)
    | Invalid

  function ParseLayout(producer: Producer, query: Bytes, mode: Bytes, smartCase: Bytes, rows: Bytes, width: Bytes,
                       trailingSpace: bool, offset: nat): Option<Screen> {
    var m, fold, r, w := ParseMode(mode), ParseBool(smartCase), ParsePositive(rows), ParsePositive(width);
    if m.Some? && fold.Some? && r.Some? && w.Some?
    then Some(Params(producer, query, m.value, fold.value, r.value, w.value, trailingSpace, offset))
    else None
  }

  function ParseStore(f: seq<Bytes>): Request {
    if |f| != 6 then Invalid
    else
      var slot, g, i := ParseSlot(f[2]), ParseIdentifier(f[3]), ParseIdentifier(f[4]);
      if slot.Some? && g.Some? && i.Some? then StoreCandidates(slot.value, g.value, i.value, f[5]) else Invalid
  }

  function ParseHistory(f: seq<Bytes>, append: bool): Request {
    if |f| != 4 then Invalid
    else
      match ParseIdentifier(f[2])
      case Some(g) => WriteHistory(append, g, f[3])
      case None => Invalid
  }

  function ParsePlan(f: seq<Bytes>): Request {
    if |f| != 10 then Invalid
    else
      var g, limit, offset := ParseIdentifier(f[2]), ParseIdentifier(f[8]), CanonicalSpec(f[9]);
      if g.Some? && limit.Some? && offset.Some? then
        match ParseLayout(History, f[3], f[4], f[5], f[6], f[7], false, offset.value)
        case Some(params) => PlanHistory(g.value, limit.value, params)
        case None => Invalid
      else Invalid
  }

  function ParseCompletion(f: seq<Bytes>): Request {
    if |f| != 7 then Invalid
    else
      var g, offset, selected := ParseIdentifier(f[2]), ParseReference(f[3]), ParsePositive(f[4]);
      var rows, width := ParsePositive(f[5]), ParsePositive(f[6]);
      if g.Some? && offset.Some? && selected.Some? && rows.Some? && width.Some?
      then Complete(g.value, offset.value, selected.value, rows.value, width.value)
      else Invalid
  }

  function ParseRequest(f: seq<Bytes>): Request {
    if f == [] then Invalid
    else if f[0] == Ascii("namespace-snapshot") then if |f| == 3 then SnapshotNamespace(f[2]) else Invalid
    else if f[0] == Ascii("store") then ParseStore(f)
    else if f[0] == Ascii("history-snapshot") then ParseHistory(f, false)
    else if f[0] == Ascii("history-append") then ParseHistory(f, true)
    else if f[0] == Ascii("plan") then ParsePlan(f)
    else if f[0] == Ascii("completion") then ParseCompletion(f)
    else Invalid
  }

  function ParseInput(f: seq<Bytes>, now: nat): Option<Input> {
    if |f| != 13 then None
    else
      var g, c, delay := ParseIdentifier(f[1]), ParseReference(f[2]), ParseDelay(f[3]);
      var trailing, comments := ParseBool(f[10]), ParseBool(f[12]);
      if g.Some? && c.Some? && delay.Some? && trailing.Some? && comments.Some? then
        match ParseLayout(Compsys, f[5], f[6], f[7], f[8], f[9], trailing.value, 0)
        case Some(params) =>
          Some(Input(g.value, c.value, f[4], f[11], comments.value, params, None,
                     if delay.value == 0 then None else Some(now + delay.value)))
        case None => None
      else None
  }

  function NamesOf(payload: Bytes): Option<set<Bytes>> {
    match Framing.DecodeSpec(payload)
    case Ok(names) => Some(set name | name in names)
    case Err(_) => None
  }

  function ParseNamespace(payload: Bytes): Option<Namespace> {
    match Framing.DecodeSpec(payload)
    case Ok(f) =>
      if |f| != 5 then None
      else
        var a, b, c, d := NamesOf(f[0]), NamesOf(f[1]), NamesOf(f[2]), NamesOf(f[3]);
        if a.Some? && b.Some? && c.Some? && d.Some?
        then Some(Namespace(a.value, b.value, c.value, d.value, f[4]))
        else None
    case Err(_) => None
  }

  /** `record::parse`, with what it promises in the type. */
  function ParseStored(payload: Bytes): Option<Stored> {
    match ParsePayload(payload)
    case Ok(source) => ParsedIsSane(payload); Some(source)
    case Err(_) => None
  }

  // ----- Settling -----

  function DirFrom(o: Outside, cwd: Bytes): Bytes -> bool { path => o.isDir(cwd, path) }

  function NoDir(): Bytes -> bool { path => false }

  function PlanBody(o: Outside, p: Screen, source: Stored, isDir: Bytes -> bool, selected: nat): Bytes {
    o.planner(p, source, isDir, selected)
  }

  function Settling(o: Outside, input: Input, found: Option<Stored>, cause: Cause): Event {
    match found
    case Some(source) =>
      PlanReady(input.generation, PlanBody(o, input.params, source, DirFrom(o, input.cwd), 0), cause)
    case None => CaptureRequired(input.generation, cause)
  }

  /** Settles the current input against one generation, with exactly one event. */
  function SettleAgainst(o: Outside, s: Session, generation: nat, cause: Cause): Step {
    match s.input
    case None => Step(s, [])
    case Some(input) =>
      var found := if generation == 0 then None else s.slots.Find(generation);
      var settled := input.(expiry := None, resolved := if found.Some? then Some(generation) else None);
      Step(s.(input := Some(settled)), [Settling(o, settled, found, cause)])
  }

  /** A quiet period that has run out by `now`. */
  predicate Due(s: Session, now: nat) {
    s.input.Some? && s.input.value.expiry.Some? && s.input.value.expiry.value <= now
  }

  function SettleExpired(o: Outside, s: Session, now: nat): Step {
    if Due(s, now) then SettleAgainst(o, s, s.input.value.candidateGeneration, Quiet) else Step(s, [])
  }

  // ----- Notifications -----

  function HighlightOf(o: Outside, s: Session, input: Input): seq<Event> {
    match s.namespace
    case None => []
    case Some(names) =>
      [Highlight(input.generation,
                 if input.buffer == [] then Ascii("0") + [NUL]
                 else o.highlight(names, input.cwd, input.interactiveComments, input.buffer))]
  }

  predicate Newer(s: Session, input: Input) {
    s.input.Some? ==> s.input.value.generation < input.generation
  }

  predicate SettlesNow(s: Session, input: Input) {
    || input.expiry.None?
    || (input.candidateGeneration != 0 && s.slots.Find(input.candidateGeneration).Some?)
  }

  function AcceptInput(o: Outside, s: Session, fields: seq<Bytes>, now: nat): Result<Step, Error> {
    match ParseInput(fields, now)
    case None => Err(Protocol)
    case Some(input) =>
      if !Newer(s, input) then Err(Protocol)
      else
        var held := s.(input := Some(input));
        if SettlesNow(s, input) then
          var settled := SettleAgainst(o, held, input.candidateGeneration, Accepted);
          Ok(Step(settled.session, HighlightOf(o, s, input) + settled.log))
        else Ok(Step(held, HighlightOf(o, s, input)))
  }

  function AcceptFlush(o: Outside, s: Session, fields: seq<Bytes>): Result<Step, Error> {
    if |fields| != 2 || ParseIdentifier(fields[1]).None? then Err(Protocol)
    else if s.input.Some? && s.input.value.expiry.Some? && Some(s.input.value.generation) == ParseIdentifier(fields[1]) then
      Ok(SettleAgainst(o, s, s.input.value.candidateGeneration, Flush))
    else Ok(Step(s, []))
  }

  // ----- Answers to requests -----

  const INVALID_REQUEST: string := "invalid-request"
  const INVALID_PAYLOAD: string := "invalid-payload"
  const SUPERSEDED: string := "superseded"
  const UNKNOWN_GENERATION: string := "unknown-generation"

  /** The session after a request, its answer, and the generation to settle against when it was a store. */
  datatype Answer = Answer(session: Session, result: Result<Bytes, string>, settle: Option<nat>)

  predicate Binds(s: Session, inputGeneration: nat) {
    s.input.Some? && s.input.value.generation == inputGeneration
  }

  function AnswerStore(s: Session, slot: Slot, generation: nat, inputGeneration: nat, payload: Bytes): Answer {
    if !Binds(s, inputGeneration) then Answer(s, Err(SUPERSEDED), None)
    else
      match ParseStored(payload)
      case None => Answer(s, Err(INVALID_PAYLOAD), None)
      case Some(source) =>
        Answer(s.(slots := s.slots.Insert(slot, Held(generation, source))), Ok([]), Some(generation))
  }

  function HistoryWrite(append: bool, generation: nat, source: Source): Write {
    if append then Append(generation, source) else Snapshot(generation, source)
  }

  function Retain(history: Retained, w: Write): Retained
    requires Sane(w.records)
  {
    CappedKeepsSane(history, w);
    Capped(history, w)
  }

  function AnswerHistory(s: Session, append: bool, generation: nat, payload: Bytes): Answer {
    match ParseStored(payload)
    case None => Answer(s, Err(INVALID_PAYLOAD), None)
    case Some(source) =>
      var w := HistoryWrite(append, generation, source);
      if Accepts(s.history.stamp, w) then Answer(s.(history := Retain(s.history, w)), Ok([]), None)
      else Answer(s, Err(UNKNOWN_GENERATION), None)
  }

  function AnswerCompletion(o: Outside, s: Session, inputGeneration: nat, offset: nat,
                            selected: Positive, rows: Positive, width: Positive): Result<Bytes, string>
  {
    if !Binds(s, inputGeneration) then Err(SUPERSEDED)
    else
      var input := s.input.value;
      var found := if input.resolved.Some? then s.slots.Find(input.resolved.value) else None;
      if found.None? then Err(UNKNOWN_GENERATION)
      else
        Ok(PlanBody(o, input.params.(offset := offset, rows := rows, width := width), found.value,
                    DirFrom(o, input.cwd), selected))
  }

  function WindowFor(history: Retained, limit: nat): Stored {
    WindowIsSane(history.entries, limit);
    WindowOf(history.entries, limit)
  }

  function AnswerPlan(o: Outside, s: Session, generation: nat, limit: nat, params: Screen): Result<Bytes, string> {
    if s.history.stamp != Some(generation) then Err(UNKNOWN_GENERATION)
    else Ok(PlanBody(o, params, WindowFor(s.history, limit), NoDir(), 0))
  }

  function AnswerTo(o: Outside, s: Session, request: Request): Answer {
    match request
    case Invalid => Answer(s, Err(INVALID_REQUEST), None)
    case SnapshotNamespace(payload) =>
      (match ParseNamespace(payload)
       case None => Answer(s, Err(INVALID_PAYLOAD), None)
       case Some(names) => Answer(s.(namespace := Some(names)), Ok([]), None))
    case StoreCandidates(slot, generation, inputGeneration, payload) =>
      AnswerStore(s, slot, generation, inputGeneration, payload)
    case WriteHistory(append, generation, payload) => AnswerHistory(s, append, generation, payload)
    case Complete(inputGeneration, offset, selected, rows, width) =>
      Answer(s, AnswerCompletion(o, s, inputGeneration, offset, selected, rows, width), None)
    case PlanHistory(generation, limit, params) => Answer(s, AnswerPlan(o, s, generation, limit, params), None)
  }

  function ReplyOf(id: Bytes, result: Result<Bytes, string>): Event {
    match result
    case Ok(body) => Reply(true, id, body)
    case Err(code) => Reply(false, id, Code(code))
  }

  function Code(code: string): Bytes {
    seq(|code|, i requires 0 <= i < |code| => if code[i] as int < 128 then code[i] as int as byte else 0)
  }

  function ProcessRequest(o: Outside, s: Session, fields: seq<Bytes>): Result<Step, Error> {
    if |fields| < 2 || ParseIdentifier(fields[1]).None? then Err(Protocol)
    else
      var answer := AnswerTo(o, s, ParseRequest(fields));
      var reply := ReplyOf(fields[1], answer.result);
      match answer.settle
      case None => Ok(Step(answer.session, [reply]))
      case Some(generation) =>
        var settled := SettleAgainst(o, answer.session, generation, Store);
        Ok(Step(settled.session, [reply] + settled.log))
  }

  // ----- Messages -----

  datatype World = World(ready: bool, session: Session)

  const START: World := World(false, FRESH)

  /** What one or more messages did; `stop` is set when the session is over. */
  datatype Turn = Turn(world: World, log: seq<Event>, stop: Option<Result<End, Error>>)

  function ProcessHello(o: Outside, w: World, fields: seq<Bytes>): Turn {
    if |fields| != 2 || fields[0] != Ascii("hello") || !IsBuildStamp(fields[1]) then
      Turn(w, [], Some(Err(Protocol)))
    else if fields[1] != o.stamp then
      Turn(w, [Incompatible(o.stamp)], Some(Ok(End.Rejected)))
    else
      Turn(w.(ready := true), [Ready(o.stamp)], None)
  }

  function Dispatch(o: Outside, s: Session, fields: seq<Bytes>, now: nat): Result<Step, Error> {
    if fields != [] && fields[0] == Ascii("input") then AcceptInput(o, s, fields, now)
    else if fields != [] && fields[0] == Ascii("flush") then AcceptFlush(o, s, fields)
    else ProcessRequest(o, s, fields)
  }

  function ProcessMessage(o: Outside, w: World, message: Bytes, now: nat): Turn {
    match Framing.DecodeSpec(message)
    case Err(error) => Turn(w, [], Some(Err(Framing(error))))
    case Ok(fields) =>
      if !w.ready then ProcessHello(o, w, fields)
      else
        match Dispatch(o, w.session, fields, now)
        case Err(error) => Turn(w, [], Some(Err(error)))
        case Ok(step) => Turn(w.(session := step.session), step.log, None)
  }

  /** A message is handled after any quiet period that ran out before it. */
  function Handle(o: Outside, w: World, message: Bytes, now: nat): Turn {
    var due := SettleExpired(o, w.session, now);
    var turn := ProcessMessage(o, w.(session := due.session), message, now);
    turn.(log := due.log + turn.log)
  }

  /** Messages of one chunk in order, up to the one that ends the session; the clock is read once for each. */
  function HandleAll(o: Outside, w: World, messages: seq<Bytes>, clock: nat -> nat, tick: nat): Turn
    decreases |messages|
  {
    hide *;
    if messages == [] then Turn(w, [], None)
    else
      var first := Handle(o, w, messages[0], clock(tick));
      if first.stop.Some? then first
      else
        var rest := HandleAll(o, first.world, messages[1..], clock, tick + 1);
        rest.(log := first.log + rest.log)
  }

  // ----- Whole runs -----

  /** What one wait on the input gave: some bytes, or a wake-up at the deadline. The script's end is the end of input. */
  datatype Wait = Data(bytes: Bytes) | Expired

  datatype Run = Run(log: seq<Event>, result: Result<End, Error>)

  function Closing(decoder: Framing.State): Result<End, Error> {
    match Framing.Ending(decoder)
    case None => Ok(Eof)
    case Some(error) => Err(Framing(error))
  }

  function RunFrom(o: Outside, w: World, decoder: Framing.State, script: seq<Wait>, clock: nat -> nat, tick: nat): Run
    decreases |script|
  {
    if script == [] then Run([], Closing(decoder))
    else
      match script[0]
      case Expired =>
        var due := SettleExpired(o, w.session, clock(tick));
        var rest := RunFrom(o, w.(session := due.session), decoder, script[1..], clock, tick + 1);
        rest.(log := due.log + rest.log)
      case Data(bytes) =>
        var read := Framing.Consume(decoder, bytes);
        var turn := HandleAll(o, w, read.frames, clock, tick);
        if turn.stop.Some? then Run(turn.log, turn.stop.value)
        else if read.error.Some? then Run(turn.log, Err(Framing(read.error.value)))
        else
          var rest := RunFrom(o, turn.world, read.state, script[1..], clock, tick + |read.frames|);
          rest.(log := turn.log + rest.log)
  }
}
