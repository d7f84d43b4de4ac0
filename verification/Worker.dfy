/** The worker of src/worker.rs as it runs: a session updated in place, a decoder, and an output stream. */
module Worker {
  import opened Bytes
  import opened Decimals
  import opened Records
  import opened Histories
  import opened Sessions
  import Framing

  // ----- Output -----

  function FieldsOf(e: Event): seq<Bytes> {
    match e
    case Ready(stamp) => [Code("ready"), stamp]
    case Incompatible(stamp) => [Code("incompatible"), stamp]
    case Reply(ok, id, body) => [Code(if ok then "ok" else "error"), id, body]
    case Highlight(generation, body) => [Code("syntax-highlight"), Digits(generation), body]
    case PlanReady(generation, body, _) => [Code("plan-ready"), Digits(generation), body]
    case CaptureRequired(generation, _) => [Code("capture-required"), Digits(generation)]
  }

  /** What is written for a log: each event's fields framed, and framed again as one message. */
  function MessagesOf(log: seq<Event>): (r: seq<Bytes>)
    ensures |r| == |log|
  {
    seq(|log|, i requires 0 <= i < |log| => Framing.EncodeAll(FieldsOf(log[i])))
  }

  function Written(log: seq<Event>): Bytes { Framing.EncodeAll(MessagesOf(log)) }

  /** A client reading the stream gets the events back: whole messages, in order, with their fields. */
  lemma OutputReadsBack(log: seq<Event>)
    requires Framing.Sized(MessagesOf(log)) && forall i :: 0 <= i < |log| ==> Framing.Sized(FieldsOf(log[i]))
    ensures Framing.DecodeSpec(Written(log)) == Ok(MessagesOf(log))
    ensures forall i :: 0 <= i < |log| ==> Framing.DecodeSpec(MessagesOf(log)[i]) == Ok(FieldsOf(log[i]))
  {
    hide FieldsOf, Framing.DecodeSpec, Framing.EncodeAll, Framing.Sized;
    Framing.DecodeIffEncoded(Written(log), MessagesOf(log));
    forall i | 0 <= i < |log|
      ensures Framing.DecodeSpec(MessagesOf(log)[i]) == Ok(FieldsOf(log[i]))
    {
      Framing.DecodeIffEncoded(MessagesOf(log)[i], FieldsOf(log[i]));
    }
  }

  lemma WrittenGrows(log: seq<Event>, e: Event)
    ensures Written(log + [e]) == Written(log) + Framing.Encode(Framing.EncodeAll(FieldsOf(e)))
  {
    hide FieldsOf, Framing.Encode;
    var one := [Framing.EncodeAll(FieldsOf(e))];
    assert MessagesOf(log + [e]) == MessagesOf(log) + one;
    Framing.EncodeAllConcat(MessagesOf(log), one);
    Framing.EncodeAllSmall(one[0]);
  }

  /** The stream written to, with the log of events it stands for. */
  class Output {
    var written: Bytes
    ghost var log: seq<Event>

    ghost predicate Valid()
      reads this
    {
      written == Written(log)
    }

    constructor ()
      ensures Valid() && log == []
    {
      written, log := [], [];
    }

    /** `write_message`. */
    method WriteMessage(e: Event)
      requires Valid()
      modifies this
      ensures Valid() && log == old(log) + [e]
    {
      hide Written, FieldsOf, Framing.Encode, Framing.EncodeAll;
      var fields := FieldsOf(e);
      var payload: Bytes := [];
      Framing.EncodeAllSmall([]);
      assert fields[..0] == [];
      for i := 0 to |fields|
        invariant payload == Framing.EncodeAll(fields[..i])
        invariant unchanged(this)
      {
        assert fields[..i + 1] == fields[..i] + [fields[i]];
        Framing.EncodeAllConcat(fields[..i], [fields[i]]);
        Framing.EncodeAllSmall(fields[i]);
        payload := payload + Framing.Encode(fields[i]);
      }
      assert fields[..|fields|] == fields;
      WrittenGrows(log, e);
      written := written + Framing.Encode(payload);
      log := log + [e];
    }
  }

  // ----- The candidate store -----

  const SLOT_COUNT: nat := 2

  function SlotIndex(slot: Slot): (i: nat)
    ensures i < SLOT_COUNT
  {
    match slot
    case Live => 0
    case Cache => 1
  }

  class CandidateStore {
    const slots: array<Option<Held>>

    ghost predicate Valid() { slots.Length == SLOT_COUNT }

    ghost function Value(): Slots
      requires Valid()
      reads slots
    {
      Slots(slots[0], slots[1])
    }

    constructor ()
      ensures Valid() && fresh(slots) && Value() == Slots(None, None)
    {
      slots := new Option<Held>[SLOT_COUNT](_ => None);
    }

    /** Replaces one slot's generation, leaving the other untouched. */
    method Insert(slot: Slot, generation: nat, stored: Stored)
      requires Valid()
      modifies slots
      ensures Value() == old(Value()).Insert(slot, Held(generation, stored))
    {
      slots[SlotIndex(slot)] := Some(Held(generation, stored));
    }

    /** Looks a generation up across every slot, in slot order. */
    method Find(generation: nat) returns (r: Option<Stored>)
      requires Valid()
      ensures r == Value().Find(generation)
    {
      for i := 0 to SLOT_COUNT
        invariant forall j :: 0 <= j < i ==> !(slots[j].Some? && slots[j].value.generation == generation)
      {
        if slots[i].Some? && slots[i].value.generation == generation {
          return Some(slots[i].value.source);
        }
      }
      return None;
    }
  }

  // ----- The session -----

  lemma SettleWritesOne(o: Outside, s: Session, generation: nat)
    requires s.input.Some?
    ensures |Sessions.SettleAgainst(o, s, generation, Quiet).log| == 1
  {
  }

  class LiveSession {
    var namespace: Option<Namespace>
    const store: CandidateStore
    const history: HistoryIndex
    var input: Option<Input>

    ghost predicate Valid()
      reads this, history
    {
      store.Valid() && SaneEntries(history.entries) && |history.entries| <= RETENTION_CAP
    }

    ghost function Value(): Session
      requires Valid()
      reads this, store.slots, history
    {
      Session(namespace, store.Value(), history.Value(), input)
    }

    constructor ()
      ensures Valid() && fresh(store.slots) && fresh(history) && Value() == FRESH
    {
      namespace, input := None, None;
      store := new CandidateStore();
      history := new HistoryIndex();
    }

    method ReplaceNamespace(payload: Bytes) returns (r: Result<Bytes, string>)
      requires Valid()
      modifies `namespace
      ensures var names := ParseNamespace(payload);
              && Value() == (if names.Some? then old(Value()).(namespace := names) else old(Value()))
              && r == (if names.Some? then Ok([]) else Err(INVALID_PAYLOAD))
    {
      var snapshot := ParseNamespace(payload);
      if snapshot.None? {
        return Err(INVALID_PAYLOAD);
      }
      namespace := snapshot;
      return Ok([]);
    }
  
    method StoreCandidates(slot: Slot, generation: nat, inputGeneration: nat, payload: Bytes)
      returns (r: Result<Bytes, string>)
      requires Valid()
      modifies store.slots
      ensures var answer := AnswerStore(old(Value()), slot, generation, inputGeneration, payload);
              Valid() && Value() == answer.session && r == answer.result
    {
      hide ParseStored, SaneEntries;
      if !BindsCurrentInput(inputGeneration) {
        return Err(SUPERSEDED);
      }
      var stored := ParseStored(payload);
      if stored.None? {
        return Err(INVALID_PAYLOAD);
      }
      store.Insert(slot, generation, stored.value);
      return Ok([]);
    }

    predicate BindsCurrentInput(inputGeneration: nat)
      reads this
    {
      input.Some? && input.value.generation == inputGeneration
    }

    method WriteHistory(append: bool, generation: nat, payload: Bytes) returns (r: Result<Bytes, string>)
      requires Valid()
      modifies history
      ensures var answer := AnswerHistory(old(Value()), append, generation, payload);
              Valid() && Value() == answer.session && r == answer.result
    {
      hide ParseStored, SaneEntries, Sane, Capped;
      var stored := ParseStored(payload);
      if stored.None? {
        return Err(INVALID_PAYLOAD);
      }
      RetainIs(history.Value(), HistoryWrite(append, generation, stored.value));
      var written;
      if append {
        written := history.Prepend(generation, stored.value);
      } else {
        written := history.Install(generation, stored.value);
      }
      return if written.Err? then Err(UNKNOWN_GENERATION) else Ok([]);
    }

    method CompletionPlan(o: Outside, inputGeneration: nat, offset: nat, selected: Positive, rows: Positive, width: Positive)
      returns (r: Result<Bytes, string>)
      requires Valid()
      ensures r == AnswerCompletion(o, Value(), inputGeneration, offset, selected, rows, width)
    {
      hide Sane, SaneEntries, Slots.Find;
      if input.None? || input.value.generation != inputGeneration {
        return Err(SUPERSEDED);
      }
      if input.value.resolved.None? {
        return Err(UNKNOWN_GENERATION);
      }
      var stored := store.Find(input.value.resolved.value);
      if stored.None? {
        return Err(UNKNOWN_GENERATION);
      }
      var params := input.value.params.(offset := offset, rows := rows, width := width);
      var body := PlanBody(o, params, stored.value, DirFrom(o, input.value.cwd), selected);
      return Ok(body);
    }

    method HistoryPlan(o: Outside, generation: nat, limit: nat, params: Screen) returns (r: Result<Bytes, string>)
      requires Valid()
      ensures r == AnswerPlan(o, Value(), generation, limit, params)
    {
      hide Sane, SaneEntries, WindowOf;
      if !history.Holds(generation) {
        return Err(UNKNOWN_GENERATION);
      }
      var window := history.Window(limit);
      WindowIsSane(history.entries, limit);
      var body := PlanBody(o, params, window, NoDir(), 0);
      return Ok(body);
    }

    method SettleAgainst(o: Outside, generation: nat, cause: Cause, out: Output)
      requires Valid() && out.Valid()
      modifies `input, out
      ensures Valid() && out.Valid()
      ensures var step := Sessions.SettleAgainst(o, old(Value()), generation, cause);
              Value() == step.session && out.log == old(out.log) + step.log
    {
      hide Sane, SaneEntries, Slots.Find, Written, DirFrom;
      if input.None? {
        assert out.log + [] == out.log;
        return;
      }
      var resolved: Option<Stored> := None;
      if generation != 0 {
        resolved := store.Find(generation);
      }
      input := Some(input.value.(expiry := None, resolved := if resolved.Some? then Some(generation) else None));
      match resolved
      case Some(stored) =>
        var body := PlanBody(o, input.value.params, stored, DirFrom(o, input.value.cwd), 0);
        out.WriteMessage(PlanReady(input.value.generation, body, cause));
      case None =>
        out.WriteMessage(CaptureRequired(input.value.generation, cause));
    }

    /** When the input must be waited for no longer, if an input is pending. */
    function Deadline(): Option<nat>
      reads this
    {
      if input.Some? then input.value.expiry else None
    }

    method SettleExpired(o: Outside, now: nat, out: Output)
      requires Valid() && out.Valid()
      modifies `input, out
      ensures Valid() && out.Valid()
      ensures var step := Sessions.SettleExpired(o, old(Value()), now);
              Value() == step.session && out.log == old(out.log) + step.log
      ensures var due := old(input).Some? && old(input).value.expiry.Some? && old(input).value.expiry.value <= now;
              && |out.log| == |old(out.log)| + (if due then 1 else 0)
              && (!due ==> input == old(input))
    {
      hide Sessions.SettleAgainst, SaneEntries, Written;
      if Deadline().None? || Deadline().value > now {
        assert out.log + [] == out.log;
        return;
      }
      SettleWritesOne(o, Value(), input.value.candidateGeneration);
      SettleAgainst(o, input.value.candidateGeneration, Quiet, out);
    }

    /** The buffer of the input just accepted is analyzed on the spot, when there are names to classify against. */
    method EmitHighlight(o: Outside, out: Output)
      requires Valid() && out.Valid() && input.Some?
      modifies out
      ensures out.Valid()
      ensures out.log == old(out.log) + HighlightOf(o, Value(), input.value)
    {
      hide Written, SaneEntries;
      if namespace.None? {
        assert out.log + [] == out.log;
        return;
      }
      var current := input.value;
      var body := if current.buffer == [] then Ascii("0") + [NUL]
                  else o.highlight(namespace.value, current.cwd, current.interactiveComments, current.buffer);
      out.WriteMessage(Sessions.Highlight(current.generation, body));
    }

    /** An accepted input replaces the current one whole; it settles at once when nothing needs waiting for. */
    method AcceptInput(o: Outside, fields: seq<Bytes>, now: nat, out: Output) returns (r: Result<(), Error>)
      requires Valid() && out.Valid()
      modifies `input, out
      ensures Valid() && out.Valid()
      ensures match Sessions.AcceptInput(o, old(Value()), fields, now)
              case Ok(step) => r == Ok(()) && Value() == step.session && out.log == old(out.log) + step.log
              case Err(error) => r == Err(error) && Value() == old(Value()) && out.log == old(out.log)
    {
      hide Sessions.SettleAgainst, Sessions.HighlightOf, ParseInput, SaneEntries, Written, Slots.Find;
      var parsed := ParseInput(fields, now);
      if parsed.None? {
        return Err(Protocol);
      }
      var accepted := parsed.value;
      if input.Some? && accepted.generation <= input.value.generation {
        return Err(Protocol);
      }
      ghost var before := Value();
      ghost var log := out.log;
      var generation := accepted.candidateGeneration;
      var settlesNow := accepted.expiry.None?;
      if !settlesNow && generation != 0 {
        var held := store.Find(generation);
        settlesNow := held.Some?;
      }
      assert settlesNow == SettlesNow(before, accepted);
      input := Some(accepted);
      assert Value() == before.(input := Some(accepted));
      HighlightAlike(o, Value(), before, accepted);
      EmitHighlight(o, out);
      if settlesNow {
        SettleAgainst(o, generation, Accepted, out);
        ghost var settled := Sessions.SettleAgainst(o, before.(input := Some(accepted)), generation, Accepted);
        assert out.log == log + (HighlightOf(o, before, accepted) + settled.log);
      }
      return Ok(());
    }

    /** A flush cuts the quiet period short for the pending input it names, and is dropped otherwise. */
    method AcceptFlush(o: Outside, fields: seq<Bytes>, out: Output) returns (r: Result<(), Error>)
      requires Valid() && out.Valid()
      modifies `input, out
      ensures Valid() && out.Valid()
      ensures match Sessions.AcceptFlush(o, old(Value()), fields)
              case Ok(step) => r == Ok(()) && Value() == step.session && out.log == old(out.log) + step.log
              case Err(error) => r == Err(error) && Value() == old(Value()) && out.log == old(out.log)
    {
      hide Sessions.SettleAgainst, ParseIdentifier, SaneEntries, Written;
      if |fields| != 2 {
        return Err(Protocol);
      }
      var generation := ParseIdentifier(fields[1]);
      if generation.None? {
        return Err(Protocol);
      }
      if input.Some? && input.value.expiry.Some? && input.value.generation == generation.value {
        SettleAgainst(o, input.value.candidateGeneration, Flush, out);
      } else {
        assert out.log + [] == out.log;
      }
      return Ok(());
    }

    /** Answers a request; a store's answer is followed at once by the event it settles the input with. */
    method ProcessRequest(o: Outside, fields: seq<Bytes>, out: Output) returns (r: Result<(), Error>)
      requires Valid() && out.Valid()
      modifies this, store.slots, history, out
      ensures Valid() && out.Valid()
      ensures match Sessions.ProcessRequest(o, old(Value()), fields)
              case Ok(step) => r == Ok(()) && Value() == step.session && out.log == old(out.log) + step.log
              case Err(error) => r == Err(error) && Value() == old(Value()) && out.log == old(out.log)
    {
      hide Sessions.SettleAgainst, ParseIdentifier, ParseRequest, SaneEntries, Written, AnswerStore, AnswerHistory,
           AnswerCompletion, AnswerPlan, ParseNamespace, ReplyOf, Capped;
      if |fields| < 2 || ParseIdentifier(fields[1]).None? {
        return Err(Protocol);
      }
      ghost var before := Value();
      ghost var log := out.log;
      var settle: Option<nat> := None;
      var result: Result<Bytes, string>;
      match ParseRequest(fields) {
      case Invalid => result := Err(INVALID_REQUEST);
      case SnapshotNamespace(payload) => result := ReplaceNamespace(payload);
      case StoreCandidates(slot, generation, inputGeneration, payload) =>
        result := StoreCandidates(slot, generation, inputGeneration, payload);
        StoreSettles(before, slot, generation, inputGeneration, payload);
        if result.Ok? {
          settle := Some(generation);
        }
      case WriteHistory(append, generation, payload) =>
        result := WriteHistory(append, generation, payload);
        HistorySettlesNothing(before, append, generation, payload);
      case Complete(inputGeneration, offset, selected, rows, width) =>
        result := CompletionPlan(o, inputGeneration, offset, selected, rows, width);
      case PlanHistory(generation, limit, params) =>
        result := HistoryPlan(o, generation, limit, params);
      }
      assert AnswerTo(o, before, ParseRequest(fields)) == Answer(Value(), result, settle);
      out.WriteMessage(ReplyOf(fields[1], result));
      if settle.Some? {
        ghost var answered := Value();
        SettleAgainst(o, settle.value, Store, out);
        ghost var settled := Sessions.SettleAgainst(o, answered, settle.value, Store);
        assert out.log == log + ([ReplyOf(fields[1], result)] + settled.log);
      }
      return Ok(());
    }
  }

  lemma HighlightAlike(o: Outside, s: Session, t: Session, input: Input)
    requires s.namespace == t.namespace
    ensures HighlightOf(o, s, input) == HighlightOf(o, t, input)
  {
  }

  lemma StoreSettles(s: Session, slot: Slot, generation: nat, inputGeneration: nat, payload: Bytes)
    ensures var answer := AnswerStore(s, slot, generation, inputGeneration, payload);
            answer.settle == if answer.result.Ok? then Some(generation) else None
  {
    hide ParseStored;
  }

  lemma HistorySettlesNothing(s: Session, append: bool, generation: nat, payload: Bytes)
    ensures AnswerHistory(s, append, generation, payload).settle == None
  {
    hide ParseStored, Retain;
  }

  lemma RetainIs(history: Retained, w: Write)
    requires Sane(w.records)
    ensures Retain(history, w) == Capped(history, w)
    ensures SaneEntries(Capped(history, w).entries) && |Capped(history, w).entries| <= RETENTION_CAP
    ensures !Accepts(history.stamp, w) ==> Capped(history, w) == history
  {
    CappedKeepsSane(history, w);
  }

  // ----- Messages -----

  datatype MessageResult = Continue | Rejecting

  function StopOf(r: Result<MessageResult, Error>): Option<Result<End, Error>> {
    match r
    case Ok(Continue) => None
    case Ok(Rejecting) => Some(Ok(End.Rejected))
    case Err(error) => Some(Err(error))
  }

  method ProcessHello(o: Outside, fields: seq<Bytes>, ready: bool, out: Output)
    returns (r: Result<MessageResult, Error>, nowReady: bool)
    requires out.Valid()
    modifies out
    ensures out.Valid()
    ensures forall s :: var turn := Sessions.ProcessHello(o, World(ready, s), fields);
              && out.log == old(out.log) + turn.log && StopOf(r) == turn.stop
              && turn.world == World(nowReady, s)
  {
    hide Written;
    assert out.log + [] == out.log;
    if |fields| != 2 || fields[0] != Ascii("hello") || !IsBuildStamp(fields[1]) {
      return Err(Protocol), ready;
    }
    if fields[1] != o.stamp {
      out.WriteMessage(Incompatible(o.stamp));
      return Ok(Rejecting), ready;
    }
    out.WriteMessage(Ready(o.stamp));
    return Ok(Continue), true;
  }

  method ProcessMessage(o: Outside, message: Bytes, now: nat, ready: bool, session: LiveSession, out: Output)
    returns (r: Result<MessageResult, Error>, nowReady: bool)
    requires session.Valid() && out.Valid()
    modifies session, session.store.slots, session.history, out
    ensures session.Valid() && out.Valid()
    ensures var turn := Sessions.ProcessMessage(o, World(ready, old(session.Value())), message, now);
            && out.log == old(out.log) + turn.log && StopOf(r) == turn.stop
            && turn.world == World(nowReady, session.Value())
  {
    hide Written, Framing.DecodeSpec, Sessions.AcceptInput, Sessions.AcceptFlush, Sessions.ProcessRequest, SaneEntries,
         Sessions.ProcessHello;
    nowReady := ready;
    assert out.log + [] == out.log;
    var decoded := Framing.DecodeStream(message);
    if decoded.Err? {
      return Err(Framing(decoded.error)), ready;
    }
    var fields := decoded.value;
    if !ready {
      ghost var before := session.Value();
      r, nowReady := ProcessHello(o, fields, ready, out);
      ghost var turn := Sessions.ProcessHello(o, World(ready, before), fields);
      return;
    }
    var done: Result<(), Error>;
    if fields != [] && fields[0] == Ascii("input") {
      done := session.AcceptInput(o, fields, now, out);
    } else if fields != [] && fields[0] == Ascii("flush") {
      done := session.AcceptFlush(o, fields, out);
    } else {
      done := session.ProcessRequest(o, fields, out);
    }
    return if done.Ok? then Ok(Continue) else Err(done.error), ready;
  }

  // ----- The event loop -----

  /** The input as a script of waits, and a clock read once a call. */
  class Source {
    const script: seq<Wait>
    const clock: nat -> nat
    var at: nat
    var tick: nat

    constructor (script: seq<Wait>, clock: nat -> nat)
      ensures this.script == script && this.clock == clock && at == 0 && tick == 0
    {
      this.script, this.clock, at, tick := script, clock, 0, 0;
    }

    /** `None` is the end of input. What the script holds decides whether the deadline is met. */
    method ReadUntil(deadline: Option<nat>) returns (wait: Option<Wait>)
      requires at <= |script|
      modifies `at
      ensures old(at) == |script| ==> wait == None && at == old(at)
      ensures old(at) < |script| ==> wait == Some(script[old(at)]) && at == old(at) + 1
    {
      if at == |script| {
        return None;
      }
      at := at + 1;
      return Some(script[at - 1]);
    }

    method Now() returns (now: nat)
      modifies `tick
      ensures now == clock(old(tick)) && tick == old(tick) + 1
    {
      now := clock(tick);
      tick := tick + 1;
    }
  }

  /** Reports an expiry that came due while earlier messages were handled, then handles this one. */
  method HandleMessage(o: Outside, message: Bytes, now: nat, ready: bool, session: LiveSession, out: Output)
    returns (r: Result<MessageResult, Error>, nowReady: bool)
    requires session.Valid() && out.Valid()
    modifies session, session.store.slots, session.history, out
    ensures session.Valid() && out.Valid()
    ensures var turn := Handle(o, World(ready, old(session.Value())), message, now);
            && out.log == old(out.log) + turn.log && StopOf(r) == turn.stop
            && turn.world == World(nowReady, session.Value())
  {
    hide Written, Sessions.ProcessMessage, Sessions.SettleExpired, SaneEntries, LiveSession.Value;
    session.SettleExpired(o, now, out);
    r, nowReady := ProcessMessage(o, message, now, ready, session, out);
  }

  /** Delivers the messages of one chunk, each behind any quiet period that ran out before it. */
  method DeliverMessages(o: Outside, messages: seq<Bytes>, ready: bool, session: LiveSession, source: Source, out: Output)
    returns (stop: Option<Result<End, Error>>, nowReady: bool)
    requires session.Valid() && out.Valid()
    modifies session, session.store.slots, session.history, out, source`tick
    ensures session.Valid() && out.Valid()
    ensures var turn := HandleAll(o, World(ready, old(session.Value())), messages, source.clock, old(source.tick));
            && out.log == old(out.log) + turn.log && stop == turn.stop
            && turn.world == World(nowReady, session.Value())
            && (stop.None? ==> source.tick == old(source.tick) + |messages|)
  {
    hide Written, Handle, SaneEntries, HandleAll, LiveSession.Value, LiveSession.Valid, Output.Valid;
    nowReady := ready;
    ghost var start := World(ready, session.Value());
    ghost var whole := HandleAll(o, start, messages, source.clock, source.tick);
    ghost var log: seq<Event> := [];
    var first := source.tick;
    assert messages[0..] == messages && out.log + [] == out.log && [] + whole.log == whole.log;
    for i := 0 to |messages|
      invariant session.Valid() && out.Valid()
      invariant source.tick == first + i && out.log == old(out.log) + log
      invariant Appended(log, HandleAll(o, World(nowReady, session.Value()), messages[i..], source.clock, first + i)) == whole
    {
      ghost var w := World(nowReady, session.Value());
      var now := source.Now();
      HandleNext(o, w, messages[i..], source.clock, first + i, log);
      assert messages[i..][0] == messages[i] && messages[i..][1..] == messages[i + 1..];
      var r;
      r, nowReady := HandleMessage(o, messages[i], now, nowReady, session, out);
      log := log + Handle(o, w, messages[i], now).log;
      if StopOf(r).Some? {
        return StopOf(r), nowReady;
      }
    }
    stop := None;
    assert messages[|messages|..] == [];
    HandleNothing(o, World(nowReady, session.Value()), source.clock, first + |messages|, log);
  }

  ghost function Appended(log: seq<Event>, turn: Turn): Turn { turn.(log := log + turn.log) }

  lemma HandleNext(o: Outside, w: World, messages: seq<Bytes>, clock: nat -> nat, tick: nat, log: seq<Event>)
    requires messages != []
    ensures var first := Handle(o, w, messages[0], clock(tick));
            Appended(log, HandleAll(o, w, messages, clock, tick))
            == if first.stop.Some? then Appended(log, first)
               else Appended(log + first.log, HandleAll(o, first.world, messages[1..], clock, tick + 1))
  {
    hide Handle;
    var first := Handle(o, w, messages[0], clock(tick));
    if first.stop.None? {
      var rest := HandleAll(o, first.world, messages[1..], clock, tick + 1);
      assert log + (first.log + rest.log) == (log + first.log) + rest.log;
    }
  }

  lemma HandleNothing(o: Outside, w: World, clock: nat -> nat, tick: nat, log: seq<Event>)
    ensures Appended(log, HandleAll(o, w, [], clock, tick)) == Turn(w, log, None)
  {
    assert log + [] == log;
  }

  ghost function Prefixed(log: seq<Event>, run: Run): Run { run.(log := log + run.log) }

  /** One wait of the event loop, seen from the log written so far. */
  lemma RunNext(o: Outside, w: World, decoder: Framing.State, script: seq<Wait>, clock: nat -> nat, tick: nat, log: seq<Event>)
    ensures script == [] ==>
              Prefixed(log, RunFrom(o, w, decoder, script, clock, tick)) == Run(log, Closing(decoder))
    ensures script != [] && script[0].Expired? ==>
              var due := SettleExpired(o, w.session, clock(tick));
              Prefixed(log, RunFrom(o, w, decoder, script, clock, tick))
              == Prefixed(log + due.log, RunFrom(o, w.(session := due.session), decoder, script[1..], clock, tick + 1))
    ensures script != [] && script[0].Data? ==>
              var read := Framing.Consume(decoder, script[0].bytes);
              var turn := HandleAll(o, w, read.frames, clock, tick);
              Prefixed(log, RunFrom(o, w, decoder, script, clock, tick))
              == if turn.stop.Some? then Run(log + turn.log, turn.stop.value)
                 else if read.error.Some? then Run(log + turn.log, Err(Framing(read.error.value)))
                 else Prefixed(log + turn.log, RunFrom(o, turn.world, read.state, script[1..], clock, tick + |read.frames|))
  {
    hide SettleExpired, HandleAll, Framing.Consume, Closing;
    assert log + [] == log;
    if script != [] {
      match script[0]
      case Expired =>
        var due := SettleExpired(o, w.session, clock(tick));
        var rest := RunFrom(o, w.(session := due.session), decoder, script[1..], clock, tick + 1);
        assert log + (due.log + rest.log) == (log + due.log) + rest.log;
      case Data(bytes) =>
        var read := Framing.Consume(decoder, bytes);
        var turn := HandleAll(o, w, read.frames, clock, tick);
        var rest := RunFrom(o, turn.world, read.state, script[1..], clock, tick + |read.frames|);
        assert log + (turn.log + rest.log) == (log + turn.log) + rest.log;
    }
  }

  /** After a rejection the rest of the input is read and dropped. */
  method DiscardRequests(source: Source)
    requires source.at <= |source.script|
    modifies source`at
    ensures source.at <= |source.script|
  {
    var wait := source.ReadUntil(None);
    while wait.Some? && wait.value.Data?
      invariant source.at <= |source.script|
      decreases |source.script| - source.at + (if wait.Some? then 1 else 0)
    {
      wait := source.ReadUntil(None);
    }
  }

  /** What one chunk of input comes to: how the run ends, if it does. */
  ghost function ChunkEnd(turn: Turn, read: Framing.Outcome): Option<Result<End, Error>> {
    if turn.stop.Some? then turn.stop
    else if read.error.Some? then Some(Err(Framing(read.error.value)))
    else None
  }

  /** Feeds one chunk and delivers its messages; an error of the decoder ends the run behind them. */
  method DeliverChunk(o: Outside, bytes: Bytes, ready: bool, decoder: Framing.Decoder, session: LiveSession,
                      source: Source, out: Output)
    returns (end: Option<Result<End, Error>>, nowReady: bool)
    requires session.Valid() && out.Valid() && Framing.Valid(decoder.state) && source.at <= |source.script|
    modifies decoder, session, session.store.slots, session.history, out, source
    ensures session.Valid() && out.Valid() && Framing.Valid(decoder.state)
    ensures source.at <= |source.script|
    ensures var read := Framing.Consume(old(decoder.state), bytes);
            var turn := HandleAll(o, World(ready, old(session.Value())), read.frames, source.clock, old(source.tick));
            && out.log == old(out.log) + turn.log && end == ChunkEnd(turn, read)
            && (end.None? ==>
                  && turn.world == World(nowReady, session.Value()) && decoder.state == read.state
                  && source.at == old(source.at) && source.tick == old(source.tick) + |read.frames|)
  {
    hide Written, Handle, SaneEntries, HandleAll, LiveSession.Value, LiveSession.Valid, Output.Valid,
         Framing.Consume, Framing.Valid;
    var fed := decoder.Feed(bytes);
    var messages := if fed.Ok? then fed.value else fed.error.completed;
    var stop;
    stop, nowReady := DeliverMessages(o, messages, ready, session, source, out);
    if stop.Some? {
      if stop == Some(Ok(End.Rejected)) {
        DiscardRequests(source);
      }
      return stop, nowReady;
    }
    end := if fed.Err? then Some(Err(Framing(fed.error.error))) else None;
  }

  /** `run`: what it writes and how it ends are those of the state machine. */
  method RunSession(o: Outside, source: Source, out: Output) returns (r: Result<End, Error>)
    requires source.at == source.tick == 0 && out.Valid() && out.log == []
    modifies source, out
    ensures out.Valid()
    ensures RunFrom(o, START, Framing.START, source.script, source.clock, 0) == Run(out.log, r)
  {
    hide Written, Handle, SaneEntries, HandleAll, LiveSession.Value, LiveSession.Valid, Output.Valid, RunFrom,
         Framing.Consume, Framing.Valid, Sessions.SettleExpired;
    var decoder := new Framing.Decoder();
    Framing.StartIsValid();
    var session := new LiveSession();
    var ready := false;
    ghost var whole := RunFrom(o, START, Framing.START, source.script, source.clock, 0);
    assert source.script[0..] == source.script && [] + whole.log == whole.log;
    while true
      invariant source.at <= |source.script|
      invariant fresh(decoder) && fresh(session) && fresh(session.store.slots) && fresh(session.history)
      invariant session.Valid() && out.Valid() && Framing.Valid(decoder.state)
      invariant Prefixed(out.log, RunFrom(o, World(ready, session.Value()), decoder.state, source.script[source.at..],
                                          source.clock, source.tick)) == whole
      decreases |source.script| - source.at
    {
      ghost var at, w, state, tick := source.at, World(ready, session.Value()), decoder.state, source.tick;
      RunNext(o, w, state, source.script[at..], source.clock, tick, out.log);
      var wait := source.ReadUntil(session.Deadline());
      if wait.None? {
        var finished := decoder.Finish();
        return if finished.Err? then Err(Framing(finished.error)) else Ok(Eof);
      }
      assert source.script[at..][0] == wait.value && source.script[at..][1..] == source.script[source.at..];
      if wait.value.Expired? {
        var now := source.Now();
        session.SettleExpired(o, now, out);
      } else {
        var end;
        end, ready := DeliverChunk(o, wait.value.bytes, ready, decoder, session, source, out);
        if end.Some? {
          return end.value;
        }
      }
    }
  }
}
