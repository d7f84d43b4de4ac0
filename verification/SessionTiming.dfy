/** Chunk boundaries and the clock only matter to a session through quiet periods that run out. */
module SessionTiming {
  import opened Bytes
  import opened Sessions
  import opened SessionEvents
  import opened SessionReplies
  import Framing

  // ----- Sessions that differ only in when a quiet period ends -----

  function Unclocked(input: Input): Input {
    input.(expiry := if input.expiry.Some? then Some(0) else None)
  }

  ghost predicate Same(s: Session, t: Session) {
    && s.(input := None) == t.(input := None)
    && s.input.Some? == t.input.Some?
    && (s.input.Some? ==> Unclocked(s.input.value) == Unclocked(t.input.value))
  }

  ghost predicate SameWorld(w: World, v: World) { w.ready == v.ready && Same(w.session, v.session) }

  ghost predicate SameStep(a: Step, b: Step) { a.log == b.log && Same(a.session, b.session) }

  ghost predicate SameResult(a: Result<Step, Error>, b: Result<Step, Error>) {
    match (a, b)
    case (Ok(x), Ok(y)) => SameStep(x, y)
    case (Err(x), Err(y)) => x == y
    case _ => false
  }

  ghost predicate SameTurn(a: Turn, b: Turn) {
    a.log == b.log && a.stop == b.stop && SameWorld(a.world, b.world)
  }

  lemma SettleAlike(o: Outside, s: Session, t: Session, generation: nat, cause: Cause)
    requires Same(s, t)
    ensures SameStep(SettleAgainst(o, s, generation, cause), SettleAgainst(o, t, generation, cause))
  {
    hide PlanBody, Slots.Find, DirFrom;
  }

  lemma ParseAlike(fields: seq<Bytes>, now: nat, later: nat)
    ensures var a, b := ParseInput(fields, now), ParseInput(fields, later);
            a.Some? == b.Some? && (a.Some? ==> Unclocked(a.value) == Unclocked(b.value))
  {
    hide ParseLayout, ParseIdentifier, ParseReference, ParseDelay, ParseBool;
  }

  lemma AcceptAlike(o: Outside, s: Session, t: Session, fields: seq<Bytes>, now: nat, later: nat)
    requires Same(s, t)
    ensures SameResult(AcceptInput(o, s, fields, now), AcceptInput(o, t, fields, later))
  {
    hide ParseInput, SettleAgainst, Slots.Find, DirFrom;
    ParseAlike(fields, now, later);
    if ParseInput(fields, now).Some? {
      var a, b := ParseInput(fields, now).value, ParseInput(fields, later).value;
      SettleAlike(o, s.(input := Some(a)), t.(input := Some(b)), a.candidateGeneration, Accepted);
    }
  }

  lemma FlushAlike(o: Outside, s: Session, t: Session, fields: seq<Bytes>)
    requires Same(s, t)
    ensures SameResult(AcceptFlush(o, s, fields), AcceptFlush(o, t, fields))
  {
    hide SettleAgainst, ParseIdentifier;
    if s.input.Some? {
      SettleAlike(o, s, t, s.input.value.candidateGeneration, Flush);
    }
  }

  lemma AnswerAlike(o: Outside, s: Session, t: Session, request: Request)
    requires Same(s, t)
    ensures var a, b := AnswerTo(o, s, request), AnswerTo(o, t, request);
            a.result == b.result && a.settle == b.settle && Same(a.session, b.session)
  {
    hide PlanBody, ParseStored, ParseNamespace, Retain, WindowFor, DirFrom, Slots.Find, Slots.Insert;
  }

  lemma RequestAlike(o: Outside, s: Session, t: Session, fields: seq<Bytes>)
    requires Same(s, t)
    ensures SameResult(ProcessRequest(o, s, fields), ProcessRequest(o, t, fields))
  {
    hide AnswerTo, SettleAgainst, ReplyOf, ParseRequest, ParseIdentifier, Same;
    AnswerAlike(o, s, t, ParseRequest(fields));
    var a, b := AnswerTo(o, s, ParseRequest(fields)), AnswerTo(o, t, ParseRequest(fields));
    if a.settle.Some? {
      SettleAlike(o, a.session, b.session, a.settle.value, Store);
    }
  }

  lemma ProcessAlike(o: Outside, w: World, v: World, message: Bytes, now: nat, later: nat)
    requires SameWorld(w, v)
    ensures SameTurn(ProcessMessage(o, w, message, now), ProcessMessage(o, v, message, later))
  {
    hide AcceptInput, AcceptFlush, ProcessRequest, Same;
    if Framing.DecodeSpec(message).Ok? {
      var fields := Framing.DecodeSpec(message).value;
      AcceptAlike(o, w.session, v.session, fields, now, later);
      FlushAlike(o, w.session, v.session, fields);
      RequestAlike(o, w.session, v.session, fields);
    }
  }

  // ----- The session without a clock -----

  /** Messages handled as if no quiet period ever ran out. */
  function Untimed(o: Outside, w: World, messages: seq<Bytes>): Turn
    decreases |messages|
  {
    hide *;
    if messages == [] then Turn(w, [], None)
    else
      var first := ProcessMessage(o, w, messages[0], 0);
      if first.stop.Some? then first
      else
        var rest := Untimed(o, first.world, messages[1..]);
        rest.(log := first.log + rest.log)
  }

  lemma {:induction false} UntimedConcat(o: Outside, w: World, a: seq<Bytes>, b: seq<Bytes>)
    ensures var first := Untimed(o, w, a);
            var rest := Untimed(o, first.world, b);
            Untimed(o, w, a + b) == if first.stop.Some? then first else rest.(log := first.log + rest.log)
    decreases |a|
  {
    hide ProcessMessage;
    if a == [] {
      assert a + b == b;
      var rest := Untimed(o, w, b);
      assert [] + rest.log == rest.log;
    } else {
      assert (a + b)[1..] == a[1..] + b;
      var head := ProcessMessage(o, w, a[0], 0);
      if head.stop.None? {
        UntimedConcat(o, head.world, a[1..], b);
        var middle := Untimed(o, head.world, a[1..]);
        var rest := Untimed(o, middle.world, b);
        assert (head.log + middle.log) + rest.log == head.log + (middle.log + rest.log);
      }
    }
  }

  /** What a session answers to a byte stream, with no chunks and no clock. */
  function Reference(o: Outside, w: World, decoder: Framing.State, input: Bytes): Run {
    hide *;
    var read := Framing.Consume(decoder, input);
    var turn := Untimed(o, w, read.frames);
    if turn.stop.Some? then Run(turn.log, turn.stop.value)
    else if read.error.Some? then Run(turn.log, Err(Framing(read.error.value)))
    else Run(turn.log, Closing(read.state))
  }

  // ----- Runs in which no quiet period runs out -----

  ghost predicate CalmAll(o: Outside, w: World, messages: seq<Bytes>, clock: nat -> nat, tick: nat)
    decreases |messages|
  {
    messages != [] ==>
      && !Due(w.session, clock(tick))
      && var first := Handle(o, w, messages[0], clock(tick));
         first.stop.None? ==> CalmAll(o, first.world, messages[1..], clock, tick + 1)
  }

  /** At every reading of the clock, no pending quiet period has run out. */
  ghost predicate Calm(o: Outside, w: World, decoder: Framing.State, script: seq<Wait>, clock: nat -> nat, tick: nat)
    decreases |script|
  {
    script != [] ==>
      match script[0]
      case Expired => !Due(w.session, clock(tick)) && Calm(o, w, decoder, script[1..], clock, tick + 1)
      case Data(bytes) =>
        var read := Framing.Consume(decoder, bytes);
        && CalmAll(o, w, read.frames, clock, tick)
        && var turn := HandleAll(o, w, read.frames, clock, tick);
           turn.stop.None? && read.error.None? ==>
             Calm(o, turn.world, read.state, script[1..], clock, tick + |read.frames|)
  }

  lemma NotDue(o: Outside, s: Session, now: nat)
    requires !Due(s, now)
    ensures SettleExpired(o, s, now) == Step(s, [])
  {
    hide SettleAgainst;
  }

  lemma HandleCalmly(o: Outside, w: World, message: Bytes, now: nat)
    requires !Due(w.session, now)
    ensures Handle(o, w, message, now) == ProcessMessage(o, w, message, now)
  {
    hide Due, SettleExpired, ProcessMessage;
    NotDue(o, w.session, now);
    var turn := ProcessMessage(o, w, message, now);
    assert [] + turn.log == turn.log;
  }

  lemma {:induction false} CalmIsUntimed(o: Outside, w: World, v: World, messages: seq<Bytes>, clock: nat -> nat, tick: nat)
    requires SameWorld(w, v) && CalmAll(o, w, messages, clock, tick)
    ensures SameTurn(HandleAll(o, w, messages, clock, tick), Untimed(o, v, messages))
    decreases |messages|
  {
    hide Due, Handle, ProcessMessage, Same;
    if messages != [] {
      HandleCalmly(o, w, messages[0], clock(tick));
      ProcessAlike(o, w, v, messages[0], clock(tick), 0);
      var first := Handle(o, w, messages[0], clock(tick));
      if first.stop.None? {
        CalmIsUntimed(o, first.world, ProcessMessage(o, v, messages[0], 0).world, messages[1..], clock, tick + 1);
      }
    }
  }

  lemma ReferenceIs(o: Outside, w: World, decoder: Framing.State, input: Bytes)
    ensures var read := Framing.Consume(decoder, input);
            var turn := Untimed(o, w, read.frames);
            Reference(o, w, decoder, input)
            == if turn.stop.Some? then Run(turn.log, turn.stop.value)
               else if read.error.Some? then Run(turn.log, Err(Framing(read.error.value)))
               else Run(turn.log, Closing(read.state))
  {
    hide Untimed, Framing.Consume, Closing;
  }

  lemma ReferenceOfNothing(o: Outside, w: World, decoder: Framing.State)
    ensures Reference(o, w, decoder, []) == Run([], Closing(decoder))
  {
    ReferenceIs(o, w, decoder, []);
    hide Reference, Closing;
  }

  /** Reading more input after some input that neither ended the session nor broke the framing. */
  lemma ReferenceAppend(o: Outside, w: World, decoder: Framing.State, a: Bytes, b: Bytes)
    ensures var read := Framing.Consume(decoder, a);
            var turn := Untimed(o, w, read.frames);
            Reference(o, w, decoder, a + b)
            == if turn.stop.Some? then Run(turn.log, turn.stop.value)
               else if read.error.Some? then Run(turn.log, Err(Framing(read.error.value)))
               else var rest := Reference(o, turn.world, read.state, b); rest.(log := turn.log + rest.log)
  {
    hide Untimed, Framing.Consume, Reference, Closing;
    var read := Framing.Consume(decoder, a);
    var turn := Untimed(o, w, read.frames);
    Framing.ConsumeAppend(decoder, a, b);
    ReferenceIs(o, w, decoder, a + b);
    if read.error.None? {
      var later := Framing.Consume(read.state, b);
      ReferenceIs(o, turn.world, read.state, b);
      UntimedConcat(o, w, read.frames, later.frames);
    }
  }

  lemma {:induction false} CalmRunIsReference(o: Outside, w: World, v: World, decoder: Framing.State, script: seq<Wait>,
                                              clock: nat -> nat, tick: nat)
    requires SameWorld(w, v) && Calm(o, w, decoder, script, clock, tick)
    ensures RunFrom(o, w, decoder, script, clock, tick) == Reference(o, v, decoder, DataOf(script))
    decreases |script|
  {
    hide Due, SettleExpired, HandleAll, Framing.Consume, Same, Untimed, Reference, Closing, CalmAll;
    if script == [] {
      ReferenceOfNothing(o, v, decoder);
    } else {
      match script[0]
      case Expired =>
        assert [] + DataOf(script[1..]) == DataOf(script[1..]);
        NotDue(o, w.session, clock(tick));
        CalmRunIsReference(o, w, v, decoder, script[1..], clock, tick + 1);
        var rest := RunFrom(o, w, decoder, script[1..], clock, tick + 1);
        assert [] + rest.log == rest.log;
      case Data(bytes) =>
        var read := Framing.Consume(decoder, bytes);
        CalmIsUntimed(o, w, v, read.frames, clock, tick);
        ReferenceAppend(o, v, decoder, bytes, DataOf(script[1..]));
        var turn := HandleAll(o, w, read.frames, clock, tick);
        if turn.stop.None? && read.error.None? {
          CalmRunIsReference(o, turn.world, Untimed(o, v, read.frames).world, read.state, script[1..], clock,
                             tick + |read.frames|);
        }
    }
  }

  lemma StartIsItself()
    ensures SameWorld(START, START)
  {
  }

  /**
  As long as no quiet period runs out, what a session writes and how it ends depend only on the bytes
  it was sent: not on how they were cut into chunks, nor on when they came, nor on idle wake-ups,
  and this includes streams that break off, go bad after good frames, or go on after a rejection.
  */
  lemma ChunkingIsInvisible(o: Outside, a: seq<Wait>, b: seq<Wait>, clock: nat -> nat, other: nat -> nat)
    requires DataOf(a) == DataOf(b)
    requires Calm(o, START, Framing.START, a, clock, 0) && Calm(o, START, Framing.START, b, other, 0)
    ensures Whole(o, a, clock) == Whole(o, b, other) == Reference(o, START, Framing.START, DataOf(a))
  {
    hide *;
    StartIsItself();
    WholeIs(o, a, clock);
    WholeIs(o, b, other);
    CalmRunIsReference(o, START, START, Framing.START, a, clock, 0);
    CalmRunIsReference(o, START, START, Framing.START, b, other, 0);
  }
}
