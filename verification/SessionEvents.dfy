/** The order of events in everything a session writes, over every run. */
module SessionEvents {
  import opened Bytes
  import opened Sessions
  import Framing

  predicate Carries(e: Event) { e.Highlight? || e.PlanReady? || e.CaptureRequired? }

  /** The input generation an event is about. */
  function Gen(e: Event): nat {
    if Carries(e) then e.generation else 0
  }

  predicate Settles(e: Event) { e.PlanReady? || e.CaptureRequired? }

  /** A settle event that no `store` request caused. */
  predicate Unprompted(e: Event) { Settles(e) && e.cause != Store }

  predicate Greets(e: Event) { e.Ready? || e.Incompatible? }

  function Current(s: Session): nat { if s.input.Some? then s.input.value.generation else 0 }

  predicate Pending(s: Session) { s.input.Some? && s.input.value.expiry.Some? }

  // ----- What the log of a run satisfies -----

  /** Event generations never decrease. */
  ghost predicate Ordered(log: seq<Event>) {
    forall i, j :: 0 <= i < j < |log| && Carries(log[i]) && Carries(log[j]) ==> Gen(log[i]) <= Gen(log[j])
  }

  /** Only a `store` can settle an input that has already settled. */
  ghost predicate SettlesOnce(log: seq<Event>) {
    forall i, j :: 0 <= i < j < |log| && Settles(log[i]) && Unprompted(log[j]) ==> Gen(log[i]) < Gen(log[j])
  }

  /** The highlight of an input comes before everything else about it. */
  ghost predicate HighlightsFirst(log: seq<Event>) {
    forall i, j :: 0 <= i < j < |log| && Carries(log[i]) && log[j].Highlight? ==> Gen(log[i]) < Gen(log[j])
  }

  predicate Okay(e: Event) { e.Reply? && e.ok }

  /** A settle event caused by a `store` is a plan, right behind that request's `ok`. */
  ghost predicate StoresAnswered(log: seq<Event>) {
    forall j :: 0 <= j < |log| && Settles(log[j]) && !Unprompted(log[j]) ==>
      log[j].PlanReady? && j > 0 && Okay(log[j - 1])
  }

  /** The greeting comes first, and only once. */
  ghost predicate Greeted(log: seq<Event>) {
    forall j :: 0 <= j < |log| ==> (Greets(log[j]) <==> j == 0)
  }

  ghost predicate LogHolds(log: seq<Event>) {
    Ordered(log) && SettlesOnce(log) && HighlightsFirst(log) && StoresAnswered(log) && Greeted(log)
  }

  // ----- The invariant, one event at a time -----

  ghost predicate Bounded(s: Session, log: seq<Event>) {
    forall j :: 0 <= j < |log| ==> Gen(log[j]) <= Current(s)
  }

  /** Nothing has been written about the current input yet. */
  ghost predicate Untouched(s: Session, log: seq<Event>) {
    forall j :: 0 <= j < |log| && Carries(log[j]) ==> Gen(log[j]) < Current(s)
  }

  ghost predicate Unsettled(s: Session, log: seq<Event>) {
    forall j :: 0 <= j < |log| && Settles(log[j]) ==> Gen(log[j]) < Current(s)
  }

  ghost predicate Inv(s: Session, log: seq<Event>) {
    LogHolds(log) && Bounded(s, log) && (Pending(s) ==> Unsettled(s, log))
  }

  /** Same input as far as events are concerned. */
  predicate SameInput(s: Session, t: Session) { Current(s) == Current(t) && Pending(s) == Pending(t) }

  lemma InvTransfers(s: Session, t: Session, log: seq<Event>)
    requires Inv(s, log) && SameInput(s, t)
    ensures Inv(t, log)
  {
  }

  lemma EmitReply(s: Session, log: seq<Event>, e: Event)
    requires Inv(s, log) && e.Reply? && log != []
    ensures Inv(s, log + [e])
  {
    hide Gen, Settles, Okay;
    ReplyIsSilent(e);
    var after := log + [e];
    assert forall j :: 0 <= j < |log| ==> after[j] == log[j];
  }

  lemma ReplyIsSilent(e: Event)
    requires e.Reply?
    ensures !Carries(e) && !Settles(e) && !Greets(e) && Gen(e) == 0
  {
  }

  /** What the log must be like for one more event. */
  ghost predicate Follows(log: seq<Event>, e: Event) {
    && !Greets(e)
    && (Carries(e) ==> forall i :: 0 <= i < |log| && Carries(log[i]) ==> Gen(log[i]) <= Gen(e))
    && (Unprompted(e) ==> forall i :: 0 <= i < |log| && Settles(log[i]) ==> Gen(log[i]) < Gen(e))
    && (e.Highlight? ==> forall i :: 0 <= i < |log| && Carries(log[i]) ==> Gen(log[i]) < Gen(e))
    && (Settles(e) && !Unprompted(e) ==> e.PlanReady? && log != [] && Okay(log[|log| - 1]))
  }

  lemma LogGrows(log: seq<Event>, e: Event)
    requires LogHolds(log) && log != [] && Follows(log, e)
    ensures LogHolds(log + [e])
  {
    hide Gen, Carries, Settles, Unprompted, Okay, Greets;
    var after := log + [e];
    assert forall j :: 0 <= j < |log| ==> after[j] == log[j];
  }

  lemma SettleFollows(s: Session, log: seq<Event>, e: Event)
    requires Bounded(s, log) && log != [] && Settles(e) && Gen(e) == Current(s)
    requires if Unprompted(e) then Unsettled(s, log) else e.PlanReady? && Okay(log[|log| - 1])
    ensures Follows(log, e)
  {
    hide Gen, Okay, Current;
  }

  lemma EmitSettle(s: Session, log: seq<Event>, t: Session, e: Event)
    requires Inv(s, log) && log != [] && Settles(e) && Gen(e) == Current(s) == Current(t) && !Pending(t)
    requires if Unprompted(e) then Unsettled(s, log) else e.PlanReady? && Okay(log[|log| - 1])
    ensures Inv(t, log + [e])
  {
    hide LogHolds, Follows, Gen, Okay, Unprompted, Settles, Pending, Unsettled;
    SettleFollows(s, log, e);
    LogGrows(log, e);
  }

  lemma HighlightFollows(s: Session, log: seq<Event>, e: Event)
    requires e.Highlight? && Gen(e) == Current(s) && Untouched(s, log)
    ensures Follows(log, e)
  {
    hide Gen, Okay, Current;
  }

  lemma EmitHighlight(s: Session, log: seq<Event>, e: Event)
    requires Inv(s, log) && log != [] && e.Highlight? && Gen(e) == Current(s) && Untouched(s, log)
    ensures Inv(s, log + [e]) && Unsettled(s, log + [e])
  {
    hide LogHolds, Follows, Okay, Unprompted, Pending, Gen;
    HighlightFollows(s, log, e);
    LogGrows(log, e);
  }

  lemma TakeInput(s: Session, log: seq<Event>, t: Session)
    requires Inv(s, log) && Current(s) < Current(t)
    ensures Inv(t, log) && Untouched(t, log) && Unsettled(t, log)
  {
  }

  // ----- Every operation keeps it -----

  lemma SettleShape(o: Outside, s: Session, generation: nat, cause: Cause)
    ensures var step := SettleAgainst(o, s, generation, cause);
            if s.input.None? then step == Step(s, [])
            else
              && |step.log| == 1 && Settles(step.log[0])
              && Gen(step.log[0]) == Current(s) == Current(step.session)
              && step.log[0].cause == cause && !Pending(step.session)
              && (step.log[0].PlanReady? <==> generation != 0 && s.slots.Find(generation).Some?)
  {
    hide PlanBody, Slots.Find;
  }

  /**
   Settling changes nothing but the current input, which waits no longer and remembers the generation it was planned from:
   the one it was settled against after a plan, computed for its own screen with nothing selected, and none after a capture.
   */
  lemma SettleResolves(o: Outside, s: Session, generation: nat, cause: Cause)
    requires s.input.Some?
    ensures var step, input := SettleAgainst(o, s, generation, cause), s.input.value;
            && step.session.input.Some? && |step.log| == 1
            && var after, event := step.session.input.value, step.log[0];
               && step.session == s.(input := Some(after))
               && after == input.(expiry := None, resolved := if event.PlanReady? then Some(generation) else None)
               && (event.PlanReady? ==>
                     && s.slots.Find(generation).Some?
                     && event == PlanReady(input.generation,
                                           o.planner(input.params, s.slots.Find(generation).value,
                                                     DirFrom(o, input.cwd), 0), cause))
               && (!event.PlanReady? ==> event == CaptureRequired(input.generation, cause))
  {
    hide Slots.Find;
  }

  lemma SettleKeeps(o: Outside, s: Session, generation: nat, cause: Cause, log: seq<Event>)
    requires Inv(s, log) && log != []
    requires if cause == Store then
               log != [] && Okay(log[|log| - 1]) && generation != 0 && s.slots.Find(generation).Some?
             else Unsettled(s, log)
    ensures var step := SettleAgainst(o, s, generation, cause); Inv(step.session, log + step.log)
  {
    hide *;
    SettleShape(o, s, generation, cause);
    var step := SettleAgainst(o, s, generation, cause);
    if s.input.None? {
      assert log + [] == log;
    } else {
      var e := step.log[0];
      assert step.log == [e];
      assert Unprompted(e) <==> cause != Store by {
        UnpromptedWhen(e);
      }
      EmitSettle(s, log, step.session, e);
    }
  }

  lemma UnpromptedWhen(e: Event)
    ensures Unprompted(e) <==> Settles(e) && e.cause != Store
  {
  }

  lemma ExpiryKeeps(o: Outside, s: Session, now: nat, log: seq<Event>)
    requires Inv(s, log) && (Pending(s) ==> log != [])
    ensures var step := SettleExpired(o, s, now); Inv(step.session, log + step.log)
    ensures Pending(SettleExpired(o, s, now).session) ==> Pending(s)
  {
    hide SettleAgainst, LogHolds, Bounded, Unsettled;
    if Due(s, now) {
      SettleKeeps(o, s, s.input.value.candidateGeneration, Quiet, log);
      SettleShape(o, s, s.input.value.candidateGeneration, Quiet);
    } else {
      assert log + [] == log;
    }
  }

  /** What accepting an input does, step by step. */
  lemma AcceptShape(o: Outside, s: Session, fields: seq<Bytes>, now: nat) returns (input: Input)
    requires AcceptInput(o, s, fields, now).Ok?
    ensures ParseInput(fields, now) == Some(input) && Current(s) < input.generation
    ensures var held := s.(input := Some(input));
            var shown := HighlightOf(o, s, input);
            var settled := SettleAgainst(o, held, input.candidateGeneration, Accepted);
            AcceptInput(o, s, fields, now).value
            == if SettlesNow(s, input) then Step(settled.session, shown + settled.log) else Step(held, shown)
  {
    hide SettleAgainst, HighlightOf, SettlesNow;
    input := ParseInput(fields, now).value;
    IdentifierIsPrinted(fields[1], input.generation);
  }

  lemma HighlightShape(o: Outside, s: Session, input: Input)
    ensures var shown := HighlightOf(o, s, input);
            shown == [] || (|shown| == 1 && shown[0].Highlight? && Gen(shown[0]) == input.generation)
  {
  }

  lemma InputKeeps(o: Outside, s: Session, fields: seq<Bytes>, now: nat, log: seq<Event>)
    requires Inv(s, log) && log != [] && AcceptInput(o, s, fields, now).Ok?
    ensures var step := AcceptInput(o, s, fields, now).value; Inv(step.session, log + step.log)
  {
    hide *;
    var input := AcceptShape(o, s, fields, now);
    var held := s.(input := Some(input));
    var shown := HighlightOf(o, s, input);
    InputIsCurrent(held, input);
    TakeInput(s, log, held);
    HighlightShape(o, s, input);
    if shown == [] {
      assert log + shown == log;
    } else {
      assert shown == [shown[0]];
      EmitHighlight(held, log, shown[0]);
    }
    if SettlesNow(s, input) {
      SettleKeeps(o, held, input.candidateGeneration, Accepted, log + shown);
      var settled := SettleAgainst(o, held, input.candidateGeneration, Accepted);
      assert (log + shown) + settled.log == log + (shown + settled.log);
    }
  }

  lemma InputIsCurrent(held: Session, input: Input)
    requires held.input == Some(input)
    ensures Current(held) == input.generation
  {
  }

  lemma FlushKeeps(o: Outside, s: Session, fields: seq<Bytes>, log: seq<Event>)
    requires Inv(s, log) && log != [] && AcceptFlush(o, s, fields).Ok?
    ensures var step := AcceptFlush(o, s, fields).value; Inv(step.session, log + step.log)
  {
    hide SettleAgainst, LogHolds, Bounded, Unsettled;
    if AcceptFlush(o, s, fields).value == Step(s, []) {
      assert log + [] == log;
    } else {
      SettleKeeps(o, s, s.input.value.candidateGeneration, Flush, log);
    }
  }

  /** Answering a request never touches the current input; a store leaves its generation in a slot. */
  lemma AnswerShape(o: Outside, s: Session, request: Request)
    ensures var answer := AnswerTo(o, s, request);
            && answer.session.input == s.input
            && (answer.result.Err? ==> answer.session == s && answer.settle.None?)
            && (answer.settle.Some? ==>
                  && request.StoreCandidates? && answer.settle.value == request.generation
                  && answer.session.slots.Find(request.generation).Some?)
  {
    hide PlanBody, ParseStored, ParseNamespace, Retain, WindowFor;
  }

  lemma StoredIsNamed(f: seq<Bytes>)
    requires ParseRequest(f).StoreCandidates?
    ensures ParseRequest(f).generation > 0
  {
    hide ParseReference;
  }

  lemma RequestShape(o: Outside, s: Session, fields: seq<Bytes>)
    requires ProcessRequest(o, s, fields).Ok?
    ensures |fields| >= 2 && ParseIdentifier(fields[1]).Some?
    ensures var answer := AnswerTo(o, s, ParseRequest(fields));
            var reply := ReplyOf(fields[1], answer.result);
            ProcessRequest(o, s, fields).value
            == match answer.settle
               case None => Step(answer.session, [reply])
               case Some(generation) =>
                 var settled := SettleAgainst(o, answer.session, generation, Store);
                 Step(settled.session, [reply] + settled.log)
  {
    hide AnswerTo, SettleAgainst, ReplyOf, ParseRequest, ParseIdentifier;
  }

  lemma ReplyShape(id: Bytes, result: Result<Bytes, string>)
    ensures ReplyOf(id, result).Reply? && ReplyOf(id, result).ok == result.Ok? && ReplyOf(id, result).id == id
    ensures Okay(ReplyOf(id, result)) <==> result.Ok?
  {
  }

  lemma RequestKeeps(o: Outside, s: Session, fields: seq<Bytes>, log: seq<Event>)
    requires Inv(s, log) && log != [] && ProcessRequest(o, s, fields).Ok?
    ensures var step := ProcessRequest(o, s, fields).value; Inv(step.session, log + step.log)
  {
    hide *;
    RequestShape(o, s, fields);
    var request := ParseRequest(fields);
    var answer := AnswerTo(o, s, request);
    var reply := ReplyOf(fields[1], answer.result);
    AnswerShape(o, s, request);
    ReplyShape(fields[1], answer.result);
    SameInputWhen(s, answer.session);
    InvTransfers(s, answer.session, log);
    EmitReply(answer.session, log, reply);
    if answer.settle.Some? {
      StoredIsNamed(fields);
      assert (log + [reply])[|log + [reply]| - 1] == reply;
      SettleKeeps(o, answer.session, answer.settle.value, Store, log + [reply]);
      var settled := SettleAgainst(o, answer.session, answer.settle.value, Store);
      assert (log + [reply]) + settled.log == log + ([reply] + settled.log);
    }
  }

  lemma SameInputWhen(s: Session, t: Session)
    requires s.input == t.input
    ensures SameInput(s, t)
  {
  }

  /** The invariant together with the handshake: nothing happens before the greeting. */
  ghost predicate WorldInv(w: World, log: seq<Event>) {
    && Inv(w.session, log)
    && (log == [] ==> !w.ready)
    && (!w.ready ==> log == [] && w.session.input.None?)
  }

  lemma DispatchKeeps(o: Outside, s: Session, fields: seq<Bytes>, now: nat, log: seq<Event>)
    requires Inv(s, log) && log != [] && Dispatch(o, s, fields, now).Ok?
    ensures var step := Dispatch(o, s, fields, now).value; Inv(step.session, log + step.log)
  {
    hide AcceptInput, AcceptFlush, ProcessRequest, Inv;
    if fields != [] && fields[0] == Ascii("input") {
      InputKeeps(o, s, fields, now, log);
    } else if fields != [] && fields[0] == Ascii("flush") {
      FlushKeeps(o, s, fields, log);
    } else {
      RequestKeeps(o, s, fields, log);
    }
  }

  lemma HelloKeeps(o: Outside, w: World, fields: seq<Bytes>)
    requires WorldInv(w, []) && !w.ready
    ensures var turn := ProcessHello(o, w, fields);
            LogHolds(turn.log) && (turn.stop.None? ==> WorldInv(turn.world, turn.log))
  {
  }

  lemma MessageKeeps(o: Outside, w: World, message: Bytes, now: nat, log: seq<Event>)
    requires WorldInv(w, log)
    ensures var turn := ProcessMessage(o, w, message, now);
            LogHolds(log + turn.log) && (turn.stop.None? ==> WorldInv(turn.world, log + turn.log))
  {
    hide Dispatch, ProcessHello, LogHolds, Bounded, Unsettled;
    var turn := ProcessMessage(o, w, message, now);
    assert log + [] == log;
    if Framing.DecodeSpec(message).Ok? {
      var fields := Framing.DecodeSpec(message).value;
      if !w.ready {
        HelloKeeps(o, w, fields);
        assert [] + turn.log == turn.log;
      } else if Dispatch(o, w.session, fields, now).Ok? {
        DispatchKeeps(o, w.session, fields, now, log);
      }
    }
  }

  lemma ExpiryKeepsWorld(o: Outside, w: World, now: nat, log: seq<Event>)
    requires WorldInv(w, log)
    ensures var due := SettleExpired(o, w.session, now);
            LogHolds(log + due.log) && WorldInv(w.(session := due.session), log + due.log)
  {
    hide SettleAgainst, LogHolds, Bounded, Unsettled;
    ExpiryKeeps(o, w.session, now, log);
    assert log + [] == log;
  }

  lemma HandleKeeps(o: Outside, w: World, message: Bytes, now: nat, log: seq<Event>)
    requires WorldInv(w, log)
    ensures var turn := Handle(o, w, message, now);
            LogHolds(log + turn.log) && (turn.stop.None? ==> WorldInv(turn.world, log + turn.log))
  {
    hide SettleExpired, ProcessMessage, LogHolds, WorldInv;
    var due := SettleExpired(o, w.session, now);
    ExpiryKeepsWorld(o, w, now, log);
    MessageKeeps(o, w.(session := due.session), message, now, log + due.log);
    var turn := ProcessMessage(o, w.(session := due.session), message, now);
    assert (log + due.log) + turn.log == log + (due.log + turn.log);
  }

  lemma WorldLogHolds(w: World, log: seq<Event>)
    requires WorldInv(w, log)
    ensures LogHolds(log)
  {
  }

  lemma {:induction false} HandleAllKeeps(o: Outside, w: World, messages: seq<Bytes>, clock: nat -> nat, tick: nat, log: seq<Event>)
    requires WorldInv(w, log)
    ensures var turn := HandleAll(o, w, messages, clock, tick);
            LogHolds(log + turn.log) && (turn.stop.None? ==> WorldInv(turn.world, log + turn.log))
    decreases |messages|
  {
    hide Handle, LogHolds, WorldInv;
    if messages == [] {
      assert log + [] == log;
      WorldLogHolds(w, log);
    } else {
      var first := Handle(o, w, messages[0], clock(tick));
      HandleKeeps(o, w, messages[0], clock(tick), log);
      if first.stop.None? {
        HandleAllKeeps(o, first.world, messages[1..], clock, tick + 1, log + first.log);
        var rest := HandleAll(o, first.world, messages[1..], clock, tick + 1);
        assert (log + first.log) + rest.log == log + (first.log + rest.log);
      }
    }
  }

  lemma {:induction false} RunKeeps(o: Outside, w: World, decoder: Framing.State, script: seq<Wait>, clock: nat -> nat,
                                    tick: nat, log: seq<Event>)
    requires WorldInv(w, log)
    ensures LogHolds(log + RunFrom(o, w, decoder, script, clock, tick).log)
    decreases |script|
  {
    hide SettleExpired, HandleAll, LogHolds, WorldInv, Framing.Consume, Closing;
    assert log + [] == log;
    if script == [] {
      WorldLogHolds(w, log);
    } else {
      match script[0]
      case Expired =>
        var due := SettleExpired(o, w.session, clock(tick));
        ExpiryKeepsWorld(o, w, clock(tick), log);
        var next := w.(session := due.session);
        RunKeeps(o, next, decoder, script[1..], clock, tick + 1, log + due.log);
        var rest := RunFrom(o, next, decoder, script[1..], clock, tick + 1);
        assert (log + due.log) + rest.log == log + (due.log + rest.log);
      case Data(bytes) =>
        var read := Framing.Consume(decoder, bytes);
        var turn := HandleAll(o, w, read.frames, clock, tick);
        HandleAllKeeps(o, w, read.frames, clock, tick, log);
        if turn.stop.None? && read.error.None? {
          RunKeeps(o, turn.world, read.state, script[1..], clock, tick + |read.frames|, log + turn.log);
          var rest := RunFrom(o, turn.world, read.state, script[1..], clock, tick + |read.frames|);
          assert (log + turn.log) + rest.log == log + (turn.log + rest.log);
        }
    }
  }

  /** Everything a session writes in one run, whatever arrives and whenever it arrives. */
  function Whole(o: Outside, script: seq<Wait>, clock: nat -> nat): Run {
    hide *;
    RunFrom(o, START, Framing.START, script, clock, 0)
  }

  lemma WholeIs(o: Outside, script: seq<Wait>, clock: nat -> nat)
    ensures Whole(o, script, clock) == RunFrom(o, START, Framing.START, script, clock, 0)
  {
    hide RunFrom;
  }

  lemma LogSays(log: seq<Event>)
    requires LogHolds(log)
    ensures forall j :: 0 <= j < |log| ==> (Greets(log[j]) <==> j == 0)
    ensures forall i, j :: 0 <= i < j < |log| && Carries(log[i]) && Carries(log[j]) ==> Gen(log[i]) <= Gen(log[j])
    ensures forall i, j :: 0 <= i < j < |log| && Carries(log[i]) && log[j].Highlight? ==> Gen(log[i]) < Gen(log[j])
    ensures forall i, j :: 0 <= i < j < |log| && Settles(log[i]) && Unprompted(log[j]) ==> Gen(log[i]) < Gen(log[j])
    ensures forall j :: 0 <= j < |log| && Settles(log[j]) && log[j].cause == Store ==>
              log[j].PlanReady? && j > 0 && Okay(log[j - 1])
  {
    hide Gen, Okay, Greets;
  }

  lemma StartHolds()
    ensures WorldInv(START, [])
  {
  }

  /**
  Over every run: the greeting comes first and once; event generations never decrease; an input is
  highlighted before anything else is said about it; an input that has settled settles again only
  because of a `store`, and then with a plan directly behind that request's `ok`.
  */
  lemma EventsAreOrdered(o: Outside, script: seq<Wait>, clock: nat -> nat)
    ensures var log := Whole(o, script, clock).log;
            && (forall j :: 0 <= j < |log| ==> (Greets(log[j]) <==> j == 0))
            && (forall i, j :: 0 <= i < j < |log| && Carries(log[i]) && Carries(log[j]) ==> Gen(log[i]) <= Gen(log[j]))
            && (forall i, j :: 0 <= i < j < |log| && Carries(log[i]) && log[j].Highlight? ==> Gen(log[i]) < Gen(log[j]))
            && (forall i, j :: 0 <= i < j < |log| && Settles(log[i]) && Unprompted(log[j]) ==> Gen(log[i]) < Gen(log[j]))
            && (forall j :: 0 <= j < |log| && Settles(log[j]) && log[j].cause == Store ==>
                  log[j].PlanReady? && j > 0 && Okay(log[j - 1]))
  {
    hide *;
    StartHolds();
    RunKeeps(o, START, Framing.START, script, clock, 0, []);
    WholeIs(o, script, clock);
    assert [] + Whole(o, script, clock).log == Whole(o, script, clock).log;
    LogSays(Whole(o, script, clock).log);
  }

  lemma CarriesGen(e: Event)
    requires Settles(e)
    ensures Carries(e) && Gen(e) == e.generation
  {
  }

  /** At most one capture is asked for per input, and never once its plan has been delivered. */
  lemma CaptureAtMostOnce(o: Outside, script: seq<Wait>, clock: nat -> nat)
    ensures var log := Whole(o, script, clock).log;
            forall i, j :: 0 <= i < j < |log| && Settles(log[i]) && log[j].CaptureRequired? ==>
              log[i].generation != log[j].generation
  {
    hide Whole, RunFrom, Gen;
    EventsAreOrdered(o, script, clock);
    var log := Whole(o, script, clock).log;
    forall i, j | 0 <= i < j < |log| && Settles(log[i]) && log[j].CaptureRequired?
      ensures log[i].generation != log[j].generation
    {
      CarriesGen(log[i]);
      CarriesGen(log[j]);
      assert Unprompted(log[j]);
    }
  }
}
