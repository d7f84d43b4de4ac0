/** Who gets an answer, in which order, and what an answer leaves behind. */
module SessionReplies {
  import opened Bytes
  import opened Records
  import opened Histories
  import opened Sessions
  import opened SessionEvents
  import Framing

  // ----- Single requests -----

  /** A request answered `error` changes nothing and writes nothing else. */
  lemma ErrorChangesNothing(o: Outside, s: Session, fields: seq<Bytes>)
    requires ProcessRequest(o, s, fields).Ok?
    ensures var step := ProcessRequest(o, s, fields).value;
            && step.log != [] && step.log[0].Reply? && step.log[0].id == fields[1]
            && (!step.log[0].ok ==> step == Step(s, [step.log[0]]))
  {
    hide *;
    RequestShape(o, s, fields);
    var answer := AnswerTo(o, s, ParseRequest(fields));
    AnswerShape(o, s, ParseRequest(fields));
    ReplyShape(fields[1], answer.result);
  }

  /** After a store, its generation names the stored payload unless the live slot shadows the cache slot. */
  lemma StoredIsFound(slots: Slots, slot: Slot, held: Held)
    ensures slots.Insert(slot, held).Find(held.generation) == Some(held.source)
            <==> !(slot.Cache? && slots.live.Some? && slots.live.value.generation == held.generation
                   && slots.live.value.source != held.source)
  {
  }

  /** What a store that reaches the session does, outcome by outcome. */
  lemma StoreAnswered(o: Outside, s: Session, fields: seq<Bytes>)
    requires ProcessRequest(o, s, fields).Ok? && ParseRequest(fields).StoreCandidates?
    ensures var request := ParseRequest(fields);
            var parsed := ParseStored(request.payload);
            var step := ProcessRequest(o, s, fields).value;
            if !Binds(s, request.inputGeneration) then step == Step(s, [Reply(false, fields[1], Code(SUPERSEDED))])
            else if parsed.None? then step == Step(s, [Reply(false, fields[1], Code(INVALID_PAYLOAD))])
            else
              var slots := s.slots.Insert(request.slot, Held(request.generation, parsed.value));
              var found := slots.Find(request.generation);
              var input := s.input.value;
              && found.Some?
              && step.log == [Reply(true, fields[1], []),
                              PlanReady(request.inputGeneration,
                                        PlanBody(o, input.params, found.value, DirFrom(o, input.cwd), 0), Store)]
              && step.session == s.(slots := slots,
                                    input := Some(input.(expiry := None, resolved := Some(request.generation))))
  {
    hide PlanBody, DirFrom, ParseStored, ParseRequest, Slots.Find, Slots.Insert, ProcessRequest, Code;
    RequestShape(o, s, fields);
    StoredIsNamed(fields);
    AnswerShape(o, s, ParseRequest(fields));
  }

  // ----- Every request is answered, in order -----

  /** The request id a message carries, when it is a request that can be answered at all. */
  function IdOf(message: Bytes): seq<Bytes> {
    match Framing.DecodeSpec(message)
    case Err(_) => []
    case Ok(f) =>
      if f != [] && (f[0] == Ascii("input") || f[0] == Ascii("flush")) then []
      else if |f| >= 2 && ParseIdentifier(f[1]).Some? then [f[1]]
      else []
  }

  /** Ids of the requests among messages; while the greeting is awaited the first message is no request. */
  function RequestIds(ready: bool, messages: seq<Bytes>): seq<Bytes>
    decreases |messages|
  {
    if messages == [] then []
    else (if ready then IdOf(messages[0]) else []) + RequestIds(true, messages[1..])
  }

  function ReplyIds(log: seq<Event>): seq<Bytes> {
    if log == [] then []
    else (if log[0].Reply? then [log[0].id] else []) + ReplyIds(log[1..])
  }

  lemma ReplyIdsHead(log: seq<Event>)
    requires log != []
    ensures ReplyIds(log) == (if log[0].Reply? then [log[0].id] else []) + ReplyIds(log[1..])
  {
  }

  lemma {:induction false} ReplyIdsConcat(a: seq<Event>, b: seq<Event>)
    ensures ReplyIds(a + b) == ReplyIds(a) + ReplyIds(b)
  {
    hide *;
    if a == [] {
      NothingReplies();
      assert a + b == b;
    } else {
      assert (a + b)[1..] == a[1..] + b;
      ReplyIdsHead(a);
      ReplyIdsHead(a + b);
      ReplyIdsConcat(a[1..], b);
    }
  }

  lemma NothingReplies()
    ensures ReplyIds([]) == []
  {
  }

  lemma OneReply(e: Event)
    ensures ReplyIds([e]) == if e.Reply? then [e.id] else []
  {
    assert [e][1..] == [];
  }

  lemma SettleRepliesNothing(o: Outside, s: Session, generation: nat, cause: Cause)
    ensures ReplyIds(SettleAgainst(o, s, generation, cause).log) == []
  {
    hide *;
    SettleShape(o, s, generation, cause);
    var step := SettleAgainst(o, s, generation, cause);
    if s.input.None? {
      NothingReplies();
    } else {
      assert step.log == [step.log[0]];
      OneReply(step.log[0]);
      SettleIsNoReply(step.log[0]);
    }
  }

  lemma SettleIsNoReply(e: Event)
    requires Settles(e)
    ensures !e.Reply?
  {
  }

  lemma ExpiryRepliesNothing(o: Outside, s: Session, now: nat)
    ensures ReplyIds(SettleExpired(o, s, now).log) == []
  {
    hide SettleAgainst;
    if Due(s, now) {
      SettleRepliesNothing(o, s, s.input.value.candidateGeneration, Quiet);
    }
  }

  lemma InputRepliesNothing(o: Outside, s: Session, fields: seq<Bytes>, now: nat)
    requires AcceptInput(o, s, fields, now).Ok?
    ensures ReplyIds(AcceptInput(o, s, fields, now).value.log) == []
  {
    hide *;
    var input := AcceptShape(o, s, fields, now);
    var shown := HighlightOf(o, s, input);
    HighlightShape(o, s, input);
    NothingReplies();
    if shown != [] {
      assert shown == [shown[0]];
      OneReply(shown[0]);
    }
    var held := s.(input := Some(input));
    SettleRepliesNothing(o, held, input.candidateGeneration, Accepted);
    ReplyIdsConcat(shown, SettleAgainst(o, held, input.candidateGeneration, Accepted).log);
  }

  lemma FlushRepliesNothing(o: Outside, s: Session, fields: seq<Bytes>)
    requires AcceptFlush(o, s, fields).Ok?
    ensures ReplyIds(AcceptFlush(o, s, fields).value.log) == []
  {
    hide SettleAgainst, ParseIdentifier;
    if s.input.Some? {
      SettleRepliesNothing(o, s, s.input.value.candidateGeneration, Flush);
    }
  }

  lemma RequestRepliesOnce(o: Outside, s: Session, fields: seq<Bytes>)
    requires ProcessRequest(o, s, fields).Ok?
    ensures ReplyIds(ProcessRequest(o, s, fields).value.log) == [fields[1]]
  {
    hide *;
    RequestShape(o, s, fields);
    var answer := AnswerTo(o, s, ParseRequest(fields));
    var reply := ReplyOf(fields[1], answer.result);
    ReplyShape(fields[1], answer.result);
    OneReply(reply);
    if answer.settle.Some? {
      var settled := SettleAgainst(o, answer.session, answer.settle.value, Store);
      SettleRepliesNothing(o, answer.session, answer.settle.value, Store);
      ReplyIdsConcat([reply], settled.log);
    }
  }

  lemma MessageReplies(o: Outside, w: World, message: Bytes, now: nat)
    ensures var turn := ProcessMessage(o, w, message, now);
            ReplyIds(turn.log) == if w.ready && turn.stop.None? then IdOf(message) else []
    ensures ProcessMessage(o, w, message, now).stop.None? ==> ProcessMessage(o, w, message, now).world.ready
  {
    hide AcceptInput, AcceptFlush, ProcessRequest, ParseIdentifier;
    var turn := ProcessMessage(o, w, message, now);
    if Framing.DecodeSpec(message).Ok? {
      var fields := Framing.DecodeSpec(message).value;
      if !w.ready {
        if turn.log != [] {
          assert turn.log == [turn.log[0]];
          OneReply(turn.log[0]);
        }
      } else if Dispatch(o, w.session, fields, now).Ok? {
        if fields != [] && fields[0] == Ascii("input") {
          InputRepliesNothing(o, w.session, fields, now);
        } else if fields != [] && fields[0] == Ascii("flush") {
          FlushRepliesNothing(o, w.session, fields);
        } else {
          RequestRepliesOnce(o, w.session, fields);
          RequestHasId(o, w.session, fields);
        }
      }
    }
  }

  lemma RequestHasId(o: Outside, s: Session, fields: seq<Bytes>)
    requires ProcessRequest(o, s, fields).Ok?
    ensures |fields| >= 2 && ParseIdentifier(fields[1]).Some?
  {
    hide AnswerTo, SettleAgainst, ReplyOf, ParseRequest, ParseIdentifier;
  }

  lemma HandleReplies(o: Outside, w: World, message: Bytes, now: nat)
    ensures var turn := Handle(o, w, message, now);
            ReplyIds(turn.log) == if w.ready && turn.stop.None? then IdOf(message) else []
    ensures Handle(o, w, message, now).stop.None? ==> Handle(o, w, message, now).world.ready
  {
    hide SettleExpired, ProcessMessage, ReplyIds, IdOf;
    var due := SettleExpired(o, w.session, now);
    var next := w.(session := due.session);
    ExpiryRepliesNothing(o, w.session, now);
    MessageReplies(o, next, message, now);
    ReplyIdsConcat(due.log, ProcessMessage(o, next, message, now).log);
  }

  /** The answers to the messages handled, with how many were handled to the end. */
  lemma {:induction false} HandleAllReplies(o: Outside, w: World, messages: seq<Bytes>, clock: nat -> nat, tick: nat)
    returns (n: nat)
    ensures var turn := HandleAll(o, w, messages, clock, tick);
            && n <= |messages| && ReplyIds(turn.log) == RequestIds(w.ready, messages[..n])
            && (turn.stop.None? ==> n == |messages| && (messages != [] ==> turn.world.ready))
            && (messages == [] ==> turn.world == w && turn.stop.None?)
    decreases |messages|
  {
    hide Handle, IdOf;
    if messages == [] {
      n := 0;
    } else {
      var first := Handle(o, w, messages[0], clock(tick));
      HandleReplies(o, w, messages[0], clock(tick));
      if first.stop.Some? {
        n := 0;
      } else {
        var m := HandleAllReplies(o, first.world, messages[1..], clock, tick + 1);
        n := m + 1;
        assert messages[..n][1..] == messages[1..][..m];
        ReplyIdsConcat(first.log, HandleAll(o, first.world, messages[1..], clock, tick + 1).log);
      }
    }
  }

  /** The bytes of a script. */
  function DataOf(script: seq<Wait>): Bytes {
    if script == [] then []
    else (if script[0].Data? then script[0].bytes else []) + DataOf(script[1..])
  }

  lemma {:induction false} RequestIdsConcat(ready: bool, a: seq<Bytes>, b: seq<Bytes>)
    ensures RequestIds(ready, a + b) == RequestIds(ready, a) + RequestIds(ready || a != [], b)
    decreases |a|
  {
    hide IdOf;
    if a == [] {
      assert a + b == b;
    } else {
      assert (a + b)[1..] == a[1..] + b;
      RequestIdsConcat(true, a[1..], b);
    }
  }

  /** The replies of a run answer the first `n` of these messages, all of them when it ends at the end of input. */
  ghost predicate Answers(ready: bool, run: Run, messages: seq<Bytes>, n: nat) {
    n <= |messages| && ReplyIds(run.log) == RequestIds(ready, messages[..n]) && (run.result == Ok(Eof) ==> n == |messages|)
  }

  lemma AnswersLater(ready: bool, log: seq<Event>, run: Run, frames: seq<Bytes>, messages: seq<Bytes>, n: nat)
    requires ReplyIds(log) == RequestIds(ready, frames) && Answers(ready || frames != [], run, messages, n)
    ensures Answers(ready, run.(log := log + run.log), frames + messages, |frames| + n)
  {
    hide RequestIds, ReplyIds;
    assert (frames + messages)[..|frames| + n] == frames + messages[..n];
    RequestIdsConcat(ready, frames, messages[..n]);
    ReplyIdsConcat(log, run.log);
  }

  /** One wait of a run. */
  lemma RunStep(o: Outside, w: World, decoder: Framing.State, script: seq<Wait>, clock: nat -> nat, tick: nat)
    ensures var run := RunFrom(o, w, decoder, script, clock, tick);
            if script == [] then run.log == []
            else
              match script[0]
              case Expired =>
                var due := SettleExpired(o, w.session, clock(tick));
                var rest := RunFrom(o, w.(session := due.session), decoder, script[1..], clock, tick + 1);
                run == rest.(log := due.log + rest.log)
              case Data(bytes) =>
                var read := Framing.Consume(decoder, bytes);
                var turn := HandleAll(o, w, read.frames, clock, tick);
                if turn.stop.Some? then run == Run(turn.log, turn.stop.value)
                else if read.error.Some? then run == Run(turn.log, Err(Framing(read.error.value)))
                else
                  var rest := RunFrom(o, turn.world, read.state, script[1..], clock, tick + |read.frames|);
                  run == rest.(log := turn.log + rest.log)
  {
    hide SettleExpired, HandleAll, Framing.Consume, Closing;
  }

  /** The messages of a script are those of its first wait, then those of the rest. */
  lemma DataStep(decoder: Framing.State, script: seq<Wait>)
    ensures var messages := Framing.Consume(decoder, DataOf(script)).frames;
            if script == [] then messages == []
            else
              match script[0]
              case Expired => messages == Framing.Consume(decoder, DataOf(script[1..])).frames
              case Data(bytes) =>
                var read := Framing.Consume(decoder, bytes);
                && read.frames <= messages
                && (read.error.None? ==> messages == read.frames + Framing.Consume(read.state, DataOf(script[1..])).frames)
  {
    NothingRead(decoder, true);
    hide Framing.Consume;
    if script != [] {
      assert [] + DataOf(script[1..]) == DataOf(script[1..]);
      if script[0].Data? {
        Framing.ConsumeAppend(decoder, script[0].bytes, DataOf(script[1..]));
      }
    }
  }

  lemma {:induction false} RunReplies(o: Outside, w: World, decoder: Framing.State, script: seq<Wait>, clock: nat -> nat, tick: nat)
    returns (n: nat)
    ensures Answers(w.ready, RunFrom(o, w, decoder, script, clock, tick), Framing.Consume(decoder, DataOf(script)).frames, n)
    decreases |script|
  {
    hide *;
    RunStep(o, w, decoder, script, clock, tick);
    DataStep(decoder, script);
    var run, messages := RunFrom(o, w, decoder, script, clock, tick), Framing.Consume(decoder, DataOf(script)).frames;
    if script == [] {
      n := 0;
      NothingRead(decoder, w.ready);
      AnswersStop(w.ready, run, [], messages, 0);
    } else if script[0].Expired? {
      var due := SettleExpired(o, w.session, clock(tick));
      var next := w.(session := due.session);
      n := RunReplies(o, next, decoder, script[1..], clock, tick + 1);
      ExpiryRepliesNothing(o, w.session, clock(tick));
      NothingRead(decoder, w.ready);
      AnswersLater(w.ready, due.log, RunFrom(o, next, decoder, script[1..], clock, tick + 1), [], messages, n);
      assert [] + messages == messages;
    } else {
      var read := Framing.Consume(decoder, script[0].bytes);
      var turn := HandleAll(o, w, read.frames, clock, tick);
      n := HandleAllReplies(o, w, read.frames, clock, tick);
      if turn.stop.Some? || read.error.Some? {
        StopIsNoEof(o, w, read.frames, clock, tick);
        AnswersStop(w.ready, run, read.frames, messages, n);
      } else {
        HandleAllReady(o, w, read.frames, clock, tick);
        assert read.frames[..n] == read.frames;
        var m := RunReplies(o, turn.world, read.state, script[1..], clock, tick + |read.frames|);
        AnswersLater(w.ready, turn.log, RunFrom(o, turn.world, read.state, script[1..], clock, tick + |read.frames|),
                     read.frames, Framing.Consume(read.state, DataOf(script[1..])).frames, m);
        n := n + m;
      }
    }
  }

  lemma AnswersStop(ready: bool, run: Run, frames: seq<Bytes>, messages: seq<Bytes>, n: nat)
    requires n <= |frames| && frames <= messages && ReplyIds(run.log) == RequestIds(ready, frames[..n])
    requires run.result == Ok(Eof) ==> n == |messages|
    ensures Answers(ready, run, messages, n)
  {
    hide ReplyIds, RequestIds;
    assert messages[..n] == frames[..n];
  }

  lemma NothingRead(decoder: Framing.State, ready: bool)
    ensures Framing.Consume(decoder, []).frames == [] && RequestIds(ready, []) == [] && ReplyIds([]) == []
  {
  }

  lemma ProcessNeverEof(o: Outside, w: World, message: Bytes, now: nat)
    ensures ProcessMessage(o, w, message, now).stop != Some(Ok(Eof))
  {
    hide Dispatch;
  }

  lemma {:induction false} StopIsNoEof(o: Outside, w: World, messages: seq<Bytes>, clock: nat -> nat, tick: nat)
    ensures HandleAll(o, w, messages, clock, tick).stop != Some(Ok(Eof))
    decreases |messages|
  {
    hide SettleExpired, ProcessMessage;
    if messages != [] {
      var due := SettleExpired(o, w.session, clock(tick));
      ProcessNeverEof(o, w.(session := due.session), messages[0], clock(tick));
      StopIsNoEof(o, Handle(o, w, messages[0], clock(tick)).world, messages[1..], clock, tick + 1);
    }
  }

  lemma {:induction false} HandleAllReady(o: Outside, w: World, messages: seq<Bytes>, clock: nat -> nat, tick: nat)
    requires HandleAll(o, w, messages, clock, tick).stop.None?
    ensures HandleAll(o, w, messages, clock, tick).world.ready == (w.ready || messages != [])
    decreases |messages|
  {
    hide Handle;
    if messages != [] {
      HandleReplies(o, w, messages[0], clock(tick));
      HandleAllReady(o, Handle(o, w, messages[0], clock(tick)).world, messages[1..], clock, tick + 1);
    }
  }

  lemma StartsUnready()
    ensures !START.ready && START.session.history == CappedRun([])
  {
  }

  /**
  Over every run, the replies carry exactly the ids of the requests handled, one each and in arrival
  order; a run that ends at the end of input has handled every message that arrived.
  */
  lemma RepliesAnswerRequests(o: Outside, script: seq<Wait>, clock: nat -> nat) returns (n: nat)
    ensures var run := Whole(o, script, clock);
            var messages := Framing.Consume(Framing.START, DataOf(script)).frames;
            && n <= |messages| && ReplyIds(run.log) == RequestIds(false, messages[..n])
            && (run.result == Ok(Eof) ==> n == |messages|)
  {
    hide *;
    WholeIs(o, script, clock);
    StartsUnready();
    n := RunReplies(o, START, Framing.START, script, clock, 0);
    AnswersSays(false, Whole(o, script, clock), Framing.Consume(Framing.START, DataOf(script)).frames, n);
  }

  lemma AnswersSays(ready: bool, run: Run, messages: seq<Bytes>, n: nat)
    requires Answers(ready, run, messages, n)
    ensures n <= |messages| && ReplyIds(run.log) == RequestIds(ready, messages[..n])
    ensures run.result == Ok(Eof) ==> n == |messages|
  {
  }

  // ----- The history a session holds -----

  /** The history write a message asks for, when its payload is sound. */
  function WriteOf(message: Bytes): seq<Write> {
    match Framing.DecodeSpec(message)
    case Err(_) => []
    case Ok(f) =>
      match ParseRequest(f)
      case WriteHistory(append, generation, payload) =>
        (match ParseStored(payload)
         case Some(source) => [HistoryWrite(append, generation, source)]
         case None => [])
      case _ => []
  }

  function WritesOf(ready: bool, messages: seq<Bytes>): seq<Write>
    decreases |messages|
  {
    if messages == [] then []
    else (if ready then WriteOf(messages[0]) else []) + WritesOf(true, messages[1..])
  }

  lemma SettleKeepsHistory(o: Outside, s: Session, generation: nat, cause: Cause)
    ensures SettleAgainst(o, s, generation, cause).session.history == s.history
  {
    hide Slots.Find, Settling;
  }

  lemma InputKeepsHistory(o: Outside, s: Session, fields: seq<Bytes>, now: nat)
    requires AcceptInput(o, s, fields, now).Ok?
    ensures AcceptInput(o, s, fields, now).value.session.history == s.history
  {
    hide *;
    var input := AcceptShape(o, s, fields, now);
    SettleKeepsHistory(o, s.(input := Some(input)), input.candidateGeneration, Accepted);
  }

  lemma FlushKeepsHistory(o: Outside, s: Session, fields: seq<Bytes>)
    requires AcceptFlush(o, s, fields).Ok?
    ensures AcceptFlush(o, s, fields).value.session.history == s.history
  {
    hide SettleAgainst, ParseIdentifier;
    if s.input.Some? {
      SettleKeepsHistory(o, s, s.input.value.candidateGeneration, Flush);
    }
  }

  lemma ExpiryKeepsHistory(o: Outside, s: Session, now: nat)
    ensures SettleExpired(o, s, now).session.history == s.history
  {
    hide SettleAgainst;
    if Due(s, now) {
      SettleKeepsHistory(o, s, s.input.value.candidateGeneration, Quiet);
    }
  }

  /** Only an accepted history write changes the history. */
  lemma AnswerWrites(o: Outside, s: Session, request: Request)
    ensures AnswerTo(o, s, request).session.history
            == if request.WriteHistory? && ParseStored(request.payload).Some?
               then Capped(s.history, HistoryWrite(request.append, request.generation, ParseStored(request.payload).value))
               else s.history
  {
    hide PlanBody, ParseStored, ParseNamespace, WindowFor, Slots.Find, Slots.Insert, EntriesOf;
  }

  lemma RequestWrites(o: Outside, s: Session, fields: seq<Bytes>)
    requires ProcessRequest(o, s, fields).Ok?
    ensures var request := ParseRequest(fields);
            ProcessRequest(o, s, fields).value.session.history
            == if request.WriteHistory? && ParseStored(request.payload).Some?
               then Capped(s.history, HistoryWrite(request.append, request.generation, ParseStored(request.payload).value))
               else s.history
  {
    hide *;
    RequestShape(o, s, fields);
    var answer := AnswerTo(o, s, ParseRequest(fields));
    AnswerWrites(o, s, ParseRequest(fields));
    if answer.settle.Some? {
      SettleKeepsHistory(o, answer.session, answer.settle.value, Store);
    }
  }

  lemma NotificationsWriteNothing(f: seq<Bytes>)
    requires f != [] && (f[0] == Ascii("input") || f[0] == Ascii("flush"))
    ensures ParseRequest(f) == Invalid
  {
    assert Ascii("input")[0] == 105 && Ascii("flush")[0] == 102;
    assert Ascii("namespace-snapshot")[0] == 110 && Ascii("store")[0] == 115 && Ascii("plan")[0] == 112;
    assert Ascii("history-snapshot")[0] == 104 && Ascii("history-append")[0] == 104 && Ascii("completion")[0] == 99;
  }

  function Applied(history: Index, ws: seq<Write>): Index {
    if ws == [] then history else Capped(history, ws[0])
  }

  lemma MessageWrites(o: Outside, w: World, message: Bytes, now: nat)
    requires ProcessMessage(o, w, message, now).stop.None?
    ensures ProcessMessage(o, w, message, now).world.session.history
            == Applied(w.session.history, if w.ready then WriteOf(message) else [])
  {
    hide AcceptInput, AcceptFlush, ProcessRequest, ParseRequest, ParseStored, Capped;
    var fields := Framing.DecodeSpec(message).value;
    if w.ready {
      if fields != [] && fields[0] == Ascii("input") {
        InputKeepsHistory(o, w.session, fields, now);
        NotificationsWriteNothing(fields);
      } else if fields != [] && fields[0] == Ascii("flush") {
        FlushKeepsHistory(o, w.session, fields);
        NotificationsWriteNothing(fields);
      } else {
        RequestWrites(o, w.session, fields);
      }
    }
  }

  lemma CappedRunGrows(ws: seq<Write>, more: seq<Write>)
    requires |more| <= 1
    ensures CappedRun(ws + more) == Applied(CappedRun(ws), more)
  {
    hide Capped;
    if more == [] {
      assert ws + more == ws;
    } else {
      assert (ws + more)[..|ws|] == ws;
    }
  }

  lemma WriteAtMostOne(message: Bytes)
    ensures |WriteOf(message)| <= 1
  {
    hide ParseRequest, ParseStored;
  }

  /** After any messages, the history is the run of the writes among them, however the others interleave. */
  lemma {:induction false} HistoryIsItsWrites(o: Outside, w: World, messages: seq<Bytes>, clock: nat -> nat, tick: nat, ws: seq<Write>)
    requires HandleAll(o, w, messages, clock, tick).stop.None? && w.session.history == CappedRun(ws)
    ensures HandleAll(o, w, messages, clock, tick).world.session.history == CappedRun(ws + WritesOf(w.ready, messages))
    decreases |messages|
  {
    hide SettleExpired, ProcessMessage, WriteOf, CappedRun, Applied;
    if messages == [] {
      assert ws + [] == ws;
    } else {
      var due := SettleExpired(o, w.session, clock(tick));
      var next := w.(session := due.session);
      var step := if w.ready then WriteOf(messages[0]) else [];
      ExpiryKeepsHistory(o, w.session, clock(tick));
      MessageWrites(o, next, messages[0], clock(tick));
      MessageReplies(o, next, messages[0], clock(tick));
      WriteAtMostOne(messages[0]);
      CappedRunGrows(ws, step);
      var turn := ProcessMessage(o, next, messages[0], clock(tick));
      HistoryIsItsWrites(o, turn.world, messages[1..], clock, tick + 1, ws + step);
      assert (ws + step) + WritesOf(true, messages[1..]) == ws + (step + WritesOf(true, messages[1..]));
    }
  }

  /**
  After any session, a `plan` request is answered from the unbounded history of that session's writes:
  evicting old entries never shows.
  */
  lemma PlanSeesWholeHistory(o: Outside, messages: seq<Bytes>, clock: nat -> nat, generation: nat, limit: nat, params: Screen)
    requires HandleAll(o, START, messages, clock, 0).stop.None?
    ensures var s := HandleAll(o, START, messages, clock, 0).world.session;
            var whole := UnboundedRun(WritesOf(false, messages));
            var window := WindowOf(whole.entries, Min(limit, RETENTION_CAP));
            if whole.stamp != Some(generation) then AnswerPlan(o, s, generation, limit, params) == Err(UNKNOWN_GENERATION)
            else Sane(window) && AnswerPlan(o, s, generation, limit, params) == Ok(PlanBody(o, params, window, NoDir(), 0))
  {
    hide HandleAll, PlanBody, CappedRun, UnboundedRun, WritesOf, WindowOf, Sane, SaneEntries;
    StartsUnready();
    var s := HandleAll(o, START, messages, clock, 0).world.session;
    var ws := WritesOf(false, messages);
    HistoryIsItsWrites(o, START, messages, clock, 0, []);
    assert [] + ws == ws;
    RunIsNewest(ws);
    EvictionIsInvisible(ws, limit);
    WindowIsSane(s.history.entries, limit);
  }
}
