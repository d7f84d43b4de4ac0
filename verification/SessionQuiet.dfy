/** When an input settles: at once, when its quiet period has passed, or on a flush (src/worker.rs). */
module SessionQuiet {
  import opened Bytes
  import opened Decimals
  import opened Sessions
  import opened SessionEvents
  import opened SessionReplies
  import opened SessionRequests
  import opened SessionStores
  import Framing

  /** Some slot holds candidates of this generation; 0 names none. */
  predicate Held(slots: Slots, generation: nat) {
    && generation != 0
    && ((slots.live.Some? && slots.live.value.generation == generation)
        || (slots.cache.Some? && slots.cache.value.generation == generation))
  }

  lemma HeldIsFound(slots: Slots, generation: nat)
    ensures Held(slots, generation) <==> generation != 0 && slots.Find(generation).Some?
  {
  }

  ghost predicate NoSettle(log: seq<Event>) {
    forall i :: 0 <= i < |log| ==> !Settles(log[i])
  }

  lemma NoSettleConcat(a: seq<Event>, b: seq<Event>)
    ensures NoSettle(a + b) <==> NoSettle(a) && NoSettle(b)
  {
    hide Settles;
    if NoSettle(a + b) {
      forall i | 0 <= i < |a|
        ensures !Settles(a[i])
      {
        assert (a + b)[i] == a[i];
      }
      forall i | 0 <= i < |b|
        ensures !Settles(b[i])
      {
        assert (a + b)[|a| + i] == b[i];
      }
    }
  }

  // ----- Accepting an input -----

  /** An input of generation `g`, naming candidates `c`, with a delay of `d`, newer than the current one. */
  ghost predicate TakesInput(act: Act, f: seq<Bytes>, g: nat, c: nat, d: nat) {
    && act.Message? && act.world.ready && Framing.DecodeSpec(act.message) == Ok(f)
    && |f| == 13 && f[0] == Ascii("input") && f[1] == Digits(g) && f[2] == Digits(c) && f[3] == Digits(d)
    && ParseInput(f, act.now).Some? && Current(act.world.session) < g
  }

  /** What such an input is read as. */
  lemma TakenInput(act: Act, f: seq<Bytes>, g: nat, c: nat, d: nat)
    requires TakesInput(act, f, g, c, d)
    ensures var input := ParseInput(f, act.now).value;
            && input.generation == g >= 1 && input.candidateGeneration == c
            && input.expiry == if d == 0 then None else Some(act.now + d)
  {
    hide Ascii, ParseLayout, Digits;
    var input := ParseInput(f, act.now).value;
    var delay := InputReads(f, act.now);
    IdentifierIsPrinted(f[1], input.generation);
    IdentifierIsPrinted(f[1], g);
    PrintedOnce(input.generation, g);
    PrintedOnce(input.candidateGeneration, c);
    PrintedOnce(delay, d);
  }

  lemma PrintedOnce(m: nat, n: nat)
    requires Digits(m) == Digits(n)
    ensures m == n
  {
    DigitsDenote(m);
    DigitsDenote(n);
  }

  lemma TakenLog(o: Outside, act: Act, f: seq<Bytes>, g: nat, c: nat, d: nat)
    requires TakesInput(act, f, g, c, d)
    ensures AcceptInput(o, act.world.session, f, act.now).Ok? && act.world.ready
    ensures var step := AcceptInput(o, act.world.session, f, act.now).value;
            LogOf(o, act) == step.log && WorldAfter(o, act) == act.world.(session := step.session)
  {
    TakenInput(act, f, g, c, d);
    hide AcceptInput, ParseInput, Digits, AcceptFlush, ProcessRequest;
    NewerAccepted(o, act.world.session, f, act.now);
  }

  lemma NewerAccepted(o: Outside, s: Session, f: seq<Bytes>, now: nat)
    requires ParseInput(f, now).Some? && Current(s) < ParseInput(f, now).value.generation
    ensures AcceptInput(o, s, f, now).Ok?
  {
    hide ParseInput, SettleAgainst, HighlightOf, SettlesNow;
  }

  /** What accepting it leaves, and what it writes about settling. */
  lemma TakenSettles(o: Outside, act: Act, f: seq<Bytes>, g: nat, c: nat, d: nat)
    requires TakesInput(act, f, g, c, d)
    ensures var s := act.world.session;
            if d == 0 || Held(s.slots, c) then
              && |LogOf(o, act)| > 0 && NoSettle(LogOf(o, act)[..|LogOf(o, act)| - 1])
              && var e := LogOf(o, act)[|LogOf(o, act)| - 1];
                 Settles(e) && e.generation == g && e.cause == Accepted && (e.PlanReady? <==> Held(s.slots, c))
            else
              NoSettle(LogOf(o, act)) && WaitsUntil(WorldAfter(o, act), g, c, act.now + d)
  {
    hide *;
    TakenInput(act, f, g, c, d);
    TakenLog(o, act, f, g, c, d);
    var s := act.world.session;
    var input := AcceptShape(o, s, f, act.now);
    var held := s.(input := Some(input));
    HeldIsFound(s.slots, c);
    SettlesNowWhen(s, input);
    var shown := HighlightOf(o, s, input);
    HighlightIsNoSettle(o, s, input);
    if d == 0 || Held(s.slots, c) {
      SettleShape(o, held, c, Accepted);
      var settled := SettleAgainst(o, held, c, Accepted).log;
      InputIsCurrent(held, input);
      CarriesGen(settled[0]);
      assert settled == [settled[0]];
      assert (shown + settled)[..|shown + settled| - 1] == shown;
    } else {
      WaitsWhen(act.world.(session := held), input, act.now + d);
    }
  }

  lemma SettlesNowWhen(s: Session, input: Input)
    ensures SettlesNow(s, input) <==> input.expiry.None? || Held(s.slots, input.candidateGeneration)
  {
  }

  lemma HighlightIsNoSettle(o: Outside, s: Session, input: Input)
    ensures NoSettle(HighlightOf(o, s, input))
  {
  }

  /** The current input is `g`, waits until `t` for candidates `c`, and no slot holds them. */
  ghost predicate WaitsUntil(w: World, g: nat, c: nat, t: nat) {
    && w.ready && w.session.input.Some? && !Held(w.session.slots, c)
    && var input := w.session.input.value;
       input.generation == g && input.candidateGeneration == c && input.expiry == Some(t)
  }

  lemma WaitsWhen(w: World, input: Input, t: nat)
    requires w.ready && w.session.input == Some(input) && input.expiry == Some(t)
    requires !Held(w.session.slots, input.candidateGeneration)
    ensures WaitsUntil(w, input.generation, input.candidateGeneration, t)
  {
  }

  /** An input settles in the act that accepts it exactly when its delay is zero or its candidates are held. */
  lemma InputSettlesAtOnceIff(o: Outside, act: Act, f: seq<Bytes>, g: nat, c: nat, d: nat)
    requires TakesInput(act, f, g, c, d)
    ensures !NoSettle(LogOf(o, act)) <==> d == 0 || Held(act.world.session.slots, c)
  {
    hide TakesInput, LogOf, WaitsUntil, Held, Settles;
    TakenSettles(o, act, f, g, c, d);
  }

  // ----- Waiting -----

  /** The message neither replaces, flushes nor completes input `g`. */
  ghost predicate Leaves(act: Act, g: nat) {
    && act.Message?
    && forall f :: Framing.DecodeSpec(act.message) == Ok(f) ==>
         && (f == [] || f[0] != Ascii("input")) && f != [Ascii("flush"), Digits(g)]
         && !(AsksStore(act, f) && IsAccepted(act, f))
  }

  ghost predicate Flushes(act: Act, g: nat) {
    act.Message? && Framing.DecodeSpec(act.message) == Ok([Ascii("flush"), Digits(g)])
  }

  lemma LookWaits(o: Outside, act: Act, g: nat, c: nat, t: nat)
    requires act.Expiry? && WaitsUntil(act.world, g, c, t)
    ensures if act.now < t then LogOf(o, act) == [] && WorldAfter(o, act) == act.world
            else LogOf(o, act) == [CaptureRequired(g, Quiet)]
  {
    hide Slots.Find, PlanBody, DirFrom;
    HeldIsFound(act.world.session.slots, c);
  }

  lemma FlushEnds(o: Outside, act: Act, g: nat, c: nat, t: nat)
    requires Flushes(act, g) && WaitsUntil(act.world, g, c, t) && 1 <= g <= I64_MAX
    ensures LogOf(o, act) == [CaptureRequired(g, Flush)]
  {
    hide Slots.Find, PlanBody, DirFrom, ParseIdentifier, Digits, AcceptInput, ProcessRequest;
    IdentifierIsPrinted(Digits(g), g);
    HeldIsFound(act.world.session.slots, c);
    assert Ascii("flush")[0] == 102 && Ascii("input")[0] == 105;
  }

  lemma FlushOfOther(o: Outside, s: Session, f: seq<Bytes>, g: nat)
    requires s.input.Some? && s.input.value.generation == g && 1 <= g <= I64_MAX && f != [Ascii("flush"), Digits(g)]
    requires f != [] && f[0] == Ascii("flush") && AcceptFlush(o, s, f).Ok?
    ensures AcceptFlush(o, s, f).value == Step(s, [])
  {
    hide SettleAgainst, ParseIdentifier, Digits, Ascii;
    IdentifierIsPrinted(f[1], g);
    assert f == [f[0], f[1]];
  }

  lemma RequestLeaves(o: Outside, act: Act, f: seq<Bytes>)
    requires act.Message? && act.world.ready && Framing.DecodeSpec(act.message) == Ok(f)
    requires ProcessRequest(o, act.world.session, f).Ok? && !(AsksStore(act, f) && IsAccepted(act, f))
    ensures var s, step := act.world.session, ProcessRequest(o, act.world.session, f).value;
            NoSettle(step.log) && step.session.input == s.input && step.session.slots == s.slots
  {
    var s := act.world.session;
    RequestShape(o, s, f);
    AnswerShape(o, s, ParseRequest(f));
    AnswerKeepsSlots(o, s, ParseRequest(f));
    ReplyShape(f[1], AnswerTo(o, s, ParseRequest(f)).result);
    hide ParseRequest, AnswerTo, ParseStored, ParseIdentifier, ReplyOf, SettleAgainst, Framing.DecodeSpec, ProcessRequest;
  }

  lemma AnswerKeepsSlots(o: Outside, s: Session, request: Request)
    ensures var answer := AnswerTo(o, s, request);
            var accepted := request.StoreCandidates? && Binds(s, request.inputGeneration) && ParseStored(request.payload).Some?;
            (!accepted ==> answer.session.slots == s.slots && answer.settle.None?)
  {
    hide PlanBody, ParseStored, ParseNamespace, Retain, WindowFor, Slots.Find, Slots.Insert;
  }

  lemma LeaveWaits(o: Outside, act: Act, g: nat, c: nat, t: nat)
    requires Leaves(act, g) && WaitsUntil(act.world, g, c, t) && 1 <= g <= I64_MAX
    ensures NoSettle(LogOf(o, act)) && WaitsUntil(WorldAfter(o, act), g, c, t)
  {
    hide AcceptInput, AcceptFlush, ProcessRequest, IsAccepted, AsksStore, Digits;
    if Framing.DecodeSpec(act.message).Ok? {
      var f := Framing.DecodeSpec(act.message).value;
      var s := act.world.session;
      assert f == [] || f[0] != Ascii("input");
      if f != [] && f[0] == Ascii("flush") {
        if AcceptFlush(o, s, f).Ok? {
          FlushOfOther(o, s, f, g);
        }
      } else if ProcessRequest(o, s, f).Ok? {
        RequestLeaves(o, act, f);
      }
    }
  }

  // ----- Over whole runs -----

  lemma {:induction false} ChainStep(o: Outside, w: World, acts: seq<Act>, i: nat)
    requires Chained(o, w, acts) && i + 1 < |acts|
    ensures acts[i + 1].world == WorldAfter(o, acts[i])
    decreases |acts|
  {
    hide WorldAfter;
    if i > 0 {
      ChainStep(o, WorldAfter(o, acts[0]), acts[1..], i - 1);
    } else {
      assert acts[1..][0] == acts[1];
    }
  }

  /** The act accepts an input that is not held; nothing touches it before act `j`, and its quiet period has not passed. */
  ghost predicate StillWaits(acts: seq<Act>, i: nat, j: nat, f: seq<Bytes>, g: nat, c: nat, d: nat) {
    && i < j < |acts| && d > 0 && TakesInput(acts[i], f, g, c, d) && !Held(acts[i].world.session.slots, c)
    && forall k :: i < k < j ==>
         if acts[k].Expiry? then acts[k].now < acts[i].now + d else Leaves(acts[k], g)
  }

  lemma {:induction false} WaitsAt(
    o: Outside, w: World, acts: seq<Act>, i: nat, j: nat, f: seq<Bytes>, g: nat, c: nat, d: nat)
    requires Chained(o, w, acts) && StillWaits(acts, i, j, f, g, c, d)
    ensures 1 <= g <= I64_MAX && WaitsUntil(acts[j].world, g, c, acts[i].now + d)
    ensures forall k :: i < k < j ==> NoSettle(LogOf(o, acts[k]))
    decreases j
  {
    hide WaitsUntil, LogOf, WorldAfter, Leaves, TakesInput, Held, Chained, NoSettle;
    GenerationFits(acts[i], f, g, c, d);
    if j == i + 1 {
      TakenSettles(o, acts[i], f, g, c, d);
      ChainStep(o, w, acts, i);
    } else {
      WaitsAt(o, w, acts, i, j - 1, f, g, c, d);
      ChainStep(o, w, acts, j - 1);
      var act := acts[j - 1];
      if act.Expiry? {
        LookWaits(o, act, g, c, acts[i].now + d);
        NothingSettles();
      } else {
        LeaveWaits(o, act, g, c, acts[i].now + d);
      }
    }
  }

  lemma NothingSettles()
    ensures NoSettle([])
  {
  }

  lemma GenerationFits(act: Act, f: seq<Bytes>, g: nat, c: nat, d: nat)
    requires TakesInput(act, f, g, c, d)
    ensures 1 <= g <= I64_MAX
  {
    hide Ascii, ParseLayout, Digits;
    IdentifierIsPrinted(f[1], ParseInput(f, act.now).value.generation);
    TakenInput(act, f, g, c, d);
  }

  /** Nothing settles before act `j`; a look settles the input exactly when its quiet period has passed, a flush at once. */
  ghost predicate SettlesOnTime(o: Outside, acts: seq<Act>, i: nat, j: nat, g: nat, d: nat) {
    && i < j < |acts|
    && (forall k :: i < k < j ==> NoSettle(LogOf(o, acts[k])))
    && (acts[j].Expiry? ==> LogOf(o, acts[j]) == if acts[j].now < acts[i].now + d then [] else [CaptureRequired(g, Quiet)])
    && (Flushes(acts[j], g) ==> LogOf(o, acts[j]) == [CaptureRequired(g, Flush)])
  }

  /**
   A run is a chain of acts timed by the clock. An input accepted at reading `t` with a delay `d` above zero, whose
   candidates are not held, and which is neither flushed, completed by a store nor replaced, writes no settle event at
   readings below `t + d`, and asks for a capture at the first reading that is not below it. A flush in time asks at once.
   */
  lemma QuietPeriodsRunOut(o: Outside, script: seq<Wait>, clock: nat -> nat) returns (acts: seq<Act>)
    ensures RunLinks(o, START, acts, Whole(o, script, clock), Framing.Consume(Framing.START, DataOf(script)).frames)
    ensures Timed(acts, clock, 0)
    ensures forall i, j, f, g, c, d :: StillWaits(acts, i, j, f, g, c, d) ==> SettlesOnTime(o, acts, i, j, g, d)
  {
    hide *;
    WholeIs(o, script, clock);
    acts := RunIsChain(o, START, Framing.START, script, clock, 0);
    ChainIs(o, START, acts, Whole(o, script, clock), Framing.Consume(Framing.START, DataOf(script)).frames);
    forall i: nat, j: nat, f, g: nat, c: nat, d: nat | StillWaits(acts, i, j, f, g, c, d)
      ensures SettlesOnTime(o, acts, i, j, g, d)
    {
      WaitIsInside(acts, i, j, f, g, c, d);
      WaitsAt(o, START, acts, i, j, f, g, c, d);
      EndsOnTime(o, acts, i, j, g, c, d);
    }
  }

  lemma ChainIs(o: Outside, w: World, acts: seq<Act>, run: Run, messages: seq<Bytes>)
    requires RunLinks(o, w, acts, run, messages)
    ensures Chained(o, w, acts)
  {
    hide Chained, LogOfAll, MessagesOf;
  }

  lemma WaitIsInside(acts: seq<Act>, i: nat, j: nat, f: seq<Bytes>, g: nat, c: nat, d: nat)
    requires StillWaits(acts, i, j, f, g, c, d)
    ensures i < j < |acts|
  {
    hide TakesInput, Leaves, Held;
  }

  lemma EndsOnTime(o: Outside, acts: seq<Act>, i: nat, j: nat, g: nat, c: nat, d: nat)
    requires i < j < |acts| && 1 <= g <= I64_MAX && WaitsUntil(acts[j].world, g, c, acts[i].now + d)
    requires forall k :: i < k < j ==> NoSettle(LogOf(o, acts[k]))
    ensures SettlesOnTime(o, acts, i, j, g, d)
  {
    hide LogOf, WaitsUntil, Flushes, NoSettle;
    if acts[j].Expiry? {
      LookWaits(o, acts[j], g, c, acts[i].now + d);
    }
    if Flushes(acts[j], g) {
      FlushEnds(o, acts[j], g, c, acts[i].now + d);
    }
  }
}
