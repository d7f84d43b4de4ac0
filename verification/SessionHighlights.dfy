/** Every highlight event of a run is the analysis of an accepted buffer (`emit_highlight` of src/worker.rs). */
module SessionHighlights {
  import opened Bytes
  import opened Decimals
  import opened Sessions
  import opened SessionEvents
  import opened SessionReplies
  import opened SessionStores
  import Framing
  import Analysis
  import TokenFacts
  import HighlightStream

  /** What the resolver answers: executables by directory, search path and name, files by directory and path. */
  datatype Resolver = Resolver(executable: (Bytes, Bytes, Bytes) -> bool, pathExists: (Bytes, Bytes) -> bool)

  function NamesFor(r: Resolver, names: Namespace, cwd: Bytes): Analysis.Names {
    Analysis.Names(names.aliases, names.functions, names.builtins, names.reserved,
                   literal => r.pathExists(cwd, literal), name => r.executable(cwd, names.path, name))
  }

  function Analysed(r: Resolver, names: Namespace, cwd: Bytes, comments: bool, buffer: Bytes): Bytes {
    HighlightStream.Body(TokenFacts.Tokens(NamesFor(r, names, cwd), buffer, comments))
  }

  /** The session's lexer is the one of this model. */
  ghost predicate Analyses(o: Outside, r: Resolver) {
    forall names: Namespace, cwd: Bytes, comments: bool, buffer: Bytes ::
      o.highlight(names, cwd, comments, buffer) == Analysed(r, names, cwd, comments, buffer)
  }

  lemma HighlightIsAnalysis(o: Outside, r: Resolver, s: Session, input: Input)
    requires Analyses(o, r)
    ensures HighlightOf(o, s, input)
         == match s.namespace
            case None => []
            case Some(names) =>
              [Highlight(input.generation, Analysed(r, names, input.cwd, input.interactiveComments, input.buffer))]
  {
    if s.namespace.Some? && input.buffer == [] {
      HighlightStream.NoTokens(NamesFor(r, s.namespace.value, input.cwd), input.interactiveComments);
      assert Ascii("0") == Digits(0);
    }
    hide HighlightStream.Body, TokenFacts.Tokens, NamesFor;
  }

  lemma SettleShowsNothing(o: Outside, s: Session, generation: nat, cause: Cause, e: Event)
    requires e in SettleAgainst(o, s, generation, cause).log
    ensures !e.Highlight?
  {
    hide PlanBody, Slots.Find;
  }

  lemma RequestShowsNothing(o: Outside, s: Session, fields: seq<Bytes>, e: Event)
    requires ProcessRequest(o, s, fields).Ok? && e in ProcessRequest(o, s, fields).value.log
    ensures !e.Highlight?
  {
    hide *;
    RequestShape(o, s, fields);
    var answer := AnswerTo(o, s, ParseRequest(fields));
    ReplyShape(fields[1], answer.result);
    if answer.settle.Some? && e in SettleAgainst(o, answer.session, answer.settle.value, Store).log {
      SettleShowsNothing(o, answer.session, answer.settle.value, Store, e);
    }
  }

  lemma FlushShowsNothing(o: Outside, s: Session, fields: seq<Bytes>, e: Event)
    requires AcceptFlush(o, s, fields).Ok? && e in AcceptFlush(o, s, fields).value.log
    ensures !e.Highlight?
  {
    hide SettleAgainst, ParseIdentifier;
    if s.input.Some? && e in SettleAgainst(o, s, s.input.value.candidateGeneration, Flush).log {
      SettleShowsNothing(o, s, s.input.value.candidateGeneration, Flush, e);
    }
  }

  lemma InputShows(o: Outside, s: Session, fields: seq<Bytes>, now: nat, e: Event)
    requires AcceptInput(o, s, fields, now).Ok?
    ensures ParseInput(fields, now).Some?
    ensures e.Highlight? && e in AcceptInput(o, s, fields, now).value.log
       <==> e in HighlightOf(o, s, ParseInput(fields, now).value)
  {
    hide *;
    var input := AcceptShape(o, s, fields, now);
    var held := s.(input := Some(input));
    HighlightShape(o, s, input);
    var settled := SettleAgainst(o, held, input.candidateGeneration, Accepted).log;
    if e in settled {
      SettleShowsNothing(o, held, input.candidateGeneration, Accepted, e);
    }
  }

  // ----- Which act shows a highlight -----

  /** The act is an input newer than the current one, and the event is the analysis of its buffer. */
  ghost predicate Shows(r: Resolver, act: Act, e: Event) {
    && act.Message? && act.world.ready && Framing.DecodeSpec(act.message).Ok?
    && var fields, s := Framing.DecodeSpec(act.message).value, act.world.session;
       && fields != [] && fields[0] == Ascii("input") && ParseInput(fields, act.now).Some?
       && var input := ParseInput(fields, act.now).value;
          && Newer(s, input) && s.namespace.Some?
          && e == Highlight(input.generation,
                            Analysed(r, s.namespace.value, input.cwd, input.interactiveComments, input.buffer))
  }

  lemma ExpiryShowsNothing(o: Outside, s: Session, now: nat, e: Event)
    requires e in SettleExpired(o, s, now).log
    ensures !e.Highlight?
  {
    hide SettleAgainst;
    SettleShowsNothing(o, s, s.input.value.candidateGeneration, Quiet, e);
  }

  lemma AcceptedWhen(o: Outside, s: Session, fields: seq<Bytes>, now: nat)
    ensures AcceptInput(o, s, fields, now).Ok?
       <==> ParseInput(fields, now).Some? && Newer(s, ParseInput(fields, now).value)
  {
    hide ParseInput, SettleAgainst, HighlightOf, SettlesNow, Newer;
  }

  /** The act hands fields to the session that ask for an input. */
  ghost predicate IsInput(act: Act, fields: seq<Bytes>) {
    && act.Message? && act.world.ready && Framing.DecodeSpec(act.message) == Ok(fields)
    && fields != [] && fields[0] == Ascii("input")
  }

  lemma InputActShows(o: Outside, r: Resolver, act: Act, fields: seq<Bytes>, e: Event)
    requires Analyses(o, r) && IsInput(act, fields)
    ensures e.Highlight? && e in LogOf(o, act) <==> Shows(r, act, e)
  {
    var s := act.world.session;
    AcceptedWhen(o, s, fields, act.now);
    hide AcceptInput, ParseInput, Analysed, Newer, HighlightOf;
    if AcceptInput(o, s, fields, act.now).Ok? {
      InputShows(o, s, fields, act.now, e);
      HighlightIsAnalysis(o, r, s, ParseInput(fields, act.now).value);
    }
  }

  lemma HelloShowsNothing(o: Outside, w: World, fields: seq<Bytes>, e: Event)
    requires e in ProcessHello(o, w, fields).log
    ensures !e.Highlight?
  {
  }

  lemma OtherActShowsNothing(o: Outside, act: Act, e: Event)
    requires act.Message? && e in LogOf(o, act) && forall fields :: !IsInput(act, fields)
    ensures !e.Highlight?
  {
    hide ProcessHello, ProcessRequest, AcceptFlush, AcceptInput;
    var fields := Framing.DecodeSpec(act.message).value;
    assert !IsInput(act, fields);
    if !act.world.ready {
      HelloShowsNothing(o, act.world, fields, e);
    } else if fields != [] && fields[0] == Ascii("flush") {
      FlushShowsNothing(o, act.world.session, fields, e);
    } else {
      RequestShowsNothing(o, act.world.session, fields, e);
    }
  }

  lemma ShowsOnInput(r: Resolver, act: Act, e: Event)
    requires Shows(r, act, e)
    ensures IsInput(act, Framing.DecodeSpec(act.message).value)
  {
    hide Analysed, ParseInput, Newer, Framing.DecodeSpec;
  }

  lemma ActShows(o: Outside, r: Resolver, act: Act, e: Event)
    requires Analyses(o, r)
    ensures e.Highlight? && e in LogOf(o, act) <==> Shows(r, act, e)
  {
    hide ProcessMessage, SettleExpired, Analysed, ParseInput, Newer, Framing.DecodeSpec, Shows;
    if Shows(r, act, e) {
      ShowsOnInput(r, act, e);
    }
    if act.Expiry? {
      if e in LogOf(o, act) {
        ExpiryShowsNothing(o, act.world.session, act.now, e);
      }
    } else if fields :| IsInput(act, fields) {
      InputActShows(o, r, act, fields, e);
    } else if e in LogOf(o, act) {
      OtherActShowsNothing(o, act, e);
    }
  }

  lemma {:induction false} InSomeAct(o: Outside, acts: seq<Act>, e: Event)
    ensures e in LogOfAll(o, acts) <==> exists k :: 0 <= k < |acts| && e in LogOf(o, acts[k])
  {
    hide LogOf;
    if acts != [] {
      InSomeAct(o, acts[1..], e);
      if e in LogOfAll(o, acts[1..]) {
        var k :| 0 <= k < |acts[1..]| && e in LogOf(o, acts[1..][k]);
        assert acts[k + 1] == acts[1..][k];
      }
      if k :| 0 <= k < |acts| && e in LogOf(o, acts[k]) {
        assert k > 0 ==> acts[1..][k - 1] == acts[k];
      }
    }
  }

  ghost predicate ShownByOne(r: Resolver, acts: seq<Act>, e: Event) {
    exists k :: 0 <= k < |acts| && Shows(r, acts[k], e)
  }

  /**
   A run is a chain of acts in which the highlight events are exactly the analyses of the buffers of its accepted
   inputs, each against the namespace the session knows at that moment.
   */
  lemma HighlightsAreAnalyses(o: Outside, r: Resolver, script: seq<Wait>, clock: nat -> nat) returns (acts: seq<Act>)
    requires Analyses(o, r)
    ensures RunLinks(o, START, acts, Whole(o, script, clock), Framing.Consume(Framing.START, DataOf(script)).frames)
    ensures forall e: Event :: e.Highlight? ==> (e in Whole(o, script, clock).log <==> ShownByOne(r, acts, e))
  {
    hide *;
    WholeIs(o, script, clock);
    acts := RunIsChain(o, START, Framing.START, script, clock, 0);
    ChainLog(o, START, acts, Whole(o, script, clock), Framing.Consume(Framing.START, DataOf(script)).frames);
    forall e: Event | e.Highlight?
      ensures e in Whole(o, script, clock).log <==> ShownByOne(r, acts, e)
    {
      InSomeAct(o, acts, e);
      SomeActShows(o, r, acts, e);
    }
  }

  lemma SomeActShows(o: Outside, r: Resolver, acts: seq<Act>, e: Event)
    requires Analyses(o, r) && e.Highlight?
    ensures (exists k :: 0 <= k < |acts| && e in LogOf(o, acts[k])) <==> ShownByOne(r, acts, e)
  {
    hide LogOf, Shows, Analyses;
    forall k | 0 <= k < |acts|
      ensures e in LogOf(o, acts[k]) <==> Shows(r, acts[k], e)
    {
      ActShows(o, r, acts[k], e);
    }
  }
}
