/** The incremental netstring decoder of src/framing.rs. */
module Framing {
  import opened Bytes
  import opened Decimals

  const COLON: byte := 58
  const COMMA: byte := 44

  datatype Error =
    MissingLength | LeadingZero | LengthOverflow | MissingColon | InvalidTrailingComma | TruncatedFrame | DecoderFailed

  datatype State = Length(decimal: Decimal) | Payload(remaining: nat, bytes: Bytes) | Comma(bytes: Bytes) | Failed

  const START: State := Length(EMPTY)

  /** `encode`. */
  function Encode(payload: Bytes): Bytes {
    Digits(|payload|) + [COLON] + payload + [COMMA]
  }

  function EncodeAll(frames: seq<Bytes>): Bytes {
    if frames == [] then [] else Encode(frames[0]) + EncodeAll(frames[1..])
  }

  /** Every frame is short enough to have a length; any vector is. */
  predicate Sized(frames: seq<Bytes>) {
    forall i :: 0 <= i < |frames| ==> |frames[i]| <= USIZE_MAX
  }

  /** What a decoder did with some input: its next state, the frames it completed, and its first error. */
  datatype Outcome = Outcome(state: State, frames: seq<Bytes>, error: Option<Error>) {
    /** This outcome followed by a later one. */
    function Then(later: Outcome): Outcome {
      Outcome(later.state, frames + later.frames, later.error)
    }
  }

  function Fail(error: Error): Outcome { Outcome(Failed, [], Some(error)) }

  function Move(state: State): Outcome { Outcome(state, [], None) }

  function Opened(n: nat): State {
    if n == 0 then Comma([]) else Payload(n, [])
  }

  function Filled(remaining: nat, bytes: Bytes): State {
    if remaining == 0 then Comma(bytes) else Payload(remaining, bytes)
  }

  function LengthByte(decimal: Decimal, b: byte): Outcome {
    if b == COLON then
      if decimal.digits == 0 then Fail(MissingLength) else Move(Opened(decimal.value))
    else if IsDigit(b) then
      match decimal.PushCanonical(b)
      case Ok(pushed) => Move(Length(pushed))
      case Err(error) => Fail(if error.LeadingZero? then Error.LeadingZero else LengthOverflow)
    else
      Fail(MissingColon)
  }

  /** One byte at a time: the meaning of the decoder, with no chunks in it. */
  function StepByte(state: State, b: byte): Outcome {
    match state
    case Length(decimal) => LengthByte(decimal, b)
    case Payload(remaining, bytes) => Move(Filled(Minus(remaining, 1), bytes + [b]))
    case Comma(bytes) => if b == COMMA then Outcome(START, [bytes], None) else Fail(InvalidTrailingComma)
    case Failed => Fail(DecoderFailed)
  }

  function Consume(state: State, input: Bytes): Outcome
    decreases |input|
  {
    if input == [] then Move(state)
    else
      var step := StepByte(state, input[0]);
      if step.error.Some? then step else step.Then(Consume(step.state, input[1..]))
  }

  /** The states a decoder reaches: a payload state still wants bytes, and a length state holds a printed number. */
  ghost predicate Valid(state: State) {
    match state
    case Length(decimal) => decimal == EMPTY || (decimal.HasRead(Digits(decimal.value)) && decimal.value <= USIZE_MAX)
    case Payload(remaining, bytes) => remaining > 0 && remaining + |bytes| <= USIZE_MAX
    case Comma(bytes) => |bytes| <= USIZE_MAX
    case Failed => true
  }

  /** The bytes of the unfinished frame a state has taken in. */
  ghost function Pending(state: State): Bytes {
    match state
    case Length(decimal) => if decimal == EMPTY then [] else Digits(decimal.value)
    case Payload(remaining, bytes) => Digits(remaining + |bytes|) + [COLON] + bytes
    case Comma(bytes) => Digits(|bytes|) + [COLON] + bytes
    case Failed => []
  }

  lemma StartIsValid()
    ensures Valid(START)
  {
  }

  // ----- One byte -----

  lemma LengthReads(decimal: Decimal, b: byte)
    requires Valid(Length(decimal)) && IsDigit(b)
    ensures var next := LengthByte(decimal, b);
            next.error.None? ==>
              && next.state.Length? && next.frames == []
              && Valid(next.state) && Pending(next.state) == Pending(Length(decimal)) + [b]
  {
    hide Value, Digits, Decimal.PushCanonical, Decimal.HasRead, Canonical, AllDigits;
    var s := Pending(Length(decimal));
    if decimal == EMPTY {
      EmptyReads();
    } else {
      DigitsDenote(decimal.value);
    }
    PushCanonicalReads(decimal, s, b);
    if decimal.PushCanonical(b).Ok? {
      HasReadPrinted(decimal.PushCanonical(b).value, s + [b]);
    }
  }

  lemma EmptyReads()
    ensures EMPTY.HasRead([])
  {
  }

  lemma ColonOpens(decimal: Decimal)
    requires Valid(Length(decimal)) && LengthByte(decimal, COLON).error.None?
    ensures var next := LengthByte(decimal, COLON);
            && Valid(next.state) && next.frames == []
            && Pending(Length(decimal)) + [COLON] == Pending(next.state)
  {
    hide Digits, Value, Decimal.PushCanonical;
    var header := Digits(decimal.value) + [COLON];
    assert header + [] == header;
  }

  lemma PayloadTakes(remaining: nat, bytes: Bytes, b: byte)
    requires Valid(Payload(remaining, bytes))
    ensures var next := Filled(remaining - 1, bytes + [b]);
            Valid(next) && Pending(Payload(remaining, bytes)) + [b] == Pending(next)
  {
    hide Digits;
    var header := Digits(remaining + |bytes|) + [COLON];
    assert (header + bytes) + [b] == header + (bytes + [b]);
  }

  lemma EncodeAllSmall(payload: Bytes)
    ensures EncodeAll([]) == []
    ensures EncodeAll([payload]) == Encode(payload)
  {
    hide Encode;
    assert [payload][1..] == [];
    assert Encode(payload) + [] == Encode(payload);
  }

  /** A byte that is accepted is either kept in the unfinished frame or completes it. */
  lemma StepKeeps(state: State, b: byte)
    requires Valid(state) && StepByte(state, b).error.None?
    ensures var next := StepByte(state, b);
            && Valid(next.state) && Sized(next.frames)
            && Pending(state) + [b] == EncodeAll(next.frames) + Pending(next.state)
  {
    hide Digits, EncodeAll, LengthByte, Value, Decimal.PushCanonical;
    var next := StepByte(state, b);
    EncodeAllSmall([]);
    match state
    case Length(decimal) =>
      if b == COLON {
        ColonOpens(decimal);
      } else {
        OnlyDigits(decimal, b);
        LengthReads(decimal, b);
      }
      assert [] + Pending(next.state) == Pending(next.state);
    case Payload(remaining, bytes) =>
      PayloadTakes(remaining, bytes, b);
      assert [] + Pending(next.state) == Pending(next.state);
    case Comma(bytes) =>
      EncodeAllSmall(bytes);
      assert Encode(bytes) + [] == Encode(bytes);
    case Failed =>
  }

  lemma OnlyDigits(decimal: Decimal, b: byte)
    requires b != COLON && LengthByte(decimal, b).error.None?
    ensures IsDigit(b)
  {
  }

  lemma StepFails(state: State, b: byte)
    requires StepByte(state, b).error.Some?
    ensures StepByte(state, b) == Fail(StepByte(state, b).error.value)
    ensures Valid(Failed)
  {
  }

  lemma {:induction false} EncodeAllConcat(a: seq<Bytes>, b: seq<Bytes>)
    ensures EncodeAll(a + b) == EncodeAll(a) + EncodeAll(b)
  {
    if a == [] {
      assert a + b == b;
    } else {
      assert (a + b)[1..] == a[1..] + b;
      EncodeAllConcat(a[1..], b);
    }
  }

  // ----- Whole inputs -----

  lemma Regroup<T>(a: seq<T>, b: seq<T>, c: seq<T>, d: seq<T>, e: seq<T>, f: seq<T>, g: seq<T>)
    requires a + b == d + e
    requires e + c == f + g
    ensures a + (b + c) == (d + f) + g
  {
    assert a + (b + c) == (a + b) + c;
    assert (d + e) + c == d + (e + c);
    assert d + (f + g) == (d + f) + g;
  }

  /** Nothing is lost or invented: input accepted so far is the completed frames, encoded, and the unfinished rest. */
  lemma {:induction false} ConsumeConserves(state: State, input: Bytes)
    requires Valid(state)
    ensures var done := Consume(state, input);
            && Valid(done.state) && Sized(done.frames)
            && (done.error.None? ==> Pending(state) + input == EncodeAll(done.frames) + Pending(done.state))
    decreases |input|
  {
    hide StepByte, LengthByte, Pending, EncodeAll, Valid;
    if input == [] {
      EncodeAllSmall([]);
      assert Pending(state) + input == EncodeAll([]) + Pending(state);
    } else {
      var step := StepByte(state, input[0]);
      if step.error.None? {
        StepKeeps(state, input[0]);
        ConsumeConserves(step.state, input[1..]);
        var rest := Consume(step.state, input[1..]);
        assert input == [input[0]] + input[1..];
        EncodeAllConcat(step.frames, rest.frames);
        if rest.error.None? {
          Regroup(Pending(state), [input[0]], input[1..], EncodeAll(step.frames), Pending(step.state),
                  EncodeAll(rest.frames), Pending(rest.state));
        }
      } else {
        StepFails(state, input[0]);
      }
    }
  }

  /** Where the input is cut does not matter: frames, error and state are those of the whole. */
  lemma {:induction false} ConsumeAppend(state: State, a: Bytes, b: Bytes)
    ensures var first := Consume(state, a);
            Consume(state, a + b) == if first.error.Some? then first else first.Then(Consume(first.state, b))
    decreases |a|
  {
    if a == [] {
      assert a + b == b;
      assert Move(state).Then(Consume(state, b)) == Consume(state, b);
    } else {
      assert (a + b)[1..] == a[1..] + b;
      var step := StepByte(state, a[0]);
      if step.error.None? {
        ConsumeAppend(step.state, a[1..], b);
        var rest := Consume(step.state, a[1..]);
        if rest.error.None? {
          var last := Consume(rest.state, b);
          assert step.frames + (rest.frames + last.frames) == (step.frames + rest.frames) + last.frames;
        }
      }
    }
  }

  function Concat(chunks: seq<Bytes>): Bytes {
    if chunks == [] then [] else chunks[0] + Concat(chunks[1..])
  }

  /** Feeding chunk after chunk, stopping at the first error. */
  function ConsumeChunks(state: State, chunks: seq<Bytes>): Outcome
    decreases |chunks|
  {
    if chunks == [] then Move(state)
    else
      var first := Consume(state, chunks[0]);
      if first.error.Some? then first else first.Then(ConsumeChunks(first.state, chunks[1..]))
  }

  lemma {:induction false} ChunksDoNotMatter(state: State, chunks: seq<Bytes>)
    ensures ConsumeChunks(state, chunks) == Consume(state, Concat(chunks))
    decreases |chunks|
  {
    if chunks != [] {
      var first := Consume(state, chunks[0]);
      ConsumeAppend(state, chunks[0], Concat(chunks[1..]));
      ChunksDoNotMatter(first.state, chunks[1..]);
    }
  }

  // ----- Encoded frames are read back -----

  lemma ConsumeOne(state: State, b: byte)
    ensures Consume(state, [b]) == StepByte(state, b)
  {
    assert [b][1..] == [];
    var step := StepByte(state, b);
    assert step.frames + [] == step.frames;
  }

  /** The length digits of a frame leave the decoder holding that length. */
  lemma {:induction false} ConsumeDigits(n: nat)
    requires n <= USIZE_MAX
    ensures var done := Consume(START, Digits(n));
            && done.error.None? && done.frames == []
            && done.state.Length? && done.state.decimal.HasRead(Digits(n))
  {
    DigitsDenote(n);
    if n < 10 {
      var b := (48 + n) as byte;
      ConsumeOne(START, b);
      PushReads(EMPTY, [], b);
      assert [] + [b] == [b] == Digits(n);
      assert [b][..0] == [];
      assert EMPTY.HasRead([]);
    } else {
      ConsumeDigits(n / 10);
      var front, b := Digits(n / 10), (48 + n % 10) as byte;
      var done := Consume(START, front);
      ConsumeAppend(START, front, [b]);
      ConsumeOne(done.state, b);
      DigitsDenote(n / 10);
      PushReads(done.state.decimal, front, b);
      assert front + [b] == Digits(n);
      assert front != [48];
    }
  }

  /** A payload state takes several bytes at once, as the bulk copy of `feed` does. */
  lemma {:induction false} ConsumePayload(remaining: nat, bytes: Bytes, input: Bytes, take: nat)
    requires 0 < take <= remaining && take <= |input|
    ensures Consume(Payload(remaining, bytes), input)
            == Consume(Filled(remaining - take, bytes + input[..take]), input[take..])
    decreases take
  {
    var next := Filled(remaining - 1, bytes + [input[0]]);
    assert StepByte(Payload(remaining, bytes), input[0]) == Move(next);
    var rest := Consume(next, input[1..]);
    assert Move(next).Then(rest) == rest by {
      assert [] + rest.frames == rest.frames;
    }
    if take == 1 {
      assert input[..1] == [input[0]];
    } else {
      ConsumePayload(remaining - 1, bytes + [input[0]], input[1..], take - 1);
      assert bytes + [input[0]] + input[1..][..take - 1] == bytes + input[..take];
      assert input[1..][take - 1..] == input[take..];
    }
  }

  lemma ConsumeFrame(payload: Bytes)
    requires |payload| <= USIZE_MAX
    ensures Consume(START, Encode(payload)) == Outcome(START, [payload], None)
  {
    var n := |payload|;
    var digits := Digits(n);
    ConsumeDigits(n);
    DigitsDenote(n);
    var read := Consume(START, digits);
    ConsumeAppend(START, digits, [COLON]);
    ConsumeOne(read.state, COLON);
    var header := digits + [COLON];
    assert Consume(START, header) == Move(Opened(n));
    ConsumeAppend(START, header, payload);
    if n > 0 {
      ConsumePayload(n, [], payload, n);
      assert [] + payload[..n] == payload && payload[n..] == [];
    }
    var body := header + payload;
    assert Consume(START, body) == Move(Comma(payload));
    ConsumeAppend(START, body, [COMMA]);
    ConsumeOne(Comma(payload), COMMA);
  }

  lemma {:induction false} ConsumeEncoded(frames: seq<Bytes>)
    requires Sized(frames)
    ensures Consume(START, EncodeAll(frames)) == Outcome(START, frames, None)
  {
    if frames != [] {
      ConsumeFrame(frames[0]);
      ConsumeAppend(START, Encode(frames[0]), EncodeAll(frames[1..]));
      ConsumeEncoded(frames[1..]);
      assert frames == [frames[0]] + frames[1..];
    }
  }

  /** `finish`: only a clean frame boundary is a good end. */
  function Ending(state: State): Option<Error> {
    match state
    case Length(decimal) => if decimal.digits == 0 then None else Some(TruncatedFrame)
    case Failed => Some(DecoderFailed)
    case _ => Some(TruncatedFrame)
  }

  /** A stream is accepted with these frames exactly when it is their encodings, one after another. */
  lemma AcceptIffEncoded(input: Bytes, frames: seq<Bytes>)
    ensures var done := Consume(START, input);
            (done.error.None? && Ending(done.state).None? && done.frames == frames)
            <==> (input == EncodeAll(frames) && Sized(frames))
  {
    var done := Consume(START, input);
    ConsumeConserves(START, input);
    if done.error.None? && Ending(done.state).None? && done.frames == frames {
      assert Pending(START) + input == input;
      assert EncodeAll(frames) + Pending(done.state) == EncodeAll(frames);
    }
    if input == EncodeAll(frames) && Sized(frames) {
      ConsumeEncoded(frames);
    }
  }

  /** Framing is injective: one byte stream holds at most one list of frames. */
  lemma EncodingIsUnique(a: seq<Bytes>, b: seq<Bytes>)
    requires Sized(a) && Sized(b) && EncodeAll(a) == EncodeAll(b)
    ensures a == b
  {
    ConsumeEncoded(a);
    ConsumeEncoded(b);
  }

  // ----- Errors come at the first hopeless byte -----

  /** Bytes that finish the frame a state is in. */
  ghost function Completion(state: State): Bytes {
    match state
    case Length(decimal) => if decimal == EMPTY then [] else [COLON] + Repeat(0, decimal.value) + [COMMA]
    case Payload(remaining, bytes) => Repeat(0, remaining) + [COMMA]
    case Comma(bytes) => [COMMA]
    case Failed => []
  }

  lemma CompletionFrames(state: State)
    requires Valid(state) && !state.Failed?
    ensures exists frames :: Sized(frames) && Pending(state) + Completion(state) == EncodeAll(frames)
  {
    if state == START {
      assert Pending(state) + Completion(state) == EncodeAll([]);
      assert Sized([]);
    } else {
      var payload := match state
        case Length(decimal) => Repeat(0, decimal.value)
        case Payload(remaining, bytes) => bytes + Repeat(0, remaining)
        case Comma(bytes) => bytes
        case Failed => [];
      assert Pending(state) + Completion(state) == Encode(payload);
      assert [payload][1..] == [];
      assert EncodeAll([payload]) == Encode(payload);
      assert Sized([payload]);
    }
  }

  lemma {:induction false} ErrorMeansFailed(state: State, input: Bytes)
    requires !state.Failed?
    ensures Consume(state, input).error.Some? <==> Consume(state, input).state.Failed?
    decreases |input|
  {
    if input != [] {
      var step := StepByte(state, input[0]);
      if step.error.None? {
        ErrorMeansFailed(step.state, input[1..]);
      }
    }
  }

  ghost predicate Completes(input: Bytes, more: Bytes, frames: seq<Bytes>) {
    Sized(frames) && input + more == EncodeAll(frames)
  }

  lemma CompletesWithoutError(input: Bytes, more: Bytes, frames: seq<Bytes>)
    requires Completes(input, more, frames)
    ensures Consume(START, input).error.None?
  {
    hide StepByte, LengthByte, EncodeAll;
    ConsumeEncoded(frames);
    ConsumeAppend(START, input, more);
  }

  lemma HopeRemains(input: Bytes) returns (more: Bytes, frames: seq<Bytes>)
    requires Consume(START, input).error.None?
    ensures Completes(input, more, frames)
  {
    hide StepByte, LengthByte, EncodeAll, Completion, Encode, Consume;
    var done := Consume(START, input);
    ConsumeConserves(START, input);
    ErrorMeansFailed(START, input);
    CompletionFrames(done.state);
    var tail :| Sized(tail) && Pending(done.state) + Completion(done.state) == EncodeAll(tail);
    more, frames := Completion(done.state), done.frames + tail;
    EncodeAllConcat(done.frames, tail);
    assert Pending(START) == [] && [] + input == input;
    Regroup([], input, more, EncodeAll(done.frames), Pending(done.state), EncodeAll(tail), []);
    assert [] + (input + more) == input + more;
    assert EncodeAll(tail) + [] == EncodeAll(tail);
    assert EncodeAll(frames) + [] == EncodeAll(frames);
  }

  /** The decoder reports an error exactly when no continuation could make the bytes read so far a good stream. */
  lemma ErrorIffHopeless(input: Bytes)
    ensures Consume(START, input).error.None? <==> exists more, frames :: Completes(input, more, frames)
  {
    hide *;
    if Consume(START, input).error.None? {
      var more, frames := HopeRemains(input);
    }
    forall more, frames | Completes(input, more, frames)
      ensures Consume(START, input).error.None?
    {
      CompletesWithoutError(input, more, frames);
    }
  }

  // ----- The decoder -----

  datatype FeedError = FeedError(completed: seq<Bytes>, error: Error)

  /** What `feed` returns for an outcome. */
  function Fed(outcome: Outcome): Result<seq<Bytes>, FeedError> {
    match outcome.error
    case None => Ok(outcome.frames)
    case Some(error) => Err(FeedError(outcome.frames, error))
  }

  /** A poisoned decoder: an empty chunk is still fine, anything else and the end of the stream are not. */
  lemma PoisonedStaysPoisoned(input: Bytes)
    ensures Consume(Failed, input) == if input == [] then Move(Failed) else Fail(DecoderFailed)
    ensures Ending(Failed) == Some(DecoderFailed)
  {
  }

  /** What reading the rest of a chunk adds to the frames completed before it. */
  ghost function After(completed: seq<Bytes>, state: State, input: Bytes): Outcome {
    Outcome(state, completed, None).Then(Consume(state, input))
  }

  lemma AfterNothing(state: State, input: Bytes)
    ensures After([], state, input) == Consume(state, input)
    ensures input == [] ==> forall completed :: After(completed, state, input) == Outcome(state, completed, None)
  {
    var rest := Consume(state, input);
    assert [] + rest.frames == rest.frames;
    forall completed: seq<Bytes>
      ensures completed + [] == completed
    {
    }
  }

  lemma AfterByte(completed: seq<Bytes>, state: State, input: Bytes)
    requires input != []
    ensures var step := StepByte(state, input[0]);
            After(completed, state, input)
            == if step.error.Some? then Outcome(step.state, completed + step.frames, step.error)
               else After(completed + step.frames, step.state, input[1..])
    ensures completed + [] == completed
  {
    var step := StepByte(state, input[0]);
    if step.error.None? {
      var rest := Consume(step.state, input[1..]);
      assert completed + (step.frames + rest.frames) == (completed + step.frames) + rest.frames;
    }
  }

  lemma AfterPayload(completed: seq<Bytes>, remaining: nat, bytes: Bytes, input: Bytes)
    requires Valid(Payload(remaining, bytes)) && input != []
    ensures var take := Min(remaining, |input|);
            var next := if take == remaining then Comma(bytes + input[..take])
                        else Payload(remaining - take, bytes + input[..take]);
            && take > 0 && Valid(next)
            && After(completed, Payload(remaining, bytes), input) == After(completed, next, input[take..])
  {
    ConsumePayload(remaining, bytes, input, Min(remaining, |input|));
  }

  lemma StepStaysValid(state: State, b: byte)
    requires Valid(state)
    ensures Valid(StepByte(state, b).state)
  {
    if StepByte(state, b).error.None? {
      StepKeeps(state, b);
    } else {
      StepFails(state, b);
    }
  }

  lemma CommaAt(bytes: Bytes, b: byte)
    ensures StepByte(Comma(bytes), b)
            == if b == COMMA then Outcome(START, [bytes], None) else Fail(InvalidTrailingComma)
    ensures StepByte(Failed, b) == Fail(DecoderFailed)
  {
  }

  lemma LengthAt(decimal: Decimal, b: byte)
    ensures StepByte(Length(decimal), b) == LengthByte(decimal, b)
    ensures b == COLON && decimal.digits == 0 ==> LengthByte(decimal, b) == Fail(MissingLength)
    ensures b == COLON && decimal.digits != 0 ==>
              LengthByte(decimal, b) == Move(if decimal.value == 0 then Comma([]) else Payload(decimal.value, []))
    ensures b != COLON && IsDigit(b) && decimal.PushCanonical(b).Ok? ==>
              LengthByte(decimal, b) == Move(Length(decimal.PushCanonical(b).value))
    ensures b != COLON && IsDigit(b) && decimal.PushCanonical(b).Err? ==>
              LengthByte(decimal, b)
              == Fail(if decimal.PushCanonical(b).error.LeadingZero? then Error.LeadingZero else LengthOverflow)
    ensures b != COLON && !IsDigit(b) ==> LengthByte(decimal, b) == Fail(MissingColon)
  {
  }

  class Decoder {
    var state: State

    constructor ()
      ensures state == START
    {
      state := START;
    }

    /** `feed`: the chunk's frames and first error are those of reading it byte by byte. */
    method Feed(input: Bytes) returns (r: Result<seq<Bytes>, FeedError>)
      requires Valid(state)
      modifies this
      ensures Valid(state)
      ensures var outcome := Consume(old(state), input);
              state == outcome.state && r == Fed(outcome)
    {
      hide Consume, StepByte, LengthByte, Valid, Pending, After, Encode, EncodeAll, Decimal.PushCanonical, Value;
      var completed: seq<Bytes> := [];
      var offset := 0;
      assert input[0..] == input;
      AfterNothing(state, input);
      while offset < |input|
        invariant offset <= |input|
        invariant Valid(state)
        invariant After(completed, state, input[offset..]) == Consume(old(state), input)
      {
        var rest := input[offset..];
        assert rest[0] == input[offset] && rest[1..] == input[offset + 1..];
        var current := state;
        state := Failed;
        AfterByte(completed, current, rest);
        StepStaysValid(current, rest[0]);
        match current
        case Length(decimal) =>
          var b := input[offset];
          offset := offset + 1;
          LengthAt(decimal, b);
          if b == COLON {
            if decimal.digits == 0 {
              return Err(FeedError(completed, MissingLength));
            }
            state := if decimal.value == 0 then Comma([]) else Payload(decimal.value, []);
          } else if IsDigit(b) {
            var pushed := decimal.PushCanonical(b);
            if pushed.Err? {
              return Err(FeedError(completed,
                                   if pushed.error.LeadingZero? then Error.LeadingZero else LengthOverflow));
            }
            state := Length(pushed.value);
          } else {
            return Err(FeedError(completed, MissingColon));
          }
        case Payload(remaining, bytes) =>
          AfterPayload(completed, remaining, bytes, rest);
          var take := Min(remaining, |input| - offset);
          assert rest[..take] == input[offset..offset + take] && rest[take..] == input[offset + take..];
          bytes := bytes + input[offset..offset + take];
          offset := offset + take;
          state := if take == remaining then Comma(bytes) else Payload(remaining - take, bytes);
        case Comma(bytes) =>
          var b := input[offset];
          offset := offset + 1;
          CommaAt(bytes, b);
          if b != COMMA {
            return Err(FeedError(completed, InvalidTrailingComma));
          }
          completed := completed + [bytes];
          state := START;
        case Failed =>
          CommaAt([], rest[0]);
          return Err(FeedError(completed, DecoderFailed));
      }
      assert input[offset..] == [];
      AfterNothing(state, []);
      return Ok(completed);
    }

    /** `finish`: a frame boundary is a clean end and changes nothing; any other state is poisoned. */
    method Finish() returns (r: Result<(), Error>)
      modifies this
      ensures r == match Ending(old(state)) case None => Ok(()) case Some(error) => Err(error)
      ensures state == if r.Ok? then old(state) else Failed
    {
      match state
      case Length(decimal) =>
        if decimal.digits == 0 {
          return Ok(());
        }
        state := Failed;
        return Err(TruncatedFrame);
      case Failed =>
        return Err(DecoderFailed);
      case _ =>
        state := Failed;
        return Err(TruncatedFrame);
    }
  }

  // ----- Whole messages -----

  /** `decode_netstring_stream`: a complete string of netstrings, or the first thing wrong with it. */
  function DecodeSpec(message: Bytes): Result<seq<Bytes>, Error> {
    var outcome := Consume(START, message);
    match outcome.error
    case Some(error) => Err(error)
    case None =>
      match Ending(outcome.state)
      case Some(error) => Err(error)
      case None => Ok(outcome.frames)
  }

  lemma DecodeIffEncoded(message: Bytes, fields: seq<Bytes>)
    ensures DecodeSpec(message) == Ok(fields) <==> (message == EncodeAll(fields) && Sized(fields))
  {
    AcceptIffEncoded(message, fields);
  }

  method DecodeStream(message: Bytes) returns (r: Result<seq<Bytes>, Error>)
    ensures r == DecodeSpec(message)
  {
    hide Consume;
    var decoder := new Decoder();
    assert Valid(decoder.state);
    var fed := decoder.Feed(message);
    if fed.Err? {
      return Err(fed.error.error);
    }
    var ended := decoder.Finish();
    return if ended.Err? then Err(ended.error) else Ok(fed.value);
  }
}
