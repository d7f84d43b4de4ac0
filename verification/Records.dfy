/** Candidate payloads: what a record stream means, whoever encodes it (src/record.rs). */
module Records {
  import opened Bytes

  const REC_SEP: byte := 0
  const TAG_SEP: byte := 1
  const FIELD_SEP: byte := 2

  /** Shared fields of a batch header; an absent field reads as empty. */
  datatype Batch = Batch(
    pVis: Bytes, pHidden: Bytes, sVis: Bytes, sHidden: Bytes, iVis: Bytes, iHidden: Bytes,
    ip: Bytes, f: Bytes, es: Bytes, rd: Bytes, x: Bytes, j: Bytes)

  const NO_FIELDS: Batch := Batch([], [], [], [], [], [], [], [], [], [], [], [])

  datatype Candidate = Candidate(w: Bytes, m: Option<Bytes>, d: Option<Bytes>, n: Option<Bytes>, batch: nat) {
    /** The text a query is matched against. */
    function MatchText(): Bytes { if m.Some? then m.value else w }
  }

  /** Batch headers and candidates in stream order: the view every consumer of a payload has. */
  datatype Source = Source(batches: seq<Batch>, candidates: seq<Candidate>)

  datatype FramingError = FramingError

  datatype Field = Field(tag: Bytes, value: Bytes)

  // ---- the meaning of a list of records ----

  /** The first value carried under a tag. */
  function FirstOf(fields: seq<Field>, tag: Bytes): Option<Bytes> {
    if fields == [] then None
    else
      match FirstOf(fields[..|fields| - 1], tag)
      case Some(v) => Some(v)
      case None => if fields[|fields| - 1].tag == tag then Some(fields[|fields| - 1].value) else None
  }

  function OrEmpty(v: Option<Bytes>): Bytes { if v.Some? then v.value else [] }

  /** An empty value is the same as an absent one. */
  function Present(v: Option<Bytes>): Option<Bytes> { if v.Some? && v.value != [] then v else None }

  function BatchOf(fields: seq<Field>): Batch {
    Batch(
      OrEmpty(FirstOf(fields, Ascii("P"))), OrEmpty(FirstOf(fields, Ascii("p"))),
      OrEmpty(FirstOf(fields, Ascii("S"))), OrEmpty(FirstOf(fields, Ascii("s"))),
      OrEmpty(FirstOf(fields, Ascii("i"))), OrEmpty(FirstOf(fields, Ascii("I"))),
      OrEmpty(FirstOf(fields, Ascii("ip"))), OrEmpty(FirstOf(fields, Ascii("f"))),
      OrEmpty(FirstOf(fields, Ascii("es"))), OrEmpty(FirstOf(fields, Ascii("rd"))),
      OrEmpty(FirstOf(fields, Ascii("X"))), OrEmpty(FirstOf(fields, Ascii("J"))))
  }

  function CandidateOf(w: Bytes, fields: seq<Field>, batch: nat): Candidate {
    Candidate(w, Present(FirstOf(fields, Ascii("m"))), Present(FirstOf(fields, Ascii("d"))),
              Present(FirstOf(fields, Ascii("n"))), batch)
  }

  /** Reads one record: a header opens a batch, a non-empty `w` adds a candidate to it, all else is skipped. */
  function Absorb(s: Source, record: seq<Field>): Source {
    if record == [] then s
    else if record[0].tag == Ascii("b") then s.(batches := s.batches + [BatchOf(record[1..])])
    else if record[0].tag == Ascii("w") && record[0].value != [] && s.batches != [] then
      s.(candidates := s.candidates + [CandidateOf(record[0].value, record[1..], |s.batches| - 1)])
    else s
  }

  function Interpret(records: seq<seq<Field>>): Source {
    if records == [] then Source([], []) else Absorb(Interpret(records[..|records| - 1]), records[|records| - 1])
  }

  // ---- the bytes of a list of records ----

  function EncodeField(f: Field): Bytes { f.tag + [TAG_SEP] + f.value }

  function EncodeRecord(record: seq<Field>): Bytes {
    Join(seq(|record|, i requires 0 <= i < |record| => EncodeField(record[i])), FIELD_SEP)
  }

  /** What a sender writes: fields joined by their separator, every record terminated. */
  function Encode(records: seq<seq<Field>>): Bytes {
    Terminated(seq(|records|, i requires 0 <= i < |records| => EncodeRecord(records[i])), REC_SEP)
  }

  /** A field without the tag separator reads as a tag with an empty value. */
  function ReadField(field: Bytes): Field {
    var i := Find(field, TAG_SEP);
    Field(field[..i], if i < |field| then field[i + 1..] else [])
  }

  function ReadRecord(record: Bytes): (r: seq<Field>)
    ensures |r| >= 1
  {
    var pieces := Split(record, FIELD_SEP);
    seq(|pieces|, i requires 0 <= i < |pieces| => ReadField(pieces[i]))
  }

  function ReadRecords(body: Bytes): (r: seq<seq<Field>>)
    ensures |r| >= 1
  {
    var pieces := Split(body, REC_SEP);
    seq(|pieces|, i requires 0 <= i < |pieces| => ReadRecord(pieces[i]))
  }

  /** The whole payload: only a missing final NUL is an error. */
  function ParsePayload(bytes: Bytes): Result<Source, FramingError> {
    if bytes == [] then Ok(Interpret(ReadRecords([])))
    else if bytes[|bytes| - 1] != REC_SEP then Err(FramingError)
    else Ok(Interpret(ReadRecords(bytes[..|bytes| - 1])))
  }

  // ---- senders are understood ----

  /** Framing bytes stay out of tags, and record and field separators out of values. */
  ghost predicate Conforming(f: Field) {
    && Free(f.tag, REC_SEP) && Free(f.tag, TAG_SEP) && Free(f.tag, FIELD_SEP)
    && Free(f.value, REC_SEP) && Free(f.value, FIELD_SEP)
  }

  ghost predicate ConformingRecord(record: seq<Field>) {
    record != [] && forall i :: 0 <= i < |record| ==> Conforming(record[i])
  }

  ghost predicate ConformingStream(records: seq<seq<Field>>) {
    forall i :: 0 <= i < |records| ==> ConformingRecord(records[i])
  }

  lemma FieldReads(f: Field)
    requires Conforming(f)
    ensures ReadField(EncodeField(f)) == f
    ensures Free(EncodeField(f), REC_SEP) && Free(EncodeField(f), FIELD_SEP)
  {
    var s := EncodeField(f);
    assert s[..|f.tag|] == f.tag && s[|f.tag|] == TAG_SEP && s[|f.tag| + 1..] == f.value;
    FindAt(s, TAG_SEP, |f.tag|);
  }

  lemma RecordReads(record: seq<Field>)
    requires ConformingRecord(record)
    ensures ReadRecord(EncodeRecord(record)) == record && Free(EncodeRecord(record), REC_SEP)
  {
    var fields := seq(|record|, i requires 0 <= i < |record| => EncodeField(record[i]));
    forall i | 0 <= i < |record|
      ensures ReadField(fields[i]) == record[i] && Free(fields[i], REC_SEP) && Free(fields[i], FIELD_SEP)
    {
      FieldReads(record[i]);
    }
    hide ReadField, EncodeField, Split, Join, Free;
    SplitJoin(fields, FIELD_SEP);
    JoinKeepsFree(fields, FIELD_SEP, REC_SEP);
  }

  /** Parsing recovers exactly the records any conforming sender encoded, for any tags in any order. */
  lemma ParseRecoversStream(records: seq<seq<Field>>)
    requires ConformingStream(records)
    ensures ParsePayload(Encode(records)) == Ok(Interpret(records))
  {
    var pieces := seq(|records|, i requires 0 <= i < |records| => EncodeRecord(records[i]));
    if records == [] {
      EmptyPayload();
    } else {
      forall i | 0 <= i < |records|
        ensures ReadRecord(pieces[i]) == records[i] && Free(pieces[i], REC_SEP)
      {
        RecordReads(records[i]);
      }
      hide ReadRecord, EncodeRecord, Split, Join, Terminated, Free, Interpret;
      TerminatedIsJoin(pieces, REC_SEP);
      SplitJoin(pieces, REC_SEP);
      var bytes := Encode(records);
      assert bytes[..|bytes| - 1] == Join(pieces, REC_SEP);
      assert ReadRecords(bytes[..|bytes| - 1]) == records;
    }
  }

  lemma EmptyPayload()
    ensures ParsePayload(Encode([])) == Ok(Interpret([]))
  {
    assert Encode([]) == [];
    assert Split([], REC_SEP) == [[]] && Split([], FIELD_SEP) == [[]];
    var record := ReadRecord([]);
    assert record[0].tag == [];
    assert ReadRecords([]) == [record];
    assert [record][..0] == [];
    assert Absorb(Interpret([]), record) == Interpret([]);
  }

  // ---- arbitrary bytes are safe ----

  ghost predicate Clean(s: Bytes) { Free(s, REC_SEP) && Free(s, FIELD_SEP) }

  ghost predicate CleanOption(s: Option<Bytes>) { s.Some? ==> Clean(s.value) && s.value != [] }

  ghost predicate CleanBatch(b: Batch) {
    && Clean(b.pVis) && Clean(b.pHidden) && Clean(b.sVis) && Clean(b.sHidden) && Clean(b.iVis) && Clean(b.iHidden)
    && Clean(b.ip) && Clean(b.f) && Clean(b.es) && Clean(b.rd) && Clean(b.x) && Clean(b.j)
  }

  /** What every consumer may rely on: values free of separators, non-empty bodies, valid batch indexes. */
  ghost predicate Sane(s: Source) {
    && (forall i :: 0 <= i < |s.batches| ==> CleanBatch(s.batches[i]))
    && (forall i :: 0 <= i < |s.candidates| ==> SaneCandidate(s.candidates[i], |s.batches|))
  }

  ghost predicate SaneCandidate(c: Candidate, batches: nat) {
    Clean(c.w) && c.w != [] && CleanOption(c.m) && CleanOption(c.d) && CleanOption(c.n) && c.batch < batches
  }

  ghost predicate CleanFields(fields: seq<Field>) {
    forall i :: 0 <= i < |fields| ==> Clean(fields[i].value)
  }

  lemma {:induction false} FirstIsClean(fields: seq<Field>, tag: Bytes)
    requires CleanFields(fields)
    ensures FirstOf(fields, tag).Some? ==> Clean(FirstOf(fields, tag).value)
  {
    if fields != [] {
      FirstIsClean(fields[..|fields| - 1], tag);
      assert Clean(fields[|fields| - 1].value);
    }
  }

  lemma BatchIsClean(fields: seq<Field>)
    requires CleanFields(fields)
    ensures CleanBatch(BatchOf(fields))
  {
    hide FirstOf, Clean;
    EmptyIsClean();
    forall tag: Bytes
      ensures FirstOf(fields, tag).Some? ==> Clean(FirstOf(fields, tag).value)
    {
      FirstIsClean(fields, tag);
    }
  }

  lemma EmptyIsClean()
    ensures Clean([])
  {
  }

  lemma AbsorbIsSane(s: Source, record: seq<Field>)
    requires Sane(s) && CleanFields(record)
    ensures Sane(Absorb(s, record))
  {
    hide Clean, BatchOf, FirstOf, CleanBatch;
    if record != [] {
      assert CleanFields(record[1..]);
      BatchIsClean(record[1..]);
      FirstIsClean(record[1..], Ascii("m"));
      FirstIsClean(record[1..], Ascii("d"));
      FirstIsClean(record[1..], Ascii("n"));
    }
  }

  lemma {:induction false} InterpretIsSane(records: seq<seq<Field>>)
    requires forall i :: 0 <= i < |records| ==> CleanFields(records[i])
    ensures Sane(Interpret(records))
  {
    if records != [] {
      InterpretIsSane(records[..|records| - 1]);
      AbsorbIsSane(Interpret(records[..|records| - 1]), records[|records| - 1]);
    }
  }

  lemma RecordIsClean(record: Bytes)
    requires Free(record, REC_SEP)
    ensures CleanFields(ReadRecord(record))
  {
    JoinSplit(record, FIELD_SEP);
    var pieces := Split(record, FIELD_SEP);
    SplitKeepsFree(record, FIELD_SEP, REC_SEP);
    hide Split;
    forall i | 0 <= i < |pieces|
      ensures Clean(ReadField(pieces[i]).value)
    {
      assert Free(pieces[i], FIELD_SEP) && Free(pieces[i], REC_SEP);
    }
  }

  lemma {:induction false} SplitKeepsFree(s: Bytes, sep: byte, other: byte)
    requires Free(s, other)
    ensures AllFree(Split(s, sep), other)
    decreases |s|
  {
    var i := Find(s, sep);
    if i < |s| {
      SplitKeepsFree(s[i + 1..], sep, other);
    }
  }

  /** Whatever bytes arrive, a parsed payload is safe to index and to serialize. */
  lemma ParsedIsSane(bytes: Bytes)
    requires ParsePayload(bytes).Ok?
    ensures Sane(ParsePayload(bytes).value)
  {
    hide ReadRecord, Interpret, Split, Sane;
    var body := if bytes == [] then [] else bytes[..|bytes| - 1];
    JoinSplit(body, REC_SEP);
    forall i | 0 <= i < |Split(body, REC_SEP)|
      ensures CleanFields(ReadRecord(Split(body, REC_SEP)[i]))
    {
      RecordIsClean(Split(body, REC_SEP)[i]);
    }
    InterpretIsSane(ReadRecords(body));
  }
}
