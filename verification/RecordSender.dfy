/** A sender of candidate payloads, and that what it sends is what is read (src/record.rs). */
module RecordSender {
  import opened Bytes
  import opened Records

  /** Tags of a header's fields, in the order a sender writes them. */
  function Tags(): (r: seq<Bytes>)
    ensures |r| == 12
  {
    [Ascii("P"), Ascii("p"), Ascii("S"), Ascii("s"), Ascii("i"), Ascii("I"), Ascii("ip"), Ascii("f"), Ascii("es"),
     Ascii("rd"), Ascii("X"), Ascii("J")]
  }

  function ValuesOf(b: Batch): (r: seq<Bytes>)
    ensures |r| == 12
  {
    [b.pVis, b.pHidden, b.sVis, b.sHidden, b.iVis, b.iHidden, b.ip, b.f, b.es, b.rd, b.x, b.j]
  }

  function HeaderFields(b: Batch): seq<Field> {
    seq(12, i requires 0 <= i < 12 => Field(Tags()[i], ValuesOf(b)[i]))
  }

  function HeaderRecord(b: Batch): seq<Field> { [Field(Ascii("b"), [])] + HeaderFields(b) }

  function OptionalField(tag: Bytes, value: Option<Bytes>): seq<Field> {
    match value
    case None => []
    case Some(v) => [Field(tag, v)]
  }

  function CandidateFields(c: Candidate): seq<Field> {
    OptionalField(Ascii("m"), c.m) + OptionalField(Ascii("d"), c.d) + OptionalField(Ascii("n"), c.n)
  }

  function CandidateRecord(c: Candidate): seq<Field> { [Field(Ascii("w"), c.w)] + CandidateFields(c) }

  /** Candidates come batch by batch, as a stream of headers and bodies can only have them. */
  predicate InBatchOrder(s: Source) {
    && (forall i :: 0 <= i < |s.candidates| ==> s.candidates[i].batch < |s.batches|)
    && (forall i, j :: 0 <= i < j < |s.candidates| ==> s.candidates[i].batch <= s.candidates[j].batch)
  }

  /** The records of a source: each header, then its candidates. */
  function RecordsOf(s: Source): seq<seq<Field>>
    requires InBatchOrder(s)
    decreases |s.batches| + |s.candidates|
  {
    var n := |s.candidates|;
    if n > 0 && s.candidates[n - 1].batch == |s.batches| - 1 then
      RecordsOf(s.(candidates := s.candidates[..n - 1])) + [CandidateRecord(s.candidates[n - 1])]
    else if s.batches != [] then
      RecordsOf(s.(batches := s.batches[..|s.batches| - 1])) + [HeaderRecord(s.batches[|s.batches| - 1])]
    else []
  }

  // ----- What it takes to say a source -----

  /** Every field under the tag carries the value, and there is one unless the value is empty. */
  ghost predicate Says(fields: seq<Field>, tag: Bytes, value: Bytes) {
    && (forall i :: 0 <= i < |fields| && fields[i].tag == tag ==> fields[i].value == value)
    && (value != [] ==> exists i :: 0 <= i < |fields| && fields[i].tag == tag)
  }

  /** A header that says a batch: its fields in any order, with or without the empty ones and any others. */
  ghost predicate SaysHeader(record: seq<Field>, b: Batch) {
    && record != [] && record[0].tag == Ascii("b")
    && forall i :: 0 <= i < 12 ==> Says(record[1..], Tags()[i], ValuesOf(b)[i])
  }

  /** A record that says a candidate, in the same freedom. */
  ghost predicate SaysCandidate(record: seq<Field>, c: Candidate) {
    && record != [] && record[0] == Field(Ascii("w"), c.w) && c.w != []
    && c.m != Some([]) && c.d != Some([]) && c.n != Some([])
    && Says(record[1..], Ascii("m"), OrEmpty(c.m)) && Says(record[1..], Ascii("d"), OrEmpty(c.d))
    && Says(record[1..], Ascii("n"), OrEmpty(c.n))
  }

  /** A stream that says a source: headers and candidates in order, each candidate behind its batch's header. */
  ghost predicate SaysSource(records: seq<seq<Field>>, s: Source)
    decreases |records|
  {
    if records == [] then s == Source([], [])
    else
      var front, last := records[..|records| - 1], records[|records| - 1];
      var b, c := |s.batches|, |s.candidates|;
      || (b > 0 && SaysHeader(last, s.batches[b - 1]) && SaysSource(front, s.(batches := s.batches[..b - 1])))
      || (&& b > 0 && c > 0 && s.candidates[c - 1].batch == b - 1 && SaysCandidate(last, s.candidates[c - 1])
          && SaysSource(front, s.(candidates := s.candidates[..c - 1])))
  }

  // ----- Fields are found under their tags -----

  lemma {:induction false} FirstOfFound(fields: seq<Field>, tag: Bytes)
    ensures match FirstOf(fields, tag)
            case Some(v) => exists i :: 0 <= i < |fields| && fields[i].tag == tag && fields[i].value == v
            case None => forall i :: 0 <= i < |fields| ==> fields[i].tag != tag
  {
    if fields != [] {
      FirstOfFound(fields[..|fields| - 1], tag);
    }
  }

  lemma SaidIsRead(fields: seq<Field>, tag: Bytes, value: Bytes)
    requires Says(fields, tag, value)
    ensures OrEmpty(FirstOf(fields, tag)) == value
  {
    FirstOfFound(fields, tag);
    hide FirstOf;
  }

  lemma HeaderReads(fields: seq<Field>, b: Batch)
    requires forall i :: 0 <= i < 12 ==> Says(fields, Tags()[i], ValuesOf(b)[i])
    ensures BatchOf(fields) == b
  {
    hide Ascii, FirstOf, Says;
    forall i | 0 <= i < 12
      ensures OrEmpty(FirstOf(fields, Tags()[i])) == ValuesOf(b)[i]
    {
      SaidIsRead(fields, Tags()[i], ValuesOf(b)[i]);
    }
    var t, v := Tags(), ValuesOf(b);
    assert OrEmpty(FirstOf(fields, t[0])) == v[0] && OrEmpty(FirstOf(fields, t[1])) == v[1];
    assert OrEmpty(FirstOf(fields, t[2])) == v[2] && OrEmpty(FirstOf(fields, t[3])) == v[3];
    assert OrEmpty(FirstOf(fields, t[4])) == v[4] && OrEmpty(FirstOf(fields, t[5])) == v[5];
    assert OrEmpty(FirstOf(fields, t[6])) == v[6] && OrEmpty(FirstOf(fields, t[7])) == v[7];
    assert OrEmpty(FirstOf(fields, t[8])) == v[8] && OrEmpty(FirstOf(fields, t[9])) == v[9];
    assert OrEmpty(FirstOf(fields, t[10])) == v[10] && OrEmpty(FirstOf(fields, t[11])) == v[11];
  }

  lemma CandidateReads(record: seq<Field>, c: Candidate)
    requires SaysCandidate(record, c)
    ensures CandidateOf(c.w, record[1..], c.batch) == c
  {
    SaidIsRead(record[1..], Ascii("m"), OrEmpty(c.m));
    SaidIsRead(record[1..], Ascii("d"), OrEmpty(c.d));
    SaidIsRead(record[1..], Ascii("n"), OrEmpty(c.n));
    hide Ascii, FirstOf, Says;
  }

  // ----- The whole stream -----

  lemma BodyTagsDiffer()
    ensures Ascii("m") != Ascii("d") && Ascii("m") != Ascii("n") && Ascii("d") != Ascii("n")
    ensures Ascii("w") != Ascii("b")
  {
    assert Ascii("m")[0] == 109 && Ascii("d")[0] == 100 && Ascii("n")[0] == 110;
    assert Ascii("w")[0] == 119 && Ascii("b")[0] == 98;
  }

  lemma AbsorbHeader(front: Source, record: seq<Field>, b: Batch)
    requires SaysHeader(record, b)
    ensures Absorb(front, record) == front.(batches := front.batches + [b])
  {
    hide BatchOf, CandidateOf, Ascii, Says;
    HeaderReads(record[1..], b);
  }

  lemma AbsorbCandidate(front: Source, record: seq<Field>, c: Candidate)
    requires front.batches != [] && c.batch == |front.batches| - 1 && SaysCandidate(record, c)
    ensures Absorb(front, record) == front.(candidates := front.candidates + [c])
  {
    BodyTagsDiffer();
    CandidateReads(record, c);
    hide CandidateOf, BatchOf, Ascii, Says;
  }

  /** What a stream says is what its records are read as. */
  lemma {:induction false} SaidIsMeant(records: seq<seq<Field>>, s: Source)
    requires SaysSource(records, s)
    ensures Interpret(records) == s
    decreases |records|
  {
    hide SaysHeader, SaysCandidate, Absorb;
    if records != [] {
      var front, last := records[..|records| - 1], records[|records| - 1];
      var b, c := |s.batches|, |s.candidates|;
      if b > 0 && SaysHeader(last, s.batches[b - 1]) && SaysSource(front, s.(batches := s.batches[..b - 1])) {
        SaidIsMeant(front, s.(batches := s.batches[..b - 1]));
        AbsorbHeader(Interpret(front), last, s.batches[b - 1]);
        assert s.batches == s.batches[..b - 1] + [s.batches[b - 1]];
      } else {
        SaidIsMeant(front, s.(candidates := s.candidates[..c - 1]));
        AbsorbCandidate(Interpret(front), last, s.candidates[c - 1]);
        assert s.candidates == s.candidates[..c - 1] + [s.candidates[c - 1]];
      }
    }
  }

  /**
   Whoever says a source, with its fields in any order, empty ones written or left out, and any fields of other tags
   beside them, is understood: the payload reads as exactly that source.
   */
  lemma SenderIsUnderstood(records: seq<seq<Field>>, s: Source)
    requires SaysSource(records, s) && ConformingStream(records)
    ensures ParsePayload(Encode(records)) == Ok(s)
  {
    hide *;
    SaidIsMeant(records, s);
    ParseRecoversStream(records);
  }

  // ----- Every source can be said -----

  /** Twelve different tags: seven single letters apart from the pair that differs in case, and three of two letters. */
  lemma TagsDiffer(i: nat, j: nat)
    requires i < j < 12
    ensures Tags()[i] != Tags()[j]
  {
    assert Ascii("P")[0] == 80 && Ascii("p")[0] == 112 && Ascii("S")[0] == 83 && Ascii("s")[0] == 115;
    assert Ascii("i")[0] == 105 && Ascii("I")[0] == 73 && Ascii("ip")[0] == 105 && Ascii("f")[0] == 102;
    assert Ascii("es")[0] == 101 && Ascii("rd")[0] == 114 && Ascii("X")[0] == 88 && Ascii("J")[0] == 74;
    assert |Ascii("ip")| == 2 && |Ascii("es")| == 2 && |Ascii("rd")| == 2;
    hide Ascii;
    var tags := Tags();
    assert tags[i] != [] && tags[j] != [];
  }

  lemma HeaderSays(b: Batch)
    ensures SaysHeader(HeaderRecord(b), b)
  {
    assert HeaderRecord(b)[1..] == HeaderFields(b);
    forall i | 0 <= i < 12
      ensures Says(HeaderFields(b), Tags()[i], ValuesOf(b)[i])
    {
      HeaderValue(b, i);
    }
    hide HeaderFields, Says, Tags, ValuesOf, Ascii;
  }

  lemma HeaderValue(b: Batch, i: nat)
    requires i < 12
    ensures Says(HeaderFields(b), Tags()[i], ValuesOf(b)[i])
  {
    hide Tags, ValuesOf, Ascii;
    forall j | 0 <= j < 12 && j != i
      ensures HeaderFields(b)[j].tag != Tags()[i]
    {
      TagsDiffer(if i < j then i else j, if i < j then j else i);
    }
    assert HeaderFields(b)[i].tag == Tags()[i];
  }

  lemma CandidateSays(c: Candidate, batches: nat)
    requires SaneCandidate(c, batches)
    ensures SaysCandidate(CandidateRecord(c), c)
  {
    hide Ascii, Clean, Says;
    BodyTagsDiffer();
    assert CandidateRecord(c)[1..] == CandidateFields(c);
    BodyField(c, Ascii("m"), c.m);
    BodyField(c, Ascii("d"), c.d);
    BodyField(c, Ascii("n"), c.n);
  }

  lemma BodyField(c: Candidate, tag: Bytes, value: Option<Bytes>)
    requires (tag, value) in [(Ascii("m"), c.m), (Ascii("d"), c.d), (Ascii("n"), c.n)]
    ensures Says(CandidateFields(c), tag, OrEmpty(value))
  {
    hide Ascii;
    BodyTagsDiffer();
    var f := CandidateFields(c);
    if value.Some? {
      var before := if tag == Ascii("m") then [] else if tag == Ascii("d") then OptionalField(Ascii("m"), c.m)
        else OptionalField(Ascii("m"), c.m) + OptionalField(Ascii("d"), c.d);
      assert f[|before|] == Field(tag, value.value);
    }
  }

  lemma FewerCandidates(s: Source)
    requires InBatchOrder(s) && Sane(s) && s.candidates != []
    ensures InBatchOrder(s.(candidates := s.candidates[..|s.candidates| - 1]))
    ensures Sane(s.(candidates := s.candidates[..|s.candidates| - 1]))
    ensures SaneCandidate(s.candidates[|s.candidates| - 1], |s.batches|)
  {
    hide SaneCandidate, CleanBatch;
  }

  lemma LastBatchIsClean(s: Source)
    requires Sane(s) && s.batches != []
    ensures CleanBatch(s.batches[|s.batches| - 1])
  {
    hide CleanBatch, SaneCandidate;
  }

  lemma FewerBatches(s: Source)
    requires InBatchOrder(s) && Sane(s) && s.batches != []
    requires s.candidates == [] || s.candidates[|s.candidates| - 1].batch != |s.batches| - 1
    ensures InBatchOrder(s.(batches := s.batches[..|s.batches| - 1])) && Sane(s.(batches := s.batches[..|s.batches| - 1]))
  {
    hide Clean, CleanOption, CleanBatch;
    forall i | 0 <= i < |s.candidates|
      ensures SaneCandidate(s.candidates[i], |s.batches| - 1) && s.candidates[i].batch < |s.batches| - 1
    {
      assert SaneCandidate(s.candidates[i], |s.batches|);
    }
  }

  lemma TagFree(tag: Bytes)
    requires tag in Tags() || tag in [Ascii("b"), Ascii("w"), Ascii("m"), Ascii("d"), Ascii("n")]
    ensures Free(tag, REC_SEP) && Free(tag, TAG_SEP) && Free(tag, FIELD_SEP)
  {
    forall i | 0 <= i < |tag|
      ensures tag[i] > 2
    {
    }
  }

  lemma FieldConforms(f: Field)
    requires f.tag in Tags() || f.tag in [Ascii("b"), Ascii("w"), Ascii("m"), Ascii("d"), Ascii("n")]
    requires Clean(f.value)
    ensures Conforming(f)
  {
    hide Tags, Ascii;
    TagFree(f.tag);
  }

  lemma ValueIsClean(b: Batch, i: nat)
    requires CleanBatch(b) && i < 12
    ensures Clean(ValuesOf(b)[i])
  {
    hide Clean;
  }

  lemma HeaderConforms(b: Batch)
    requires CleanBatch(b)
    ensures ConformingRecord(HeaderRecord(b))
  {
    hide Clean, Ascii, Conforming;
    EmptyIsClean();
    FieldConforms(Field(Ascii("b"), []));
    forall i | 0 <= i < 12
      ensures Conforming(HeaderFields(b)[i])
    {
      assert Tags()[i] in Tags();
      ValueIsClean(b, i);
      FieldConforms(HeaderFields(b)[i]);
    }
  }

  lemma CandidateConforms(c: Candidate, batches: nat)
    requires SaneCandidate(c, batches)
    ensures ConformingRecord(CandidateRecord(c))
  {
    hide Clean, Ascii, Conforming, Tags;
    FieldConforms(Field(Ascii("w"), c.w));
    if c.m.Some? {
      FieldConforms(Field(Ascii("m"), c.m.value));
    }
    if c.d.Some? {
      FieldConforms(Field(Ascii("d"), c.d.value));
    }
    if c.n.Some? {
      FieldConforms(Field(Ascii("n"), c.n.value));
    }
  }

  lemma NothingSent(s: Source)
    requires InBatchOrder(s) && s.batches == []
    ensures SaysSource([], s) && ConformingStream([])
  {
    assert s.candidates != [] ==> s.candidates[0].batch < |s.batches|;
  }

  lemma ConformingSnoc(records: seq<seq<Field>>, record: seq<Field>)
    requires ConformingStream(records) && ConformingRecord(record)
    ensures ConformingStream(records + [record])
  {
    hide ConformingRecord;
  }

  lemma SaysOneMore(records: seq<seq<Field>>, record: seq<Field>, s: Source)
    requires s.batches != []
    requires var b, c := |s.batches|, |s.candidates|;
             || (SaysHeader(record, s.batches[b - 1]) && SaysSource(records, s.(batches := s.batches[..b - 1])))
             || (&& c > 0 && s.candidates[c - 1].batch == b - 1 && SaysCandidate(record, s.candidates[c - 1])
                 && SaysSource(records, s.(candidates := s.candidates[..c - 1])))
    ensures SaysSource(records + [record], s)
  {
    hide SaysHeader, SaysCandidate;
    assert (records + [record])[..|records|] == records;
  }

  lemma RecordsStep(s: Source)
    requires InBatchOrder(s)
    ensures var n := |s.candidates|;
            if n > 0 && s.candidates[n - 1].batch == |s.batches| - 1 then
              && InBatchOrder(s.(candidates := s.candidates[..n - 1])) && s.batches != []
              && RecordsOf(s) == RecordsOf(s.(candidates := s.candidates[..n - 1])) + [CandidateRecord(s.candidates[n - 1])]
            else if s.batches != [] then
              && InBatchOrder(s.(batches := s.batches[..|s.batches| - 1]))
              && RecordsOf(s)
                 == RecordsOf(s.(batches := s.batches[..|s.batches| - 1])) + [HeaderRecord(s.batches[|s.batches| - 1])]
            else RecordsOf(s) == []
  {
    hide HeaderRecord, CandidateRecord;
  }

  /** Every sane source in batch order is said by some conforming stream. */
  lemma {:induction false} EverySourceIsSaid(s: Source)
    requires InBatchOrder(s) && Sane(s)
    ensures SaysSource(RecordsOf(s), s) && ConformingStream(RecordsOf(s))
    decreases |s.batches| + |s.candidates|
  {
    hide *;
    RecordsStep(s);
    var n := |s.candidates|;
    if n > 0 && s.candidates[n - 1].batch == |s.batches| - 1 {
      var c, front := s.candidates[n - 1], s.(candidates := s.candidates[..n - 1]);
      FewerCandidates(s);
      EverySourceIsSaid(front);
      CandidateConforms(c, |s.batches|);
      CandidateSays(c, |s.batches|);
      SaysOneMore(RecordsOf(front), CandidateRecord(c), s);
      ConformingSnoc(RecordsOf(front), CandidateRecord(c));
    } else if s.batches != [] {
      var b, front := s.batches[|s.batches| - 1], s.(batches := s.batches[..|s.batches| - 1]);
      FewerBatches(s);
      LastBatchIsClean(s);
      EverySourceIsSaid(front);
      HeaderConforms(b);
      HeaderSays(b);
      SaysOneMore(RecordsOf(front), HeaderRecord(b), s);
      ConformingSnoc(RecordsOf(front), HeaderRecord(b));
    } else {
      NothingSent(s);
    }
  }
}
