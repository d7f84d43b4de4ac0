/** The payload parser: one pass that keeps byte ranges into the retained buffer (src/record.rs `parse`). */
module RecordParser {
  import opened Bytes
  import opened Records

  /** A range into a payload buffer; empty stands for absent. */
  datatype ByteSpan = ByteSpan(start: nat, end: nat) {
    predicate In(buffer: Bytes) { start <= end <= |buffer| }

    function Of(buffer: Bytes): Bytes { if In(buffer) then buffer[start..end] else [] }
  }

  datatype BatchSpans = BatchSpans(
    pVis: ByteSpan, pHidden: ByteSpan, sVis: ByteSpan, sHidden: ByteSpan, iVis: ByteSpan, iHidden: ByteSpan,
    ip: ByteSpan, f: ByteSpan, es: ByteSpan, rd: ByteSpan, x: ByteSpan, j: ByteSpan)
  {
    predicate In(buffer: Bytes) {
      && pVis.In(buffer) && pHidden.In(buffer) && sVis.In(buffer) && sHidden.In(buffer)
      && iVis.In(buffer) && iHidden.In(buffer) && ip.In(buffer) && f.In(buffer)
      && es.In(buffer) && rd.In(buffer) && x.In(buffer) && j.In(buffer)
    }

    function View(buffer: Bytes): Batch {
      Batch(pVis.Of(buffer), pHidden.Of(buffer), sVis.Of(buffer), sHidden.Of(buffer), iVis.Of(buffer), iHidden.Of(buffer),
            ip.Of(buffer), f.Of(buffer), es.Of(buffer), rd.Of(buffer), x.Of(buffer), j.Of(buffer))
    }
  }

  predicate InOption(s: Option<ByteSpan>, buffer: Bytes) { s.Some? ==> s.value.In(buffer) }

  function OfOption(s: Option<ByteSpan>, buffer: Bytes): Option<Bytes> {
    if s.Some? then Some(s.value.Of(buffer)) else None
  }

  datatype CandidateSpans = CandidateSpans(
    w: ByteSpan, m: Option<ByteSpan>, d: Option<ByteSpan>, n: Option<ByteSpan>, batch: nat)
  {
    predicate In(buffer: Bytes) {
      w.In(buffer) && InOption(m, buffer) && InOption(d, buffer) && InOption(n, buffer)
    }

    function View(buffer: Bytes): Candidate {
      Candidate(w.Of(buffer), OfOption(m, buffer), OfOption(d, buffer), OfOption(n, buffer), batch)
    }
  }

  /** One parsed payload, owning the bytes its views borrow. */
  datatype Stored = Stored(bytes: Bytes, batches: seq<BatchSpans>, candidates: seq<CandidateSpans>) {
    ghost predicate Valid() {
      && (forall i :: 0 <= i < |batches| ==> batches[i].In(bytes))
      && (forall i :: 0 <= i < |candidates| ==> candidates[i].In(bytes))
    }

    function View(): Source {
      Source(seq(|batches|, i requires 0 <= i < |batches| => batches[i].View(bytes)),
             seq(|candidates|, i requires 0 <= i < |candidates| => candidates[i].View(bytes)))
    }
  }

  datatype Piece = Piece(at: nat, text: Bytes)

  /** The piece lies at its offset in the buffer. */
  ghost predicate Lies(buffer: Bytes, p: Piece) {
    p.at + |p.text| <= |buffer| && buffer[p.at..p.at + |p.text|] == p.text
  }

  /** `split_spans`: every piece of a split with its offset in the payload buffer. */
  method SplitSpans(ghost buffer: Bytes, input: Bytes, separator: byte, offset: nat) returns (pieces: seq<Piece>)
    requires Lies(buffer, Piece(offset, input))
    ensures |pieces| == |Split(input, separator)|
    ensures forall i :: 0 <= i < |pieces| ==> pieces[i].text == Split(input, separator)[i] && Lies(buffer, pieces[i])
  {
    hide Split, Lies, Find;
    pieces := [];
    var at := offset;
    var rest := input;
    ghost var all := Split(input, separator);
    assert all[0..] == all;
    while true
      invariant Lies(buffer, Piece(at, rest))
      invariant |pieces| <= |all| && all[|pieces|..] == Split(rest, separator)
      invariant forall i :: 0 <= i < |pieces| ==> pieces[i].text == all[i] && Lies(buffer, pieces[i])
      decreases |rest|
    {
      var n := Find(rest, separator);
      SplitStep(rest, separator);
      LiesWithin(buffer, at, rest, 0, n);
      assert all[|pieces|..][0] == all[|pieces|];
      assert all[|pieces|..][1..] == all[|pieces| + 1..];
      pieces := pieces + [Piece(at, rest[..n])];
      if n == |rest| {
        assert rest[..n] == rest;
        break;
      }
      LiesWithin(buffer, at, rest, n + 1, |rest|);
      at := at + n + 1; // the separator the split consumed
      rest := rest[n + 1..];
    }
  }

  lemma LiesWithin(buffer: Bytes, at: nat, text: Bytes, from: nat, to: nat)
    requires Lies(buffer, Piece(at, text)) && from <= to <= |text|
    ensures Lies(buffer, Piece(at + from, text[from..to]))
    ensures to == |text| ==> text[from..to] == text[from..]
    ensures from == 0 ==> text[from..to] == text[..to]
  {
    SliceOfSlice(buffer, at, |text|, from, to - from);
  }

  /** Splits a field at its tag separator, keeping the value as a range. */
  method SplitField(ghost buffer: Bytes, field: Piece) returns (tag: Bytes, val: ByteSpan)
    requires Lies(buffer, field)
    ensures val.In(buffer)
    ensures Field(tag, val.Of(buffer)) == ReadField(field.text)
  {
    var end := field.at + |field.text|;
    var i := Find(field.text, TAG_SEP);
    if i < |field.text| {
      LiesWithin(buffer, field.at, field.text, i + 1, |field.text|);
      return field.text[..i], ByteSpan(field.at + i + 1, end);
    }
    assert field.text[..i] == field.text;
    return field.text, ByteSpan(end, end);
  }

  /** A parsed field: its tag and the range of its value. */
  datatype FieldSpan = FieldSpan(tag: Bytes, val: ByteSpan)

  ghost predicate Spells(buffer: Bytes, spans: seq<FieldSpan>, fields: seq<Field>) {
    && |spans| == |fields|
    && forall i :: 0 <= i < |spans| ==>
         spans[i].val.In(buffer) && spans[i].tag == fields[i].tag && spans[i].val.Of(buffer) == fields[i].value
  }

  method SplitRecord(ghost buffer: Bytes, record: Piece) returns (fields: seq<FieldSpan>)
    requires Lies(buffer, record)
    ensures Spells(buffer, fields, ReadRecord(record.text))
  {
    hide ReadField, ByteSpan.Of, Lies, Split;
    var pieces := SplitSpans(buffer, record.text, FIELD_SEP, record.at);
    ghost var meant := ReadRecord(record.text);
    fields := [];
    for k := 0 to |pieces|
      invariant |fields| == k
      invariant forall i :: 0 <= i < k ==>
                  fields[i].val.In(buffer) && Field(fields[i].tag, fields[i].val.Of(buffer)) == meant[i]
    {
      var tag, val := SplitField(buffer, pieces[k]);
      fields := fields + [FieldSpan(tag, val)];
    }
  }

  /** The slots a loop has filled so far hold the first value of each tag it has seen. */
  ghost predicate Filled(buffer: Bytes, slots: map<Bytes, ByteSpan>, fields: seq<Field>) {
    forall tag: Bytes ::
      && (FirstOf(fields, tag).Some? <==> tag in slots)
      && (tag in slots ==> slots[tag].In(buffer) && slots[tag].Of(buffer) == FirstOf(fields, tag).value)
  }

  method FillSlots(ghost buffer: Bytes, fields: seq<FieldSpan>, ghost meant: seq<Field>)
    returns (slots: map<Bytes, ByteSpan>)
    requires Spells(buffer, fields, meant)
    ensures Filled(buffer, slots, meant)
  {
    slots := map[];
    for k := 0 to |fields|
      invariant Filled(buffer, slots, meant[..k])
    {
      FirstStep(meant, k);
      if fields[k].tag !in slots {
        slots := slots[fields[k].tag := fields[k].val]; // first occurrence wins
      }
    }
    assert meant[..|fields|] == meant;
  }

  lemma FirstStep(fields: seq<Field>, k: nat)
    requires k < |fields|
    ensures forall tag: Bytes ::
              FirstOf(fields[..k + 1], tag)
              == if FirstOf(fields[..k], tag).Some? then FirstOf(fields[..k], tag)
                 else if fields[k].tag == tag then Some(fields[k].value) else None
  {
    assert fields[..k + 1][..k] == fields[..k];
  }

  function SlotOr(slots: map<Bytes, ByteSpan>, tag: Bytes): ByteSpan {
    if tag in slots then slots[tag] else ByteSpan(0, 0)
  }

  function SlotIf(slots: map<Bytes, ByteSpan>, tag: Bytes): Option<ByteSpan> {
    if tag in slots && slots[tag].start != slots[tag].end then Some(slots[tag]) else None
  }

  lemma SlotReads(buffer: Bytes, slots: map<Bytes, ByteSpan>, fields: seq<Field>, tag: Bytes)
    requires Filled(buffer, slots, fields)
    ensures SlotOr(slots, tag).In(buffer) && SlotOr(slots, tag).Of(buffer) == OrEmpty(FirstOf(fields, tag))
    ensures InOption(SlotIf(slots, tag), buffer) && OfOption(SlotIf(slots, tag), buffer) == Present(FirstOf(fields, tag))
  {
  }

  /** Folds a header's fields into ranges: unknown tags ignored, duplicates first-wins. */
  method ParseBatchFields(ghost buffer: Bytes, fields: seq<FieldSpan>, ghost meant: seq<Field>) returns (b: BatchSpans)
    requires Spells(buffer, fields, meant)
    ensures b.In(buffer) && b.View(buffer) == BatchOf(meant)
  {
    var slots := FillSlots(buffer, fields, meant);
    hide FirstOf, Filled, SlotOr;
    forall tag: Bytes
      ensures SlotOr(slots, tag).In(buffer) && SlotOr(slots, tag).Of(buffer) == OrEmpty(FirstOf(meant, tag))
    {
      SlotReads(buffer, slots, meant, tag);
    }
    b := BatchSpans(
      SlotOr(slots, Ascii("P")), SlotOr(slots, Ascii("p")), SlotOr(slots, Ascii("S")), SlotOr(slots, Ascii("s")),
      SlotOr(slots, Ascii("i")), SlotOr(slots, Ascii("I")), SlotOr(slots, Ascii("ip")), SlotOr(slots, Ascii("f")),
      SlotOr(slots, Ascii("es")), SlotOr(slots, Ascii("rd")), SlotOr(slots, Ascii("X")), SlotOr(slots, Ascii("J")));
  }

  method ParseCandidateFields(ghost buffer: Bytes, w: ByteSpan, fields: seq<FieldSpan>, ghost meant: seq<Field>, batch: nat)
    returns (c: CandidateSpans)
    requires Spells(buffer, fields, meant) && w.In(buffer)
    ensures c.In(buffer) && c.View(buffer) == CandidateOf(w.Of(buffer), meant, batch)
  {
    var slots := FillSlots(buffer, fields, meant);
    SlotReads(buffer, slots, meant, Ascii("m"));
    SlotReads(buffer, slots, meant, Ascii("d"));
    SlotReads(buffer, slots, meant, Ascii("n"));
    c := CandidateSpans(w, SlotIf(slots, Ascii("m")), SlotIf(slots, Ascii("d")), SlotIf(slots, Ascii("n")), batch);
  }

  /** Parses one complete payload, taking ownership of it. */
  method Parse(bytes: Bytes) returns (r: Result<Stored, FramingError>)
    ensures r.Err? <==> ParsePayload(bytes).Err?
    ensures r.Ok? ==> r.value.Valid() && r.value.bytes == bytes && r.value.View() == ParsePayload(bytes).value
  {
    hide Absorb, ReadRecord, BatchSpans.View, CandidateSpans.View, BatchSpans.In, CandidateSpans.In, Split;
    if bytes != [] && bytes[|bytes| - 1] != REC_SEP {
      return Err(FramingError);
    }
    var body := if bytes == [] then [] else bytes[..|bytes| - 1];
    var records := SplitSpans(bytes, body, REC_SEP, 0);
    ghost var meant := ReadRecords(body);
    var stored := Stored(bytes, [], []);
    var currentBatch: Option<nat> := None;
    for k := 0 to |records|
      invariant stored.bytes == bytes && stored.Valid() && stored.View() == Interpret(meant[..k])
      invariant currentBatch == if stored.batches == [] then None else Some(|stored.batches| - 1)
    {
      stored := ParseRecord(stored, currentBatch, records[k], meant[k]);
      assert meant[..k + 1][..k] == meant[..k];
      currentBatch := if stored.batches == [] then None else Some(|stored.batches| - 1);
    }
    assert meant[..|records|] == meant;
    return Ok(stored);
  }

  method ParseRecord(before: Stored, currentBatch: Option<nat>, record: Piece, ghost meant: seq<Field>)
    returns (after: Stored)
    requires before.Valid() && Lies(before.bytes, record) && meant == ReadRecord(record.text)
    requires currentBatch == if before.batches == [] then None else Some(|before.batches| - 1)
    ensures after.bytes == before.bytes && after.Valid()
    ensures after.View() == Absorb(before.View(), meant)
  {
    hide ReadRecord, BatchOf, CandidateOf, BatchSpans.View, CandidateSpans.View, BatchSpans.In, CandidateSpans.In, ByteSpan.Of;
    var fields := SplitRecord(before.bytes, record);
    var tag0, val0 := fields[0].tag, fields[0].val;
    after := before;
    if tag0 == Ascii("b") {
      var batch := ParseBatchFields(before.bytes, fields[1..], meant[1..]);
      after := after.(batches := after.batches + [batch]);
    } else if tag0 == Ascii("w") && val0.start != val0.end {
      ValueNotEmpty(before.bytes, val0);
      if currentBatch.Some? {
        var candidate := ParseCandidateFields(before.bytes, val0, fields[1..], meant[1..], currentBatch.value);
        after := after.(candidates := after.candidates + [candidate]);
      }
    } else {
      ValueNotEmpty(before.bytes, val0);
    }
  }

  lemma ValueNotEmpty(buffer: Bytes, val: ByteSpan)
    requires val.In(buffer)
    ensures val.Of(buffer) == [] <==> val.start == val.end
  {
  }
}
