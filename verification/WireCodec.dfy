/** The serializing and parsing loops of the render-plan format (src/wire.rs `serialize`, `parse`). */
module WireCodec {
  import opened Bytes
  import opened Decimals
  import opened Lossy
  import opened Spans
  import opened Offsets
  import opened Layout
  import opened Wire
  import opened WireFacts

  lemma PushField(fields: seq<Bytes>, field: Bytes)
    ensures Terminated(fields + [field], NUL) == Terminated(fields, NUL) + field + [NUL]
  {
    TerminatedConcat(fields, [field], NUL);
    assert Terminated([field], NUL) == field + [NUL] + Terminated([], NUL);
    assert field + [NUL] + [] == field + [NUL];
  }

  /** Appends one NUL-terminated field per item. */
  method PushEach<T>(out: Bytes, show: T -> Bytes, items: seq<T>) returns (r: Bytes)
    ensures r == out + Terminated(MapSeq(show, items), NUL)
  {
    r := out;
    assert MapSeq(show, items[..0]) == [];
    for k := 0 to |items|
      invariant r == out + Terminated(MapSeq(show, items[..k]), NUL)
    {
      PushField(MapSeq(show, items[..k]), show(items[k]));
      assert MapSeq(show, items[..k + 1]) == MapSeq(show, items[..k]) + [show(items[k])];
      r := r + show(items[k]);
      r := r + [NUL];
    }
    assert items[..|items|] == items;
  }

  function ShowHighlight(h: Highlight): Bytes {
    Tuple([RoleName(h.role), Digits(h.pos), Digits(h.span.start), Digits(h.span.Len())])
  }

  function ShowRange(r: CharSpan): Bytes { Tuple([Digits(r.start), Digits(r.Len())]) }

  function ShowNavigation(n: Navigation): Bytes { Tuple(NavigationParts(n)) }

  function ShowRaw(s: Bytes): Bytes { s }

  /** Flattens a computed plan into the wire format. */
  method Serialize(commonPrefix: Bytes, plan: Plan, inserts: seq<Bytes>) returns (out: Bytes)
    requires |plan.positions| == |inserts|
    ensures out == SerializeWire(WireOf(commonPrefix, plan, inserts))
    ensures exists fields: seq<Bytes> :: Laid(fields, commonPrefix, plan, inserts) && out == Terminated(fields, NUL)
  {
    hide Laid, Digits, Tuple, RoleName, Join, Terminated, WindowField, Wire.HighlightParts, Wire.PairParts;
    out := commonPrefix + [NUL];
    out := out + Digits(|plan.rows|) + [NUL];
    out := out + Digits(|plan.positions|) + [NUL];
    out := PushEach(out, ShowRaw, plan.rows);
    out := out + Digits(|plan.highlights|) + [NUL];
    out := PushEach(out, ShowHighlight, plan.highlights);
    out := PushEach(out, ShowRange, plan.cellRanges);
    out := PushEach(out, ShowNavigation, plan.nav);
    out := PushEach(out, ShowRaw, inserts);
    out := out + WindowField(plan.window) + [NUL];
    out := out + Join(plan.indicators, NEWLINE) + [NUL];
    SerializedIs(commonPrefix, plan, inserts);
    FieldsLaid(commonPrefix, plan, inserts);
  }

  lemma SectionFields(commonPrefix: Bytes, plan: Plan, inserts: seq<Bytes>)
    ensures var w := WireOf(commonPrefix, plan, inserts);
            && MapSeq(ShowRaw, plan.rows) == w.rows
            && MapSeq(ShowHighlight, plan.highlights) == HighlightFields(w.highlights)
            && MapSeq(ShowRange, plan.cellRanges) == CellFields(w.cells)
            && MapSeq(ShowNavigation, plan.nav) == NavigationFields(w.navigation)
            && MapSeq(ShowRaw, inserts) == w.inserts
  {
    hide Digits, Tuple, RoleName;
  }

  lemma SerializedIs(commonPrefix: Bytes, plan: Plan, inserts: seq<Bytes>)
    requires |plan.positions| == |inserts|
    ensures SerializeWire(WireOf(commonPrefix, plan, inserts)) ==
            commonPrefix + [NUL] + Digits(|plan.rows|) + [NUL] + Digits(|plan.positions|) + [NUL]
            + Terminated(MapSeq(ShowRaw, plan.rows), NUL) + Digits(|plan.highlights|) + [NUL]
            + Terminated(MapSeq(ShowHighlight, plan.highlights), NUL)
            + Terminated(MapSeq(ShowRange, plan.cellRanges), NUL)
            + Terminated(MapSeq(ShowNavigation, plan.nav), NUL)
            + Terminated(MapSeq(ShowRaw, inserts), NUL)
            + WindowField(plan.window) + [NUL] + Join(plan.indicators, NEWLINE) + [NUL]
  {
    var w := WireOf(commonPrefix, plan, inserts);
    SectionFields(commonPrefix, plan, inserts);
    hide Digits, Terminated, WindowField, Join, HighlightFields, CellFields, NavigationFields;
    TerminatedSections(w.commonPrefix, Digits(|w.rows|), Digits(|w.inserts|), w.rows, Digits(|w.highlights|),
                       HighlightFields(w.highlights), CellFields(w.cells), NavigationFields(w.navigation),
                       w.inserts, WindowField(w.window), Join(w.indicators, NEWLINE));
  }

  lemma TerminatedSections(
    a: Bytes, b: Bytes, c: Bytes, d: seq<Bytes>, e: Bytes, f: seq<Bytes>, g: seq<Bytes>, h: seq<Bytes>, i: seq<Bytes>,
    j: Bytes, k: Bytes)
    ensures Terminated([a, b, c] + d + [e] + f + g + h + i + [j, k], NUL) ==
            a + [NUL] + b + [NUL] + c + [NUL] + Terminated(d, NUL) + e + [NUL] + Terminated(f, NUL)
            + Terminated(g, NUL) + Terminated(h, NUL) + Terminated(i, NUL) + j + [NUL] + k + [NUL]
  {
    hide Terminated;
    NoFields();
    PushField([], a);
    PushField([a], b);
    PushField([a, b], c);
    assert [] + [a] == [a] && [a] + [b] == [a, b] && [a, b] + [c] == [a, b, c];
    TerminatedConcat([a, b, c], d, NUL);
    var s := [a, b, c] + d;
    PushField(s, e);
    TerminatedConcat(s + [e], f, NUL);
    TerminatedConcat(s + [e] + f, g, NUL);
    TerminatedConcat(s + [e] + f + g, h, NUL);
    TerminatedConcat(s + [e] + f + g + h, i, NUL);
    var t := s + [e] + f + g + h + i;
    PushField(t, j);
    PushField(t + [j], k);
    assert t + [j] + [k] == t + [j, k];
  }

  lemma NoFields()
    ensures Terminated([], NUL) == []
  {
  }

  lemma ShapeFits(fields: seq<Bytes>)
    requires ParseShape(fields).Ok?
    ensures var (l, p, h) := ParseShape(fields).value; |fields| == 6 + l + h + p * 3
  {
    hide CountOf;
  }

  /** The sections behind the three counts, in field order. */
  method ParseSections(fields: seq<Bytes>, l: nat, p: nat, h: nat) returns (r: Parsed<WirePlan>)
    requires |fields| == 6 + l + h + p * 3
    ensures r == ParseBody(fields, l, p, h)
  {
    hide ParseWindow, LinesOf, IndicatorsFit, CellRows, ParseHighlight, ParsePair, ParseNavigation, Each, Listing, Count;
    var expected := |fields|;
    var window :- ParseWindow(fields[expected - 2], p, l);
    var indicators := LinesOf(fields[expected - 1]);
    if !IndicatorsFit(indicators, window, p, l) {
      return Err(InvalidTuple("indicators", fields[expected - 1]));
    }
    var index := 3;
    var rows := fields[index..index + l];
    index := index + l;
    index := index + 1;
    var cellRows :- CellRows(rows, window, indicators);
    var listingChars := Count(Listing(cellRows));
    var highlights :- ParseEach(v => ParseHighlight(v, p, listingChars), fields[index..index + h]);
    index := index + h;
    var cells :- ParseEach(v => ParsePair(v, listingChars), fields[index..index + p]);
    index := index + p;
    var navigation :- ParseEach(v => ParseNavigation(v, p), fields[index..index + p]);
    index := index + p;
    return Ok(WirePlan(fields[0], rows, highlights, cells, navigation, fields[index..index + p], window, indicators));
  }

  /** Parses and validates a serialized render plan. */
  method Parse(output: Bytes) returns (r: Parsed<WirePlan>)
    ensures r == ParseSpec(output)
  {
    hide ParseShape, ParseBody, Split;
    if output == [] {
      return Err(EmptyOutput);
    }
    if output[|output| - 1] != NUL {
      return Err(MissingFinalNul);
    }
    var fields := Split(output[..|output| - 1], NUL);
    var shape :- ParseShape(fields);
    var (l, p, h) := shape;
    ShapeFits(fields);
    r := ParseSections(fields, l, p, h);
  }
}
