/** The render-plan wire format: its serializer and the validating reference parser (src/wire.rs). */
module Wire {
  import opened Bytes
  import opened Decimals
  import opened Lossy
  import opened Offsets
  import opened Layout

  /** A decoded highlight in the wire's `start len` form. */
  datatype WireHighlight = WireHighlight(role: Role, pos: nat, start: nat, len: nat)

  datatype WirePlan = WirePlan(
    commonPrefix: Bytes, rows: seq<Bytes>, highlights: seq<WireHighlight>, cells: seq<(nat, nat)>,
    navigation: seq<Navigation>, inserts: seq<Bytes>, window: Option<WindowTuple>, indicators: seq<Bytes>)

  datatype Error =
    | EmptyOutput
    | MissingFinalNul
    | InvalidCount(field: string, value: Bytes)
    | FieldCount(expected: nat, actual: nat)
    | InvalidTuple(field: string, value: Bytes)
    | InvalidRole(value: Bytes)
    | OutOfRange(field: string, number: nat, max: nat)
    | RangeOutsideListing(field: string, start: nat, len: nat, listingChars: nat)

  // ---- serializing ----

  function RoleName(r: Role): Bytes {
    match r
    case Match => Ascii("match")
    case Heading => Ascii("heading")
    case HistoryNumber => Ascii("history-number")
  }

  function Tuple(parts: seq<Bytes>): Bytes { Join(parts, SPACE) }

  function HighlightParts(h: WireHighlight): seq<Bytes> {
    [RoleName(h.role), Digits(h.pos), Digits(h.start), Digits(h.len)]
  }

  function PairParts(c: (nat, nat)): seq<Bytes> { [Digits(c.0), Digits(c.1)] }

  function NavigationParts(n: Navigation): seq<Bytes> {
    [Digits(n.next), Digits(n.prev), Digits(n.left), Digits(n.right)]
  }

  function WindowParts(w: WindowTuple): seq<Bytes> { [Digits(w.offset), Digits(w.total), Digits(w.selected)] }

  function MapSeq<T, U>(f: T -> U, s: seq<T>): (r: seq<U>)
    ensures |r| == |s| && forall i :: 0 <= i < |s| ==> r[i] == f(s[i])
  {
    seq(|s|, i requires 0 <= i < |s| => f(s[i]))
  }

  function HighlightFields(hs: seq<WireHighlight>): seq<Bytes> {
    MapSeq((h: WireHighlight) => Tuple(HighlightParts(h)), hs)
  }

  function CellFields(cs: seq<(nat, nat)>): seq<Bytes> { MapSeq((c: (nat, nat)) => Tuple(PairParts(c)), cs) }

  function NavigationFields(ns: seq<Navigation>): seq<Bytes> {
    MapSeq((n: Navigation) => Tuple(NavigationParts(n)), ns)
  }

  function WindowField(w: Option<WindowTuple>): Bytes {
    match w
    case None => []
    case Some(t) => Tuple(WindowParts(t))
  }

  /** The fields of a plan, in wire order. */
  function FieldsOf(w: WirePlan): seq<Bytes> {
    [w.commonPrefix, Digits(|w.rows|), Digits(|w.inserts|)] + w.rows + [Digits(|w.highlights|)]
    + HighlightFields(w.highlights) + CellFields(w.cells) + NavigationFields(w.navigation) + w.inserts
    + [WindowField(w.window), Join(w.indicators, NEWLINE)]
  }

  function SerializeWire(w: WirePlan): Bytes { Terminated(FieldsOf(w), NUL) }

  /** The wire form of a computed plan: end-exclusive spans become `start len`. */
  function WireOf(commonPrefix: Bytes, plan: Plan, inserts: seq<Bytes>): WirePlan {
    WirePlan(
      commonPrefix, plan.rows,
      MapSeq((h: Highlight) => WireHighlight(h.role, h.pos, h.span.start, h.span.Len()), plan.highlights),
      MapSeq((r: Spans.CharSpan) => (r.start, r.Len()), plan.cellRanges),
      plan.nav, inserts, plan.window, plan.indicators)
  }

  // ---- the field list, told from the plan ----

  /** `role pos start len`, the span's end given as its length. */
  function HighlightField(h: Highlight): Bytes {
    Join([match h.role
          case Match => Ascii("match")
          case Heading => Ascii("heading")
          case HistoryNumber => Ascii("history-number"),
          Digits(h.pos), Digits(h.span.start), Digits(h.span.end - h.span.start)], SPACE)
  }

  function CellField(r: Spans.CharSpan): Bytes { Join([Digits(r.start), Digits(r.end - r.start)], SPACE) }

  function NavigationField(n: Navigation): Bytes {
    Join([Digits(n.next), Digits(n.prev), Digits(n.left), Digits(n.right)], SPACE)
  }

  /** The fields are the sections of this plan in wire order, each with the numbers of its entry. */
  ghost predicate Laid(f: seq<Bytes>, commonPrefix: Bytes, plan: Plan, inserts: seq<Bytes>) {
    var n, h, c, p := 4 + |plan.rows|, |plan.highlights|, |plan.cellRanges|, |plan.nav|;
    && |f| == n + h + c + p + |inserts| + 2
    && f[0] == commonPrefix && f[1] == Digits(|plan.rows|) && f[2] == Digits(|inserts|) && f[n - 1] == Digits(h)
    && f[3..n - 1] == plan.rows
    && (forall i :: 0 <= i < h ==> f[n..n + h][i] == HighlightField(plan.highlights[i]))
    && (forall i :: 0 <= i < c ==> f[n + h..n + h + c][i] == CellField(plan.cellRanges[i]))
    && (forall i :: 0 <= i < p ==> f[n + h + c..n + h + c + p][i] == NavigationField(plan.nav[i]))
    && f[n + h + c + p..|f| - 2] == inserts
    && f[|f| - 2] == (match plan.window
                      case None => []
                      case Some(w) => Join([Digits(w.offset), Digits(w.total), Digits(w.selected)], SPACE))
    && f[|f| - 1] == Join(plan.indicators, NEWLINE)
  }

  // ---- parsing ----

  type Parsed<T> = Result<T, Error>

  predicate IsBlank(b: byte) { b == SPACE || b == 9 || b == NEWLINE }

  predicate IsWord(s: Bytes) { s != [] && forall i :: 0 <= i < |s| ==> !IsBlank(s[i]) }

  /** Length of the longest blank-free prefix. */
  function WordLen(s: Bytes): (n: nat)
    ensures n <= |s|
    ensures forall i :: 0 <= i < n ==> !IsBlank(s[i])
    ensures n < |s| ==> IsBlank(s[n])
  {
    if s == [] || IsBlank(s[0]) then 0 else 1 + WordLen(s[1..])
  }

  /** `tuple_parts`: the pieces between blanks, empty pieces dropped. */
  function Words(s: Bytes): (ws: seq<Bytes>)
    ensures forall i :: 0 <= i < |ws| ==> IsWord(ws[i])
    decreases |s|
  {
    if s == [] then []
    else if IsBlank(s[0]) then Words(s[1..])
    else [s[..WordLen(s)]] + Words(s[WordLen(s)..])
  }

  function CountOf(value: Bytes, field: string): Parsed<nat> {
    match AsciiSpec(value)
    case Some(n) => Ok(n)
    case None => Err(InvalidCount(field, value))
  }

  /** The span must end inside the listing, and its end must be a machine number. */
  function CheckRange(field: string, start: nat, len: nat, listingChars: nat): Parsed<()> {
    if start + len > USIZE_MAX || start + len > listingChars
    then Err(RangeOutsideListing(field, start, len, listingChars)) else Ok(())
  }

  function ParseRole(value: Bytes): Option<Role> {
    if value == RoleName(Match) then Some(Match)
    else if value == RoleName(Heading) then Some(Heading)
    else if value == RoleName(HistoryNumber) then Some(HistoryNumber)
    else None
  }

  function ParseHighlight(value: Bytes, positions: nat, listingChars: nat): Parsed<WireHighlight> {
    var parts := Words(value);
    if |parts| != 4 then Err(InvalidTuple("highlight", value))
    else
      match ParseRole(parts[0])
      case None => Err(InvalidRole(parts[0]))
      case Some(role) =>
        var pos :- CountOf(parts[1], "highlight pos");
        if pos > positions then Err(OutOfRange("highlight pos", pos, positions))
        else
          var start :- CountOf(parts[2], "highlight start");
          var len :- CountOf(parts[3], "highlight len");
          var _ :- CheckRange("highlight", start, len, listingChars);
          Ok(WireHighlight(role, pos, start, len))
  }

  function ParsePair(value: Bytes, listingChars: nat): Parsed<(nat, nat)> {
    var parts := Words(value);
    if |parts| != 2 then Err(InvalidTuple("cell", value))
    else
      var start :- CountOf(parts[0], "cell start");
      var len :- CountOf(parts[1], "cell len");
      var _ :- CheckRange("cell", start, len, listingChars);
      Ok((start, len))
  }

  function CheckTarget(field: string, value: nat, positions: nat): Parsed<()> {
    if value > positions then Err(OutOfRange(field, value, positions)) else Ok(())
  }

  function ParseNavigation(value: Bytes, positions: nat): Parsed<Navigation> {
    var parts := Words(value);
    if |parts| != 4 then Err(InvalidTuple("navigation", value))
    else
      var next :- CountOf(parts[0], "nav next");
      var prev :- CountOf(parts[1], "nav prev");
      var left :- CountOf(parts[2], "nav left");
      var right :- CountOf(parts[3], "nav right");
      var _ :- CheckTarget("nav next", next, positions);
      var _ :- CheckTarget("nav prev", prev, positions);
      var _ :- CheckTarget("nav left", left, positions);
      var _ :- CheckTarget("nav right", right, positions);
      Ok(Navigation(next, prev, left, right))
  }

  /** Every field parsed in turn; the first error ends the parse. */
  function Each<T>(parse: Bytes -> Parsed<T>, fields: seq<Bytes>): (r: Parsed<seq<T>>)
    ensures r.Ok? ==> |r.value| == |fields| && forall i :: 0 <= i < |fields| ==> parse(fields[i]) == Ok(r.value[i])
    ensures r.Err? ==> exists i :: 0 <= i < |fields| && parse(fields[i]) == Err(r.error)
  {
    if fields == [] then Ok([])
    else
      var before :- Each(parse, fields[..|fields| - 1]);
      var last :- parse(fields[|fields| - 1]);
      Ok(before + [last])
  }

  lemma {:induction false} EachStopsAt<T>(parse: Bytes -> Parsed<T>, fields: seq<Bytes>, k: nat)
    requires k <= |fields| && Each(parse, fields[..k]).Err?
    ensures Each(parse, fields) == Each(parse, fields[..k])
  {
    if k < |fields| {
      EachStopsAt(parse, fields[..|fields| - 1], k);
      assert fields[..|fields| - 1][..k] == fields[..k];
    } else {
      assert fields[..k] == fields;
    }
  }

  /** The loops of the parser: fills a vector field by field. */
  method ParseEach<T>(parse: Bytes -> Parsed<T>, fields: seq<Bytes>) returns (r: Parsed<seq<T>>)
    ensures r == Each(parse, fields)
  {
    var parsed: seq<T> := [];
    for index := 0 to |fields|
      invariant Each(parse, fields[..index]) == Ok(parsed)
    {
      assert fields[..index + 1][..index] == fields[..index];
      var next := parse(fields[index]);
      if next.Err? {
        EachStopsAt(parse, fields, index + 1);
        return Err(next.error);
      }
      parsed := parsed + [next.value];
    }
    assert fields[..|fields|] == fields;
    return Ok(parsed);
  }

  function SmallCount(value: Bytes): Option<nat> {
    match CanonicalSpec(value)
    case Some(n) => if n <= I64_MAX then Some(n) else None
    case None => None
  }

  predicate WindowFits(w: WindowTuple, positions: nat, lines: nat) {
    && w.offset + positions <= w.total
    && w.selected <= positions
    && (positions == 0 <==> w.total == 0)
    && (w.total == 0 ==> lines == 0)
    && (w.selected == 0 ==> w.offset == 0)
  }

  function ParseWindow(value: Bytes, positions: nat, lines: nat): Parsed<Option<WindowTuple>> {
    var parts := Split(value, SPACE);
    if value == [] then Ok(None)
    else if |parts| != 3 then Err(InvalidTuple("window", value))
    else
      match (SmallCount(parts[0]), SmallCount(parts[1]), SmallCount(parts[2]))
      case (Some(offset), Some(total), Some(selected)) =>
        var w := WindowTuple(offset, total, selected);
        if WindowFits(w, positions, lines) then Ok(Some(w)) else Err(InvalidTuple("window", value))
      case _ => Err(InvalidTuple("window", value))
  }

  predicate IndicatorLine(line: Bytes) {
    line != [] && forall i :: 0 <= i < |line| ==> IsDigit(line[i]) || line[i] == SLASH
  }

  /** Indicators come with a window over something, one empty line first, then one line per position. */
  predicate IndicatorsFit(indicators: seq<Bytes>, window: Option<WindowTuple>, positions: nat, lines: nat) {
    indicators != [] ==>
      && window.Some? && positions != 0 && lines >= 2
      && |indicators| == positions + 1
      && indicators[0] == []
      && forall i :: 1 <= i < |indicators| ==> IndicatorLine(indicators[i])
  }

  function LinesOf(value: Bytes): seq<Bytes> { if value == [] then [] else Split(value, NEWLINE) }

  /** The rows the offsets count into: the indicator row is not part of the listing. */
  function CellRows(rows: seq<Bytes>, window: Option<WindowTuple>, indicators: seq<Bytes>): Parsed<seq<Bytes>> {
    if indicators == [] then Ok(rows)
    else
      var last := if rows == [] then None else Some(rows[|rows| - 1]);
      var shown := if window.Some? && window.value.selected < |indicators| then Some(indicators[window.value.selected]) else None;
      if last != shown then Err(InvalidTuple("indicator row", if last.Some? then last.value else []))
      else Ok(if rows == [] then [] else rows[..|rows| - 1])
  }

  function Overflow<T>(fields: seq<Bytes>): Parsed<T> { Err(FieldCount(USIZE_MAX, |fields|)) }

  /** The counts `L`, `P` and `H`, checked against the number of fields. */
  function ParseShape(fields: seq<Bytes>): (r: Parsed<(nat, nat, nat)>)
    ensures r.Ok? ==> |fields| == 6 + r.value.0 + r.value.2 + r.value.1 * 3
  {
    if |fields| < 6 then Err(FieldCount(6, |fields|))
    else
      var l :- CountOf(fields[1], "L");
      var p :- CountOf(fields[2], "P");
      if 3 + l > USIZE_MAX then Overflow(fields)
      else if 3 + l >= |fields| then Err(FieldCount(Plus(3 + l, 1), |fields|))
      else
        var h :- CountOf(fields[3 + l], "H");
        if 6 + l + h + p * 3 > USIZE_MAX then Overflow(fields)
        else if |fields| != 6 + l + h + p * 3 then Err(FieldCount(6 + l + h + p * 3, |fields|))
        else Ok((l, p, h))
  }

  /** The highlight, cell and navigation sections. */
  function ParseTuples(fields: seq<Bytes>, l: nat, p: nat, h: nat, chars: nat)
    : Parsed<(seq<WireHighlight>, seq<(nat, nat)>, seq<Navigation>)>
    requires |fields| == 6 + l + h + p * 3
  {
    var at := 4 + l;
    var highlights :- Each(v => ParseHighlight(v, p, chars), fields[at..at + h]);
    var cells :- Each(v => ParsePair(v, chars), fields[at + h..at + h + p]);
    var navigation :- Each(v => ParseNavigation(v, p), fields[at + h + p..at + h + p + p]);
    Ok((highlights, cells, navigation))
  }

  function ParseBody(fields: seq<Bytes>, l: nat, p: nat, h: nat): Parsed<WirePlan>
    requires |fields| == 6 + l + h + p * 3
  {
    var n := |fields|;
    var window :- ParseWindow(fields[n - 2], p, l);
    var indicators := LinesOf(fields[n - 1]);
    if !IndicatorsFit(indicators, window, p, l) then Err(InvalidTuple("indicators", fields[n - 1]))
    else
      var rows := fields[3..3 + l];
      var cellRows :- CellRows(rows, window, indicators);
      var (highlights, cells, navigation) :- ParseTuples(fields, l, p, h, Count(Listing(cellRows)));
      var at := 4 + l + h + p + p;
      Ok(WirePlan(fields[0], rows, highlights, cells, navigation, fields[at..at + p], window, indicators))
  }

  function ParseFields(fields: seq<Bytes>): Parsed<WirePlan> {
    var (l, p, h) :- ParseShape(fields);
    ParseBody(fields, l, p, h)
  }

  function ParseSpec(output: Bytes): Parsed<WirePlan> {
    if output == [] then Err(EmptyOutput)
    else if output[|output| - 1] != NUL then Err(MissingFinalNul)
    else ParseFields(Split(output[..|output| - 1], NUL))
  }
}
