/** The render-plan serializer and its reference parser undo each other. */
module WireFacts {
  import opened Bytes
  import opened Decimals
  import opened Lossy
  import opened Offsets
  import opened Layout
  import opened Wire

  // ---- what the parser accepts ----

  predicate RangeFits(start: nat, len: nat, chars: nat) {
    start + len <= chars && start + len <= USIZE_MAX
  }

  predicate NavigationFits(n: Navigation, positions: nat) {
    n.next <= positions && n.prev <= positions && n.left <= positions && n.right <= positions
  }

  /** The rows that offsets count into. */
  function CellRowsOf(w: WirePlan): seq<Bytes> {
    if w.indicators == [] || w.rows == [] then w.rows else w.rows[..|w.rows| - 1]
  }

  function ListingChars(w: WirePlan): nat { Count(Listing(CellRowsOf(w))) }

  /** Everything the format promises its reader. */
  ghost predicate WellFormed(w: WirePlan) {
    var positions := |w.inserts|;
    && |w.cells| == |w.navigation| == positions
    && 6 + |w.rows| + |w.highlights| + positions * 3 <= USIZE_MAX
    && Free(w.commonPrefix, NUL) && AllFree(w.rows, NUL) && AllFree(w.inserts, NUL)
    && (forall i :: 0 <= i < |w.highlights| ==>
          w.highlights[i].pos <= positions && RangeFits(w.highlights[i].start, w.highlights[i].len, ListingChars(w)))
    && (forall i :: 0 <= i < |w.cells| ==> RangeFits(w.cells[i].0, w.cells[i].1, ListingChars(w)))
    && (forall i :: 0 <= i < |w.navigation| ==> NavigationFits(w.navigation[i], positions))
    && (w.window.Some? ==>
          && w.window.value.offset <= I64_MAX && w.window.value.total <= I64_MAX && w.window.value.selected <= I64_MAX
          && WindowFits(w.window.value, positions, |w.rows|))
    && IndicatorsFit(w.indicators, w.window, positions, |w.rows|)
    && (w.indicators != [] ==> w.rows[|w.rows| - 1] == w.indicators[w.window.value.selected])
  }

  // ---- tuples ----

  ghost predicate AllWords(parts: seq<Bytes>) {
    forall i :: 0 <= i < |parts| ==> IsWord(parts[i])
  }

  lemma WordsHead(word: Bytes, rest: Bytes)
    requires IsWord(word) && (rest == [] || IsBlank(rest[0]))
    ensures Words(word + rest) == [word] + Words(rest)
  {
    var s := word + rest;
    assert !IsBlank(s[0]) by { assert s[0] == word[0]; }
    var n := WordLen(s);
    assert n >= |word| by {
      assert n < |s| ==> IsBlank(s[n]);
      assert forall i :: 0 <= i < |word| ==> s[i] == word[i];
    }
    assert n <= |word| by {
      assert rest != [] ==> IsBlank(s[|word|]);
    }
    SliceConcat(word, rest, |word|);
    assert word[..|word|] == word && word[|word|..] + rest == rest;
  }

  /** A written tuple splits back into its parts. */
  lemma {:induction false} WordsOfTuple(parts: seq<Bytes>)
    requires AllWords(parts)
    ensures Words(Tuple(parts)) == parts
  {
    if parts != [] {
      assert IsWord(parts[0]);
      var rest := parts[1..];
      WordsOfTuple(rest);
      hide IsWord;
      if rest == [] {
        WordsHead(parts[0], []);
        assert parts[0] + [] == parts[0] && Words([]) == [];
        assert parts == [parts[0]];
      } else {
        WordsHead(parts[0], [SPACE] + Tuple(rest));
        assert ([SPACE] + Tuple(rest))[1..] == Tuple(rest);
        assert Tuple(parts) == parts[0] + ([SPACE] + Tuple(rest));
      }
    }
  }

  lemma DigitsWord(n: nat)
    ensures IsWord(Digits(n)) && Free(Digits(n), NUL) && Free(Digits(n), SPACE) && Free(Digits(n), NEWLINE)
  {
    DigitsDenote(n);
  }

  lemma RoleWord(r: Role)
    ensures IsWord(RoleName(r)) && Free(RoleName(r), NUL) && ParseRole(RoleName(r)) == Some(r)
  {
    var n := RoleName(r);
    forall i | 0 <= i < |n|
      ensures !IsBlank(n[i]) && n[i] != NUL
    {
      match r
      case Match =>
      case Heading =>
      case HistoryNumber =>
    }
    assert RoleName(Match)[0] != RoleName(Heading)[0];
  }

  lemma CountOfDigits(n: nat, field: string)
    requires n <= USIZE_MAX
    ensures CountOf(Digits(n), field) == Ok(n)
  {
    DigitsDenote(n);
  }

  lemma HighlightParses(h: WireHighlight, positions: nat, chars: nat)
    requires h.pos <= positions <= USIZE_MAX && RangeFits(h.start, h.len, chars)
    ensures ParseHighlight(Tuple(HighlightParts(h)), positions, chars) == Ok(h)
  {
    hide Words, Digits, Tuple, AsciiSpec, RoleName, ParseRole;
    RoleWord(h.role);
    DigitsWord(h.pos);
    DigitsWord(h.start);
    DigitsWord(h.len);
    WordsOfTuple(HighlightParts(h));
    CountOfDigits(h.pos, "highlight pos");
    CountOfDigits(h.start, "highlight start");
    CountOfDigits(h.len, "highlight len");
  }

  lemma PairParses(c: (nat, nat), chars: nat)
    requires RangeFits(c.0, c.1, chars)
    ensures ParsePair(Tuple(PairParts(c)), chars) == Ok(c)
  {
    hide Words, Digits, Tuple, AsciiSpec;
    DigitsWord(c.0);
    DigitsWord(c.1);
    WordsOfTuple(PairParts(c));
    CountOfDigits(c.0, "cell start");
    CountOfDigits(c.1, "cell len");
  }

  lemma NavigationParses(n: Navigation, positions: nat)
    requires NavigationFits(n, positions) && positions <= USIZE_MAX
    ensures ParseNavigation(Tuple(NavigationParts(n)), positions) == Ok(n)
  {
    hide Words, Digits, Tuple, AsciiSpec;
    DigitsWord(n.next);
    DigitsWord(n.prev);
    DigitsWord(n.left);
    DigitsWord(n.right);
    WordsOfTuple(NavigationParts(n));
    CountOfDigits(n.next, "nav next");
    CountOfDigits(n.prev, "nav prev");
    CountOfDigits(n.left, "nav left");
    CountOfDigits(n.right, "nav right");
  }

  lemma SmallCountIs(s: Bytes, n: nat)
    ensures SmallCount(s) == Some(n) <==> n <= I64_MAX && s == Digits(n)
  {
    hide CanonicalSpec, Digits;
    CanonicalParsesPrinted(s, n);
    if CanonicalSpec(s).Some? {
      CanonicalParsesPrinted(s, CanonicalSpec(s).value);
    }
  }

  lemma WindowParses(w: Option<WindowTuple>, positions: nat, lines: nat)
    requires w.Some? ==>
               && w.value.offset <= I64_MAX && w.value.total <= I64_MAX && w.value.selected <= I64_MAX
               && WindowFits(w.value, positions, lines)
    ensures ParseWindow(WindowField(w), positions, lines) == Ok(w)
    ensures Free(WindowField(w), NUL)
  {
    if w.Some? {
      var t := w.value;
      hide Digits, Split, SmallCount, WindowFits, Join;
      DigitsWord(t.offset);
      DigitsWord(t.total);
      DigitsWord(t.selected);
      SmallCountIs(Digits(t.offset), t.offset);
      SmallCountIs(Digits(t.total), t.total);
      SmallCountIs(Digits(t.selected), t.selected);
      SplitJoin(WindowParts(t), SPACE);
      JoinKeepsFree(WindowParts(t), SPACE, NUL);
      JoinNotEmpty(WindowParts(t), SPACE);
    }
  }

  lemma JoinNotEmpty(parts: seq<Bytes>, sep: byte)
    requires |parts| > 1
    ensures Join(parts, sep) != []
  {
  }

  // ---- whole plans ----

  lemma {:induction false} EachYields<T>(parse: Bytes -> Parsed<T>, fields: seq<Bytes>, values: seq<T>)
    requires |fields| == |values| && forall i :: 0 <= i < |fields| ==> parse(fields[i]) == Ok(values[i])
    ensures Each(parse, fields) == Ok(values)
  {
    if fields != [] {
      EachYields(parse, fields[..|fields| - 1], values[..|values| - 1]);
      assert values == values[..|values| - 1] + [values[|values| - 1]];
    }
  }

  /** The sections of the field list, by their counts. */
  lemma FieldSections(w: WirePlan)
    requires |w.cells| == |w.navigation| == |w.inserts|
    ensures var f, l, h, p := FieldsOf(w), |w.rows|, |w.highlights|, |w.inserts|;
            && |f| == 6 + l + h + p * 3
            && f[0] == w.commonPrefix && f[1] == Digits(l) && f[2] == Digits(p) && f[3 + l] == Digits(h)
            && f[3..3 + l] == w.rows
            && f[4 + l..4 + l + h] == HighlightFields(w.highlights)
            && f[4 + l + h..4 + l + h + p] == CellFields(w.cells)
            && f[4 + l + h + p..4 + l + h + p + p] == NavigationFields(w.navigation)
            && f[4 + l + h + p + p..4 + l + h + p + p + p] == w.inserts
            && f[|f| - 2] == WindowField(w.window) && f[|f| - 1] == Join(w.indicators, NEWLINE)
  {
    hide *;
    Sections([w.commonPrefix, Digits(|w.rows|), Digits(|w.inserts|)], w.rows, [Digits(|w.highlights|)],
             HighlightFields(w.highlights), CellFields(w.cells), NavigationFields(w.navigation), w.inserts,
             [WindowField(w.window), Join(w.indicators, NEWLINE)]);
    FieldsAre(w);
  }

  lemma FieldsAre(w: WirePlan)
    ensures FieldsOf(w) ==
            [w.commonPrefix, Digits(|w.rows|), Digits(|w.inserts|)] + w.rows + [Digits(|w.highlights|)]
            + HighlightFields(w.highlights) + CellFields(w.cells) + NavigationFields(w.navigation) + w.inserts
            + [WindowField(w.window), Join(w.indicators, NEWLINE)]
    ensures |HighlightFields(w.highlights)| == |w.highlights|
    ensures |CellFields(w.cells)| == |w.cells|
    ensures |NavigationFields(w.navigation)| == |w.navigation|
  {
    hide HighlightParts, PairParts, NavigationParts, Tuple, Digits, Join;
  }

  lemma Sections<T>(a: seq<T>, b: seq<T>, c: seq<T>, d: seq<T>, e: seq<T>, f: seq<T>, g: seq<T>, h: seq<T>)
    requires |a| == 3 && |c| == 1 && |h| == 2
    ensures var s, n := a + b + c + d + e + f + g + h, 4 + |b|;
            && |s| == 6 + |b| + |d| + |e| + |f| + |g|
            && s[0] == a[0] && s[1] == a[1] && s[2] == a[2] && s[n - 1] == c[0]
            && s[3..n - 1] == b && s[n..n + |d|] == d
            && s[n + |d|..n + |d| + |e|] == e
            && s[n + |d| + |e|..n + |d| + |e| + |f|] == f
            && s[n + |d| + |e| + |f|..n + |d| + |e| + |f| + |g|] == g
            && s[|s| - 2] == h[0] && s[|s| - 1] == h[1]
  {
  }

  /** What the serializer writes is the plan's own numbers, section by section. */
  lemma FieldsLaid(commonPrefix: Bytes, plan: Plan, inserts: seq<Bytes>)
    ensures Laid(FieldsOf(WireOf(commonPrefix, plan, inserts)), commonPrefix, plan, inserts)
  {
    hide *;
    var w := WireOf(commonPrefix, plan, inserts);
    Sections([w.commonPrefix, Digits(|w.rows|), Digits(|w.inserts|)], w.rows, [Digits(|w.highlights|)],
             HighlightFields(w.highlights), CellFields(w.cells), NavigationFields(w.navigation), w.inserts,
             [WindowField(w.window), Join(w.indicators, NEWLINE)]);
    FieldsAre(w);
    EntriesAre(commonPrefix, plan, inserts);
    EntryCounts(w, plan);
    LaidIs(FieldsOf(w), commonPrefix, plan, inserts);
  }

  /** The entries of the three tuple sections hold the plan's own numbers. */
  ghost predicate EntriesLaid(w: WirePlan, plan: Plan) {
    && |HighlightFields(w.highlights)| == |plan.highlights|
    && |CellFields(w.cells)| == |plan.cellRanges|
    && |NavigationFields(w.navigation)| == |plan.nav|
    && (forall i :: 0 <= i < |plan.highlights| ==>
          HighlightFields(w.highlights)[i] == HighlightField(plan.highlights[i]))
    && (forall i :: 0 <= i < |plan.cellRanges| ==> CellFields(w.cells)[i] == CellField(plan.cellRanges[i]))
    && (forall i :: 0 <= i < |plan.nav| ==> NavigationFields(w.navigation)[i] == NavigationField(plan.nav[i]))
  }

  lemma EntriesAre(commonPrefix: Bytes, plan: Plan, inserts: seq<Bytes>)
    ensures EntriesLaid(WireOf(commonPrefix, plan, inserts), plan)
  {
    hide Digits, Join;
  }

  lemma LaidIs(f: seq<Bytes>, commonPrefix: Bytes, plan: Plan, inserts: seq<Bytes>)
    requires EntriesLaid(WireOf(commonPrefix, plan, inserts), plan)
    requires var w := WireOf(commonPrefix, plan, inserts);
             var n, h, c, p := 4 + |w.rows|, |plan.highlights|, |plan.cellRanges|, |plan.nav|;
             && |f| == n + h + c + p + |w.inserts| + 2
             && f[0] == w.commonPrefix && f[1] == Digits(|w.rows|) && f[2] == Digits(|w.inserts|)
             && f[n - 1] == Digits(|w.highlights|) && f[3..n - 1] == w.rows
             && f[n..n + h] == HighlightFields(w.highlights)
             && f[n + h..n + h + c] == CellFields(w.cells)
             && f[n + h + c..n + h + c + p] == NavigationFields(w.navigation)
             && f[n + h + c + p..n + h + c + p + |w.inserts|] == w.inserts
             && f[|f| - 2] == WindowField(w.window) && f[|f| - 1] == Join(w.indicators, NEWLINE)
    ensures Laid(f, commonPrefix, plan, inserts)
  {
    hide Digits, Join, HighlightFields, CellFields, NavigationFields, HighlightField, CellField, NavigationField;
  }

  lemma EntryCounts(w: WirePlan, plan: Plan)
    requires EntriesLaid(w, plan)
    ensures |HighlightFields(w.highlights)| == |plan.highlights|
    ensures |CellFields(w.cells)| == |plan.cellRanges|
    ensures |NavigationFields(w.navigation)| == |plan.nav|
  {
  }

  lemma HighlightsParse(hs: seq<WireHighlight>, positions: nat, chars: nat)
    requires positions <= USIZE_MAX
    requires forall i :: 0 <= i < |hs| ==> hs[i].pos <= positions && RangeFits(hs[i].start, hs[i].len, chars)
    ensures Each(v => ParseHighlight(v, positions, chars), HighlightFields(hs)) == Ok(hs)
  {
    hide HighlightParts, Tuple, ParseHighlight, Each;
    forall i | 0 <= i < |hs|
      ensures ParseHighlight(HighlightFields(hs)[i], positions, chars) == Ok(hs[i])
    {
      HighlightParses(hs[i], positions, chars);
    }
    EachYields(v => ParseHighlight(v, positions, chars), HighlightFields(hs), hs);
  }

  lemma CellsParse(cs: seq<(nat, nat)>, chars: nat)
    requires forall i :: 0 <= i < |cs| ==> RangeFits(cs[i].0, cs[i].1, chars)
    ensures Each(v => ParsePair(v, chars), CellFields(cs)) == Ok(cs)
  {
    hide PairParts, Tuple, ParsePair, Each;
    forall i | 0 <= i < |cs|
      ensures ParsePair(CellFields(cs)[i], chars) == Ok(cs[i])
    {
      PairParses(cs[i], chars);
    }
    EachYields(v => ParsePair(v, chars), CellFields(cs), cs);
  }

  lemma NavigationsParse(ns: seq<Navigation>, positions: nat)
    requires positions <= USIZE_MAX && forall i :: 0 <= i < |ns| ==> NavigationFits(ns[i], positions)
    ensures Each(v => ParseNavigation(v, positions), NavigationFields(ns)) == Ok(ns)
  {
    hide NavigationParts, Tuple, ParseNavigation, Each;
    forall i | 0 <= i < |ns|
      ensures ParseNavigation(NavigationFields(ns)[i], positions) == Ok(ns[i])
    {
      NavigationParses(ns[i], positions);
    }
    EachYields(v => ParseNavigation(v, positions), NavigationFields(ns), ns);
  }

  /** Indicator lines survive joining and splitting. */
  lemma LinesParse(indicators: seq<Bytes>, window: Option<WindowTuple>, positions: nat, lines: nat)
    requires IndicatorsFit(indicators, window, positions, lines)
    ensures LinesOf(Join(indicators, NEWLINE)) == indicators
    ensures Free(Join(indicators, NEWLINE), NUL)
  {
    if indicators != [] {
      forall i | 0 <= i < |indicators|
        ensures Free(indicators[i], NEWLINE) && Free(indicators[i], NUL)
      {
        if i > 0 {
          assert IndicatorLine(indicators[i]);
        }
      }
      hide Join, Split, IndicatorLine, Free;
      SplitJoin(indicators, NEWLINE);
      JoinKeepsFree(indicators, NEWLINE, NUL);
      JoinNotEmpty(indicators, NEWLINE);
    }
  }

  lemma ShapeParses(w: WirePlan)
    requires WellFormed(w)
    ensures ParseShape(FieldsOf(w)) == Ok((|w.rows|, |w.inserts|, |w.highlights|))
  {
    hide Digits, FieldsOf, AsciiSpec;
    FieldSections(w);
    CountOfDigits(|w.rows|, "L");
    CountOfDigits(|w.inserts|, "P");
    CountOfDigits(|w.highlights|, "H");
  }

  lemma TuplesParse(w: WirePlan)
    requires WellFormed(w)
    ensures var f := FieldsOf(w);
            && |f| == 6 + |w.rows| + |w.highlights| + |w.inserts| * 3
            && ParseTuples(f, |w.rows|, |w.inserts|, |w.highlights|, ListingChars(w))
               == Ok((w.highlights, w.cells, w.navigation))
  {
    hide FieldsOf, Digits, WindowField, Join, Each, HighlightFields, CellFields, NavigationFields, ListingChars,
         WindowFits, IndicatorsFit;
    FieldSections(w);
    HighlightsParse(w.highlights, |w.inserts|, ListingChars(w));
    CellsParse(w.cells, ListingChars(w));
    NavigationsParse(w.navigation, |w.inserts|);
  }

  lemma RowsParse(w: WirePlan)
    requires WellFormed(w)
    ensures CellRows(w.rows, w.window, w.indicators) == Ok(CellRowsOf(w))
  {
    hide ListingChars;
  }

  lemma FieldsParse(w: WirePlan)
    requires WellFormed(w)
    ensures ParseFields(FieldsOf(w)) == Ok(w)
  {
    hide FieldsOf, Digits, ParseShape, ParseWindow, WindowField, LinesOf, Join, Listing, ParseTuples,
         HighlightFields, CellFields, NavigationFields, Count, CellRows, CellRowsOf;
    FieldSections(w);
    ShapeParses(w);
    WindowParses(w.window, |w.inserts|, |w.rows|);
    LinesParse(w.indicators, w.window, |w.inserts|, |w.rows|);
    RowsParse(w);
    TuplesParse(w);
  }

  lemma TupleFree(parts: seq<Bytes>)
    requires AllFree(parts, NUL)
    ensures Free(Tuple(parts), NUL)
  {
    JoinKeepsFree(parts, SPACE, NUL);
  }

  lemma TupleFieldsFree(w: WirePlan)
    ensures AllFree(HighlightFields(w.highlights), NUL)
    ensures AllFree(CellFields(w.cells), NUL)
    ensures AllFree(NavigationFields(w.navigation), NUL)
  {
    hide Tuple, Digits, RoleName, Free;
    forall i | 0 <= i < |w.highlights|
      ensures Free(Tuple(HighlightParts(w.highlights[i])), NUL)
    {
      var h := w.highlights[i];
      RoleWord(h.role);
      DigitsWord(h.pos);
      DigitsWord(h.start);
      DigitsWord(h.len);
      TupleFree(HighlightParts(h));
    }
    forall i | 0 <= i < |w.cells|
      ensures Free(Tuple(PairParts(w.cells[i])), NUL)
    {
      DigitsWord(w.cells[i].0);
      DigitsWord(w.cells[i].1);
      TupleFree(PairParts(w.cells[i]));
    }
    forall i | 0 <= i < |w.navigation|
      ensures Free(Tuple(NavigationParts(w.navigation[i])), NUL)
    {
      var n := w.navigation[i];
      DigitsWord(n.next);
      DigitsWord(n.prev);
      DigitsWord(n.left);
      DigitsWord(n.right);
      TupleFree(NavigationParts(n));
    }
  }

  lemma FieldsFree(w: WirePlan)
    requires WellFormed(w)
    ensures AllFree(FieldsOf(w), NUL)
  {
    hide Digits, WindowField, Join, HighlightFields, CellFields, NavigationFields, IndicatorsFit, WindowFits, ListingChars, Free;
    TupleFieldsFree(w);
    DigitsWord(|w.rows|);
    DigitsWord(|w.inserts|);
    DigitsWord(|w.highlights|);
    WindowParses(w.window, |w.inserts|, |w.rows|);
    LinesParse(w.indicators, w.window, |w.inserts|, |w.rows|);
  }

  /** The parser reads a serialized plan back field by field. */
  lemma SerializedParses(w: WirePlan)
    requires WellFormed(w)
    ensures ParseSpec(SerializeWire(w)) == Ok(w)
  {
    hide FieldsOf, ParseFields, WellFormed, Split, Join, Terminated;
    FieldsFree(w);
    FieldsParse(w);
    FieldsNotEmpty(w);
    TerminatedSplits(FieldsOf(w));
  }

  lemma FieldsNotEmpty(w: WirePlan)
    ensures FieldsOf(w) != []
  {
  }

  /** A NUL-terminated list of NUL-free fields splits back into the list. */
  lemma TerminatedSplits(fields: seq<Bytes>)
    requires fields != [] && AllFree(fields, NUL)
    ensures var out := Terminated(fields, NUL);
            out != [] && out[|out| - 1] == NUL && Split(out[..|out| - 1], NUL) == fields
  {
    hide Split, Join, Terminated;
    TerminatedIsJoin(fields, NUL);
    SplitJoin(fields, NUL);
    var out := Terminated(fields, NUL);
    assert out[..|out| - 1] == Join(fields, NUL);
  }

  // ---- everything accepted is well formed ----

  lemma HighlightIsFit(value: Bytes, positions: nat, chars: nat)
    requires ParseHighlight(value, positions, chars).Ok?
    ensures var h := ParseHighlight(value, positions, chars).value;
            h.pos <= positions && RangeFits(h.start, h.len, chars)
  {
    hide Words, AsciiSpec, ParseRole;
  }

  lemma PairIsFit(value: Bytes, chars: nat)
    requires ParsePair(value, chars).Ok?
    ensures RangeFits(ParsePair(value, chars).value.0, ParsePair(value, chars).value.1, chars)
  {
    hide Words, AsciiSpec;
  }

  lemma NavigationIsFit(value: Bytes, positions: nat)
    requires ParseNavigation(value, positions).Ok?
    ensures NavigationFits(ParseNavigation(value, positions).value, positions)
  {
    hide Words, AsciiSpec;
  }

  lemma WindowIsFit(value: Bytes, positions: nat, lines: nat)
    requires ParseWindow(value, positions, lines).Ok?
    ensures var w := ParseWindow(value, positions, lines).value;
            && (w.Some? ==>
                  && w.value.offset <= I64_MAX && w.value.total <= I64_MAX && w.value.selected <= I64_MAX
                  && WindowFits(w.value, positions, lines))
            && WindowField(w) == value
  {
    hide Digits, CanonicalSpec, WindowFits;
    JoinSplit(value, SPACE);
    var parts := Split(value, SPACE);
    var w := ParseWindow(value, positions, lines).value;
    if w.Some? {
      SmallCountIs(parts[0], w.value.offset);
      SmallCountIs(parts[1], w.value.total);
      SmallCountIs(parts[2], w.value.selected);
      assert parts == WindowParts(w.value);
    }
  }

  lemma LinesRejoin(value: Bytes)
    ensures Join(LinesOf(value), NEWLINE) == value
  {
    JoinSplit(value, NEWLINE);
  }

  lemma SliceAt<T>(f: seq<T>, from: nat, to: nat, i: nat)
    requires from <= i < to <= |f|
    ensures f[from..to][i - from] == f[i]
  {
  }

  /** With indicators, the last row is the selected indicator and is not part of the listing. */
  lemma CellRowsAre(rows: seq<Bytes>, window: Option<WindowTuple>, indicators: seq<Bytes>, positions: nat)
    requires IndicatorsFit(indicators, window, positions, |rows|) && CellRows(rows, window, indicators).Ok?
    ensures CellRows(rows, window, indicators).value
         == if indicators == [] || rows == [] then rows else rows[..|rows| - 1]
    ensures indicators != [] ==>
              && rows != [] && window.Some? && window.value.selected < |indicators|
              && rows[|rows| - 1] == indicators[window.value.selected]
  {
  }

  /** Parsing keeps the field counts and reads every part from its place. */
  ghost predicate ReadFrom(f: seq<Bytes>, w: WirePlan, l: nat, p: nat, h: nat) {
    var n := 4 + l;
    && |f| == 6 + l + h + p * 3 <= USIZE_MAX
    && |w.rows| == l && |w.highlights| == h && |w.cells| == p && |w.navigation| == p && |w.inserts| == p
    && w.commonPrefix == f[0] && w.rows == f[3..3 + l] && w.inserts == f[n + h + p + p..n + h + p + p + p]
    && CountOf(f[1], "L") == Ok(l) && CountOf(f[2], "P") == Ok(p) && CountOf(f[3 + l], "H") == Ok(h)
    && ParseWindow(f[|f| - 2], p, l) == Ok(w.window) && LinesOf(f[|f| - 1]) == w.indicators
    && IndicatorsFit(w.indicators, w.window, p, l)
    && (w.indicators != [] ==>
          && w.rows != [] && w.window.Some? && w.window.value.selected < |w.indicators|
          && w.rows[|w.rows| - 1] == w.indicators[w.window.value.selected])
  }

  ghost predicate TuplesFrom(f: seq<Bytes>, w: WirePlan, l: nat, p: nat, h: nat)
    requires ReadFrom(f, w, l, p, h)
  {
    var chars, n := ListingChars(w), 4 + l;
    && (forall i :: 0 <= i < h ==> ParseHighlight(f[n..n + h][i], p, chars) == Ok(w.highlights[i]))
    && (forall i :: 0 <= i < p ==> ParsePair(f[n + h..n + h + p][i], chars) == Ok(w.cells[i]))
    && (forall i :: 0 <= i < p ==> ParseNavigation(f[n + h + p..n + h + p + p][i], p) == Ok(w.navigation[i]))
  }

  lemma ShapeIs(f: seq<Bytes>)
    requires ParseShape(f).Ok?
    ensures var (l, p, h) := ParseShape(f).value;
            && |f| == 6 + l + h + p * 3 <= USIZE_MAX
            && CountOf(f[1], "L") == Ok(l) && CountOf(f[2], "P") == Ok(p) && CountOf(f[3 + l], "H") == Ok(h)
  {
    hide AsciiSpec;
  }

  lemma ReadsFrom(f: seq<Bytes>)
    requires ParseFields(f).Ok?
    ensures ParseShape(f).Ok?
    ensures var (l, p, h) := ParseShape(f).value;
            var w := ParseFields(f).value;
            && ReadFrom(f, w, l, p, h)
            && ParseTuples(f, l, p, h, ListingChars(w)) == Ok((w.highlights, w.cells, w.navigation))
  {
    hide ParseShape, ParseBody, ReadFrom, ParseTuples, ListingChars;
    ShapeIs(f);
    var (l, p, h) := ParseShape(f).value;
    BodyReads(f, l, p, h);
  }

  lemma BodyReads(f: seq<Bytes>, l: nat, p: nat, h: nat)
    requires |f| == 6 + l + h + p * 3 <= USIZE_MAX && ParseBody(f, l, p, h).Ok?
    requires CountOf(f[1], "L") == Ok(l) && CountOf(f[2], "P") == Ok(p) && CountOf(f[3 + l], "H") == Ok(h)
    ensures var w := ParseBody(f, l, p, h).value;
            ReadFrom(f, w, l, p, h) && ParseTuples(f, l, p, h, ListingChars(w)) == Ok((w.highlights, w.cells, w.navigation))
  {
    hide CountOf, ParseWindow, LinesOf, Listing, Count, IndicatorsFit, CellRows, ParseTuples;
    var w := ParseBody(f, l, p, h).value;
    CellRowsAre(w.rows, w.window, w.indicators, |w.inserts|);
    TuplesLengths(f, l, p, h, ListingChars(w));
  }

  lemma TuplesLengths(f: seq<Bytes>, l: nat, p: nat, h: nat, chars: nat)
    requires |f| == 6 + l + h + p * 3 && ParseTuples(f, l, p, h, chars).Ok?
    ensures var t := ParseTuples(f, l, p, h, chars).value; |t.0| == h && |t.1| == p && |t.2| == p
  {
    hide ParseHighlight, ParsePair, ParseNavigation;
  }

  lemma ParsedFrom(f: seq<Bytes>)
    requires ParseFields(f).Ok?
    ensures ParseShape(f).Ok?
    ensures var (l, p, h) := ParseShape(f).value;
            ReadFrom(f, ParseFields(f).value, l, p, h) && TuplesFrom(f, ParseFields(f).value, l, p, h)
  {
    hide ParseShape, ParseFields, CountOf, ParseWindow, LinesOf, ListingChars, IndicatorsFit, Each,
         ParseHighlight, ParsePair, ParseNavigation;
    ReadsFrom(f);
  }

  /** The parser only returns well-formed plans, whatever bytes it is given. */
  lemma ParsedIsWellFormed(fields: seq<Bytes>)
    requires AllFree(fields, NUL) && |fields| <= USIZE_MAX && ParseFields(fields).Ok?
    ensures WellFormed(ParseFields(fields).value)
  {
    hide ParseFields, ParseShape, CountOf, ParseHighlight, ParsePair, ParseNavigation, ParseWindow, LinesOf,
         IndicatorsFit, ListingChars, WindowFits, RangeFits, NavigationFits, WindowField;
    ParsedFrom(fields);
    var (l, p, h) := ParseShape(fields).value;
    var w := ParseFields(fields).value;
    WindowIsFit(fields[|fields| - 2], p, l);
    TuplesAreFit(fields, w, l, p, h);
  }

  lemma TuplesAreFit(fields: seq<Bytes>, w: WirePlan, l: nat, p: nat, h: nat)
    requires ReadFrom(fields, w, l, p, h) && TuplesFrom(fields, w, l, p, h)
    ensures forall i :: 0 <= i < h ==>
              w.highlights[i].pos <= p && RangeFits(w.highlights[i].start, w.highlights[i].len, ListingChars(w))
    ensures forall i :: 0 <= i < p ==> RangeFits(w.cells[i].0, w.cells[i].1, ListingChars(w))
    ensures forall i :: 0 <= i < p ==> NavigationFits(w.navigation[i], p)
  {
    hide ParseHighlight, ParsePair, ParseNavigation, ListingChars, RangeFits, NavigationFits;
    var chars, at := ListingChars(w), 4 + l;
    forall i | 0 <= i < h
      ensures w.highlights[i].pos <= p && RangeFits(w.highlights[i].start, w.highlights[i].len, chars)
    {
      assert ParseHighlight(fields[at..at + h][i], p, chars) == Ok(w.highlights[i]);
      HighlightIsFit(fields[at..at + h][i], p, chars);
    }
    forall i | 0 <= i < p
      ensures RangeFits(w.cells[i].0, w.cells[i].1, chars) && NavigationFits(w.navigation[i], p)
    {
      assert ParsePair(fields[at + h..at + h + p][i], chars) == Ok(w.cells[i]);
      PairIsFit(fields[at + h..at + h + p][i], chars);
      assert ParseNavigation(fields[at + h + p..at + h + p + p][i], p) == Ok(w.navigation[i]);
      NavigationIsFit(fields[at + h + p..at + h + p + p][i], p);
    }
  }

  /** A plan survives serializing and parsing exactly when it is well formed. */
  lemma RoundTripIffWellFormed(w: WirePlan)
    requires |FieldsOf(w)| <= USIZE_MAX && |SerializeWire(w)| < USIZE_MAX
    ensures ParseSpec(SerializeWire(w)) == Ok(w) <==> WellFormed(w)
  {
    hide WellFormed, ParseFields, FieldsOf;
    if WellFormed(w) {
      SerializedParses(w);
    }
    if ParseSpec(SerializeWire(w)) == Ok(w) {
      AcceptedIsWellFormed(SerializeWire(w));
    }
  }

  lemma {:induction false} SplitLength(s: Bytes, sep: byte)
    ensures |Split(s, sep)| <= |s| + 1
    decreases |s|
  {
    var i := Find(s, sep);
    if i < |s| {
      SplitLength(s[i + 1..], sep);
    }
  }

  /** Whatever the parser accepts is well formed, so serializing it again is accepted with the same result. */
  lemma AcceptedIsWellFormed(output: Bytes)
    requires |output| < USIZE_MAX && ParseSpec(output).Ok?
    ensures WellFormed(ParseSpec(output).value)
    ensures ParseSpec(SerializeWire(ParseSpec(output).value)) == ParseSpec(output)
  {
    hide WellFormed, ParseFields, SerializeWire;
    var body := output[..|output| - 1];
    JoinSplit(body, NUL);
    SplitLength(body, NUL);
    ParsedIsWellFormed(Split(body, NUL));
    SerializedParses(ParseSpec(output).value);
  }
}
