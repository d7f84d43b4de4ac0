/** When serializing a parsed plan gives back the very bytes that were parsed (src/wire.rs). */
module WireTidy {
  import opened Bytes
  import opened Decimals
  import opened Offsets
  import opened Wire
  import opened WireFacts

  // ---- blanks in a tuple field ----

  /** No tab, no newline, no blank at either end and no two blanks in a row. */
  ghost predicate Spaced(s: Bytes) {
    && (forall i :: 0 <= i < |s| ==> IsBlank(s[i]) ==> s[i] == SPACE)
    && (s != [] ==> !IsBlank(s[0]) && !IsBlank(s[|s| - 1]))
    && (forall i :: 0 < i < |s| ==> IsBlank(s[i - 1]) ==> !IsBlank(s[i]))
  }

  lemma SpacedConcat(word: Bytes, rest: Bytes)
    requires IsWord(word) && rest != [] && Spaced(rest)
    ensures Spaced(word + [SPACE] + rest)
  {
    var s := word + [SPACE] + rest;
    assert forall i :: 0 <= i < |rest| ==> s[|word| + 1 + i] == rest[i];
    forall i | 0 < i < |s| && IsBlank(s[i - 1])
      ensures !IsBlank(s[i])
    {
      if i > |word| + 1 {
        assert s[i - 1] == rest[i - |word| - 2] && s[i] == rest[i - |word| - 1];
      }
    }
  }

  lemma {:induction false} TupleIsSpaced(parts: seq<Bytes>)
    requires AllWords(parts)
    ensures Spaced(Tuple(parts)) && (parts != [] ==> Tuple(parts) != [])
  {
    if |parts| > 1 {
      assert AllWords(parts[1..]);
      TupleIsSpaced(parts[1..]);
      SpacedConcat(parts[0], Tuple(parts[1..]));
    } else if |parts| == 1 {
      assert IsWord(parts[0]);
    }
  }

  lemma SpacedTail(s: Bytes, n: nat)
    requires Spaced(s) && 0 < n < |s| && IsBlank(s[n])
    ensures n + 1 < |s| && s[n] == SPACE && Spaced(s[n + 1..])
    ensures Words(s[n..]) == Words(s[n + 1..])
  {
    var t := s[n + 1..];
    assert s[n..][1..] == t;
    forall i | 0 < i < |t| && IsBlank(t[i - 1])
      ensures !IsBlank(t[i])
    {
      assert t[i] == s[n + 1 + i] && t[i - 1] == s[n + 1 + i - 1];
    }
  }

  lemma WholeWord(s: Bytes)
    requires s != [] && WordLen(s) == |s|
    ensures Tuple(Words(s)) == s
  {
    assert s[..|s|] == s && s[|s|..] == [] && Words([]) == [];
    assert Words(s) == [s];
  }

  lemma {:induction false} SpacedJoins(s: Bytes)
    requires Spaced(s)
    ensures Tuple(Words(s)) == s
    decreases |s|
  {
    if s != [] {
      var n := WordLen(s);
      if n == |s| {
        WholeWord(s);
      } else {
        SpacedTail(s, n);
        var t := s[n + 1..];
        SpacedJoins(t);
        assert Words(s) == [s[..n]] + Words(t);
        hide Words, Spaced;
        assert t != [] && Words(t) != [];
        assert Words(s)[1..] == Words(t);
        assert s == s[..n] + [SPACE] + t;
      }
    }
  }

  /** The words of a field, joined by single blanks, are the field itself exactly when its blanks are single ones. */
  lemma SpacedIff(s: Bytes)
    ensures Spaced(s) <==> Tuple(Words(s)) == s
  {
    hide Spaced, Words, Tuple;
    if Spaced(s) {
      SpacedJoins(s);
    }
    TupleIsSpaced(Words(s));
  }

  // ---- when the bytes themselves come back ----

  /** A tuple field with single blanks and no padded number from word `k` on. */
  ghost predicate Tidy(field: Bytes, k: nat) {
    && Spaced(field)
    && forall i :: k <= i < |Words(field)| ==> Canonical(Words(field)[i])
  }

  /** Field `i` is written without padding; free text and the strictly parsed fields always are. */
  ghost predicate TidyAt(fields: seq<Bytes>, shape: (nat, nat, nat), i: nat)
    requires i < |fields|
  {
    var (l, p, h) := shape;
    if i == 1 || i == 2 || i == 3 + l then Canonical(fields[i])
    else if 4 + l <= i < 4 + l + h then Tidy(fields[i], 1)
    else if 4 + l + h <= i < 4 + l + h + p + p then Tidy(fields[i], 0)
    else true
  }

  ghost predicate TidyFields(fields: seq<Bytes>) {
    ParseShape(fields).Ok? && forall i :: 0 <= i < |fields| ==> TidyAt(fields, ParseShape(fields).value, i)
  }

  lemma CountIsPrinted(s: Bytes, field: string)
    requires CountOf(s, field).Ok?
    ensures Canonical(s) <==> s == Digits(CountOf(s, field).value)
  {
    if Canonical(s) {
      CanonicalIsDigits(s);
    }
    DigitsDenote(CountOf(s, field).value);
  }

  lemma TidyHighlight(field: Bytes, positions: nat, chars: nat)
    requires ParseHighlight(field, positions, chars).Ok?
    ensures Tidy(field, 1) <==> field == Tuple(HighlightParts(ParseHighlight(field, positions, chars).value))
  {
    hide Words, Tuple, Digits, AsciiSpec, Canonical, Spaced;
    SpacedIff(field);
    var parts, h := Words(field), ParseHighlight(field, positions, chars).value;
    CountIsPrinted(parts[1], "highlight pos");
    CountIsPrinted(parts[2], "highlight start");
    CountIsPrinted(parts[3], "highlight len");
    assert parts[0] == RoleName(h.role);
    RoleWord(h.role);
    DigitsWord(h.pos);
    DigitsWord(h.start);
    DigitsWord(h.len);
    WordsOfTuple(HighlightParts(h));
    hide RoleName;
    assert Tidy(field, 1) ==> parts == HighlightParts(h);
  }

  lemma TidyPair(field: Bytes, chars: nat)
    requires ParsePair(field, chars).Ok?
    ensures Tidy(field, 0) <==> field == Tuple(PairParts(ParsePair(field, chars).value))
  {
    hide Words, Tuple, Digits, AsciiSpec, Canonical, Spaced;
    SpacedIff(field);
    var parts, c := Words(field), ParsePair(field, chars).value;
    CountIsPrinted(parts[0], "cell start");
    CountIsPrinted(parts[1], "cell len");
    DigitsWord(c.0);
    DigitsWord(c.1);
    WordsOfTuple(PairParts(c));
    assert Tidy(field, 0) ==> parts == PairParts(c);
  }

  lemma TidyNavigation(field: Bytes, positions: nat)
    requires ParseNavigation(field, positions).Ok?
    ensures Tidy(field, 0) <==> field == Tuple(NavigationParts(ParseNavigation(field, positions).value))
  {
    hide Words, Tuple, Digits, AsciiSpec, Canonical, Spaced;
    SpacedIff(field);
    var parts, n := Words(field), ParseNavigation(field, positions).value;
    CountIsPrinted(parts[0], "nav next");
    CountIsPrinted(parts[1], "nav prev");
    CountIsPrinted(parts[2], "nav left");
    CountIsPrinted(parts[3], "nav right");
    DigitsWord(n.next);
    DigitsWord(n.prev);
    DigitsWord(n.left);
    DigitsWord(n.right);
    WordsOfTuple(NavigationParts(n));
    assert Tidy(field, 0) ==> parts == NavigationParts(n);
  }

  /** A field prints back as it was exactly when it was tidy. */
  lemma FieldPrintsBack(f: seq<Bytes>, i: nat)
    requires ParseFields(f).Ok? && i < |f|
    ensures var w := ParseFields(f).value;
            && |FieldsOf(w)| == |f|
            && (FieldsOf(w)[i] == f[i] <==> TidyAt(f, ParseShape(f).value, i))
  {
    hide FieldsOf, ParseFields, Digits, Tidy, Tuple, WindowField, Join, Canonical, ListingChars, ParseShape,
         ParseHighlight, ParsePair, ParseNavigation, HighlightParts, PairParts, NavigationParts, CountOf,
         ParseWindow, LinesOf, IndicatorsFit, TuplesFrom;
    ParsedFrom(f);
    var (l, p, h) := ParseShape(f).value;
    var w := ParseFields(f).value;
    var n, g := 4 + l, FieldsOf(w);
    FieldSections(w);
    if i < n {
      CountIsPrinted(f[1], "L");
      CountIsPrinted(f[2], "P");
      CountIsPrinted(f[3 + l], "H");
      if 3 <= i < 3 + l {
        SliceAt(f, 3, 3 + l, i);
        SliceAt(g, 3, 3 + l, i);
      }
    } else if i < n + h + p + p {
      TuplePrintsBack(f, w, l, p, h, i);
    } else if i < n + h + p + p + p {
      SliceAt(f, n + h + p + p, n + h + p + p + p, i);
      SliceAt(g, n + h + p + p, n + h + p + p + p, i);
    } else {
      WindowIsFit(f[|f| - 2], p, l);
      LinesRejoin(f[|f| - 1]);
    }
  }

  lemma HighlightPrintsBack(f: seq<Bytes>, w: WirePlan, l: nat, p: nat, h: nat, i: nat)
    requires ReadFrom(f, w, l, p, h) && TuplesFrom(f, w, l, p, h) && i < h
    ensures Tuple(HighlightParts(w.highlights[i])) == f[4 + l + i] <==> Tidy(f[4 + l + i], 1)
  {
    hide Digits, Tidy, Tuple, ListingChars, ParseHighlight, ParsePair, ParseNavigation, HighlightParts, CountOf,
         ParseWindow, LinesOf, IndicatorsFit;
    assert ParseHighlight(f[4 + l..4 + l + h][i], p, ListingChars(w)) == Ok(w.highlights[i]);
    TidyHighlight(f[4 + l + i], p, ListingChars(w));
  }

  lemma CellPrintsBack(f: seq<Bytes>, w: WirePlan, l: nat, p: nat, h: nat, i: nat)
    requires ReadFrom(f, w, l, p, h) && TuplesFrom(f, w, l, p, h) && i < p
    ensures Tuple(PairParts(w.cells[i])) == f[4 + l + h + i] <==> Tidy(f[4 + l + h + i], 0)
  {
    hide Digits, Tidy, Tuple, ListingChars, ParseHighlight, ParsePair, ParseNavigation, PairParts, CountOf,
         ParseWindow, LinesOf, IndicatorsFit;
    assert ParsePair(f[4 + l + h..4 + l + h + p][i], ListingChars(w)) == Ok(w.cells[i]);
    TidyPair(f[4 + l + h + i], ListingChars(w));
  }

  lemma NavigationPrintsBack(f: seq<Bytes>, w: WirePlan, l: nat, p: nat, h: nat, i: nat)
    requires ReadFrom(f, w, l, p, h) && TuplesFrom(f, w, l, p, h) && i < p
    ensures Tuple(NavigationParts(w.navigation[i])) == f[4 + l + h + p + i] <==> Tidy(f[4 + l + h + p + i], 0)
  {
    hide Digits, Tidy, Tuple, ListingChars, ParseHighlight, ParsePair, ParseNavigation, NavigationParts, CountOf,
         ParseWindow, LinesOf, IndicatorsFit;
    assert ParseNavigation(f[4 + l + h + p..4 + l + h + p + p][i], p) == Ok(w.navigation[i]);
    TidyNavigation(f[4 + l + h + p + i], p);
  }

  lemma ReadSizes(f: seq<Bytes>, w: WirePlan, l: nat, p: nat, h: nat)
    requires ReadFrom(f, w, l, p, h)
    ensures |f| == 6 + l + h + p * 3 && |w.rows| == l && |w.highlights| == h
    ensures |w.cells| == |w.navigation| == |w.inserts| == p
  {
  }

  lemma TuplePrintsBack(f: seq<Bytes>, w: WirePlan, l: nat, p: nat, h: nat, i: nat)
    requires ReadFrom(f, w, l, p, h) && TuplesFrom(f, w, l, p, h) && 4 + l <= i < 4 + l + h + p + p
    ensures |FieldsOf(w)| == |f| && (FieldsOf(w)[i] == f[i] <==> TidyAt(f, (l, p, h), i))
  {
    hide FieldsOf, Digits, Tidy, Tuple, WindowField, Join, HighlightParts, PairParts, NavigationParts,
         ReadFrom, TuplesFrom;
    var n, g := 4 + l, FieldsOf(w);
    ReadSizes(f, w, l, p, h);
    FieldSections(w);
    if i < n + h {
      SliceAt(g, n, n + h, i);
      HighlightPrintsBack(f, w, l, p, h, i - n);
    } else if i < n + h + p {
      SliceAt(g, n + h, n + h + p, i);
      CellPrintsBack(f, w, l, p, h, i - n - h);
    } else {
      SliceAt(g, n + h + p, n + h + p + p, i);
      NavigationPrintsBack(f, w, l, p, h, i - n - h - p);
    }
  }

  /** Serializing what was parsed gives the same bytes exactly when the input was written without padding. */
  lemma ReserializeIffTidy(output: Bytes)
    requires |output| < USIZE_MAX && ParseSpec(output).Ok?
    ensures SerializeWire(ParseSpec(output).value) == output
       <==> TidyFields(Split(output[..|output| - 1], NUL))
  {
    hide FieldsOf, ParseFields, TidyFields, Split, Join, Terminated;
    var body := output[..|output| - 1];
    var f := Split(body, NUL);
    var w := ParseSpec(output).value;
    JoinSplit(body, NUL);
    SplitLength(body, NUL);
    assert output == body + [NUL];
    TerminatedIsJoin(f, NUL);
    FieldsPrintBack(f);
    if SerializeWire(w) == output {
      SameFields(w, f);
    }
  }

  lemma FieldsPrintBack(f: seq<Bytes>)
    requires ParseFields(f).Ok?
    ensures FieldsOf(ParseFields(f).value) == f <==> TidyFields(f)
  {
    hide FieldsOf, ParseFields, ParseShape, TidyAt, ReadFrom, TuplesFrom;
    var g := FieldsOf(ParseFields(f).value);
    ParsedFrom(f);
    ShapeLength(f);
    FieldPrintsBack(f, 0);
    forall i: nat | i < |f|
      ensures g[i] == f[i] <==> TidyAt(f, ParseShape(f).value, i)
    {
      FieldPrintsBack(f, i);
    }
  }

  lemma ShapeLength(f: seq<Bytes>)
    requires ParseShape(f).Ok?
    ensures |f| >= 6
  {
    ShapeIs(f);
  }

  lemma SameFields(w: WirePlan, f: seq<Bytes>)
    requires f != [] && AllFree(f, NUL) && ParseFields(f) == Ok(w) && |f| <= USIZE_MAX
    requires SerializeWire(w) == Terminated(f, NUL)
    ensures FieldsOf(w) == f
  {
    hide FieldsOf, ParseFields, WellFormed, Terminated, Split;
    ParsedIsWellFormed(f);
    FieldsFree(w);
    FieldsNotEmpty(w);
    TerminatedSplits(f);
    TerminatedSplits(FieldsOf(w));
  }

  // ---- an output that does not come back ----

  function PaddedHighlight(): Bytes { Tuple([RoleName(Match), Ascii("00"), Ascii("0"), Ascii("0")]) }

  /** A plan with no rows and one empty highlight, whose position is written `00`. */
  function PaddedFields(): seq<Bytes> { [[], Ascii("0"), Ascii("0"), Ascii("1"), PaddedHighlight(), [], []] }

  lemma SmallCounts()
    ensures AsciiSpec(Ascii("0")) == Some(0) && AsciiSpec(Ascii("00")) == Some(0) && AsciiSpec(Ascii("1")) == Some(1)
  {
    assert Value([]) == 0;
    var zero, zeros, one := Ascii("0"), Ascii("00"), Ascii("1");
    assert zero[..0] == [] && zeros[..1] == zero && one[..0] == [];
    assert Value(zero) == 0 && Value(zeros) == 0 && Value(one) == 1;
  }

  lemma PaddedWords()
    ensures Words(PaddedHighlight()) == [RoleName(Match), Ascii("00"), Ascii("0"), Ascii("0")]
    ensures ParseRole(RoleName(Match)) == Some(Match)
    ensures Free(PaddedHighlight(), NUL)
  {
    RoleWord(Match);
    hide RoleName, Words, Tuple, ParseRole;
    var parts := [RoleName(Match), Ascii("00"), Ascii("0"), Ascii("0")];
    assert AllWords(parts);
    WordsOfTuple(parts);
    assert AllFree(parts, NUL);
    TupleFree(parts);
  }

  lemma PaddedHighlightReads(chars: nat)
    ensures ParseHighlight(PaddedHighlight(), 0, chars) == Ok(WireHighlight(Match, 0, 0, 0))
  {
    PaddedWords();
    SmallCounts();
    hide Words, PaddedHighlight, AsciiSpec, RoleName, ParseRole;
  }

  lemma PaddedShape()
    ensures ParseShape(PaddedFields()) == Ok((0, 0, 1))
  {
    SmallCounts();
    hide PaddedHighlight, AsciiSpec, Ascii;
  }

  lemma EachOne<T>(parse: Bytes -> Parsed<T>, fields: seq<Bytes>)
    ensures fields == [] ==> Each(parse, fields) == Ok([])
    ensures |fields| == 1 && parse(fields[0]).Ok? ==> Each(parse, fields) == Ok([parse(fields[0]).value])
  {
    if |fields| == 1 {
      assert fields[..0] == [] && Each(parse, fields[..0]) == Ok([]);
      assert parse(fields[0]).Ok? ==> [] + [parse(fields[0]).value] == [parse(fields[0]).value];
    }
  }

  lemma OneTuple(fields: seq<Bytes>, chars: nat, h: WireHighlight)
    requires |fields| == 7 && ParseHighlight(fields[4], 0, chars) == Ok(h)
    ensures ParseTuples(fields, 0, 0, 1, chars) == Ok(([h], [], []))
  {
    hide ParseHighlight, ParsePair, ParseNavigation, Each;
    EachOne((v: Bytes) => ParseHighlight(v, 0, chars), fields[4..5]);
    EachOne((v: Bytes) => ParsePair(v, chars), fields[5..5]);
    EachOne((v: Bytes) => ParseNavigation(v, 0), fields[5..5]);
  }

  lemma PaddedTuples(chars: nat)
    ensures ParseTuples(PaddedFields(), 0, 0, 1, chars) == Ok(([WireHighlight(Match, 0, 0, 0)], [], []))
  {
    hide PaddedHighlight, ParseTuples, ParseHighlight, Ascii;
    PaddedHighlightReads(chars);
    OneTuple(PaddedFields(), chars, WireHighlight(Match, 0, 0, 0));
  }

  lemma PaddedFieldsRead()
    ensures ParseFields(PaddedFields()) == Ok(WirePlan([], [], [WireHighlight(Match, 0, 0, 0)], [], [], [], None, []))
  {
    PaddedShape();
    PaddedTuples(Lossy.Count(Listing([])));
    var f := PaddedFields();
    assert f[3..3] == [] && f[5..5] == [] && |f| == 7;
    hide PaddedHighlight, ParseShape, ParseTuples, Ascii, Listing, Lossy.Count;
  }

  lemma PaddedNotTidy()
    requires ParseShape(PaddedFields()) == Ok((0, 0, 1))
    ensures !TidyFields(PaddedFields())
  {
    PaddedWords();
    hide ParseShape, Words, PaddedHighlight, Spaced, RoleName;
    var f := PaddedFields();
    assert !Canonical(Ascii("00"));
    assert f[4] == PaddedHighlight() && Words(f[4])[1] == Ascii("00");
    assert !Tidy(f[4], 1);
    assert !TidyAt(f, (0, 0, 1), 4);
  }

  /** A number with a leading zero inside a tuple is accepted, and comes back without it. */
  lemma PaddedFieldIsAccepted()
    ensures var output := Terminated(PaddedFields(), NUL);
            && ParseSpec(output) == Ok(WirePlan([], [], [WireHighlight(Match, 0, 0, 0)], [], [], [], None, []))
            && SerializeWire(ParseSpec(output).value) != output
  {
    hide *;
    var f := PaddedFields();
    var body := Join(f, NUL);
    PaddedFree();
    TerminatedIsJoin(f, NUL);
    SplitJoin(f, NUL);
    PaddedFieldsRead();
    PaddedShape();
    PaddedNotTidy();
    assert (body + [NUL])[..|body|] == body;
    ParsedBody(body);
    ReserializeIffTidy(body + [NUL]);
  }

  lemma PaddedFree()
    ensures PaddedFields() != [] && AllFree(PaddedFields(), NUL) && |Join(PaddedFields(), NUL)| + 1 < USIZE_MAX
  {
    PaddedWords();
    PaddedLength();
    hide PaddedHighlight, Words, RoleName;
  }

  lemma PaddedLength()
    ensures |PaddedHighlight()| <= 30
  {
  }

  lemma ParsedBody(body: Bytes)
    ensures ParseSpec(body + [NUL]) == ParseFields(Split(body, NUL))
  {
    hide ParseFields, Split;
    assert (body + [NUL])[..|body|] == body;
  }
}
