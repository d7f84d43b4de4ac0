/** What a client reads in the pipeline's output: the computed plan, and at each position one candidate's text and insertion. */
module OutputFacts {
  import opened Bytes
  import opened Decimals
  import opened Lossy
  import opened Spans
  import Groups
  import opened Geometry
  import opened Grid
  import opened Offsets
  import opened ListingFacts
  import opened HighlightFacts
  import opened Layout
  import opened LayoutFacts
  import opened Wire
  import opened WireFacts
  import opened PlanFacts
  import opened Records
  import opened Matching
  import opened Pipeline
  import opened PlanHighlights
  import opened MatchFacts
  import opened Capstone

  // ----- The parsed plan and the computed one -----

  /** `start` and `len` name the characters of the span. */
  predicate SameSpan(start: nat, len: nat, span: CharSpan) { start == span.start && start + len == span.end }

  ghost predicate SameHighlights(read: seq<WireHighlight>, drawn: seq<Highlight>) {
    && |read| == |drawn|
    && forall i :: 0 <= i < |read| ==>
         read[i].role == drawn[i].role && read[i].pos == drawn[i].pos && SameSpan(read[i].start, read[i].len, drawn[i].span)
  }

  ghost predicate SameCells(read: seq<(nat, nat)>, drawn: seq<CharSpan>) {
    |read| == |drawn| && forall i :: 0 <= i < |read| ==> SameSpan(read[i].0, read[i].1, drawn[i])
  }

  /** What was read is this plan, with an insertion for each of its positions. */
  ghost predicate Carries(read: WirePlan, plan: Plan) {
    && read.rows == plan.rows && read.navigation == plan.nav
    && read.window == plan.window && read.indicators == plan.indicators
    && SameHighlights(read.highlights, plan.highlights) && SameCells(read.cells, plan.cellRanges)
    && |read.cells| == |read.navigation| == |read.inserts| == |plan.positions|
  }

  lemma WireCarries(commonPrefix: Bytes, plan: Plan, inserts: seq<Bytes>)
    requires |plan.cellRanges| == |plan.nav| == |plan.positions| == |inserts|
    ensures Carries(WireOf(commonPrefix, plan, inserts), plan)
  {
  }

  /** A source, a request and tables the pipeline promises an output for; the bounds are those of a Rust vector. */
  ghost predicate Plannable(env: Env, p: Params, s: Source, isDir: Bytes -> bool, selected: nat) {
    && Sane(s) && Indexed(s) && |s.candidates| <= I64_MAX
    && AsciiWidths(env.wd) && 1 <= p.width <= USIZE_MAX
    && |Computed(env, p, s, isDir, selected)| <= I64_MAX
  }

  lemma PlannableIs(env: Env, p: Params, s: Source, isDir: Bytes -> bool, selected: nat)
    requires Plannable(env, p, s, isDir, selected)
    ensures Sane(s) && Indexed(s) && AsciiWidths(env.wd) && 1 <= p.width <= USIZE_MAX
    ensures ParseSpec(Computed(env, p, s, isDir, selected)) == Ok(WirePlanOf(env, p, s, isDir, selected))
    ensures WellFormed(WirePlanOf(env, p, s, isDir, selected))
  {
    hide ParseSpec, Computed, WirePlanOf, Sane, Indexed, WellFormed;
    EveryPlanIsWellFormed(env, p, s, isDir, selected);
    EveryPlanParses(env, p, s, isDir, selected);
  }

  /** What the reference parser reads in the output. */
  ghost function Read(env: Env, p: Params, s: Source, isDir: Bytes -> bool, selected: nat): WirePlan
    requires Plannable(env, p, s, isDir, selected)
  {
    PlannableIs(env, p, s, isDir, selected);
    ParseSpec(Computed(env, p, s, isDir, selected)).value
  }

  lemma ReadIs(env: Env, p: Params, s: Source, isDir: Bytes -> bool, selected: nat)
    requires Plannable(env, p, s, isDir, selected)
    ensures Sane(s) && Indexed(s) && AsciiWidths(env.wd) && 1 <= p.width <= USIZE_MAX
    ensures Read(env, p, s, isDir, selected) == WirePlanOf(env, p, s, isDir, selected)
  {
    hide Plannable, ParseSpec, Computed, WirePlanOf, Sane, Indexed;
    PlannableIs(env, p, s, isDir, selected);
  }

  lemma ReadyHasCells(plan: Plan)
    requires PlanReady(plan)
    ensures |plan.cellRanges| == |plan.nav| == |plan.positions|
  {
  }

  lemma WireParts(env: Env, p: Params, s: Source, isDir: Bytes -> bool, selected: nat)
    requires Indexed(s) && p.width <= USIZE_MAX
    ensures forall i :: 0 <= i < |PlanOf(env, p, s, selected).positions| ==>
              PlanOf(env, p, s, selected).positions[i] < |ShownMatches(env, p, s).0|
    ensures WirePlanOf(env, p, s, isDir, selected)
         == WireOf(CommonPrefix(PrefixTexts(env, p, s, |s.candidates|)), PlanOf(env, p, s, selected),
                   InsertsOf(env, p, s, isDir, PlanOf(env, p, s, selected).positions))
  {
    PlanPositions(env, p, s, selected);
    hide PlanOf, ShownMatches, InsertsOf, PrefixTexts, CommonPrefix, WireOf;
  }

  /** The output is accepted, and what is read in it is the computed plan. */
  lemma OutputCarriesPlan(env: Env, p: Params, s: Source, isDir: Bytes -> bool, selected: nat)
    requires Plannable(env, p, s, isDir, selected)
    ensures ParseSpec(Computed(env, p, s, isDir, selected)).Ok?
    ensures Indexed(s) && p.width <= USIZE_MAX
    ensures Carries(ParseSpec(Computed(env, p, s, isDir, selected)).value, PlanOf(env, p, s, selected))
  {
    hide *;
    PlannableIs(env, p, s, isDir, selected);
    PlanIsReady(env, p, s, selected);
    ReadyHasCells(PlanOf(env, p, s, selected));
    WireParts(env, p, s, isDir, selected);
    WireCarries(CommonPrefix(PrefixTexts(env, p, s, |s.candidates|)), PlanOf(env, p, s, selected),
                InsertsOf(env, p, s, isDir, PlanOf(env, p, s, selected).positions));
  }

  /** Byte by byte: up to its last NUL the output is the fields of that plan, separated by NULs. */
  lemma OutputIsLaid(env: Env, p: Params, s: Source, isDir: Bytes -> bool, selected: nat)
    requires Plannable(env, p, s, isDir, selected)
    ensures Indexed(s) && p.width <= USIZE_MAX
    ensures var out, read := Computed(env, p, s, isDir, selected), Read(env, p, s, isDir, selected);
            && out != [] && out[|out| - 1] == NUL
            && Laid(Split(out[..|out| - 1], NUL), read.commonPrefix, PlanOf(env, p, s, selected), read.inserts)
  {
    hide *;
    PlannableIs(env, p, s, isDir, selected);
    ReadIs(env, p, s, isDir, selected);
    WireParts(env, p, s, isDir, selected);
    var w := WirePlanOf(env, p, s, isDir, selected);
    var prefix, plan := CommonPrefix(PrefixTexts(env, p, s, |s.candidates|)), PlanOf(env, p, s, selected);
    var inserts := InsertsOf(env, p, s, isDir, plan.positions);
    ComputedIs(env, p, s, isDir, selected);
    FieldsFree(w);
    FieldsNotEmpty(w);
    TerminatedSplits(FieldsOf(w));
    WireTexts(prefix, plan, inserts);
    FieldsLaid(prefix, plan, inserts);
  }

  lemma WireTexts(commonPrefix: Bytes, plan: Plan, inserts: seq<Bytes>)
    ensures WireOf(commonPrefix, plan, inserts).commonPrefix == commonPrefix
    ensures WireOf(commonPrefix, plan, inserts).inserts == inserts
  {
  }

  lemma ComputedIs(env: Env, p: Params, s: Source, isDir: Bytes -> bool, selected: nat)
    requires Indexed(s) && p.width <= USIZE_MAX
    ensures Computed(env, p, s, isDir, selected) == Terminated(FieldsOf(WirePlanOf(env, p, s, isDir, selected)), NUL)
  {
    hide WirePlanOf, FieldsOf, Terminated;
  }

  // ----- What a position shows and inserts -----

  /** Cell `pos` names this text in the rows that were read. */
  ghost predicate CellReads(read: WirePlan, pos: nat, text: Bytes) {
    && 1 <= pos <= |read.cells|
    && var (start, len) := read.cells[pos - 1];
       && start + len <= Count(Listing(read.rows))
       && Chars(Listing(read.rows))[start..start + len] == Chars(text)
  }

  ghost predicate RangeHolds(plan: Plan, pos: nat, text: Bytes) {
    && 1 <= pos <= |plan.cellRanges|
    && var range := plan.cellRanges[pos - 1];
       && range.end <= Count(Listing(plan.rows))
       && Chars(Listing(plan.rows))[range.start..range.end] == Chars(text)
  }

  lemma RangeIsRead(read: WirePlan, plan: Plan, pos: nat, text: Bytes)
    requires Carries(read, plan) && RangeHolds(plan, pos, text)
    ensures CellReads(read, pos, text)
  {
    hide Chars, Count, Listing, SameSpan, Carries;
    CarriesRange(read, plan, pos);
    SpanEnds(read.cells[pos - 1].0, read.cells[pos - 1].1, plan.cellRanges[pos - 1]);
  }

  lemma CarriesRange(read: WirePlan, plan: Plan, pos: nat)
    requires Carries(read, plan) && 1 <= pos <= |plan.cellRanges|
    ensures read.rows == plan.rows && |read.cells| == |plan.cellRanges|
    ensures SameSpan(read.cells[pos - 1].0, read.cells[pos - 1].1, plan.cellRanges[pos - 1])
  {
    hide SameHighlights, SameSpan;
  }

  lemma SpanEnds(start: nat, len: nat, span: CharSpan)
    requires SameSpan(start, len, span)
    ensures start == span.start && start + len == span.end
  {
  }

  /** A column is as wide as its widest text or as the terminal, so a text is cut only where the terminal ends. */
  lemma CutAtTerminal(scene: Scene, g: nat, m: nat)
    requires HoldsWidest(scene) && g < |scene.groups| && m in scene.groups[g].members && scene.width >= 1
    ensures m < |scene.sources|
    ensures Chars(CutFor(scene, g, m)) == Chars(Truncate(scene.wd, scene.sources[m].text, scene.width).content)
  {
    hide Chars, Truncate, DisplayWidth;
    assert WidestHeld(scene, scene.groups[g]);
    var text := scene.sources[m].text;
    if scene.groups[g].maxWidth < scene.width {
      WholeTextFits(scene.wd, text, ColumnWidth(scene.width, scene.groups[g].maxWidth));
      WholeTextFits(scene.wd, text, scene.width);
    }
  }

  lemma RangeShowsCut(scene: Scene, grid: GridState, range: CharSpan, m: nat)
    requires HoldsWidest(scene) && RangeShows(scene, grid, range, m) && scene.width >= 1
    ensures m < |scene.sources| && range.end <= Count(Listing(grid.rows))
    ensures Chars(Listing(grid.rows))[range.start..range.end]
         == Chars(Truncate(scene.wd, scene.sources[m].text, scene.width).content)
  {
    hide Chars, Listing, CutFor, HoldsWidest, Truncate;
    var g :| 0 <= g < |scene.groups| && m in scene.groups[g].members
      && Chars(Listing(grid.rows))[range.start..range.end] == Chars(CutFor(scene, g, m));
    CutAtTerminal(scene, g, m);
  }

  lemma DrawnHolds(plan: Plan, scene: Scene, spans: seq<seq<CharSpan>>, gs: seq<GroupGeometry>, pos: nat)
    requires DrawnAs(plan, scene, spans, gs) && HoldsWidest(scene) && scene.width >= 1 && 1 <= pos <= |plan.positions|
    ensures plan.positions[pos - 1] < |scene.sources|
    ensures RangeHolds(plan, pos, Truncate(scene.wd, scene.sources[plan.positions[pos - 1]].text, scene.width).content)
  {
    hide GridOf, RangesOf, HighlightsOf, DrawnAs, Drawable, Chars, Listing, Truncate, HoldsWidest, RangeShows, ShowsFront;
    DrawnIs(plan, scene, spans, gs);
    DrawableIs(scene, gs);
    DrawnPosition(plan, scene, spans, gs, pos);
    DrawnListing(plan, scene, spans, gs);
    CellsReadBack(scene, gs, pos);
    var range := plan.cellRanges[pos - 1];
    RangeShowsCut(scene, GridOf(scene, gs), range, plan.positions[pos - 1]);
    SliceOfFront(Chars(GridText(scene, gs)), Chars(Listing(plan.rows)), range.start, range.end);
  }

  /** What the cell of a candidate holds before it is cut to the terminal. */
  function CellText(env: Env, p: Params, s: Source, c: Candidate): Bytes
    requires Indexed(s)
  {
    CellSourceOf(c, NumberWidth(ShownCandidates(env, p, s))).text
  }

  lemma PlanHolds(env: Env, p: Params, s: Source, selected: nat, pos: nat)
    requires Indexed(s) && 1 <= p.width <= USIZE_MAX
    requires 1 <= pos <= |PlanOf(env, p, s, selected).positions|
    ensures var plan, cs := PlanOf(env, p, s, selected), ShownCandidates(env, p, s);
            && plan.positions[pos - 1] < |cs|
            && RangeHolds(plan, pos, Truncate(env.wd, CellText(env, p, s, cs[plan.positions[pos - 1]]), p.width).content)
  {
    hide *;
    var scene, spans, gs := PlanDraws(env, p, s, selected);
    DrawnHolds(PlanOf(env, p, s, selected), scene, spans, gs, pos);
    SourceIs(env, p, s, PlanOf(env, p, s, selected).positions[pos - 1]);
  }

  lemma SourceIs(env: Env, p: Params, s: Source, i: nat)
    requires Indexed(s) && i < |CellSources(ShownCandidates(env, p, s))|
    ensures i < |ShownCandidates(env, p, s)|
    ensures CellSources(ShownCandidates(env, p, s))[i].text == CellText(env, p, s, ShownCandidates(env, p, s)[i])
  {
    hide ShownCandidates, CellSourceOf, NumberWidth;
  }

  /** The candidate of the source that stands at a position of the plan. */
  ghost predicate StandsAt(env: Env, p: Params, s: Source, selected: nat, pos: nat, c: Candidate)
    requires Indexed(s) && p.width <= USIZE_MAX
  {
    var positions, shown := PlanOf(env, p, s, selected).positions, ShownMatches(env, p, s).0;
    && 1 <= pos <= |positions| && positions[pos - 1] < |shown|
    && shown[positions[pos - 1]].idx < |s.candidates|
    && c == s.candidates[shown[positions[pos - 1]].idx]
  }

  lemma ShownStands(env: Env, p: Params, s: Source, selected: nat, pos: nat)
    requires Indexed(s) && p.width <= USIZE_MAX
    requires 1 <= pos <= |PlanOf(env, p, s, selected).positions|
    ensures var i := PlanOf(env, p, s, selected).positions[pos - 1];
            i < |ShownCandidates(env, p, s)| && StandsAt(env, p, s, selected, pos, ShownCandidates(env, p, s)[i])
  {
    PlanPositions(env, p, s, selected);
    ShownIndexes(env, p, s);
    hide ShownMatches, PlanOf;
  }

  lemma InsertStands(env: Env, p: Params, s: Source, isDir: Bytes -> bool, selected: nat, pos: nat, c: Candidate)
    requires Indexed(s) && p.width <= USIZE_MAX && StandsAt(env, p, s, selected, pos, c)
    ensures c.batch < |s.batches| && pos <= |WirePlanOf(env, p, s, isDir, selected).inserts|
    ensures WirePlanOf(env, p, s, isDir, selected).inserts[pos - 1]
         == BuildInsert(s.batches[c.batch], c, p.trailingSpace, isDir)
  {
    hide ShownMatches, PlanOf, BuildInsert, PrefixTexts, CommonPrefix, WirePlanOf, WireOf, InsertsOf;
    WireParts(env, p, s, isDir, selected);
    var plan := PlanOf(env, p, s, selected);
    WireTexts(CommonPrefix(PrefixTexts(env, p, s, |s.candidates|)), plan, InsertsOf(env, p, s, isDir, plan.positions));
    InsertAt(env, p, s, isDir, plan.positions, pos - 1);
  }

  lemma InsertAt(env: Env, p: Params, s: Source, isDir: Bytes -> bool, positions: seq<nat>, k: nat)
    requires Indexed(s) && forall i :: 0 <= i < |positions| ==> positions[i] < |ShownMatches(env, p, s).0|
    requires k < |positions|
    ensures ShownMatches(env, p, s).0[positions[k]].idx < |s.candidates|
    ensures var c := s.candidates[ShownMatches(env, p, s).0[positions[k]].idx];
            && c.batch < |s.batches|
            && InsertsOf(env, p, s, isDir, positions)[k] == BuildInsert(s.batches[c.batch], c, p.trailingSpace, isDir)
  {
    hide ShownMatches, BuildInsert;
    ShownIndexes(env, p, s);
  }

  /**
   One candidate stands at each position: the cell read there holds its text, cut to the terminal, and the insertion read
   there is the one built for it.
   */
  lemma PositionShowsAndInserts(env: Env, p: Params, s: Source, isDir: Bytes -> bool, selected: nat, pos: nat)
    returns (c: Candidate)
    requires Plannable(env, p, s, isDir, selected) && 1 <= pos <= |Read(env, p, s, isDir, selected).cells|
    ensures Indexed(s) && p.width <= USIZE_MAX && StandsAt(env, p, s, selected, pos, c) && c.batch < |s.batches|
    ensures CellReads(Read(env, p, s, isDir, selected), pos, Truncate(env.wd, CellText(env, p, s, c), p.width).content)
    ensures pos <= |Read(env, p, s, isDir, selected).inserts|
    ensures Read(env, p, s, isDir, selected).inserts[pos - 1]
         == BuildInsert(s.batches[c.batch], c, p.trailingSpace, isDir)
  {
    hide *;
    ReadIs(env, p, s, isDir, selected);
    var plan := PlanOf(env, p, s, selected);
    ReadCarries(env, p, s, isDir, selected);
    CarriesCells(Read(env, p, s, isDir, selected), plan);
    PlanHolds(env, p, s, selected, pos);
    ShownStands(env, p, s, selected, pos);
    c := ShownCandidates(env, p, s)[plan.positions[pos - 1]];
    RangeIsRead(Read(env, p, s, isDir, selected), plan, pos, Truncate(env.wd, CellText(env, p, s, c), p.width).content);
    InsertStands(env, p, s, isDir, selected, pos, c);
  }

  lemma ReadCarries(env: Env, p: Params, s: Source, isDir: Bytes -> bool, selected: nat)
    requires Plannable(env, p, s, isDir, selected)
    ensures Indexed(s) && p.width <= USIZE_MAX
    ensures Carries(Read(env, p, s, isDir, selected), PlanOf(env, p, s, selected))
  {
    hide Plannable, Computed, ParseSpec, Carries, PlanOf, Indexed;
    OutputCarriesPlan(env, p, s, isDir, selected);
  }

  lemma CarriesCells(read: WirePlan, plan: Plan)
    requires Carries(read, plan)
    ensures |read.cells| == |read.inserts| == |plan.positions|
  {
  }

  /** The suffix behind the word: a slash for a directory, then the batch's own. */
  function Tail(b: Batch, c: Candidate, isDir: Bytes -> bool): Bytes {
    var directory := && b.f == [49] && b.es == [] && b.sHidden == [] && (c.w == [] || c.w[|c.w| - 1] != 47)
                     && isDir(b.rd + c.MatchText());
    (if directory then [47] else []) + b.sHidden + b.sVis + b.iHidden
  }

  /** A space follows the inserted word exactly when one is asked for and nothing else follows. */
  lemma SpaceIffNothingFollows(b: Batch, c: Candidate, trailingSpace: bool, isDir: Bytes -> bool)
    ensures BuildInsert(b, c, trailingSpace, isDir)
         == b.ip + b.iVis + b.pVis + b.pHidden + c.w
            + if trailingSpace && Tail(b, c, isDir) == [] then [SPACE] else Tail(b, c, isDir)
  {
    assert Ascii("1") == [49];
    hide Ascii, Candidate.MatchText;
    var front, slash := b.ip + b.iVis + b.pVis + b.pHidden + c.w, if Synthesizes(b, c, isDir) then [SLASH] else [];
    var space := if trailingSpace && Tail(b, c, isDir) == [] then [SPACE] else [];
    assert BuildInsert(b, c, trailingSpace, isDir) == front + slash + b.sHidden + b.sVis + b.iHidden + space;
    assert front + slash + b.sHidden + b.sVis + b.iHidden + space == front + (slash + b.sHidden + b.sVis + b.iHidden + space);
    if space == [] {
      assert Tail(b, c, isDir) + space == Tail(b, c, isDir);
    } else {
      assert Tail(b, c, isDir) + space == [SPACE];
    }
  }

  // ----- The rest of the output -----

  /** What starts the common prefix read is what all candidates that begin with the query start with. */
  lemma OutputPrefix(env: Env, p: Params, s: Source, isDir: Bytes -> bool, selected: nat, prefix: Bytes)
    requires Plannable(env, p, s, isDir, selected)
    ensures Indexed(s)
    ensures var common := Read(env, p, s, isDir, selected).commonPrefix;
            if exists i: nat :: Begins(env, p, s, i) then
              prefix <= common <==> forall i: nat :: Begins(env, p, s, i) ==> prefix <= s.candidates[i].MatchText()
            else common == []
  {
    hide *;
    ReadIs(env, p, s, isDir, selected);
    WireParts(env, p, s, isDir, selected);
    var plan := PlanOf(env, p, s, selected);
    WireTexts(CommonPrefix(PrefixTexts(env, p, s, |s.candidates|)), plan, InsertsOf(env, p, s, isDir, plan.positions));
    CommonPrefixShared(env, p, s, prefix);
  }

  /** The targets read step through the positions; the last goes on when more of the list follows. */
  lemma OutputSteps(env: Env, p: Params, s: Source, isDir: Bytes -> bool, selected: nat)
    requires Plannable(env, p, s, isDir, selected)
    ensures Indexed(s)
    ensures var read, (_, morePrev, moreNext) := Read(env, p, s, isDir, selected), ShownMatches(env, p, s);
            if p.producer.Compsys? then
              && read.window.Some?
              && Steps(read.navigation, false, read.window.value.offset + |read.cells| < read.window.value.total)
            else Steps(read.navigation, morePrev, moreNext)
  {
    hide *;
    ReadCarries(env, p, s, isDir, selected);
    PlanSteps(env, p, s, selected);
    CarriedSteps(Read(env, p, s, isDir, selected), PlanOf(env, p, s, selected));
  }

  lemma CarriedSteps(read: WirePlan, plan: Plan)
    requires Carries(read, plan)
    ensures read.navigation == plan.nav && read.window == plan.window && |read.cells| == |plan.positions|
  {
  }

  lemma PlanSteps(env: Env, p: Params, s: Source, selected: nat)
    requires Indexed(s) && p.width <= USIZE_MAX
    ensures var plan, (_, morePrev, moreNext) := PlanOf(env, p, s, selected), ShownMatches(env, p, s);
            if p.producer.Compsys? then
              && plan.window.Some?
              && Steps(plan.nav, false, plan.window.value.offset + |plan.positions| < plan.window.value.total)
            else Steps(plan.nav, morePrev, moreNext)
  {
    hide ShownMatches, Layout.CompletionPlan, Layout.BuildPlan, ContentOf, Steps;
    ShownIndexes(env, p, s);
    var (shown, morePrev, moreNext) := ShownMatches(env, p, s);
    var c, o := ContentOf(env, p, s, shown), OptionsOf(p, morePrev, moreNext);
    if p.producer.Compsys? {
      CompletionSteps(env.wd, c, o, p.offset, selected);
    } else {
      BuildSteps(env.wd, c, o);
    }
  }

  /**
   The window read in a completion: the old offset is kept when the window from there shows the selection, and moves no
   further than it must when it does not.
   */
  lemma OutputMoves(env: Env, p: Params, s: Source, isDir: Bytes -> bool, selected: nat)
    requires Plannable(env, p, s, isDir, selected) && p.producer.Compsys?
    ensures Indexed(s)
    ensures var read := Read(env, p, s, isDir, selected);
            && read.window.Some?
            && WindowFollows(read.window.value, read.indicators != [], ShownGroups(env, p, s),
                             |ShownMatches(env, p, s).0|, p.rows, p.width, p.offset, selected)
  {
    hide *;
    ReadCarries(env, p, s, isDir, selected);
    PlanMoves(env, p, s, selected);
    CarriedWindow(Read(env, p, s, isDir, selected), PlanOf(env, p, s, selected));
  }

  lemma CarriedWindow(read: WirePlan, plan: Plan)
    requires Carries(read, plan)
    ensures read.window == plan.window && read.indicators == plan.indicators
  {
  }

  lemma PlanMoves(env: Env, p: Params, s: Source, selected: nat)
    requires Indexed(s) && p.width <= USIZE_MAX && p.producer.Compsys?
    ensures var plan := PlanOf(env, p, s, selected);
            && plan.window.Some?
            && WindowFollows(plan.window.value, plan.indicators != [], ShownGroups(env, p, s),
                             |ShownMatches(env, p, s).0|, p.rows, p.width, p.offset, selected)
  {
    hide ShownMatches, Layout.CompletionPlan, ContentOf, WindowFollows, Groups.Grouped;
    ShownIndexes(env, p, s);
    KeyedCount(env, p, s);
    var (shown, morePrev, moreNext) := ShownMatches(env, p, s);
    CompletionMoves(env.wd, ContentOf(env, p, s, shown), OptionsOf(p, morePrev, moreNext), p.offset, selected);
  }

  /** The line read for position `pos` of an overflowing completion: its number in the whole list, and the list's size. */
  lemma OutputIndicates(env: Env, p: Params, s: Source, isDir: Bytes -> bool, selected: nat, pos: nat)
    requires Plannable(env, p, s, isDir, selected) && 1 <= pos <= |Read(env, p, s, isDir, selected).cells|
    requires Read(env, p, s, isDir, selected).indicators != []
    ensures var read := Read(env, p, s, isDir, selected);
            && read.window.Some? && |read.indicators| == |read.cells| + 1 && read.indicators[0] == []
            && var line, n, of := read.indicators[pos], Digits(read.window.value.offset + pos), Digits(read.window.value.total);
               && line <= n + [47] + of && |line| == Min(|n| + 1 + |of|, p.width)
               && (|n| + 1 + |of| <= p.width ==> Split(line, 47) == [n, of])
  {
    hide *;
    ReadIs(env, p, s, isDir, selected);
    ReadCarries(env, p, s, isDir, selected);
    var read, plan := Read(env, p, s, isDir, selected), PlanOf(env, p, s, selected);
    CarriedWindow(read, plan);
    CarriesCells(read, plan);
    PlanIndicates(env, p, s, selected);
    var w := plan.window.value;
    IndicatorReads(env.wd, p.width, w.offset, w.total, |plan.positions|, pos);
    NoSelectionLine(env.wd, p.width, w.offset, w.total, |plan.positions|);
  }

  lemma NoSelectionLine(wd: Widths, width: nat, offset: nat, total: nat, count: nat)
    ensures Indicators(wd, width, offset, total, count)[0] == []
  {
    hide Truncate;
  }

  lemma PlanIndicates(env: Env, p: Params, s: Source, selected: nat)
    requires Indexed(s) && p.width <= USIZE_MAX
    requires PlanOf(env, p, s, selected).indicators != []
    ensures var plan := PlanOf(env, p, s, selected);
            && plan.window.Some?
            && plan.indicators
               == Indicators(env.wd, p.width, plan.window.value.offset, plan.window.value.total, |plan.positions|)
  {
    hide ShownMatches, Layout.CompletionPlan, ContentOf, Layout.GridPlan, Indicators;
    ShownIndexes(env, p, s);
    var (shown, morePrev, moreNext) := ShownMatches(env, p, s);
    var c, o := ContentOf(env, p, s, shown), OptionsOf(p, morePrev, moreNext);
    if p.producer.Compsys? {
      CompletionIndicates(env.wd, c, o, p.offset, selected);
    } else {
      BuildPlanIsBare(env.wd, c, o);
    }
  }

  lemma CompletionIndicates(wd: Widths, c: Content, o: Options, offset: nat, selected: nat)
    requires c.Valid(wd) && o.width <= USIZE_MAX
    ensures var plan := Layout.CompletionPlan(wd, c, o, offset, selected);
            && plan.window.Some?
            && (plan.indicators != [] ==>
                  plan.indicators
                  == Indicators(wd, o.width, plan.window.value.offset, plan.window.value.total, |plan.positions|))
  {
    hide Layout.CompletionPlan, CompletionSlide, CompletionGroups, GridOf, Drawable, Indicators;
    var plan := CompletionIsIndicated(wd, c, o, offset, selected);
  }

  lemma BuildPlanIsBare(wd: Widths, c: Content, o: Options)
    requires c.Valid(wd) && o.width <= USIZE_MAX
    ensures BuildPlan(wd, c, o).indicators == []
  {
    hide GridOf, HighlightsOf, RangesOf;
  }
}
