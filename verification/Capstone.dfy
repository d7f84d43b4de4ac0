/** Every plan the pipeline computes is accepted by the reference parser, and read back unchanged. */
module Capstone {
  import opened Bytes
  import opened Lossy
  import opened Grid
  import opened ListingFacts
  import opened Layout
  import opened Wire
  import opened WireFacts
  import opened PlanFacts
  import opened Records
  import opened Matching
  import opened Ranking
  import opened Pipeline

  // ---- cell texts and insertion texts are free of NUL bytes ----

  lemma CellTextFree(c: Candidate, width: nat, batches: nat)
    requires SaneCandidate(c, batches)
    ensures Free(CellSourceOf(c, width).text, NUL)
  {
    NormalizedFree(if c.d.Some? then c.d.value else c.MatchText());
    if c.n.Some? {
      SpacesFree(Minus(width, |c.n.value|));
      SpacesFree(2);
    }
    hide Normalize;
  }

  lemma InsertFree(b: Batch, c: Candidate, trailingSpace: bool, isDir: Bytes -> bool, batches: nat)
    requires CleanBatch(b) && SaneCandidate(c, batches)
    ensures Free(BuildInsert(b, c, trailingSpace, isDir), NUL)
  {
    hide Synthesizes;
    var slash := Synthesizes(b, c, isDir);
    var front := b.ip + b.iVis + b.pVis + b.pHidden + c.w + (if slash then [SLASH] else []);
    assert Free(front, NUL);
    assert Free(b.sHidden + b.sVis + b.iHidden, NUL);
  }

  lemma {:induction false} PrefixTextsFree(env: Env, p: Params, s: Source, n: nat)
    requires Sane(s) && Indexed(s) && n <= |s.candidates|
    ensures AllFree(PrefixTexts(env, p, s, n), NUL)
  {
    hide HitOf, Sane;
    if n > 0 {
      PrefixTextsFree(env, p, s, n - 1);
      MatchTextFree(s, n - 1);
    }
  }

  lemma MatchTextFree(s: Source, i: nat)
    requires Sane(s) && i < |s.candidates|
    ensures Free(s.candidates[i].MatchText(), NUL)
  {
    assert SaneCandidate(s.candidates[i], |s.batches|);
  }

  lemma CommonPrefixFree(texts: seq<Bytes>)
    requires AllFree(texts, NUL)
    ensures Free(CommonPrefix(texts), NUL)
  {
    if texts != [] {
      CommonPrefixIsGreatest(texts, []);
      hide CommonPrefix;
      var p := CommonPrefix(texts);
      assert p <= texts[0] && Free(texts[0], NUL);
      assert forall i :: 0 <= i < |p| ==> p[i] == texts[0][i];
    }
  }

  lemma ContentFree(env: Env, p: Params, s: Source, shown: seq<Matched>)
    requires Sane(s) && Indexed(s) && forall i :: 0 <= i < |shown| ==> shown[i].idx < |s.candidates|
    ensures NulFree(ContentOf(env, p, s, shown).sources)
  {
    hide CellSourceOf, SpansOfHit, NewQuery, DisplayWidth, GroupKey, HeadingText, SaneCandidate, NumberWidth, Free;
    var cs := CandidatesOf(s, shown);
    forall i | 0 <= i < |cs|
      ensures Free(CellSources(cs)[i].text, NUL)
    {
      assert SaneCandidate(s.candidates[shown[i].idx], |s.batches|);
      CellTextFree(cs[i], NumberWidth(cs), |s.batches|);
    }
  }

  lemma InsertsFree(env: Env, p: Params, s: Source, isDir: Bytes -> bool, positions: seq<nat>)
    requires Sane(s) && Indexed(s) && forall i :: 0 <= i < |positions| ==> positions[i] < |ShownMatches(env, p, s).0|
    ensures AllFree(InsertsOf(env, p, s, isDir, positions), NUL)
  {
    hide ShownMatches, BuildInsert, CleanBatch, SaneCandidate, Free;
    ShownIndexes(env, p, s);
    var shown := ShownMatches(env, p, s).0;
    var cs := CandidatesOf(s, shown);
    forall i | 0 <= i < |positions|
      ensures Free(InsertsOf(env, p, s, isDir, positions)[i], NUL)
    {
      var c := cs[positions[i]];
      assert SaneCandidate(s.candidates[shown[positions[i]].idx], |s.batches|);
      InsertFree(s.batches[c.batch], c, p.trailingSpace, isDir, |s.batches|);
    }
  }

  lemma SaneIsIndexed(s: Source)
    requires Sane(s)
    ensures Indexed(s)
  {
    forall i | 0 <= i < |s.candidates|
      ensures s.candidates[i].batch < |s.batches|
    {
      assert SaneCandidate(s.candidates[i], |s.batches|);
    }
  }

  lemma ShownAtMost(env: Env, p: Params, s: Source)
    requires Indexed(s)
    ensures |ShownMatches(env, p, s).0| <= |s.candidates|
  {
    var matched := AllMatched(env, p, s, |s.candidates|);
    MatchedAtMost(env, p, s, |s.candidates|);
    SuppressAtMost(matched, HasLiteral(matched));
    hide AllMatched, Suppress, StableSort, HasLiteral;
  }

  lemma {:induction false} MatchedAtMost(env: Env, p: Params, s: Source, n: nat)
    requires Indexed(s) && n <= |s.candidates|
    ensures |AllMatched(env, p, s, n)| <= n
  {
    hide HitOf;
    if n > 0 {
      MatchedAtMost(env, p, s, n - 1);
    }
  }

  lemma {:induction false} SuppressAtMost(ms: seq<Matched>, hasLiteral: bool)
    ensures |Suppress(ms, hasLiteral)| <= |ms|
  {
    if ms != [] {
      SuppressAtMost(ms[..|ms| - 1], hasLiteral);
    }
  }

  lemma PlanIsReady(env: Env, p: Params, s: Source, selected: nat)
    requires Sane(s) && Indexed(s) && AsciiWidths(env.wd) && 1 <= p.width <= USIZE_MAX
    ensures var plan := PlanOf(env, p, s, selected);
            && PlanReady(plan)
            && (plan.window.Some? ==> plan.window.value.total <= |s.candidates|)
            && (p.producer.Compsys? && p.rows >= 1 ==> |plan.rows| <= p.rows)
  {
    hide CompletionPlan, BuildPlan, PlanReady, ContentOf, ShownMatches, NulFree, Sane;
    ShownIndexes(env, p, s);
    ShownAtMost(env, p, s);
    var (shown, morePrev, moreNext) := ShownMatches(env, p, s);
    var c, o := ContentOf(env, p, s, shown), OptionsOf(p, morePrev, moreNext);
    ContentFree(env, p, s, shown);
    KeyedLength(env, p, s, shown);
    if p.producer.Compsys? {
      CompletionPlanReady(env.wd, c, o, p.offset, selected);
    } else {
      BuildPlanReady(env.wd, c, o);
      BuildPlanHasNoWindow(env.wd, c, o);
    }
  }

  lemma BuildPlanHasNoWindow(wd: Widths, c: Content, o: Options)
    requires c.Valid(wd) && o.width <= USIZE_MAX
    ensures BuildPlan(wd, c, o).window == None
  {
  }

  lemma KeyedLength(env: Env, p: Params, s: Source, shown: seq<Matched>)
    requires Indexed(s) && forall i :: 0 <= i < |shown| ==> shown[i].idx < |s.candidates|
    ensures |ContentOf(env, p, s, shown).keyed| == |shown|
  {
    hide CellSources, SpansOfHit, DisplayWidth, GroupKey, HeadingText;
  }

  lemma EveryPlanIsWellFormed(env: Env, p: Params, s: Source, isDir: Bytes -> bool, selected: nat)
    requires Sane(s) && Indexed(s) && |s.candidates| <= I64_MAX
    requires AsciiWidths(env.wd) && 1 <= p.width <= USIZE_MAX
    requires |Computed(env, p, s, isDir, selected)| <= I64_MAX
    ensures WellFormed(WirePlanOf(env, p, s, isDir, selected))
  {
    hide PlanOf, SerializeWire, WireOf, PlanReady, WellFormed, InsertsOf, CommonPrefix, PrefixTexts, Sane, ParseSpec;
    PlanPositions(env, p, s, selected);
    PlanIsReady(env, p, s, selected);
    var plan := PlanOf(env, p, s, selected);
    PrefixTextsFree(env, p, s, |s.candidates|);
    CommonPrefixFree(PrefixTexts(env, p, s, |s.candidates|));
    InsertsFree(env, p, s, isDir, plan.positions);
    ReadyIsWellFormed(CommonPrefix(PrefixTexts(env, p, s, |s.candidates|)), plan, InsertsOf(env, p, s, isDir, plan.positions));
  }

  /**
   For every sane source, query, mode, offset, selection and terminal width of at least one column,
   the reference parser accepts the pipeline's output and reads the wire plan back field by field.
   The two size bounds are those of a Rust vector.
   */
  lemma EveryPlanParses(env: Env, p: Params, s: Source, isDir: Bytes -> bool, selected: nat)
    requires Sane(s) && Indexed(s) && |s.candidates| <= I64_MAX
    requires AsciiWidths(env.wd) && 1 <= p.width <= USIZE_MAX
    requires |Computed(env, p, s, isDir, selected)| <= I64_MAX
    ensures ParseSpec(Computed(env, p, s, isDir, selected)) == Ok(WirePlanOf(env, p, s, isDir, selected))
  {
    hide WirePlanOf, SerializeWire, ParseSpec, WellFormed, Sane;
    EveryPlanIsWellFormed(env, p, s, isDir, selected);
    SerializedParses(WirePlanOf(env, p, s, isDir, selected));
  }

  /** The same for every payload bytes a client can store: only the final NUL matters. */
  lemma EveryStoredPayloadPlans(env: Env, p: Params, payload: Bytes, isDir: Bytes -> bool, selected: nat)
    requires ParsePayload(payload).Ok?
    requires AsciiWidths(env.wd) && 1 <= p.width <= USIZE_MAX && |ParsePayload(payload).value.candidates| <= I64_MAX
    ensures Indexed(ParsePayload(payload).value)
    ensures var s := ParsePayload(payload).value;
            |Computed(env, p, s, isDir, selected)| <= I64_MAX ==>
              ParseSpec(Computed(env, p, s, isDir, selected)) == Ok(WirePlanOf(env, p, s, isDir, selected))
  {
    hide ParsePayload, Computed, WirePlanOf, ParseSpec, Sane, Indexed;
    ParsedIsSane(payload);
    SaneIsIndexed(ParsePayload(payload).value);
    if |Computed(env, p, ParsePayload(payload).value, isDir, selected)| <= I64_MAX {
      EveryPlanParses(env, p, ParsePayload(payload).value, isDir, selected);
    }
  }
}
