/** What a client sees of a completion answer: it fits the screen it was asked for and shows the selection. */
module SessionAnswers {
  import opened Bytes
  import opened Lossy
  import opened Groups
  import Geometry
  import opened Completion
  import opened ListingFacts
  import opened Layout
  import LayoutFacts
  import opened Records
  import opened Pipeline
  import Capstone
  import opened OutputFacts
  import opened Wire
  import opened Sessions
  import opened SessionPlans

  /** A plan for `rows` rows whose window shows the `selected`-th of all matches, or the last one. */
  ghost predicate Shows(rows: seq<Bytes>, window: Option<WindowTuple>, budget: nat, selected: nat) {
    && |rows| <= budget
    && window.Some?
    && (window.value.total > 0 ==>
          1 <= window.value.selected && window.value.offset + window.value.selected == Min(selected, window.value.total))
  }

  lemma WindowShows(wd: Widths, c: Content, o: Options, offset: nat, selected: nat)
    requires c.Valid(wd) && o.width <= USIZE_MAX && selected >= 1
    ensures var w := CompletionPlan(wd, c, o, offset, selected).window;
            && w.Some?
            && (w.value.total > 0 ==>
                  1 <= w.value.selected && w.value.offset + w.value.selected == Min(selected, w.value.total))
  {
    hide CompletionPlan, Geometry.Place, LeastFrom, Drawable, Geometry.Positions, Flatten, Grouped, Geometry.End;
    SceneIsValid(wd, c, o.width, Geometry.Style.Grid);
    SlideShowsSelection(Grouped(c.keyed, |c.keyed|), |c.keyed|, o.rowBudget, o.width, offset, selected);
    LayoutFacts.CompletionParts(wd, c, o, offset, selected);
  }

  lemma PlanShows(env: Env, p: Params, s: Source, selected: nat)
    requires Sane(s) && Indexed(s) && AsciiWidths(env.wd) && p.producer.Compsys?
    requires 1 <= p.rows && 1 <= p.width <= USIZE_MAX && selected >= 1
    ensures var plan := PlanOf(env, p, s, selected); Shows(plan.rows, plan.window, p.rows, selected)
  {
    hide CompletionPlan, BuildPlan, ContentOf, ShownMatches, Sane, AsciiWidths;
    Capstone.PlanIsReady(env, p, s, selected);
    ShownIndexes(env, p, s);
    var (shown, morePrev, moreNext) := ShownMatches(env, p, s);
    WindowShows(env.wd, ContentOf(env, p, s, shown), OptionsOf(p, morePrev, moreNext), p.offset, selected);
  }

  /** The body is a plan that shows the selection. */
  ghost predicate ParsesToWindow(body: Bytes, budget: nat, selected: nat) {
    var parsed := ParseSpec(body);
    parsed.Ok? && Shows(parsed.value.rows, parsed.value.window, budget, selected)
  }

  lemma PlannedShows(env: Env, p: Screen, source: Stored, isDir: Bytes -> bool, selected: nat)
    requires Small(source) && AsciiWidths(env.wd) && p.producer.Compsys? && selected >= 1
    requires |Planned(env, p, source, isDir, selected)| <= I64_MAX
    ensures ParsesToWindow(Planned(env, p, source, isDir, selected), p.rows, selected)
  {
    hide Sane, ParseSpec, PlanOf, Indexed, AsciiWidths, SerializeWire, InsertsOf, PrefixTexts;
    Capstone.SaneIsIndexed(source);
    Capstone.EveryPlanParses(env, p, source, isDir, selected);
    PlanShows(env, p, source, selected);
    PlanPositions(env, p, source, selected);
  }

  ghost predicate AnswerParses(result: Result<Bytes, string>, request: Request)
    requires request.Complete?
  {
    result.Ok? && |result.value| <= I64_MAX ==> ParsesToWindow(result.value, request.rows, request.selected)
  }

  /**
  An `ok` answer to a completion request parses to a plan of at most the requested rows whose window
  shows the requested selection, counted from the top of all matches and capped at the last one.
  */
  lemma CompletionAnswerShows(
    env: Env, isDir: (Bytes, Bytes) -> bool, highlight: (Namespace, Bytes, bool, Bytes) -> Bytes, stamp: Bytes,
    s: Session, request: Request)
    requires AsciiWidths(env.wd) && SmallSlots(s.slots) && request.Complete?
    ensures AnswerParses(AnswerTo(Genuine(env, isDir, highlight, stamp), s, request).result, request)
  {
    hide Planned, ParseSpec, Shows, AsciiWidths, Small, Slots.Find, DirFrom, SmallSlots;
    var o := Genuine(env, isDir, highlight, stamp);
    var answer := AnswerTo(o, s, request);
    if answer.result.Ok? && |answer.result.value| <= I64_MAX {
      var input := s.input.value;
      var source := s.slots.Find(input.resolved.value).value;
      var p := input.params.(offset := request.offset, rows := request.rows, width := request.width);
      FoundIsSmall(s.slots, input.resolved.value);
      PlannedShows(env, p, source, DirFrom(o, input.cwd), request.selected);
    }
  }

  /** The body is the output of the pipeline, as long as it has the size of a Rust vector. */
  ghost predicate IsOutput(body: Bytes, env: Env, p: Screen, source: Stored, isDir: Bytes -> bool, selected: nat) {
    && body == Planned(env, p, source, isDir, selected)
    && (|body| <= I64_MAX ==> Plannable(env, p, source, isDir, selected))
  }

  lemma PlannedIsOutput(env: Env, p: Screen, source: Stored, isDir: Bytes -> bool, selected: nat)
    requires Small(source) && AsciiWidths(env.wd)
    ensures IsOutput(Planned(env, p, source, isDir, selected), env, p, source, isDir, selected)
  {
    hide Computed, Sane, Indexed, AsciiWidths;
    Capstone.SaneIsIndexed(source);
  }

  /**
   A completion is answered `ok` exactly when it names the current input and the candidates that input settled on are
   still held. The answer is then the output for those candidates, at the offset, on the screen and for the selection the
   request asks for.
   */
  lemma CompletionAnsweredIff(
    env: Env, isDir: (Bytes, Bytes) -> bool, highlight: (Namespace, Bytes, bool, Bytes) -> Bytes, stamp: Bytes,
    s: Session, request: Request)
    requires AsciiWidths(env.wd) && SmallSlots(s.slots) && request.Complete?
    ensures var result := AnswerTo(Genuine(env, isDir, highlight, stamp), s, request).result;
            && (result.Ok? <==> s.input.Some? && s.input.value.generation == request.inputGeneration
                                && s.input.value.resolved.Some? && s.slots.Find(s.input.value.resolved.value).Some?)
            && (result.Err? ==>
                  result.error == if s.input.Some? && s.input.value.generation == request.inputGeneration
                                  then "unknown-generation" else "superseded")
            && (result.Ok? ==>
                  var input := s.input.value;
                  IsOutput(result.value, env,
                           input.params.(offset := request.offset, rows := request.rows, width := request.width),
                           s.slots.Find(input.resolved.value).value, path => isDir(input.cwd, path), request.selected))
  {
    hide Planned, AsciiWidths, Small, Slots.Find, SmallSlots, IsOutput;
    var o := Genuine(env, isDir, highlight, stamp);
    if AnswerTo(o, s, request).result.Ok? {
      var input := s.input.value;
      var source := s.slots.Find(input.resolved.value).value;
      var p := input.params.(offset := request.offset, rows := request.rows, width := request.width);
      FoundIsSmall(s.slots, input.resolved.value);
      PlannedIsOutput(env, p, source, DirFrom(o, input.cwd), request.selected);
      SameDir(isDir, o, input.cwd);
    }
  }

  lemma SameDir(isDir: (Bytes, Bytes) -> bool, o: Outside, cwd: Bytes)
    requires o.isDir == isDir
    ensures DirFrom(o, cwd) == (path => isDir(cwd, path))
  {
  }
}
