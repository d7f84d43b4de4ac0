# zrush worker: a verified model

zrush keeps a long-lived worker beside an interactive zsh. The shell sends it framed
messages; the worker stores candidate lists and history, matches and ranks them against a
query, lays the result out as a grid, and sends back a serialized render plan. This project
models that pipeline in Dafny and proves what its parts promise each other.

The modules follow the program.

- **Text.** `Bytes`, `Decimals`, `Lossy` (the lossy reading of bytes as UTF-8, section 3 of
  RFC 3629 and section 3.9 of the Unicode Standard), `Spans`.
- **Layout.** `Groups`, `Geometry`, `Completion`, `Grid`, `Offsets`, `Layout`, with the facts about
  them in `GridFacts`, `ListingFacts`, `HighlightFacts`, `LayoutFacts`, `PlanFacts`.
- **Wire format.** `Wire` (formats and the parser's meaning), `WireCodec` (the two programs),
  `WireFacts` (that they undo each other), `WireTidy` (when the very bytes come back).
- **Matching.** `Edits`, `Matching`, `Ranking`, `Records`, `RecordSender`, `RecordParser`, `Pipeline`, with `MatchFacts` on
  what is matched, listed and grouped; `Capstone` joins them with the wire format, `CellTexts` and `PlanHighlights` with
  the highlights of a plan, and `OutputFacts` says what a client reads in the output.
- **Session.** `Framing`, `Histories`, `Sessions` (the session as a state machine), `Worker` (the same
  session updated in place, its decoder and its event loop), and seven modules of theorems over
  whole runs: `SessionEvents`, `SessionReplies`, `SessionTiming`, `SessionPlans`, `SessionStores`, `SessionQuiet`,
  `SessionHighlights`;
  `SessionRequests` and `SessionAnswers` say what goes in and out.
- **Shell syntax.** `Lexer`, `LexerFacts`, `LexerLocality`, `Analysis`, `TokenOffsets`, `DecorationSpans`, `Tokenizer`,
  `TokenFacts`, `CommandKinds` (the kind every word is delivered under), `Quoting`, `HighlightStream`.
- **Key notation.** `Keybind`.

Code that the program runs as loops over mutable state is written here as methods with loops, or as
classes whose methods state their whole new state; each is proved equal to a function, and the
theorems are about those functions. Tables and libraries outside the repository are parameters:
character widths, upper-case letters, the fuzzy matcher, directory tests, executable and path tests,
and the clock. The session takes the plan pipeline and the highlighter as parameters too; `SessionPlans.Genuine` puts
the pipeline of this model in their place, and `SessionHighlights.Analyses` its lexer. A run of the session is any script of input chunks and wake-ups with any clock.

## What is proved

1. **Every plan the worker can compute is accepted by the reference parser**: for every source
   (`Capstone.EveryPlanParses`), and for every plan in every event and reply of every session run
   (`SessionPlans.EveryPlanWrittenParses`). What is read is the computed plan, number by number
   (`OutputFacts.OutputCarriesPlan`, `OutputFacts.OutputIsLaid`), and at every position it is one candidate's cut text
   beside that candidate's insertion (`OutputFacts.PositionShowsAndInserts`).
2. **The wire format round-trips exactly for well-formed plans** (`WireFacts.RoundTripIffWellFormed`),
   and everything the parser accepts is well formed.
3. **Offsets are right for any bytes**: the characters at a cell's range of the listing are exactly
   those of its candidate's cut text, even when the bytes around it are ill-formed UTF-8
   (`ListingFacts.CellsReadBack`). The highlights of a plan are exactly those that select, in the joined rows, a title
   (`HighlightFacts.HeadingIffTitle`), or the visible part of a span of the cell's text
   (`HighlightFacts.HighlightIffSelects`). Every match highlight of a computed plan selects the visible part, in the
   characters of the match text, of one of its hit's spans, as long as the event number in front of it has one
   character for each byte (`PlanHighlights.MatchHighlightsSelect`, `CellTexts.MatchOffsetIff`).
4. **The scrolling window** ends no earlier when it starts later, so the binary search finds the least
   slide, shows the selection, reaches every candidate and is stable (`Geometry.EndMonotone`,
   `Completion.SlideShowsSelection`). It keeps the old offset when it can and moves no further than it must
   (`Completion.SlideFollows`, `OutputFacts.OutputMoves`), and leaves no row that could show more (`Geometry.WindowFills`).
5. **The netstring decoder** accepts a stream exactly when it is the encoding of the frames it
   returned, does not depend on chunking, and reports an error exactly at the first byte after which
   no continuation could be a good stream (`Framing.ErrorIffHopeless`).
6. **The session**: requests are read exactly when they are written canonically; over every run events
   come in order, each request gets one answer in order, errors change nothing, evictions never show,
   every accepted store is followed at once by its plan, an input left alone asks for candidates at the first clock
   reading that is not below its deadline, highlight events are exactly the analyses of accepted inputs, and the output depends only on the bytes received as long as no quiet period runs out
   (`SessionRequests.RequestIffWritten`, `SessionEvents.EventsAreOrdered`, `SessionStores.StoresArePlannedAtOnce`,
   `SessionQuiet.QuietPeriodsRunOut`, `SessionHighlights.HighlightsAreAnalyses`, `SessionTiming.ChunkingIsInvisible`).
7. **The one-edit matcher** accepts exactly what the textbook edit-distance recurrence accepts, and
   returns the best reading (`Edits.EditIffClose`, `Edits.EditIsBest`). Every tier is entered exactly when it should be
   (`Matching.TierIff`), and the common prefix is what all candidates that begin with the query share
   (`MatchFacts.CommonPrefixShared`).
8. **The shell lexer** accounts for every byte once, and the analysis of a buffer splits at top-level
   command separators, on byte offsets and in the delivered characters (`Analysis.AnalysisComposes`,
   `TokenFacts.TokensCompose`). Which kind every word is delivered under is told from the words before it, the namespace
   and the file system (`CommandKinds.CommandWordKind`, `CommandKinds.WrappedWordKind`, `CommandKinds.ArgumentWordKind`),
   and any bytes can be quoted so that the word's literal is those bytes (`Quoting.DollarQuotesKeep`).

## Where the code does less than it seems to

The model follows the code. For each point one lemma gives the exact condition and one an input at which it fails.

- An event number is measured in bytes where characters are meant. The match text starts at the cell's match offset,
  and the number range selects the number, exactly when every byte of the number reads as a character of its own
  (`CellTexts.MatchOffsetIff`, `CellTexts.NumberRangeIff`). With the two bytes of U+00E9 as the number of `a`, a fully
  shown cell has no match highlight and a number highlight that covers a blank (`CellTexts.MultiByteNumberMisplaced`).
- A hit's span covers every matched byte except for a substring that begins inside a character, which leaves that
  character out (`Matching.SpanCoversIff`). The byte A9 found in the two bytes of U+00E9 gets an empty span
  (`Matching.HitInsideCharacter`).
- A parsed plan serializes back to the same bytes exactly when its numbers were written canonically and its tuples with
  single blanks (`WireTidy.ReserializeIffTidy`). A highlight whose position is written `00` is accepted and comes back as
  `0` (`WireTidy.PaddedFieldIsAccepted`).
- An escape's span holds the backslash and the character after it exactly when that character is one
  byte long; before a longer well-formed character the span is empty (`DecorationSpans.EscapeSpanExactIff`), as for a
  backslash before U+00E9 (`DecorationSpans.EscapeBeforeTwoBytes`).
- The plan sent after a `store` is computed from the stored payload unless the payload went to the cache
  slot while the live slot holds other candidates under the same generation
  (`SessionReplies.StoredIsFound`, `SessionReplies.StoreAnswered`). Two stores under generation 5 show it
  (`SessionStores.CacheStoreIsShadowed`).
- A query that is a prefix of the candidate is answered `Exact`, even when an insertion reading would
  leave a shorter suffix (`Edits.PrefixIsExact`), as for `aa` against `aaa` (`Edits.ExactLeavesMore`).
- `--` does not end the options of `sudo` and its like: it is an option word itself, so the branch for the end of options
  is never taken, and a word behind the wrapper is an option whenever it looks like one
  (`CommandKinds.DashesAreOption`, `CommandKinds.WrappedWordKind`). After `sudo --` the word `-x` is delivered as an option
  (`CommandKinds.DashesEndNothing`).
- A poisoned decoder still accepts an empty chunk (`Framing.PoisonedStaysPoisoned`).

## Model

| member | source | states |
|---|---|---|
| Decimals.ParseAsciiU64 | src/wire.rs:66-72 | a field is read exactly when it is a non-empty digit string whose value fits 64 bits, leading zeros included |
| Decimals.ParseCanonicalU64 | src/wire.rs:74-80 | a field is read exactly when it is canonical decimal that fits 64 bits |
| Decimals.PushCanonicalReads | src/wire.rs:31-55 | an accumulator that has read a canonical number only accepts canonical continuations, and then holds their value |
| Decimals.CanonicalParsesPrinted | src/wire.rs:74-80 | a field parses to `n` exactly when it is the printed form of `n` |
| Lossy.CharsConcat | src/layout.rs:678-745 | the lossy reading splits wherever the right part does not start with a continuation byte |
| Lossy.CountOfPrefix | src/matching.rs:331-333 | the character count of a prefix cut at any byte is the number of characters beginning before the cut |
| Lossy.CountMonotone | src/matching.rs:331-333 | a longer prefix never reads as fewer characters |
| Lossy.CharsOfPrefix | src/layout.rs:678-745 | a cut at a character boundary keeps a prefix of the characters |
| Lossy.CharsBetween | src/layout.rs:678-745 | between two character boundaries lie exactly the characters of the bytes in between |
| Lossy.SameShapeReads | src/layout.rs:648-659 | blanking control bytes, like lowering ASCII letters, keeps counts and boundaries at every offset |
| Lossy.LossyChars.Next | src/layout.rs:699-745 | the iterator yields the first remaining character with its byte range and leaves the rest, for any bytes |
| Lossy.TruncateFits | src/layout.rs:761-775 | a cut is a prefix of whole characters with the right counts, fits the budget, and one more character would not |
| Lossy.TruncateToWidth | src/layout.rs:761-775 | the loop computes that cut |
| Spans.SpanHolds | src/span.rs:26-31 | a span holds exactly the offsets from start to end, none when inverted |
| Spans.ClipKeeps | src/span.rs:45-50 | clipping keeps exactly the offsets before the limit |
| Spans.ShiftMoves | src/span.rs:53-58 | shifting moves every offset, adds none, and keeps the length |
| Groups.GroupCandidates | src/layout.rs:218-249 | one pass with an index computes, for each key in order of first appearance, its members, widest width and heading |
| Groups.GroupingPermutes | src/layout.rs:218-249 | listing order is a permutation of rank order |
| Groups.GroupsPartition | src/layout.rs:218-249 | a group lists exactly the candidates of its key, in rank order, and keys are distinct |
| Geometry.DimsHold | src/layout.rs:625-641 | a group shown whole takes the fewest rows, a cut one fills the budget, and no column of the grid is empty |
| Geometry.ColumnsFit | src/layout.rs:611-641 | all columns with their gutters fit the terminal width |
| Geometry.WindowGeometry | src/layout.rs:262-310 | the placement loop computes the window's groups, headings, columns and rows |
| Geometry.PlaceShowsSlice | src/layout.rs:262-310 | what a window shows is a contiguous slice of the flattened order, starting at its offset |
| Geometry.EndMonotone | src/layout.rs:262-310 | the window end never moves back as the start moves on, across groups, headings and ragged grids |
| Geometry.EndBounds | src/layout.rs:335-359 | a window that starts before the end of the list shows something and never shows past the list |
| Completion.SlideWindow | src/layout.rs:313-359 | the binary search keeps the old offset, no further than the selection, when the window from there shows the selection, and otherwise ends at the first start after it that does; an indicator takes a row when the list overflows |
| Completion.SlideFollows | src/layout.rs:313-359 | the same of the function the search computes, told from the inputs and from where windows end |
| Completion.LeastHolds | src/layout.rs:340-359 | that offset is minimal: every earlier start ends before the selection |
| Completion.SlideShowsSelection | src/layout.rs:313-359 | the window is a slice of the list, contains the selection, and starts at the top when everything fits |
| Completion.SlideIsStable | src/layout.rs:313-359 | asking again from the returned offset gives the same window |
| Completion.EveryCandidateReachable | src/layout.rs:313-359 | every candidate is shown for some selection, whatever the offset |
| Geometry.WindowFills | src/layout.rs:262-310 | a window stops only at the end of the list, of its rows, or before a heading with one row left; which groups have headings; one column in a history, at most eight in a completion |
| Grid.RenderRow | src/layout.rs:426-462 | one visual row is filled column by column, stopping at the first missing member |
| Grid.RenderGroup | src/layout.rs:404-471 | drawing a group appends its title, rows, marks, bounds and positions |
| Grid.RenderGrid | src/layout.rs:394-474 | the render loops draw exactly the picture of the placement |
| GridFacts.RowReads | src/layout.rs:432-462 | truncation, padding and gutters never merge characters of neighbouring cells |
| GridFacts.PictureShows | src/layout.rs:394-474 | every row shows its cut texts and fits the terminal |
| GridFacts.PictureOnce | src/layout.rs:426-462 | the loops visit every position of the window exactly once |
| Offsets.RowStarts | src/layout.rs:539-547 | the accumulator gives the characters before each row, newlines included |
| Offsets.ListingCounts | src/layout.rs:539-547 | the listing's character count is the arithmetic sum of the row starts |
| Offsets.ListingRow | src/layout.rs:479-547 | each row reads in the listing exactly as it reads alone, at its row start |
| Offsets.ComputeOffsets | src/layout.rs:479-537 | ranges and highlights are those of the marks moved to their row starts, clipped to the visible text |
| Offsets.BuildNavigation | src/layout.rs:551-580 | the four targets of every position |
| ListingFacts.RowLensAreCounts | src/layout.rs:394-474 | the row lengths kept while drawing are the lossy character counts of the rows |
| ListingFacts.GridOnce | src/layout.rs:426-462 | every position has exactly one cell |
| ListingFacts.CellsReadBack | src/layout.rs:394-547 | the characters at a position's range of the joined rows are those of its candidate's cut text, for any bytes |
| HighlightFacts.HighlightIffSelects | src/layout.rs:479-537 | a match or number highlight is in the list exactly when it selects, in the joined rows, the visible part of one of its candidate's match spans, or of its number range |
| HighlightFacts.HeadingIffTitle | src/layout.rs:486-498 | a heading highlight is in the list exactly when it selects a whole non-empty title row |
| Layout.BuildIndicators | src/layout.rs:378-390 | one indicator line for each position and one for none, each cut to the width |
| Layout.Build | src/layout.rs:175-214 | the plan without a window |
| Layout.BuildCompletion | src/layout.rs:313-392 | the plan with its window, indicators and indicator row |
| LayoutFacts.RowsFitTerminal | src/layout.rs:394-474 | headings and rows fit the row budget, and no row of the grid is wider than the terminal |
| LayoutFacts.BuildRowsFit | src/layout.rs:394-474 | the rows of a plan without an indicator fit the budget and the terminal |
| LayoutFacts.CompletionRowsFit | src/layout.rs:313-392 | no row of a completion plan, its indicator row included, and no indicator line is wider than the terminal |
| LayoutFacts.CompletionSelects | src/layout.rs:313-392 | a plan's positions are a contiguous slice of the flattened order and its selected position is the min(n, total)-th |
| LayoutFacts.CompletionMoves | src/layout.rs:313-392 | the plan's window is the one for the old offset and the requested selection, and it has an indicator exactly when the list overflows and a row can be spared |
| LayoutFacts.IndicatorReads | src/layout.rs:378-390 | an indicator line is a front of the position's number, a slash and the total, the whole of it when it fits |
| LayoutFacts.CompletionIsStable | src/layout.rs:313-392 | planning again from the returned offset gives the identical plan |
| LayoutFacts.NavigationKeepsGroup | src/layout.rs:551-580 | left and right stay among the members of the position's group, one full column away unless clamped |
| LayoutFacts.MovesUndo | src/layout.rs:551-580 | next is undone by prev, and a full step right by left, across all groups |
| LayoutFacts.MarkOnLine | src/layout.rs:404-471 | every cell is drawn on the row of its place in the column-major fill, counted from the bottom of its group in a history |
| LayoutFacts.ColumnsShareRows | src/layout.rs:426-462 | cells one full column apart in a group are drawn on the same row |
| PlanFacts.BuildPlanReady | src/layout.rs:175-214 | a history or plain plan satisfies everything the wire format checks |
| PlanFacts.CompletionPlanReady | src/layout.rs:313-392 | so does a completion plan, whose rows with the indicator row stay within the budget |
| PlanFacts.ReadyIsWellFormed | src/wire.rs:147-196 | such a plan with NUL-free texts is well formed on the wire |
| WireCodec.Serialize | src/wire.rs:147-196 | the output is a NUL-terminated field list with the plan's own numbers in wire order: each highlight's role, position, start and length, each range's start and length, the four targets, the window |
| WireFacts.FieldsLaid | src/wire.rs:147-196 | the same of the field list the round-trip lemmas are about |
| WireCodec.Parse | src/wire.rs:313-442 | the parser computes its meaning: same checks, same order of errors |
| WireFacts.SerializedParses | src/wire.rs:147-477 | the parser reads a serialized well-formed plan back field by field |
| WireFacts.AcceptedIsWellFormed | src/wire.rs:313-601 | whatever the parser accepts is well formed and survives serializing again |
| WireFacts.RoundTripIffWellFormed | src/wire.rs:147-477 | a plan survives the round trip exactly when it is well formed |
| WireTidy.ReserializeIffTidy | src/wire.rs:479-601 | reserializing gives the same bytes exactly when numbers were written canonically and tuples with single blanks |
| WireTidy.SpacedIff | src/wire.rs:596-601 | a tuple field is its words joined by blanks exactly when it has no tab or newline, no doubled blank and none at its ends |
| WireTidy.PaddedFieldIsAccepted | src/wire.rs:66-72 | a highlight position written `00` is accepted and comes back shorter |
| Edits.PrefixEditWithinOne | src/matching.rs:374-428 | the linear scan computes the best one-edit reading at the first mismatch |
| Edits.CloseReads | src/matching.rs:699-760 | distance at most one by the textbook recurrence means some one-edit reading exists |
| Edits.ReadingIsClose | src/matching.rs:699-760 | a one-edit reading means distance at most one |
| Edits.EditIsBest | src/matching.rs:374-428 | when the query is no prefix, the answer is the least (suffix length, kind) over all one-edit readings |
| Edits.PrefixIsExact | src/matching.rs:383-389 | a prefix is answered exact, whatever other readings exist |
| Edits.ExactLeavesMore | src/matching.rs:374-428 | a prefix answered `Exact` though an insertion would use the whole candidate |
| Edits.EditIffClose | src/matching.rs:374-428 | the matcher accepts exactly when some prefix of the candidate is within distance one |
| Matching.WideningKeepsHits | src/matching.rs:220-265 | a hit is unchanged when the mode is widened |
| Matching.HitIsTrue | src/matching.rs:220-265 | what a prefix, substring or edit hit says about the candidate's bytes |
| Matching.TierIff | src/matching.rs:220-265 | which candidates are in which tier, and which in none |
| Matching.MergeSpans | src/matching.rs:296-311 | the loop merges runs of neighbouring indices |
| Matching.FuzzySpansHold | src/matching.rs:296-311 | fuzzy spans are sorted, separated, and hold exactly the indices the matcher named |
| Matching.HitSpansHold | src/matching.rs:277-313 | a literal or edit hit's span lies inside the candidate and holds the characters beginning in the match |
| Matching.SpanCoversIff | src/matching.rs:277-333 | the span of a hit covers every matched byte except for a substring that begins inside a character |
| Matching.HitInsideCharacter | src/matching.rs:277-333 | a hit inside a two-byte character, whose span is empty |
| Matching.ComputeCommonPrefix | src/matching.rs:432-444 | the loop computes the common prefix |
| Matching.CommonPrefixIsGreatest | src/matching.rs:432-444 | it starts every text, and every shared prefix starts it |
| Ranking.RankHolds | src/ranking.rs:27-42 | the survivors, each once: approximate hits only without literal ones; by quality sorted with ties in input order |
| Ranking.QualityIsLiteralness | src/matching.rs:110-133 | by quality no candidate is listed after one that matches less literally: equal, then prefix, then substring by first occurrence |
| MatchFacts.QueryOccurs | src/matching.rs:181-194 | the prepared query occurs where the typed one does, letter case apart unless smart case finds an upper-case character |
| MatchFacts.MatchedIff | src/plan.rs:73-90 | exactly the candidates that are no hidden file, or were asked for with a dot, and have a hit are matched |
| MatchFacts.CommonPrefixShared | src/plan.rs:66-91 | what starts the common prefix is what all candidates beginning with the query start with, shown or not |
| MatchFacts.CompletionLists | src/ranking.rs:27-42 | every match is listed, approximate ones only when none is literal |
| MatchFacts.ShownInOrder | src/matching.rs:110-133 | a completion is ordered by tier, place, rest and kind of edit, or score, then input order; a history by input order |
| MatchFacts.GroupsAreNamed | src/layout.rs:585-607 | each shown candidate is in the group its batch is grouped under, and a heading is that of the group's first candidate |
| Records.ParseRecoversStream | src/record.rs:191-234 | the batches and candidates any conforming sender encoded are recovered exactly |
| Records.ParsedIsSane | src/record.rs:191-344 | for any bytes, fields are free of separators, bodies non-empty and batch indexes valid |
| RecordSender.SenderIsUnderstood | src/record.rs:191-344 | whoever says a source is understood: fields in any order, empty ones written or left out, fields of other tags beside them |
| RecordSender.EverySourceIsSaid | src/record.rs:191-344 | every sane source in batch order is said by some conforming stream |
| RecordParser.SplitSpans | src/record.rs:238-247 | every piece of a split, with its offset in the buffer |
| RecordParser.SplitField | src/record.rs:252-264 | the tag, and the range of the value |
| RecordParser.ParseBatchFields | src/record.rs:268-316 | first value wins for each tag, unknown tags are ignored |
| RecordParser.ParseCandidateFields | src/record.rs:321-344 | the same for candidate fields, empty values read as absent |
| RecordParser.Parse | src/record.rs:191-234 | the span-keeping parser fails only without the final NUL, and its ranges read as the meaning of the stream |
| Pipeline.MatchSource | src/plan.rs:69-90 | every candidate but hidden files is matched, and prefix-tier texts are collected |
| Pipeline.ComposeCellSources | src/plan.rs:170-208 | the loops compute each cell's text, number range and match offset from the width all numbers share |
| CellTexts.CellTextReads | src/plan.rs:188-199 | a numbered cell reads as blanks, the number, two blanks and the base, whatever bytes the two hold |
| CellTexts.NumberWidthLeast | src/plan.rs:173-177 | the width numbers share is five or that of the longest |
| CellTexts.ControlIffInNumber | src/plan.rs:183-199 | a control byte gets into a cell only from the number |
| CellTexts.MatchOffsetIff | src/plan.rs:181-205 | the match text starts at the match offset exactly when the number has one character for each byte |
| CellTexts.NumberRangeIff | src/plan.rs:188-204 | the number range selects the number exactly then |
| CellTexts.MultiByteNumberMisplaced | src/plan.rs:188-205 | a two-byte number, for which neither holds |
| PlanHighlights.HitSpanReads | src/matching.rs:277-313 | in the blanked text a cell shows, a hit's span holds the characters beginning in the match; between boundaries, those of the matched bytes |
| PlanHighlights.MatchHighlightsSelect | src/layout.rs:513-530 | every match highlight of a computed plan selects the visible part of one of its hit's spans, when the number is plain |
| PlanHighlights.VisibleMatchesAreHighlighted | src/layout.rs:513-530 | every hit span with a visible part is highlighted |
| PlanHighlights.NumberHighlightsSelect | src/layout.rs:503-512 | every number highlight selects a front of the number, when it is plain |
| Pipeline.HistoryWindowSlides | src/plan.rs:153-163 | the window is the slice of min(rows, total) matches from the clamped offset, its flags say what lies outside, and asking again there changes nothing |
| Pipeline.EveryMatchScrollsIn | src/plan.rs:153-163 | every match is in the window asked for at its own rank |
| Pipeline.ComputeSelected | src/plan.rs:61-151 | the loops and calls compute the output that the rows of `OutputFacts` describe |
| Capstone.EveryPlanParses | src/plan.rs:61-151 | the output for every sane source, query, mode, offset and selection is accepted by the parser |
| OutputFacts.OutputCarriesPlan | src/plan.rs:61-151 | what the parser reads is the computed plan: as many highlights with the same role, position, start and end, the same ranges, rows, targets, window and indicators |
| OutputFacts.OutputIsLaid | src/wire.rs:147-196 | the bytes of the output are the plan's numbers, field by field |
| OutputFacts.PositionShowsAndInserts | src/plan.rs:140-148 | at every position one candidate: the characters of its cell's range are those of its text cut to the terminal, and the insertion there is built for it |
| OutputFacts.SpaceIffNothingFollows | src/insert.rs:24-75 | a space follows the inserted word exactly when one is asked for and no suffix or slash does |
| OutputFacts.OutputPrefix | src/plan.rs:69-91 | the common prefix read is the longest that all candidates beginning with the query share, empty without any |
| OutputFacts.OutputMoves | src/layout.rs:313-359 | the window read keeps the requested offset when that shows the selection, and moves no further than it must otherwise |
| OutputFacts.OutputIndicates | src/layout.rs:378-390 | the indicator line read for a position is its number in the whole list, a slash and the list's size, cut to the terminal |
| OutputFacts.OutputSteps | src/layout.rs:551-580 | next and previous read are one away; the first has none before it, and the last goes on exactly when more of the list follows |
| Capstone.EveryStoredPayloadPlans | src/plan.rs:61-151 | the same for every payload a client can store |
| Framing.ConsumeConserves | src/framing.rs:98-196 | input read without error is the completed frames, encoded, plus the unfinished rest |
| Framing.ConsumeAppend | src/framing.rs:98-196 | frames, error and state do not depend on where the input is cut in two |
| Framing.ChunksDoNotMatter | src/framing.rs:98-196 | nor on how it is cut into any number of chunks |
| Framing.AcceptIffEncoded | src/framing.rs:98-220 | a stream is accepted with these frames exactly when it is their encodings, one after another |
| Framing.EncodingIsUnique | src/framing.rs:212-220 | a byte stream encodes at most one list of frames |
| Framing.ErrorIffHopeless | src/framing.rs:98-196 | there is no error exactly while some continuation makes the input a good stream |
| Framing.PoisonedStaysPoisoned | src/framing.rs:186-209 | a poisoned decoder fails on any byte and at the end of input, but not on an empty chunk |
| Framing.Decoder.Feed | src/framing.rs:98-196 | the chunked loop with its bulk payload copy equals reading byte by byte; payload states always want bytes |
| Framing.Decoder.Finish | src/framing.rs:200-209 | only a frame boundary is a clean end; any other state is poisoned |
| Framing.DecodeIffEncoded | src/worker.rs:988-995 | a message decodes to these fields exactly when it is their encoding |
| Framing.DecodeStream | src/worker.rs:988-995 | the first feed error, else the finish error, else the fields |
| Histories.FirstsAreFirst | src/history.rs:83-93 | the window holds each line of the scanned entries once, at its newest position, in order |
| Histories.RunIsNewest | src/history.rs:53-78 | after any writes the capped index is the newest part of the unbounded one, with the same stamp |
| Histories.EvictionIsInvisible | src/history.rs:53-93 | every window is that of the unbounded history |
| Histories.StampsIncrease | src/history.rs:98-103 | accepted stamps strictly increase, the last is the index's, and rejected writes change nothing |
| Histories.WriteInOrder | src/history.rs:53-78 | an accepted write puts its records in front in payload order, an append keeps the old entries behind, and the cap cuts the oldest |
| Histories.WindowLists | src/history.rs:131-145 | each candidate of a window is the line and event number of its entry |
| Histories.WindowIsSane | src/history.rs:117-145 | a window is a source the pipeline can plan |
| Histories.HistoryIndex.Install | src/history.rs:53-63 | an accepted snapshot replaces the entries, newest kept |
| Histories.HistoryIndex.Prepend | src/history.rs:66-78 | an accepted append prepends in payload order, and cannot initialize the index |
| Histories.HistoryIndex.Window | src/history.rs:83-93 | the filter with its set of seen lines computes the window |
| Sessions.IdentifierIsPrinted | src/worker.rs:950-953 | an identifier is the printed form of a positive `i64` and nothing else |
| SessionEvents.SettleShape | src/worker.rs:504-523 | settling writes exactly one event, `plan-ready` exactly when the generation is held |
| SessionEvents.SettleResolves | src/worker.rs:504-523 | settling changes only the input, which waits no longer and remembers the generation it was planned from, if it was |
| SessionEvents.AnswerShape | src/worker.rs:718-770 | an answer never touches the current input, an error changes nothing, a store leaves its generation in a slot |
| SessionEvents.EventsAreOrdered | src/worker.rs:484-606 | over every run: greeting first and once, generations never decrease, highlight first, only a store settles again, and then with an `ok` right before its plan |
| SessionEvents.CaptureAtMostOnce | src/worker.rs:504-523 | at most one `capture-required` for an input, and never after it has settled |
| SessionStores.StoresArePlannedAtOnce | src/worker.rs:399-414 | over every run each store is answered `ok` exactly when it names the current input with a sound payload, and its plan, computed from the slots, follows at once |
| SessionStores.CacheStoreIsShadowed | src/worker.rs:336-350 | a store into the cache slot whose plan is computed from the live slot |
| SessionQuiet.QuietPeriodsRunOut | src/worker.rs:484-496 | over every run an input left alone, with a delay and no held candidates, settles at no reading before its deadline and at the first that is not, or when it is flushed |
| SessionQuiet.InputSettlesAtOnceIff | src/worker.rs:529-557 | an input settles as it is accepted exactly when its delay is zero or its candidates are held |
| SessionHighlights.HighlightsAreAnalyses | src/worker.rs:559-583 | over every run the highlight events are exactly the analyses of accepted buffers against the namespace of the moment |
| SessionReplies.ErrorChangesNothing | src/worker.rs:718-770 | a request answered `error` leaves the session as it was and writes nothing else |
| SessionReplies.StoredIsFound | src/worker.rs:336-350 | after an insert a generation names the stored payload unless the live slot shadows the cache slot |
| SessionReplies.StoreAnswered | src/worker.rs:399-414 | what a store does: superseded, invalid payload, or stored with its plan right behind the `ok` |
| SessionReplies.RepliesAnswerRequests | src/worker.rs:620-770 | over every run the replies carry the ids of the handled requests, one each, in order |
| SessionReplies.HistoryIsItsWrites | src/worker.rs:416-430 | after any messages the history is the run of the history writes among them |
| SessionReplies.PlanSeesWholeHistory | src/worker.rs:463-475 | a `plan` is answered from the unbounded history of the session |
| SessionTiming.CalmRunIsReference | src/worker.rs:620-666 | a run in which no quiet period runs out answers as the session without clock and chunks does |
| SessionTiming.ChunkingIsInvisible | src/worker.rs:620-673 | two such runs over the same bytes write the same and end the same |
| SessionPlans.EveryPlanWrittenParses | src/worker.rs:432-523 | every plan in an event or reply of any run is accepted by the reference parser |
| SessionAnswers.CompletionAnswerShows | src/worker.rs:432-461 | an `ok` answer to a completion parses to a plan of at most the requested rows whose window shows the min(selected, total)-th match |
| SessionAnswers.CompletionAnsweredIff | src/worker.rs:432-461 | a completion is answered `ok` exactly when it names the current input and its candidates are held, and then with the output for the requested offset, screen and selection |
| SessionRequests.RequestIffWritten | src/worker.rs:772-910 | a field list is read as a request exactly when it is that request's written form: every field in its place, canonical and in range |
| SessionRequests.InputIffWritten | src/worker.rs:842-877 | the same for an `input` notification, whose delay starts or skips the quiet period |
| SessionRequests.NamespaceReads | src/worker.rs:807-827 | a snapshot is read back as the sets of its four lists, in their places, and its path |
| SessionRequests.GreetingIff | src/worker.rs:699-716 | the session opens exactly for a greeting with the worker's own hexadecimal stamp; another stamp is told and rejected, anything else is an error |
| Worker.OutputReadsBack | src/worker.rs:997-1006 | a client reading the output gets every event's fields back, in order |
| Worker.Output.WriteMessage | src/worker.rs:997-1006 | a message is its framed fields, framed |
| Worker.CandidateStore.Insert | src/worker.rs:338-340 | one slot is replaced, the other kept |
| Worker.CandidateStore.Find | src/worker.rs:343-349 | the first slot holding the generation |
| Worker.LiveSession.ReplaceNamespace | src/worker.rs:392-397 | a snapshot is replaced whole or not at all |
| Worker.LiveSession.StoreCandidates | src/worker.rs:399-414 | binding is checked before the payload |
| Worker.LiveSession.WriteHistory | src/worker.rs:416-430 | the payload is checked before the generation |
| Worker.LiveSession.CompletionPlan | src/worker.rs:432-461 | a completion for the current input from the generation it settled on |
| Worker.LiveSession.HistoryPlan | src/worker.rs:463-475 | a plan over the window of the generation the index holds |
| Worker.LiveSession.SettleExpired | src/worker.rs:484-496 | one event is written when the input's deadline is not after the clock, and nothing happens otherwise |
| Worker.LiveSession.SettleAgainst | src/worker.rs:504-523 | the input is settled in place with one event |
| Worker.LiveSession.AcceptInput | src/worker.rs:529-557 | an input newer than the current one replaces it, is highlighted, and settles at once if it can |
| Worker.LiveSession.EmitHighlight | src/worker.rs:563-583 | a highlight is sent when a namespace is known, with what the highlighter says of the buffer |
| Worker.LiveSession.AcceptFlush | src/worker.rs:588-606 | a flush settles the pending input it names and is dropped otherwise |
| Worker.LiveSession.ProcessRequest | src/worker.rs:718-770 | one reply for each request, and the settle event of a store behind it |
| Worker.ProcessHello | src/worker.rs:699-716 | ready, incompatible, or a protocol error |
| Worker.ProcessMessage | src/worker.rs:675-697 | one message against handshake and session |
| Worker.DeliverMessages | src/worker.rs:649-661 | messages in order, each behind an expiry that came due, up to the one that ends the session |
| Worker.DeliverChunk | src/worker.rs:643-665 | one chunk is decoded and its messages delivered, and an error of the decoder ends the run behind them |
| Worker.RunSession | src/worker.rs:620-666 | the event loop writes and ends as the state machine does, for every script and clock |
| LexerFacts.LexPartitions | src/syntax.rs:527-642 | lexemes are non-empty, ordered and apart, cover every byte but blanks, and decorations are apart or nested |
| LexerFacts.DoubleKeeps | src/syntax.rs:692-728 | decorations inside a double quote lie inside the quote's own |
| LexerFacts.PlainWordsAreLiteral | src/syntax.rs:493-524 | an unquoted word has a literal exactly when none of its bytes expands, and then it is its own text |
| LexerFacts.OperatorsAreLongest | src/syntax.rs:839-870 | every operator token is the longest operator spelled where it starts |
| Quoting.SingleQuotesKeep | src/syntax.rs:672-690 | text without a single quote reads back from between two of them |
| Quoting.DollarQuotesKeep | src/syntax.rs:730-758 | any bytes read back from a dollar quote that spells them in hexadecimal |
| LexerLocality.StepLocal | src/syntax.rs:527-628 | one turn of the lexer reads nothing past where it stops, wherever the text lies in the buffer |
| LexerLocality.LexSplits | src/syntax.rs:527-642 | if a top-level separator ends at `e`, the lexemes are those of the front and, moved, those of the rest |
| Analysis.SeparatorResets | src/syntax.rs:209-222 | a separator puts the command-position machine back at its start |
| Analysis.AnalysisComposes | src/syntax.rs:193-288 | the analysis is that of the text up to the separator followed by that of the rest, moved |
| Analysis.OneCommandEach | src/syntax.rs:224-269 | between two separators at most one word is looked up as a command, and every word after it is an argument |
| CommandKinds.CommandWordKind | src/syntax.rs:252-265 | the first word of a command that is no redirect target, assignment or wrapper is delivered as reserved, alias, function, builtin, command or unknown, told from the namespace in that order and the file system |
| CommandKinds.WrappedWordKind | src/syntax.rs:231-251 | what a word behind a wrapper is delivered as: a target, an option's value, an option, an assignment, or a name looked up |
| CommandKinds.ArgumentWordKind | src/syntax.rs:266-268 | behind the command's name a word is an option when it looks like one, and a plain word otherwise |
| CommandKinds.EveryWordStands | src/syntax.rs:224-269 | these three are all the words there are |
| CommandKinds.WordTokens | src/syntax.rs:271-287 | behind its own token a word delivers its decorations, and last a path exactly when its literal looks like one and exists |
| CommandKinds.DashesEndNothing | src/syntax.rs:239-245 | `sudo -- -x`, where `-x` is still an option |
| TokenOffsets.BuildOffsets | src/syntax.rs:946-983 | the table built run by run is the one defined character by character |
| TokenOffsets.LexemeSpansAreExact | src/syntax.rs:886-891 | the span of every word and structural token holds exactly its own characters, for any bytes |
| DecorationSpans.EscapeSpanExactIff | src/syntax.rs:644-670 | the span of an escape the lexer marks holds both characters exactly when the escaped one is one byte long |
| DecorationSpans.EscapeBeforeTwoBytes | src/syntax.rs:644-670 | an escape before a two-byte character, delivered with an empty span |
| DecorationSpans.DecorationSpansAreExact | src/syntax.rs:672-792 | the span of every quote and substitution holds exactly its own characters |
| Tokenizer.ScanEscape | src/syntax.rs:644-670 | an escape outside or inside a dollar quote |
| Tokenizer.ScanSingleQuote | src/syntax.rs:672-690 | a single quote, closed or not |
| Tokenizer.ScanDoubleQuote | src/syntax.rs:692-728 | a double quote with its escapes and substitutions |
| Tokenizer.ScanDollarQuote | src/syntax.rs:730-758 | a dollar quote with its escapes |
| Tokenizer.ScanSubstitution | src/syntax.rs:760-792 | a substitution up to its matching bracket, quotes skipped |
| Tokenizer.SkipOver | src/syntax.rs:794-806 | the end of a quote inside a substitution |
| Tokenizer.FlushWord | src/syntax.rs:630-642 | the word under way becomes a token |
| Tokenizer.Tokenize | src/syntax.rs:527-628 | tokens and words together are the lexemes |
| Tokenizer.AnalyzeBuffer | src/syntax.rs:193-288 | the loop over tokens with its five flags yields the tokens that the rows of `CommandKinds` describe |
| TokenFacts.TokensCompose | src/syntax.rs:193-288 | in delivered characters too the tokens are those of the text up to a separator followed by those of the rest, moved |
| TokenFacts.TokensWithinText | src/syntax.rs:886-891 | every delivered span lies inside the text |
| HighlightStream.SerializeHighlights | src/wire.rs:206-220 | the loops write the count and one field for each delivered token |
| HighlightStream.BodyReadsBack | src/wire.rs:206-220 | a reader gets the roles, starts and lengths back, in order |
| HighlightStream.EntriesWithinBuffer | src/wire.rs:206-220 | every delivered entry of an analysed buffer lies inside the buffer |
| Keybind.UserKeysAreProper | src/keybind.rs:126-167 | a user list keeps exactly its valid, unreserved keys, without repeats |
| Keybind.UserListStands | src/keybind.rs:126-167 | a user list stands unless it names no key and something in it was rejected |
| Keybind.DefaultsDisjoint | src/keybind.rs:25-41 | default lists are proper and pairwise disjoint |
| Keybind.CollectAll | src/keybind.rs:125-167 | each action has its default, or its validated list |
| Keybind.FirstCrossDuplicate | src/keybind.rs:189-200 | a key two actions share, or none when all are disjoint |
| Keybind.RevertGroup | src/keybind.rs:168-184 | reverting a key's claimants lowers the number of lists off their default |
| Keybind.Resolve | src/keybind.rs:124-186 | the loop ends with disjoint, proper lists, each default or validated; an action no other challenges keeps its own |

## Left out

- Capstone.EveryPlanParses: assumes at most `i64::MAX` candidates and output bytes, which is the bound of a Rust vector.
- SessionPlans.EveryPlanWrittenParses: assumes messages no longer than a Rust vector can be.
- Sessions.IdentifierIsPrinted: `usize` is 64 bits wide, so conversions between `u64` and `usize` never fail.
- Worker.RunSession: writes to the output always succeed, and the input never fails; I/O errors are not part of this model.
- Worker.LiveSession.EmitHighlight: the highlighter is a parameter; `SessionHighlights.HighlightsAreAnalyses` puts the lexer of this model in its place.
- SessionHighlights.HighlightsAreAnalyses: asks that the session's highlighter is the one of this model, which is a parameter of the session.
- Tokenizer.AnalyzeBuffer: the resolver is a pure predicate; `PathResolver` and its directory cache read the file system.
- Keybind.Resolve: warning texts are not modelled.
- Ranking.RankHolds: the standard library's stable sort is written as a function, not as its in-place algorithm.
- Matching.FuzzySpansHold: the nucleo matcher is a parameter that returns a score and indices.
- Lossy.LossyChars.Next: `str::from_utf8` is written as a function over byte classes; a character is named by its encoding, not by its scalar value.
- Time is a natural number of milliseconds, read from any sequence of clock values.
- `StdinSource`, `select`, the control descriptor's watchdog and process exit: foreign calls.
- Character widths and upper-case tables: parameters; only printable ASCII is taken to be one column wide.
- Saturation of `usize` sums that no vector in memory can reach.
- `src/config.rs`, `src/init.rs`, `src/lib.rs`, `src/main.rs`, command-line parsing and the zsh side: easy members or plumbing.
- Capstone.EveryStoredPayloadPlans: the same bound on the output.
- The words that name events and highlight kinds in messages: tables that no other part of the program reads.
