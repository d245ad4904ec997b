# Beaker's R evaluator and IPython notebook importer, in Dafny

This project models two pieces of the Beaker notebook:

- **The R evaluator** (`RServerEvaluator`). Its job queue hands each submitted piece of R code to a single worker thread. The worker:
  - starts an Rserve session when none is live;
  - sends the code wrapped in `withVisible(try(...))`;
  - classifies the reply: a null reply, then a `try-error`, then a data frame, then visibility;
  - captures printed output, or falls back to the SVG plot the job drew;
  - finishes the job's result object.

  The SVG plot is normalised by `fixSvgResults`. That function:
  - strips empty path data and the XML declaration;
  - inlines every `<use>` glyph reference as a translated `<g>` holding the glyph's `<path>`;
  - cuts the `<defs>` block.
- **The IPython importer** (`notebookConverter` in `file_ipython.js`). It converts the cells of an IPython notebook's first worksheet into Beaker cells and records their ids in the notebook's tag maps.

## Modules

- `Wrappers` (wrappers.dfy): `Option` and `Result`.
- `JavaStrings` (java_strings.dfy): the `java.lang.String` operations the SVG rewrite depends on: `indexOf(pat, from)`, `substring` (which throws when out of range), and `replace`.
- `SvgFix` (svg.dfy): `fixSvgResults`.
  - The regular expression `<use xlink:href="#([^"]+)" x="([^"]+)" y="([^"]+)"/>` is a token pattern with a matcher. The matcher is proved sound and complete against the text the pattern denotes.
  - `Matcher.find()` is the leftmost match.
  - The rewrite loop is the method `FixSvgResults`, proved against the function `FixSvg`.
- `RReply` (rreply.dfy): the Rserve reply (`REXP`) and the three classifiers `isError`, `isVisible` and `isDataFrame`. `isDataFrame` is a method with the source's nested loops over a column array. It is proved equal to the function `DataFrameOf`.
- `Sink` (sink.dfy): the job's `SimpleEvaluationObject`, as a class whose `finished`/`error` calls each replace the status.
- `Worker` (worker.dfy): the queue and the worker loop.
  - The function `JobTrace` states, for one job, how it ends, the writes to its sink in order, and the session state afterwards. Its inputs are the session start, each Rserve call's reply or exception, what the output reader delivers, and the SVG file.
  - The class `Evaluator` carries the job out step by step (`RunOnce`) and proves it matches `JobTrace`.
  - `Run` proves that jobs are taken in submission order.
- `IPythonImport` (ipython.dfy): the cell converters as functions, and `convert` as a method whose loop appends to the notebook.

## Where the code and its description differ (the model follows the code)

- **Strip order.** `fixSvgResults` removes `d=""` first and the XML declaration second (lines 178-179), not the other way round. `SvgFix.Strip` keeps the code's order.
- **The result object is not write-once.** `SimpleEvaluationObject` is not part of this model. The worker calls `error` and then `finished` on the same object (lines 477-484), so the model treats each write as replacing the status (`Sink.Replay`). As a consequence, when finalisation completes, a `dev.off()` failure on an unfinished job is overwritten by the SVG result or by `finished("")` (`Worker.UnfinishedEndsFinished`). When the SVG rewrite throws or never ends, the `dev.off()` error stays the job's status (`Worker.DevOffErrorSurvivesRewriteFailure`). A plot holding a single `<use>` element whose glyph has no `<path` is enough to make the rewrite throw (`Worker.DevOffErrorSurvivesLoneUse`).
- **A job can end without a terminal status.** A `try-error` message shorter than `"Error in try({ : "` makes `substring(0, 17)` throw (line 231). `isError` does not catch that exception. It reaches the loop's catch-all, the job's sink is never written, and the readers stay armed (`Worker.ShortTryErrorEscapes`). A rewrite that throws inside `fixSvgResults` also escapes to the catch-all (line 191 through line 489). It writes nothing itself, so the sink keeps whatever the inner `try` and `dev.off()` wrote before it, the readers stay armed, and the `finished("")` fallback is skipped.
- **Cancelling before any session exists.** The worker's `pid` field starts at Java's default of 0, and `cancelExecution` signals any `pid >= 0` (lines 316-328). So a cancel before the first session start still runs `kill -SIGINT 0` (line 323). For `kill`, pid 0 is not a process number: it means every process in the caller's process group, so the interrupt reaches the evaluator's own process group. A cancel while idle after a successful start signals the Rserve process. Only a startup that fails before the pid is read sets it to -1.
- **Columns of unequal length can still form a table.** When the first column is empty, the row loop never runs (line 282). The lengths of the other columns are then never compared, and the reply is accepted as an empty table (`RReply.DataFrameEmptyFirstColumn`).

## Model

| member | source | states |
|---|---|---|
| JavaStrings.IndexOf | plugin/r/src/main/java/com/twosigma/beaker/r/utils/RServerEvaluator.java:188-190 | `indexOf(pat, from)` answers -1 or an index at or after max(from, 0) where the whole pattern fits in the text |
| JavaStrings.IndexOfFirst | plugin/r/src/main/java/com/twosigma/beaker/r/utils/RServerEvaluator.java:188-190 | indexOf returns the first occurrence at or after max(from, 0), and returns -1 exactly when there is none |
| JavaStrings.IndexOfIs | plugin/r/src/main/java/com/twosigma/beaker/r/utils/RServerEvaluator.java:196-198 | the first occurrence after `from` is what indexOf returns |
| JavaStrings.IndexOfAbsent | plugin/r/src/main/java/com/twosigma/beaker/r/utils/RServerEvaluator.java:196-197 | with no occurrence, indexOf returns -1 |
| JavaStrings.Substring | plugin/r/src/main/java/com/twosigma/beaker/r/utils/RServerEvaluator.java:191-193 | `substring(b, e)` as a partial function: the slice when 0 <= b <= e <= length, and None where Java throws |
| JavaStrings.Replace | plugin/r/src/main/java/com/twosigma/beaker/r/utils/RServerEvaluator.java:178-179 | `replace(target, replacement)` for a non-empty target: scans left to right and substitutes each non-overlapping occurrence |
| JavaStrings.ReplaceAbsent | plugin/r/src/main/java/com/twosigma/beaker/r/utils/RServerEvaluator.java:178-179 | `replace` leaves a text without the target unchanged |
| JavaStrings.ReplaceSkips | plugin/r/src/main/java/com/twosigma/beaker/r/utils/RServerEvaluator.java:178-179 | `replace` copies text before the first occurrence unchanged |
| JavaStrings.ReplaceFirst | plugin/r/src/main/java/com/twosigma/beaker/r/utils/RServerEvaluator.java:178-179 | `replace` substitutes the occurrence indexOf finds first and continues right after it, without overlap |
| SvgFix.NextQuote | plugin/r/src/main/java/com/twosigma/beaker/r/utils/RServerEvaluator.java:177 | a `[^"]+` group extends to the next double quote: the span is quote-free and ends at a quote or at the end of the text |
| SvgFix.MatchTokens | plugin/r/src/main/java/com/twosigma/beaker/r/utils/RServerEvaluator.java:177 | a match captures exactly one non-empty, quote-free text per group and ends inside the text |
| SvgFix.UsePatternShape | plugin/r/src/main/java/com/twosigma/beaker/r/utils/RServerEvaluator.java:177 | the `<use>` pattern has three groups, each followed by a literal that begins with a quote |
| SvgFix.UseRender | plugin/r/src/main/java/com/twosigma/beaker/r/utils/RServerEvaluator.java:177 | the pattern with captures g, x, y denotes `<use xlink:href="#g" x="x" y="y"/>` |
| SvgFix.MatchTokensSound | plugin/r/src/main/java/com/twosigma/beaker/r/utils/RServerEvaluator.java:177 | what the matcher accepts is the pattern's text for its captures, occurring at the start index |
| SvgFix.MatchTokensComplete | plugin/r/src/main/java/com/twosigma/beaker/r/utils/RServerEvaluator.java:177 | any occurrence of the pattern's text for valid captures is matched, with exactly those captures |
| SvgFix.MatchAt | plugin/r/src/main/java/com/twosigma/beaker/r/utils/RServerEvaluator.java:177 | a match at k starts at k, lies inside the text, and has three non-empty quote-free groups |
| SvgFix.MatchAtSound | plugin/r/src/main/java/com/twosigma/beaker/r/utils/RServerEvaluator.java:177 | a match at k is a `<use>` element with its captured glyph, x and y, and ends right after it |
| SvgFix.MatchAtComplete | plugin/r/src/main/java/com/twosigma/beaker/r/utils/RServerEvaluator.java:177 | every `<use>` element with non-empty quote-free attributes is matched where it occurs |
| SvgFix.UseEndsWithTagEnd | plugin/r/src/main/java/com/twosigma/beaker/r/utils/RServerEvaluator.java:177 | a matched `<use>` element is at least 30 characters and ends with `/>` |
| SvgFix.ExpandAt | plugin/r/src/main/java/com/twosigma/beaker/r/utils/RServerEvaluator.java:186-193 | one pass of the loop body: the indexOf / indexOf / indexOf / substring chain that finds the glyph's `<path .../>` and splices the translated `<g>` over the matched span; None where `substring` throws |
| SvgFix.FindUse | plugin/r/src/main/java/com/twosigma/beaker/r/utils/RServerEvaluator.java:182-183 | `find()` reports a match at or after the start, inside the text |
| SvgFix.FindUseLeftmost | plugin/r/src/main/java/com/twosigma/beaker/r/utils/RServerEvaluator.java:182-183 | `find()` returns the leftmost match, and reports none exactly when no position matches |
| SvgFix.ExpandAtFound | plugin/r/src/main/java/com/twosigma/beaker/r/utils/RServerEvaluator.java:186-193 | the `<use>` span is replaced by a translated `<g>` holding the first `<path ... />` after the first occurrence of the glyph id, and the text around it is kept |
| SvgFix.ExpandAtNoPath | plugin/r/src/main/java/com/twosigma/beaker/r/utils/RServerEvaluator.java:189-191 | with no `<path` after the glyph id, `substring(-1, ...)` throws |
| SvgFix.ExpandAtNoTagEnd | plugin/r/src/main/java/com/twosigma/beaker/r/utils/RServerEvaluator.java:190-191 | with no `/>` after the path start, `substring(ps, 1)` throws |
| SvgFix.Step | plugin/r/src/main/java/com/twosigma/beaker/r/utils/RServerEvaluator.java:182-194 | one loop pass: stop when `find()` fails, throw when the expansion throws, and otherwise continue with the rewritten text |
| SvgFix.Iterate | plugin/r/src/main/java/com/twosigma/beaker/r/utils/RServerEvaluator.java:181-194 | a `while (true)` loop over the text, bounded by a number of passes: ends with the text, a throw, or out of passes |
| SvgFix.Inline | plugin/r/src/main/java/com/twosigma/beaker/r/utils/RServerEvaluator.java:181-194 | the `<use>` rewrite loop: `Step` iterated on the text |
| SvgFix.Strip | plugin/r/src/main/java/com/twosigma/beaker/r/utils/RServerEvaluator.java:178-179 | the two deletions in the source's order: empty path data first, then the XML declaration |
| SvgFix.CutDefs | plugin/r/src/main/java/com/twosigma/beaker/r/utils/RServerEvaluator.java:196-200 | cut from the first `<defs>` to just past the first `</defs>`, both searched from the start, when `<defs>` occurs |
| SvgFix.FixSvg | plugin/r/src/main/java/com/twosigma/beaker/r/utils/RServerEvaluator.java:176-203 | fixSvgResults as a function: strip, inline, then cut `<defs>` from a text the loop finished with; a throw or a loop out of passes is passed on |
| SvgFix.FixSvgResults | plugin/r/src/main/java/com/twosigma/beaker/r/utils/RServerEvaluator.java:176-203 | the rewrite loop reassigning the text computes `FixSvg`: strip, inline until no match, then cut `<defs>` |
| SvgFix.InlineLeavesNoUse | plugin/r/src/main/java/com/twosigma/beaker/r/utils/RServerEvaluator.java:181-185 | when the loop ends normally, no `<use>` element with valid attributes remains anywhere in the text |
| SvgFix.IterateDoneStops | plugin/r/src/main/java/com/twosigma/beaker/r/utils/RServerEvaluator.java:181-185 | a `while (true)` loop that exits normally has reached a text on which its step says stop |
| SvgFix.NoUseLeft | plugin/r/src/main/java/com/twosigma/beaker/r/utils/RServerEvaluator.java:182-184 | when `find()` reports nothing, no `<use>` element with non-empty quote-free attributes occurs anywhere |
| SvgFix.InlineUnfold | plugin/r/src/main/java/com/twosigma/beaker/r/utils/RServerEvaluator.java:181-194 | a loop that finished either stopped on this text or expanded the leftmost match and finished from the result with one pass fewer |
| SvgFix.IterateFuelMonotone | plugin/r/src/main/java/com/twosigma/beaker/r/utils/RServerEvaluator.java:181-194 | a loop that ends within a bound ends the same way under any larger bound, so the bound is not observable |
| SvgFix.CutDefsRemovesBlock | plugin/r/src/main/java/com/twosigma/beaker/r/utils/RServerEvaluator.java:196-200 | from the first `<defs>` to the end of the first `</defs>` is removed and nothing else |
| SvgFix.CutDefsAbsent | plugin/r/src/main/java/com/twosigma/beaker/r/utils/RServerEvaluator.java:196-197 | without `<defs>` the text is unchanged |
| SvgFix.CutDefsUnclosed | plugin/r/src/main/java/com/twosigma/beaker/r/utils/RServerEvaluator.java:198-199 | without `</defs>` the end index is -1 + 7, so the text from index 6 is appended after the prefix |
| SvgFix.FixSvgIdentity | plugin/r/src/main/java/com/twosigma/beaker/r/utils/RServerEvaluator.java:176-203 | markup with nothing to strip, inline or cut comes back unchanged |
| SvgFix.LoneUseThrows | plugin/r/src/main/java/com/twosigma/beaker/r/utils/RServerEvaluator.java:186-191 | a document that is one `<use xlink:href="#a" x="1" y="2"/>` element makes the rewrite throw, because no `<path` follows the glyph id |
| RReply.At | plugin/r/src/main/java/com/twosigma/beaker/r/utils/RServerEvaluator.java:227 | `RList.at(i)` is the i-th element in range and null outside it |
| RReply.IsError | plugin/r/src/main/java/com/twosigma/beaker/r/utils/RServerEvaluator.java:225-242 | an error exactly when element 0 is a `try-error`. Its message is the text after the prefix when the text starts with it, and otherwise the whole text. The check throws exactly when the message is shorter than the prefix |
| RReply.IsErrorStripsPrefix | plugin/r/src/main/java/com/twosigma/beaker/r/utils/RServerEvaluator.java:229-233 | a try-error with message prefix + m reports m |
| RReply.IsErrorKeepsUnprefixed | plugin/r/src/main/java/com/twosigma/beaker/r/utils/RServerEvaluator.java:230-235 | a long enough message without the prefix is reported whole |
| RReply.IsErrorShortMessageThrows | plugin/r/src/main/java/com/twosigma/beaker/r/utils/RServerEvaluator.java:231 | a message shorter than the prefix makes the check throw |
| RReply.IsVisible | plugin/r/src/main/java/com/twosigma/beaker/r/utils/RServerEvaluator.java:244-255 | visible only for a list with a second element |
| RReply.IsVisibleRoundTrip | plugin/r/src/main/java/com/twosigma/beaker/r/utils/RServerEvaluator.java:246-247 | the reply of `withVisible` reads back its own visibility flag |
| RReply.IsVisibleMismatch | plugin/r/src/main/java/com/twosigma/beaker/r/utils/RServerEvaluator.java:246-254 | a missing, non-integer or not-length-one flag is treated as invisible |
| RReply.Columns | plugin/r/src/main/java/com/twosigma/beaker/r/utils/RServerEvaluator.java:270-278 | one string array per column |
| RReply.TypeNames | plugin/r/src/main/java/com/twosigma/beaker/r/utils/RServerEvaluator.java:275-276 | one type name per column |
| RReply.Rows | plugin/r/src/main/java/com/twosigma/beaker/r/utils/RServerEvaluator.java:282-291 | as many rows as the first column has entries |
| RReply.DataFrameOf | plugin/r/src/main/java/com/twosigma/beaker/r/utils/RServerEvaluator.java:257-301 | isDataFrame as a function: a named list of columns that all convert to strings, checked for equal length against the first column, gives the column names, the type names and the rows; anything else gives no table |
| RReply.IsDataFrame | plugin/r/src/main/java/com/twosigma/beaker/r/utils/RServerEvaluator.java:257-301 | the nested loops over the column array produce exactly `DataFrameOf`: the same rejections and the same table |
| RReply.RowsTranspose | plugin/r/src/main/java/com/twosigma/beaker/r/utils/RServerEvaluator.java:282-291 | every row has one entry per column, and reading column i down the rows gives back column i |
| RReply.DataFrameShape | plugin/r/src/main/java/com/twosigma/beaker/r/utils/RServerEvaluator.java:257-301 | N named columns of common length M give a table with M rows, the names in order, N type names, and row j column i equal to entry j of column i |
| RReply.DataFrameRejects | plugin/r/src/main/java/com/twosigma/beaker/r/utils/RServerEvaluator.java:260-281 | no names, a null or unconvertible column, or no column at all means no table |
| RReply.DataFrameEmptyFirstColumn | plugin/r/src/main/java/com/twosigma/beaker/r/utils/RServerEvaluator.java:279-292 | an empty first column gives an empty table whatever the other columns' lengths |
| RReply.DataFrameLengthMismatch | plugin/r/src/main/java/com/twosigma/beaker/r/utils/RServerEvaluator.java:282-287 | with a non-empty first column, any column of another length rejects the reply |
| Sink.StatusAfter | plugin/r/src/main/java/com/twosigma/beaker/r/utils/RServerEvaluator.java:445-447 | every write leaves the result object in a terminal state |
| Sink.ReplayLast | plugin/r/src/main/java/com/twosigma/beaker/r/utils/RServerEvaluator.java:459-461 | the status is that of the last write, or unchanged when there is none |
| Sink.ReplayAppend | plugin/r/src/main/java/com/twosigma/beaker/r/utils/RServerEvaluator.java:463-484 | writes in two batches act as the writes in one |
| Sink.NoRegression | plugin/r/src/main/java/com/twosigma/beaker/r/utils/RServerEvaluator.java:481-484 | a written result object never returns to pending |
| Sink.OutputSink.constructor | plugin/r/src/main/java/com/twosigma/beaker/r/utils/RServerEvaluator.java:103 | a new result object is pending |
| Sink.OutputSink.Finish | plugin/r/src/main/java/com/twosigma/beaker/r/utils/RServerEvaluator.java:445 | `finished(value)` makes the status Finished with that value |
| Sink.OutputSink.Error | plugin/r/src/main/java/com/twosigma/beaker/r/utils/RServerEvaluator.java:466-468 | `error(message)` makes the status Errored with that message |
| Worker.Classify | plugin/r/src/main/java/com/twosigma/beaker/r/utils/RServerEvaluator.java:443-462 | the first test that applies decides: null, then try-error (error before table), then data frame (before visibility), then visible or not, each as an if-and-only-if on the reply |
| Worker.RserveError | plugin/r/src/main/java/com/twosigma/beaker/r/utils/RServerEvaluator.java:463-470 | return code 127 reports "Interrupted", any other code the exception's message |
| Worker.EvaluationPhase | plugin/r/src/main/java/com/twosigma/beaker/r/utils/RServerEvaluator.java:431-471 | the inner `try`: the SVG device call, the eval, the classification in its order of tests, the capture, and the RserveException handler; the writes, `isfinished`, and an escape or a hang |
| Worker.DevOffWrites | plugin/r/src/main/java/com/twosigma/beaker/r/utils/RServerEvaluator.java:474-479 | a failing `dev.off()` writes its error only for an unfinished job |
| Worker.Finalisation | plugin/r/src/main/java/com/twosigma/beaker/r/utils/RServerEvaluator.java:473-484 | dev.off(), then addSvgResults, then the `finished("")` fallback for an unfinished job; a throwing SVG rewrite escapes and an endless one hangs |
| Worker.Connect | plugin/r/src/main/java/com/twosigma/beaker/r/utils/RServerEvaluator.java:330-394 | the session start when no connection exists: pid -1 first, then the three startup outcomes; a live connection is kept |
| Worker.SessionTrace | plugin/r/src/main/java/com/twosigma/beaker/r/utils/RServerEvaluator.java:431-487 | a job on a live session: the inner `try`, then finalisation unless the job escaped or hung |
| Worker.JobTrace | plugin/r/src/main/java/com/twosigma/beaker/r/utils/RServerEvaluator.java:400-492 | one pass of the worker loop for a polled job: the startup failure path, or the session trace; its end, the sink writes in order, the session and pid afterwards, and whether the readers are disarmed |
| Worker.FinalStatus | plugin/r/src/main/java/com/twosigma/beaker/r/utils/RServerEvaluator.java:400-492 | the status of the job's result object after the pass: the writes of `JobTrace` replayed on its status when polled |
| Worker.NullReplyFinishesEmpty | plugin/r/src/main/java/com/twosigma/beaker/r/utils/RServerEvaluator.java:443-446 | a null reply finishes the job with "" |
| Worker.CaughtErrorReported | plugin/r/src/main/java/com/twosigma/beaker/r/utils/RServerEvaluator.java:447-448 | an R error with message m fails the job with m, even if the rest of the reply looks like a table |
| Worker.ShortTryErrorEscapes | plugin/r/src/main/java/com/twosigma/beaker/r/utils/RServerEvaluator.java:489-491 | a short try-error escapes to the catch-all: no write, the sink keeps its status, and the readers stay armed |
| Worker.TableFinishes | plugin/r/src/main/java/com/twosigma/beaker/r/utils/RServerEvaluator.java:449-451 | a data frame finishes the job with its table |
| Worker.CapturedTextFinishes | plugin/r/src/main/java/com/twosigma/beaker/r/utils/RServerEvaluator.java:454-461 | a visible value finishes with the text the output reader delivers |
| Worker.RserveFailureReported | plugin/r/src/main/java/com/twosigma/beaker/r/utils/RServerEvaluator.java:463-470 | a failed evaluation call fails the job with "Interrupted" for code 127 and with the message otherwise |
| Worker.FinalisedIsTerminal | plugin/r/src/main/java/com/twosigma/beaker/r/utils/RServerEvaluator.java:472-484 | every job that reaches finalisation ends Finished or Errored |
| Worker.UnfinishedEndsFinished | plugin/r/src/main/java/com/twosigma/beaker/r/utils/RServerEvaluator.java:474-484 | a job unfinished after evaluation ends Finished when finalisation completes (end == Finalised), even after a dev.off() error |
| Worker.PlotFinishesWithSvg | plugin/r/src/main/java/com/twosigma/beaker/r/utils/RServerEvaluator.java:480-483 | an unfinished job whose SVG file is non-empty and whose rewrite ends with markup t finishes with t, even after a dev.off() error |
| Worker.NoPlotFinishesEmpty | plugin/r/src/main/java/com/twosigma/beaker/r/utils/RServerEvaluator.java:480-483 | an unfinished job with a missing, empty or unreadable SVG file finishes with "", even after a dev.off() error |
| Worker.DevOffErrorSurvivesRewriteFailure | plugin/r/src/main/java/com/twosigma/beaker/r/utils/RServerEvaluator.java:474-491 | an unfinished job whose `dev.off()` fails and whose SVG rewrite throws or never ends keeps the dev.off() error as its status, and escapes or hangs |
| Worker.DevOffErrorSurvivesLoneUse | plugin/r/src/main/java/com/twosigma/beaker/r/utils/RServerEvaluator.java:474-491 | the previous case is reachable: an invisible value whose plot is the lone `<use>` element ends Errored with the dev.off() message and escapes |
| Worker.StartupFailureRetries | plugin/r/src/main/java/com/twosigma/beaker/r/utils/RServerEvaluator.java:413-417 | a failed start errors the job with "... R language backend failed!" and leaves no session, so the next job starts one again |
| Worker.EarlyStartupFailureClearsPid | plugin/r/src/main/java/com/twosigma/beaker/r/utils/RServerEvaluator.java:330-334 | a start that fails before the pid is read leaves pid -1 |
| Worker.SessionKept | plugin/r/src/main/java/com/twosigma/beaker/r/utils/RServerEvaluator.java:413 | a job on a live session keeps the session and the pid |
| Worker.Evaluator.constructor | plugin/r/src/main/java/com/twosigma/beaker/r/utils/RServerEvaluator.java:303-314 | no job, no permit, no session, pid 0, readers disarmed |
| Worker.Evaluator.Evaluate | plugin/r/src/main/java/com/twosigma/beaker/r/utils/RServerEvaluator.java:103-108 | the job is appended at the back of the queue with one more permit, and nothing else changes |
| Worker.Evaluator.CancelExecution | plugin/r/src/main/java/com/twosigma/beaker/r/utils/RServerEvaluator.java:316-328 | the pid is signalled exactly when not on Windows and pid >= 0 |
| Worker.Evaluator.Exit | plugin/r/src/main/java/com/twosigma/beaker/r/utils/RServerEvaluator.java:96-101 | the exit flag is set, the cancel is sent, and one permit is released |
| Worker.Evaluator.RunOnce | plugin/r/src/main/java/com/twosigma/beaker/r/utils/RServerEvaluator.java:400-492 | one loop pass takes a permit and polls the head of the queue. The job's sink ends as `JobTrace` says, and so do the session, pid, readers and hang state. An empty queue changes nothing but the permit |
| Worker.Evaluator.Poll | plugin/r/src/main/java/com/twosigma/beaker/r/utils/RServerEvaluator.java:406-411 | `acquire` takes one permit and `poll` removes the head of the queue and records it as started. An empty queue yields nothing and keeps the queue |
| Worker.Evaluator.RunPolled | plugin/r/src/main/java/com/twosigma/beaker/r/utils/RServerEvaluator.java:413-487 | for the polled job, the session is started if there is none, the readers are armed, and the sink, session, pid, readers and hang state end as `JobTrace` says |
| Worker.RunJob | plugin/r/src/main/java/com/twosigma/beaker/r/utils/RServerEvaluator.java:431-484 | on a live session, the inner try and then finalisation (skipped when the job escaped or hung) leave the sink as `SessionTrace` says |
| Worker.Evaluator.Run | plugin/r/src/main/java/com/twosigma/beaker/r/utils/RServerEvaluator.java:400-412 | the jobs run are a prefix of the queue in submission order (FIFO), and the rest stay queued |
| Worker.Evaluator.StartSession | plugin/r/src/main/java/com/twosigma/beaker/r/utils/RServerEvaluator.java:330-394 | pid -1 first; then a session with its pid, no session with pid -1, or no session with the pid already read |
| Worker.DeliverCapture | plugin/r/src/main/java/com/twosigma/beaker/r/utils/RServerEvaluator.java:459-460 | the readers' writes are applied in order |
| Worker.EvaluateJob | plugin/r/src/main/java/com/twosigma/beaker/r/utils/RServerEvaluator.java:431-470 | the inner try writes and finishes as `EvaluationPhase` says, including the escape and the stalled capture |
| Worker.AddSvgResults | plugin/r/src/main/java/com/twosigma/beaker/r/utils/RServerEvaluator.java:205-223 | a non-empty SVG file finishes the job with the rewritten markup. A missing or unreadable file changes nothing. A rewrite that throws escapes |
| Worker.Finalise | plugin/r/src/main/java/com/twosigma/beaker/r/utils/RServerEvaluator.java:472-484 | dev.off(), then the SVG result, then the `finished("")` fallback, as `Finalisation` says |
| IPythonImport.ConcatSnoc | core/src/main/web/plugin/menu/file_ipython.js:36 | appending a line appends its text and its length |
| IPythonImport.JoinEmptySeparator | core/src/main/web/plugin/menu/file_ipython.js:36 | `join('')` is the plain concatenation of the lines |
| IPythonImport.JoinLength | core/src/main/web/plugin/menu/file_ipython.js:77-78 | a join of n lines holds their characters and n - 1 separators |
| IPythonImport.Join | core/src/main/web/plugin/menu/file_ipython.js:36 | `Array.join(sep)` on a list of strings: the strings with `sep` between neighbours |
| IPythonImport.ConvertCodeCell | core/src/main/web/plugin/menu/file_ipython.js:24-55 | a code cell for the IPython evaluator with id "code" + generated id |
| IPythonImport.CodeOutput | core/src/main/web/plugin/menu/file_ipython.js:38-52 | the output of a converted code cell from `outputs[0]` alone: "Text" with `text[0]` for pyout with text, "Image" with an ImageIcon for display_data with png, nothing set otherwise, and result "" with no outputs |
| IPythonImport.CodeInputBody | core/src/main/web/plugin/menu/file_ipython.js:35-37 | the body is the input lines concatenated with no separator, or "" |
| IPythonImport.CodeOutputFirstOnly | core/src/main/web/plugin/menu/file_ipython.js:38-39 | only `outputs[0]` affects the converted cell |
| IPythonImport.CodeOutputCases | core/src/main/web/plugin/menu/file_ipython.js:38-52 | pyout with text gives "Text" and `text[0]`; display_data with png gives "Image" and an ImageIcon; any other first output sets nothing; no outputs give result "" |
| IPythonImport.ConvertMarkDownCell | core/src/main/web/plugin/menu/file_ipython.js:57-69 | a markdown cell in preview mode with id "markdown" + generated id |
| IPythonImport.ConvertRawCell | core/src/main/web/plugin/menu/file_ipython.js:71-81 | a text cell with id "text" + generated id |
| IPythonImport.ConvertHeadingCell | core/src/main/web/plugin/menu/file_ipython.js:83-94 | a section cell with an empty body and id "section" + generated id |
| IPythonImport.Separators | core/src/main/web/plugin/menu/file_ipython.js:64-91 | markdown joins with "", raw with " ", and a heading title with "\n". The title is set only when there is source, and the level is copied |
| IPythonImport.ConvertCell | core/src/main/web/plugin/menu/file_ipython.js:133-145 | exactly the four recognised types convert, each to its own kind, with id = its `type` + the generated id |
| IPythonImport.NewBeakerNotebook | core/src/main/web/plugin/menu/file_ipython.js:96-124 | beaker "2", evaluators Html, Latex and IPython, and no cells or tags |
| IPythonImport.Ids | core/src/main/web/plugin/menu/file_ipython.js:148-149 | one id per cell, in order |
| IPythonImport.Recognised | core/src/main/web/plugin/menu/file_ipython.js:133-151 | the input cells of the four recognised types, in order |
| IPythonImport.Converted | core/src/main/web/plugin/menu/file_ipython.js:133-151 | each recognised cell converted, in order, the k-th with the k-th generated id |
| IPythonImport.RecognisedAppend | core/src/main/web/plugin/menu/file_ipython.js:133-151 | dropping unrecognised cells keeps the order of the rest |
| IPythonImport.RecognisedMembers | core/src/main/web/plugin/menu/file_ipython.js:133-151 | a cell is kept exactly when it is in the input and of a recognised type |
| IPythonImport.ConvertedIsFilterMap | core/src/main/web/plugin/menu/file_ipython.js:133-151 | the k-th output cell is the k-th recognised input cell converted with the k-th generated id |
| IPythonImport.Convert | core/src/main/web/plugin/menu/file_ipython.js:127-153 | fails exactly when there is no first worksheet or it has no `cells` array (the TypeErrors of `worksheets[0].cells.forEach`). Otherwise the cells are the converted recognised cells, `tagMap.root` and `tagMap2.IPython` are their ids in order, and the rest of the fresh notebook, `initialization` included, is untouched |

## Left out

- Process lifecycle: launching Rscript, filtering the environment, reading the readiness banner, and `destroy`/`waitFor`/`shutdown`. The session start is an input (`Worker.Startup`): it starts with a pid, fails before the pid is read, or fails after it.
- HTTP and files: the port request to the core, the Rserve script and password files, deleting the old SVG file, and reading the new one. The SVG file is an input (`Worker.Artifact`).
- A `makeTemp` failure while naming the SVG file (line 423) is not modelled. It would escape to the catch-all like a short try-error.
- Concurrency: `jobQueue` and the semaphore are a sequence and a permit count. `evaluate`, `cancelExecution` and `exit` run between worker passes, not during one. The shutdown after the loop ends (lines 493-500) is not modelled.
- Readers: the output and error readers write to the armed sink only during the capture wait, and those writes are an input (`Worker.Capture`). Error-stream lines that arrive at other times are not modelled.
- Foreign conversions: the REngine `asStrings()` coercion and `objSerializer.convertType` are parameters (`RReply.Coercions`).
- R values: R values are lists, strings, integers (logicals included), null and try-errors. A try-error is its message string.
- `SimpleEvaluationObject` is not part of this model. Each `finished`/`error` call replaces the status, which is what the worker's own use of it implies.
- Logging and `console.warn`.
- SvgFix.FixSvgResults: the source loop has no bound. The model allows `fuel` passes and reports `OutOfFuel` beyond that; the worker treats it as a hang. `SvgFix.IterateFuelMonotone` shows the bound never changes an outcome that ends.
- Worker.Evaluator.Run: states the submission order and what stays queued, not each job's sink status; `Worker.Evaluator.RunOnce` states that per job.
- IPythonImport: JSON fields are arrays or absent. A string `text` (whose `[0]` is its first character) or a string `source` (which has no `join`) is not modelled. `bkHelper.generateId(6)` is the parameter `gen`. The k-th generated id goes to the k-th converted cell.
- IPythonImport.Convert: a `null` cell (line 135) and a `null` `outputs[0]` of a code cell (line 40) make the source throw a TypeError; here cells and outputs are always objects, so those two failures are not modelled.
- IPythonImport: the import menu, `JSON.parse` and `setNotebookImporter` (file_ipython.js lines 157-201) are user-interface code.
