# Verified models of hiveloom's core

This project models the parts of hiveloom whose correctness is hardest to see from one function at a time, and
proves what they promise.

- **Resumable evals.** `EvalCell`, `EvalMatrix`, `EvalMachine`, `EvalGuarantees`, `EvalReplay`, `EvalCompletion` and
  `EvalRunner`. The runner is a state machine of lock sections, saves, calls, scorings and crashes; a history is any
  sequence of such steps, over any number of sessions. The theorems are about all histories: bounded billing, no second
  execution of a finished run, completion that is final, results that do not depend on crashes or on calls that raise,
  and completion under every schedule of the worker pool. The class `Runner` has the source's loops, and each of its
  methods is shown to take steps of that machine. The model's clock, network and providers are the arguments of the
  steps.
- **Metrics of a resumed eval.** `MetricStore` is the transaction that records metric rows; `EvalIngestion` sets the
  machine beside that store and says exactly when a crash shows in the counts a cell records; `EvalRescoring` is a
  history in which it does.
- **Line diff.** The in-place table, the walk and the folding of the workbench's diff, with an independent notion of
  common subsequence, of edit script and of what a folded script shows.
- **Ranked retrieval.** nDCG, recall and hallucination rate, with the rearrangement argument behind their bounds, and
  exactly when an answer can break them.
- **Egress redaction.** `Egress`, `EgressExact`, `EgressPlaces` and `EgressFilter`: the recursive rewriting of requests
  with overlapping paths, what it leaves at every place of a request, idempotence with its exact condition for every
  filter, and that nothing counted means nothing changed.
- **Forks.** `ForkNotes`, `ForkCarry`, `ForkResume` and `ForkPaths`: replay of notes as last-write-wins; carrying notes
  and spilled results as a partition bound to digests; resuming from what was carried, so that a line of forks holds
  what one run would; where forks live.
- **Confinement.** The bounded head-and-tail capture, the bubblewrap mount list under the rule that the last covering
  mount decides, and the quoting of Seatbelt literals.
- **Construction.** Path setting and deletion on the spec tree with what every other path then reads, singleton
  guardrails, removal from list sections, and the commit that validates or rolls back.
- **Playbooks, delegation, paired reports, JSON paths.** Gates that cannot trap a run; chains that cannot loop and
  budgets over whole trees of runs; comparison arithmetic that mirrors when the evals are exchanged; a parser that
  decides its grammar and extraction with an independent meaning.

`Options`, `Decimal` and `Json` are shared: an optional value, decimal numerals, and JSON-like data whose dictionaries
keep their order.

Where code and documentation disagree the models follow the code, and the lists below say so. Some promises of the
source turn out to hold only under a condition, and the condition is proved to be exact: idempotence of redaction, nDCG
as a ratio, forks as siblings, notes that survive a fork, ingestion counts that do not depend on crashes, and the depth
limit and the budget of a delegation tree.

To check the project, run `dafny verify dfyconfig.toml` in this directory. `{:induction false}` stands on every lemma,
recursive or not, for which Dafny would otherwise add an induction hypothesis of its own, so that no proof rests on one.

## Model

| member | source | states |
|---|---|---|
| `EvalCells.EvalCell.Load` | src/hiveloom/eval_runner.py:153-157 | a loaded cell holds exactly what the manifest says |
| `EvalCells.EvalCell.BeginAttempt` | src/hiveloom/eval_runner.py:433-445 | starting an attempt counts it, names it and its trace, and appends its id, before anything is executed; all else of the cell stays |
| `EvalCells.EvalCell.ApplyResult` | src/hiveloom/eval_runner.py:331-351 | a result marks the cell `ran` with the run's status and trace; with an execution envelope the model, fingerprint, duration, cost and source are the envelope's, without one the duration and cost are the run's and the rest stays |
| `EvalCells.EvalCell.ApplyScoring` | src/hiveloom/eval_runner.py:383-392 | scoring marks the cell `completed` with the scorer's status and records the ingestion, or that the trace was disabled and how many metrics there were; all else stays |
| `EvalCells.EvalCell.FailInfrastructure` | src/hiveloom/eval_runner.py:453-459 | a failed call is recorded with its phase and kind and nothing else of the cell changes |
| `EvalCells.EvalCell.FailScoring` | src/hiveloom/eval_runner.py:419-424 | a failed scorer is recorded beside the run; the cell stays `ran` |
| `EvalCells.ResultIsRecorded` | src/hiveloom/eval_runner.py:331-351 | field by field, what the specification of a result records, so that cost and duration have the right source in every theorem over it |
| `EvalCells.ScoringIsRecorded` | src/hiveloom/eval_runner.py:383-392 | the same for a scoring |
| `EvalCells.RunIdInjective` | src/hiveloom/eval_runner.py:435-437 | different attempts, and attempts of cells with different base ids, never share a run id |
| `EvalCells.TracePathInjective` | src/hiveloom/eval_runner.py:439 | different runs never share a trace path |
| `EvalCells.AttemptIdsDistinct` | src/hiveloom/eval_runner.py:438 | the recorded attempt ids never repeat |
| `EvalMatrix.BuildCells` | src/hiveloom/eval_runner.py:232-267 | the cells are the matrix of the cases sorted by key and the repetitions, each with its digests, and building fails exactly when two cases share a key |
| `EvalMatrix.ByKeyAscends` | src/hiveloom/eval_runner.py:235-237 | the sorted cases stand in the order of their keys: of two keys the earlier ends first or has the lesser character where they first differ |
| `EvalMatrix.ByKeyPermutes` | src/hiveloom/eval_runner.py:235-237 | sorting loses and adds no case |
| `EvalMatrix.ByKeyKeys` | src/hiveloom/eval_runner.py:235-240 | sorting neither makes nor hides two cases with one key |
| `EvalMatrix.EachPairOnce` | src/hiveloom/eval_runner.py:241-266 | every case and repetition has one cell, at the place its two indexes give, with the digests of that case and repetition |
| `EvalMatrix.ValidExactlyWhenShortIdsDiffer` | src/hiveloom/eval_runner.py:247-265 | run ids of different cells differ exactly when the twelve characters kept of their digests do |
| `EvalMatrix.Summarize` | src/hiveloom/eval_runner.py:122-133 | the counts by status add up to the total, and the completed ones reach it exactly when every cell is completed |
| `EvalMatrix.CountIsByStatus` | src/hiveloom/eval_runner.py:122-133 | each count is the number of cells with its status |
| `EvalMachine.StepFrame` | src/hiveloom/eval_runner.py:395-483 | what one step can do to what lasts: save a cell as memory has it, call from one point only, add one trace |
| `EvalMachine.RunConcat` | src/hiveloom/eval_runner.py:490-528 | a history after a history is the longer history |
| `EvalMachine.OnceEachBound` | src/hiveloom/eval_runner.py:431-448 | attempts started once each, none above a bound, are at most that many |
| `EvalMachine.WorkerStepPreservesCell` | src/hiveloom/eval_runner.py:395-483 | every worker step keeps the cell invariant between memory, disk and calls made |
| `EvalMachine.NextInv` | src/hiveloom/eval_runner.py:395-528 | every step of any worker, save or crash keeps the invariant |
| `EvalMachine.RunInv` | src/hiveloom/eval_runner.py:395-528 | the invariant holds after every history |
| `EvalGuarantees.Continue` | src/hiveloom/eval_runner.py:613-640 | resuming after a history continues it: the whole is one history |
| `EvalGuarantees.Reachable` | src/hiveloom/eval_runner.py:490-528 | every history leads to a state that satisfies the invariant |
| `EvalGuarantees.BoundedBilling` | src/hiveloom/eval_runner.py:431-448 | over every interleaving, crash and resume, a cell is executed at most `retries + 1` times, at most once per attempt, and never more often than the saved manifest admits; the saved ids are one per attempt, none twice |
| `EvalGuarantees.CompletedIsFinal` | src/hiveloom/eval_runner.py:500-503 | a cell saved as completed is never changed, executed or scored again |
| `EvalGuarantees.CompletedManifest` | src/hiveloom/eval_runner.py:522-527 | the manifest is saved as completed exactly when every cell is |
| `EvalGuarantees.NextTraces` | src/hiveloom/eval_runner.py:270-303 | a step that keeps the trace of a cell leaves only the latest attempt of that cell with a finished one, whatever becomes of other cells' traces |
| `EvalGuarantees.KeptRunTraces` | src/hiveloom/eval_runner.py:403-476 | the same over every history that keeps the trace of that cell |
| `EvalGuarantees.FinishedIsLatest` | src/hiveloom/eval_runner.py:403-407 | a finished trace belongs to the latest attempt, and no worker stands where it could start another |
| `EvalGuarantees.FinishedIsNeverRerun` | src/hiveloom/eval_runner.py:403-429 | once the saved manifest points at a finished trace, no later step of any history that keeps this cell's trace executes the cell |
| `EvalGuarantees.OneFinishedAttempt` | src/hiveloom/eval_runner.py:449-476 | at most one attempt of a cell whose own trace is kept ever finishes |
| `EvalReplay.HistoryAgrees` | src/hiveloom/eval_runner.py:331-476 | with a deterministic run and scorer status for each cell, the run status, receipt and scorer status recorded at any moment agree with them, in every history: calls and scorers may raise, traces may be disabled, lost or unfinished, runs may be scored again |
| `EvalReplay.CompletedAsAnswered` | src/hiveloom/eval_runner.py:383-392 | the fields of a completed cell are those of an attempt's answer that nothing interrupted: its run status, its scorer status, and model, fingerprint, duration, cost and source from its envelope, or duration and cost from the run without one |
| `EvalReplay.CrashesDoNotChangeResults` | src/hiveloom/eval_runner.py:613-640 | two histories that complete the matrix, with whatever crashes, resumes, raised calls and repeated scorings in either, record the same run status, receipt and scorer status for every cell |
| `MetricStore.Deduplicated` | src/hiveloom/logging/hive.py:2097-2109 | a batch is consistent exactly when no key is used for two different rows; the rest of its rows are duplicates of one kept row |
| `MetricStore.Hive.CheckRows` | src/hiveloom/logging/hive.py:2111-2134 | a batch may go in exactly when every row is for an indexed run of this harness and no key is taken by a different row; then its rows already there are counted |
| `MetricStore.Hive.InsertRows` | src/hiveloom/logging/hive.py:2136-2146 | the rows whose keys are new are added and counted, and nothing else changes |
| `MetricStore.Hive.RecordMetrics` | src/hiveloom/logging/hive.py:2089-2151 | all or nothing: either the store has every row and the counts say how many were new, or it is as it was |
| `MetricStore.SameKeySameRow` | src/hiveloom/logging/hive.py:2099-2109 | a batch is consistent exactly when rows with one key are the same |
| `MetricStore.RecordedAgain` | tests/test_metrics.py:110-122 | recording a batch again changes nothing and counts every row as a duplicate |
| `MetricStore.StoreGrowsByInserted` | src/hiveloom/logging/hive.py:2136-2151 | the store keeps what it had and grows by exactly what is counted as inserted; inserted and duplicates add up to what was received |
| `MetricStore.RecordedInParts` | src/hiveloom/logging/hive.py:2089-2151 | recording two batches one after the other is recording them as one: the same store, the counts added up, and the same batches refused |
| `EvalIngestion.WorldIsHistory` | src/hiveloom/eval_runner.py:354-380 | the machine beside a metric store goes through histories of the machine, so everything above holds of it |
| `EvalIngestion.CommitAnswers` | src/hiveloom/evals.py:467-471 | the first commit of a run answers what it would have answered at the start, a later one counts every row as a duplicate |
| `EvalIngestion.WorldHolds` | src/hiveloom/eval_runner.py:354-429 | over every history with crashes between the commit and the save, the store has what it had, the rows of the committed runs and nothing else, and every completed cell records what the store answered |
| `EvalIngestion.IngestionExactlyWhenCommittedOnce` | src/hiveloom/eval_runner.py:383-392 | a completed cell records the ingestion counts of an undisturbed scoring exactly when its run was committed once, or had no trace, or none of its rows were new; committed more often, it records every row as a duplicate |
| `EvalIngestion.CompletedMetricsAreStored` | src/hiveloom/eval_runner.py:361-371 | whatever crashed, the rows of a completed cell whose run kept its trace are in the store |
| `EvalIngestion.StoreDependsOnRunsAlone` | src/hiveloom/logging/hive.py:2092-2096 | the store does not depend on crashes: the same runs committed, however often, leave the same rows |
| `EvalRescoring.CrashAfterCommit` | src/hiveloom/eval_runner.py:425-429 | the failing history, for any run and rows: executed once, committed, killed before the save, resumed and scored again, the cell records every row as a duplicate |
| `EvalCompletion.ScheduledCellCompletes` | src/hiveloom/eval_runner.py:507-521 | under every schedule of the worker pool a scheduled cell completes if its own worker is not killed, its scorer does not raise, and its calls raise less often than it has attempts left, whatever happens to other cells |
| `EvalCompletion.EveryScheduleCompletes` | src/hiveloom/eval_runner.py:490-528 | so under every schedule the session saves the manifest as completed when that holds of every unfinished cell |
| `EvalRunner.Runner.Resume` | src/hiveloom/eval_runner.py:613-640 | a resumed process starts from the saved manifest, with fresh cells in memory |
| `EvalRunner.Runner.SaveManifest` | src/hiveloom/eval_runner.py:160-171 | one save replaces the whole manifest by what memory holds |
| `EvalRunner.Runner.RecoverCell` | src/hiveloom/eval_runner.py:403-414 | a finished trace is taken over as the result; a lost one is reported; either way this is steps of the machine |
| `EvalRunner.Runner.BeginAttempt` | src/hiveloom/eval_runner.py:433-446 | the attempt is on disk before the call |
| `EvalRunner.Runner.Execute` | src/hiveloom/eval_runner.py:447-448 | the call is entered once, and may leave a finished trace under the attempt's own path |
| `EvalRunner.Runner.RecordCall` | src/hiveloom/eval_runner.py:447-462 | a call that raised but left a finished trace counts as its result, which the cell then records; otherwise the failure is recorded |
| `EvalRunner.Runner.CallOnce` | src/hiveloom/eval_runner.py:447-463 | one call and the save of how it ended are steps of the machine; it starts the cell exactly once, and the cell then records the result or the failure |
| `EvalRunner.Runner.AttemptOnce` | src/hiveloom/eval_runner.py:432-463 | one round of the retry loop is steps of the machine and uses one attempt |
| `EvalRunner.Runner.RetryLoop` | src/hiveloom/eval_runner.py:431-476 | the loop ends with a result or with the attempts used up, and then the last call had raised |
| `EvalRunner.Runner.GiveUp` | src/hiveloom/eval_runner.py:477-483 | only a cell a crash left running is marked interrupted |
| `EvalRunner.Runner.ScoreCell` | src/hiveloom/eval_runner.py:416-429 | scoring completes the cell, or leaves it `ran` with the error |
| `EvalRunner.Runner.ObtainResult` | src/hiveloom/eval_runner.py:403-463 | the result scored is the recovered one when there is one; the cell is executed exactly when there is none and an attempt is left |
| `EvalRunner.Runner.RunOneCell` | src/hiveloom/eval_runner.py:395-483 | a worker's whole run: steps of the machine; executes exactly when no finished trace is recorded and an attempt is left; otherwise scores that trace and does nothing else; a cell it completes records the status of its run and of its scorer |
| `EvalRunner.Unfinished` | src/hiveloom/eval_runner.py:500-501 | the submitted cells are exactly the unfinished ones, in manifest order |
| `EvalRunner.Eligible` | src/hiveloom/eval_runner.py:500-503 | a session takes the first of them, as many as the limit allows |
| `EvalRunner.Runner.RunWorkers` | src/hiveloom/eval_runner.py:507-521 | all submitted cells are worked on, nothing else changes, and each completes for which some attempt it has left returns and whose scorers answer, whatever happens to the others |
| `EvalRunner.Runner.OpenSession` | src/hiveloom/eval_runner.py:505-506 | the running status is saved before any worker starts |
| `EvalRunner.Runner.CloseSession` | src/hiveloom/eval_runner.py:522-528 | the final status is saved and says whether every cell completed |
| `EvalRunner.Runner.RunPending` | src/hiveloom/eval_runner.py:490-528 | a session is one history of the machine, from the loaded manifest to the saved final status; each submitted cell completes that can, and without a limit the matrix does when every unfinished cell can |
| `LineDiff.LcsIsUpperBound` | devtools/ui/src/diff.ts:15-21 | no common subsequence of two suffixes is longer than the table entry |
| `LineDiff.LcsIsReached` | devtools/ui/src/diff.ts:15-35 | some common subsequence is exactly that long: the lines the walk keeps |
| `LineDiff.FillTable` | devtools/ui/src/diff.ts:16-21 | the in-place table holds, at every entry, the longest common subsequence of the suffixes |
| `LineDiff.FillRow` | devtools/ui/src/diff.ts:17-20 | one row of the table, from the row below |
| `LineDiff.ScriptIsCorrect` | devtools/ui/src/diff.ts:22-37 | the script's old side is the first text and its new side the second |
| `LineDiff.ScriptIsMinimal` | devtools/ui/src/diff.ts:22-37 | no script from one text to the other changes fewer lines |
| `LineDiff.Walk` | devtools/ui/src/diff.ts:22-37 | the loops emit that script |
| `LineDiff.ScriptDeletesFirst` | devtools/ui/src/diff.ts:24-35 | no insertion of the script is directly followed by a deletion |
| `LineDiff.Fold` | devtools/ui/src/diff.ts:39-49 | the output is the script with each maximal run of lines farther than the context from every change replaced by one mark, and each other line as it is |
| `LineDiff.UnfoldedExactlyNearChange` | devtools/ui/src/diff.ts:39-49 | a line stands in a folded script unfolded, at its own place in the order, exactly when some changed line before or after it is within the context |
| `LineDiff.FoldedFolds` | devtools/ui/src/diff.ts:39-49 | what the loop computes is such a folding, with the place of every entry |
| `LineDiff.FoldKeepsChanges` | devtools/ui/src/diff.ts:39-49 | folding hides no changed line and invents none |
| `LineDiff.FoldOfEqualTexts` | devtools/ui/src/diff.ts:39-49 | the output is the bare mark exactly when the texts are equal |
| `LineDiff.JoinSplit` | devtools/ui/src/diff.ts:13 | joining the split lines gives the text |
| `LineDiff.SplitJoin` | devtools/ui/src/diff.ts:50 | splitting joined lines gives the lines |
| `LineDiff.RenderedLines` | devtools/ui/src/diff.ts:39-50 | each entry of the output is one line |
| `LineDiff.Diff` | devtools/ui/src/diff.ts:12-51 | the diff of two texts is a minimal script from one to the other, folded away from its changes; it is the bare mark exactly for equal texts |
| `LineDiff.FoldedScriptIsDiff` | devtools/ui/src/diff.ts:22-49 | the folded script is a folding of a minimal script, deletions first |
| `RankedRetrieval.SelectedIds` | harnesses/ranked-retrieval/eval_extension.py:22-32 | an id is selected exactly when a well-formed entry within the cutoff has it |
| `RankedRetrieval.SelectedInOrder` | harnesses/ranked-retrieval/eval_extension.py:22-32 | ids are selected in the order of their entries, malformed entries taking a place and giving none |
| `RankedRetrieval.GainDoubles` | harnesses/ranked-retrieval/eval_extension.py:36 | the gain of a relevance one higher is twice the gain and one |
| `RankedRetrieval.Pow2Adds` | harnesses/ranked-retrieval/eval_extension.py:36 | the power in the gain turns sums into products |
| `RankedRetrieval.DcgOfOneMore` | harnesses/ranked-retrieval/eval_extension.py:35-36 | one more answer adds its gain over the discount of its rank |
| `RankedRetrieval.LookupIsEntry` | harnesses/ranked-retrieval/eval_extension.py:46 | an id has the relevance of its entry, and none without one |
| `RankedRetrieval.IdealIsTop` | harnesses/ranked-retrieval/eval_extension.py:47 | the ideal order is the front of the descending relevances, cut at the cutoff |
| `RankedRetrieval.NdcgIsShare` | harnesses/ranked-retrieval/eval_extension.py:48-49 | the score is the share of the ideal gain that is reached, and 1 without one |
| `RankedRetrieval.SortIsDescending` | harnesses/ranked-retrieval/eval_extension.py:47 | the ideal order is a descending permutation of the relevances |
| `RankedRetrieval.TopIsGreatest` | harnesses/ranked-retrieval/eval_extension.py:46-49 | no selection gains more than as many from the top of the sorted list |
| `RankedRetrieval.PrefixDominance` | harnesses/ranked-retrieval/eval_extension.py:46-49 | cut anywhere, the ideal list has gained at least as much as any ranking of distinct ids |
| `RankedRetrieval.LeadIsKept` | harnesses/ranked-retrieval/eval_extension.py:35-36 | summation by parts: a lead in gains is a lead in discounted gains |
| `RankedRetrieval.DcgBelowIdeal` | harnesses/ranked-retrieval/eval_extension.py:35-49 | 0 <= DCG <= ideal DCG for distinct ids, any cutoff and any positive increasing discount |
| `RankedRetrieval.NoLeadIsEqual` | harnesses/ranked-retrieval/eval_extension.py:35-49 | equal discounted gain means equal gain at every rank |
| `RankedRetrieval.NdcgBounds` | harnesses/ranked-retrieval/eval_extension.py:46-49 | nDCG of distinct ids is in [0, 1], and 1 exactly for an ideal order |
| `RankedRetrieval.RepeatedIdScoresAboveOne` | harnesses/ranked-retrieval/eval_extension.py:22-49 | an id listed twice can score above 1 |
| `RankedRetrieval.NdcgSoundExactlyWithoutRepeats` | harnesses/ranked-retrieval/eval_extension.py:39-49 | the score is a ratio for every relevance dictionary exactly when the answer repeats no id |
| `RankedRetrieval.Recall` | harnesses/ranked-retrieval/eval_extension.py:42-44 | recall is the share of relevant ids selected: in [0, 1] with or without repeats, and 1 exactly when no relevant id is missing |
| `RankedRetrieval.HallucinationRate` | harnesses/ranked-retrieval/eval_extension.py:51-53 | the share of selected ids that are not eligible, in [0, 1], and 0 exactly when all are or nothing was selected |
| `RankedRetrieval.IneligibleConcat` | harnesses/ranked-retrieval/eval_extension.py:52 | ineligible ids are counted one by one, each time they are selected |
| `Egress.CleanIsFixed` | src/hiveloom/egress.py:178-212 | a request with nothing left to redact is mapped to itself |
| `Egress.BlotPathsDone` | src/hiveloom/egress.py:201-205 | after all paths, none has anything left to redact, however they overlap |
| `Egress.MapIsClean` | src/hiveloom/egress.py:178-212 | what mapping returns has nothing left to redact |
| `Egress.MapIsIdempotent` | src/hiveloom/egress.py:122-126 | mapping a mapped request changes nothing |
| `Egress.UnstableKeyIsNotIdempotent` | src/hiveloom/egress.py:190-200 | a key that becomes one to redact only once scrubbed keeps its value on the first pass and loses it on the second |
| `EgressExact.IdempotentExactlyWhenStable` | src/hiveloom/egress.py:122-126 | for every filter, redaction is idempotent over all requests exactly when the scrub is, no key becomes redactable by being scrubbed, and no marker the scrub rewrites is left with nothing to restore it |
| `EgressExact.MapRemarks` | src/hiveloom/egress.py:178-212 | mapping a mapped request again, however blotted since, can lose only what was blotted since, even when patterns rewrite the marker |
| `EgressExact.RewrittenMarkerIsNotIdempotent` | src/hiveloom/egress.py:190-200 | a redacted key that scrubbing takes out of redaction has its marker rewritten on the second pass |
| `EgressExact.MarkerMatchingPatternIsNotIdempotent` | src/hiveloom/egress.py:135-140 | a pattern that matches inside the marker redacts its own output again |
| `Egress.NoFindingNoChange` | src/hiveloom/egress.py:157-161 | if nothing is counted, the mapped request is the request |
| `Egress.ScrubText` | src/hiveloom/egress.py:135-140 | the patterns are applied one after the other, each to what the ones before left, and their hits counted by name |
| `Egress.ScrubPasses` | src/hiveloom/egress.py:135-140 | a scrubbed text is the last of a row of texts, one pass of each pattern in order, and what is counted under a name is what those passes hit |
| `Egress.RedactPaths` | src/hiveloom/egress.py:201-205 | the path loop redacts and counts what the paths denote; `EgressPlaces.BlotPathsAt` and `EgressPlaces.HitsArePlaces` say which places those are |
| `Egress.MapRequest` | src/hiveloom/egress.py:178-212 | the recursive rewriting computes the map and adds exactly its findings; `EgressPlaces.MapRedactsExactly` says what the map has at every place |
| `Egress.MapDict` | src/hiveloom/egress.py:188-206 | entries are rewritten in order, keys that scrub alike share one entry |
| `Egress.MapList` | src/hiveloom/egress.py:207-211 | lists are rewritten item by item |
| `EgressPlaces.MapRedactsExactly` | src/hiveloom/egress.py:178-212 | at every place of a mapped request: the marker under a key that folds to a configured one and where a configured path leads from any dictionary, nothing below, and elsewhere each text scrubbed, each container as it was, and every other scalar unchanged |
| `EgressPlaces.BlotPathsAt` | src/hiveloom/egress.py:201-205 | what all the paths of a dictionary do at each place: nothing is left below where one leads, the marker is where one leads, and all else stays |
| `EgressPlaces.BlotAt` | src/hiveloom/egress.py:228-249 | the same for one path |
| `EgressPlaces.HitsArePlaces` | src/hiveloom/egress.py:228-249 | a path's hits are the places it leads to, each counted once |
| `EgressPlaces.FoundCountsKeys` | src/hiveloom/egress.py:192-196 | under a configured key's own name exactly the entries of that key are counted that are not below another |
| `EgressFilter.ApplyFilter` | src/hiveloom/egress.py:114-175 | a request leaves as it is when the filter is off, found nothing or refuses it; otherwise every place of it is redacted exactly where a key or path says so, the texts scrubbed, and the findings counted |
| `EgressFilter.LeavesClean` | src/hiveloom/egress.py:170-175 | what leaves redacted needs no more redaction |
| `ForkNotes.NoteManifest` | src/hiveloom/fork.py:398-422 | a payload gives a row exactly when its name, digest and size are valid; the row is bound to that digest and carries the bytes exactly when they hash to it |
| `ForkNotes.RowFor` | src/hiveloom/fork.py:449-453 | a list of rows has for a name its last valid one |
| `ForkNotes.LastWriteWins` | src/hiveloom/fork.py:442-476 | a name is held under a row exactly when some event holds it there and no later one touches it |
| `ForkNotes.HeldStands` | src/hiveloom/fork.py:425-476 | over the events themselves: what a replay holds, and under which digests |
| `ForkNotes.LastTouchStands` | src/hiveloom/fork.py:442-476 | the last event to say something of a name holds it exactly when a write or grant of it stands |
| `ForkNotes.TouchIsByKind` | src/hiveloom/fork.py:442-476 | what an event makes of a name, kind by kind: writes and grants hold it, deletes drop it |
| `ForkNotes.GrantedIsFirst` | src/hiveloom/fork.py:479-486 | what a run was granted is what its first `run_started` says |
| `ForkNotes.NotesInJournal` | src/hiveloom/fork.py:425-476 | the returned map holds a name exactly when some event up to the fork point is a valid write of it or a grant naming it, with no later delete of that name up to there, and its digest is that of the last such write or grant |
| `ForkNotes.Replay` | src/hiveloom/fork.py:443-475 | one event of the replay, by its kind: a valid write holds its note, a delete of a valid name drops it, a grant holds the names it gives, and nothing else changes |
| `ForkNotes.Inherit` | src/hiveloom/fork.py:448-464 | a grant holds each valid name under its own row, else the granted one, else by name only |
| `ForkNotes.JournalReplays` | src/hiveloom/fork.py:425-476 | replaying a fork's journal, its header and its own events, returns exactly what the fork holds |
| `ForkNotes.ForkContinuesParent` | src/hiveloom/fork.py:425-476 | a fork that was granted every held note holds what the parent's prefix followed by the fork's own events replays to |
| `ForkNotes.GenerationsCompose` | src/hiveloom/fork.py:433-434 | so does a fork of a fork, to any depth |
| `ForkResume.InheritNotes` | src/hiveloom/context/notes.py:347-376 | verified entries of the grant are authorized in their order, and only a full store ends this early |
| `ForkResume.CarriedIsGrantable` | src/hiveloom/fork.py:507-574 | a carry that left nothing behind has every held note in its manifest once, and the fork accepts each of them |
| `ForkResume.CarryingGrantsAllExactlyWhenItFits` | src/hiveloom/context/notes.py:371-375 | after any carry the fork is granted every note its parent held, under the same digests, exactly when nothing was missing, nothing unbound, and the manifest fits the number of notes the run may hold |
| `ForkResume.LeftBehindIsLost` | src/hiveloom/fork.py:536-552 | a missing or unbound note is one the parent held and the fork is not granted |
| `ForkResume.OverflowLosesOne` | src/hiveloom/context/notes.py:371-375 | and otherwise the first note past that number is lost |
| `ForkResume.CarriedForkContinues` | src/hiveloom/fork.py:425-574 | replay, carry, resume and replay of the fork's journal leave, name for name and digest for digest, what one run through all those events would hold |
| `ForkResume.LineOfForksContinues` | src/hiveloom/fork.py:433-434 | so does a line of such forks, to any depth |
| `ForkCarry.FatesPartition` | src/hiveloom/fork.py:530-561 | each held note ends in exactly one of inherited, missing and unbound |
| `ForkCarry.ReplayedRowsVerify` | src/hiveloom/fork.py:418-422 | bytes a replayed journal carries verify against its digest |
| `ForkCarry.CarryNote` | src/hiveloom/fork.py:533-561 | one note: its fate, and a verified file if it is inherited |
| `ForkCarry.CarryNotes` | src/hiveloom/fork.py:507-574 | the three lists partition the held notes by what can be obtained of each, and every file written has the size and digest the manifest states |
| `ForkCarry.ChosenInOrder` | src/hiveloom/fork.py:530-561 | each of the three lists has its notes in the order they are held |
| `ForkCarry.WriteNote` | src/hiveloom/fork.py:555-559 | one more file, as listed |
| `ForkCarry.MintedByLast` | src/hiveloom/fork.py:351-373 | a handle is granted under its last valid mint up to the fork point |
| `ForkCarry.SpilledInJournal` | src/hiveloom/fork.py:351-373 | the loop collects exactly those |
| `ForkCarry.CarryObject` | src/hiveloom/fork.py:602-627 | one object: inherited only with its body verified and both files written |
| `ForkCarry.CarrySpill` | src/hiveloom/fork.py:577-635 | each quoted and minted handle is inherited or missing; every body in the fork verifies against the journal |
| `ForkCarry.SpillPartition` | src/hiveloom/fork.py:600-627 | each entitled handle is in exactly one of the two lists, and they hold nothing else |
| `ForkPaths.HarnessRoot` | src/hiveloom/fork.py:89-106 | the loop unwinds fork nesting as far as it goes, and ends |
| `ForkPaths.RootIsSelfOrHarness` | src/hiveloom/fork.py:98-106 | the root is the directory itself or one that holds a harness |
| `ForkPaths.ForkTarget` | src/hiveloom/fork.py:125-137 | a target exists exactly for a name of 1 to 64 letters, digits, dots, underscores and dashes, and is that name in the forks directory of the owning harness |
| `ForkPaths.ForksAreSiblings` | src/hiveloom/fork.py:89-137 | a fork of a fork is placed beside it exactly when their root holds a harness |
| `ForkPaths.LineStaysFlat` | src/hiveloom/fork.py:94-96 | however long a line of forks, its last is a direct child of the first harness's forks directory |
| `ForkPaths.ResolveForkPoint` | src/hiveloom/fork.py:194-212 | the point asked for, else the last one before it; none exactly when all lie after |
| `BoundedCapture.WhatIsKept` | src/hiveloom/confine.py:617-635 | what is kept of a stream: its first bytes, its last bytes, a count of the rest, all adding up, nothing above the cap |
| `BoundedCapture.CapsOfBudget` | src/hiveloom/confine.py:617-622 | a quarter of the budget is for the end of the stream and the rest for its beginning |
| `BoundedCapture.KeptFeed` | src/hiveloom/confine.py:624-635 | feeding a chunk to what is kept of a stream gives what is kept of the longer stream |
| `BoundedCapture.Capture.Feed` | src/hiveloom/confine.py:624-635 | the fields after a chunk are what the cap keeps of everything fed |
| `BoundedCapture.Capture.Drain` | src/hiveloom/confine.py:647-661 | so they are after any number of chunks |
| `BoundedCapture.CaptureAll` | src/hiveloom/confine.py:609-661 | what is captured depends on the whole stream alone, not on how it is cut into chunks |
| `Mounts.BwrapArgv` | src/hiveloom/confine.py:348-408 | the argument list reads back as the planned mounts in their order, then the command; its switches and working directory are exactly the stated ones, with the network unshared exactly when it is off |
| `Mounts.AddMounts` | src/hiveloom/confine.py:364-397 | the mounts of the list: system, home, scratch, working directory, masks |
| `Mounts.AddMasks` | src/hiveloom/confine.py:390-397 | one mask mount for each mask |
| `Mounts.KeptMasks` | src/hiveloom/confine.py:528-532 | the kept masks exist and neither are the working directory nor hold it |
| `Mounts.ReadAll` | src/hiveloom/confine.py:348-408 | rendered mounts read back as themselves |
| `Mounts.View` | src/hiveloom/confine.py:364-397 | with the last covering mount deciding: a path under a kept mask shows nothing of the host, an empty directory or `/dev/null`; any other shows what the rules say |
| `Mounts.WritableExactly` | src/hiveloom/confine.py:356-363 | the host is writable exactly under a writable working directory, or under the scratch directory outside it, never under a mask |
| `Mounts.WorkingDirectoryIsVisible` | src/hiveloom/confine.py:523-532 | no kept mask hides the working directory |
| `SbLiteral.QuoteReadsBack` | src/hiveloom/confine.py:411-420 | whatever the path, its literal ends at its own closing quote and denotes that path |
| `SpecPath.ResolveIndex` | src/hiveloom/construct.py:396-412 | exactly the decimal segments inside the list resolve, and otherwise the error says which of the two failed |
| `SpecPath.PrintedIndexResolves` | src/hiveloom/construct.py:398-412 | an index written in decimal resolves to itself exactly when the list has it |
| `SpecPath.SetField` | src/hiveloom/construct.py:415-442 | the moving cursor and the assignment compute the set tree, or its error |
| `SpecPath.SetsExactlyWherePassable` | src/hiveloom/construct.py:415-442 | setting succeeds exactly when the tree is a container and every list the path comes to has an item of its segment's name |
| `SpecPath.SetsWithoutLists` | src/hiveloom/construct.py:426-436 | so it always does when the path comes to no list, whatever is missing |
| `SpecPath.SetCreatesMappings` | src/hiveloom/construct.py:432-436 | each front of the path that read nothing, or a scalar, reads afterwards as a mapping with the one entry the path goes on in |
| `SpecPath.GetAfterSet` | src/hiveloom/construct.py:615-625 | reading a path that was set gives the value |
| `SpecPath.SetWhatIsThere` | src/hiveloom/construct.py:615-625 | setting what a path already reads changes nothing |
| `SpecPath.SetTwice` | src/hiveloom/construct.py:615-625 | of two settings the second counts |
| `SpecPath.SetWhereItReads` | src/hiveloom/construct.py:415-442 | a path that reads something can be set |
| `SpecPath.SetKeepsLists` | src/hiveloom/construct.py:418-420 | no list on the path changes its length |
| `SpecPath.SetElsewhere` | src/hiveloom/construct.py:426-436 | a path that diverges at a differently resolved segment reads as before, through created mappings too |
| `SpecPath.WalkRemovable` | src/hiveloom/construct.py:445-469 | the reading walk finds the location of the last segment, or nothing, or the index error |
| `SpecPath.LocateAgreesWithSet` | src/hiveloom/construct.py:445-454 | the location it finds is where setting would assign, and nothing is created on the way |
| `SpecPath.DeletePath` | src/hiveloom/construct.py:1149-1160 | the tree without the path, or none when there is nothing there |
| `SpecPath.DeletesExactlyWhatIsThere` | src/hiveloom/construct.py:1149-1160 | something is deleted exactly where the path reads something |
| `SpecPath.DeleteFailsExactlyAtBadIndex` | src/hiveloom/construct.py:445-469 | and it is an error exactly when the path comes to a list that has no item of its segment's name |
| `SpecPath.LocateAgreesWithDelete` | src/hiveloom/construct.py:1149-1160 | deleting at the location is deleting segment by segment |
| `SpecPath.DeleteUndoesSet` | src/hiveloom/construct.py:1149-1160 | a field that was not there is gone again after setting and deleting it |
| `SpecPath.DeletedFieldReadsNothing` | src/hiveloom/construct.py:1157-1159 | after a field of a mapping at any depth is deleted, its path reads nothing |
| `SpecPath.DeleteElsewhere` | src/hiveloom/construct.py:1149-1160 | after a deletion at any depth every path reads what it read before, later items of the list one index up |
| `SpecSections.Section.ApplyGuardrail` | src/hiveloom/construct.py:693-719 | the in-place deletions by reversed index leave the list with one entry at the first superseded place, or appended |
| `SpecSections.OneGuardrailLeft` | src/hiveloom/construct.py:696-704 | exactly one superseded entry is left, the new one; all others are there in their order |
| `SpecSections.SingletonIsReplaced` | src/hiveloom/construct.py:693-719 | a singleton guardrail takes the place of every entry of its name, whatever their settings, at the first of them, and leaves all others in their order |
| `SpecSections.DuplicatesAreCollapsed` | src/hiveloom/construct.py:693-719 | any other takes the place of the entries equal to it alone |
| `SpecSections.AddingTwiceIsOnce` | src/hiveloom/construct.py:699-703 | adding the same guardrail again changes nothing |
| `SpecSections.RemoveFromLists` | src/hiveloom/construct.py:1124-1132 | every section that is a list keeps exactly its entries that do not match, in their order, nothing else changes, and the answer is whether any section did |
| `SpecSections.RefMatchesExactly` | src/hiveloom/construct.py:1135-1146 | an entry matches exactly when it is the name itself, or a mapping that has it as `builtin`, `code` or `name` |
| `SpecSections.KeptConcat` | src/hiveloom/construct.py:1128 | a section is filtered entry by entry |
| `SpecSections.RootsAreChanged` | src/hiveloom/construct.py:1108-1121 | the named roots are exactly the sections that change |
| `SpecCommit.HarnessDir.Commit` | src/hiveloom/construct.py:82-113 | the document is written exactly when it is trusted and valid beside the files then there; a failure takes the created files away |
| `SpecCommit.HarnessDir.Execute` | src/hiveloom/construct.py:82-113 | a whole command, its stubs staged before validation, leaves exactly the files its outcome calls for |
| `SpecCommit.HarnessDir.ExecuteAll` | src/hiveloom/construct.py:82-113 | so does any sequence of commands, and the document on disk was valid beside the files there were when it was written |
| `SpecCommit.DocumentWasValidated` | src/hiveloom/construct.py:82-113 | over any sequence of commands the document on disk is the first one, or one that some command wrote when it was valid beside the files then there, new stubs included |
| `SpecCommit.SuccessLeavesValid` | src/hiveloom/construct.py:100-113 | a command that succeeds leaves a document that is valid beside the files now on disk: those that were there, unchanged, and its new stubs |
| `SpecCommit.FailureRollsBack` | src/hiveloom/construct.py:82-113 | a failed commit leaves every file as it was exactly when it failed before the write or wrote what was there, and touches no other file in any case |
| `SpecCommit.LateFailureLeavesDocument` | src/hiveloom/construct.py:82-113 | a failure after the write leaves the new document and takes its stubs away: it stays valid exactly when it is valid without them |
| `Playbooks.ToolRegistry.SetActive` | src/hiveloom/playbooks.py:173-174 | the active set becomes the named registered tools |
| `Playbooks.PlaybookManager.ApplyTools` | src/hiveloom/playbooks.py:165-174 | a mode with its own tools leaves those and the switch tool active, among the registered ones; one without leaves the tools as they are |
| `Playbooks.PlaybookManager.Switch` | src/hiveloom/playbooks.py:176-242 | by its outcome: the run is already there, exactly when it asks for its own mode; the exit gate refuses, exactly when it blocks below its limit; the entry gate refuses, exactly when it blocks; else the run is in the mode asked for, with its tools; a refused switch leaves mode and tools unchanged, and the notes are those of the hooks asked |
| `Playbooks.PlaybookManager.EntryName` | src/hiveloom/playbooks.py:149-154 | the first mode declared as the entry, else the first mode |
| `Playbooks.EntryIsOne` | src/hiveloom/playbooks.py:149-154 | playbooks have one entry, declared so when any is |
| `Playbooks.PlaybookManager.EnterInitial` | src/hiveloom/playbooks.py:244-283 | no gate keeps a run from starting in its entry mode; what the entry hook says is noted, and so is that it objected |
| `Playbooks.StayingUsesRefusals` | src/hiveloom/playbooks.py:196-211 | a run that stays in a mode has used up one refusal for each chance it had to leave |
| `Playbooks.NoModeIsATrap` | src/hiveloom/playbooks.py:125-129 | whatever its exit gate answers, a mode is left by the limit-th attempt at another mode that admits |
| `Playbooks.GateHoldsUntilLimit` | src/hiveloom/playbooks.py:196-208 | the limit is sharp: a gate that always blocks holds for one attempt less |
| `Playbooks.BlockedCountsAll` | src/hiveloom/playbooks.py:196-242 | the counter is the number of blocks since the last switch that succeeded, whatever came in between |
| `Playbooks.ForcedExactlyAtLimit` | src/hiveloom/playbooks.py:200-219 | a switch its exit gate blocks goes through exactly when the blocks since the last successful switch, consecutive or not, reach the limit |
| `Playbooks.RefusalsNeedNotBeConsecutive` | src/hiveloom/playbooks.py:125-128 | a block, an attempt only its entry gate refuses, and a block: under a limit of two the last is forced |
| `Playbooks.SwitchToolSurvives` | src/hiveloom/playbooks.py:170-174 | a registered switch tool is active after every switch, and nothing unregistered is |
| `Delegation.Kept` | src/hiveloom/delegation.py:195-217 | the fit candidates and no others, each as often as it is offered |
| `Delegation.KeptInOrder` | src/hiveloom/delegation.py:195-217 | in the order they are offered |
| `Delegation.Eligible` | src/hiveloom/delegation.py:208-217 | the loop keeps exactly the offered candidates with enough runs and, where a rate is asked for, with some runs and that rate |
| `Delegation.AgentRun.constructor` | src/hiveloom/loop/agent_loop.py:271-279 | depth and ancestry come from the lineage a run is started with, else it is a root |
| `Delegation.AgentRun.RunDelegation` | src/hiveloom/loop/agent_loop.py:1722-1796 | a hand-off starts exactly when depth, ancestry and cap admit it; the child gets the ancestry and the lesser of its own ceiling and the share of what is left; only a returned record is charged |
| `Delegation.ChildIsGrounded` | src/hiveloom/delegation.py:334-351 | a started child is no harness of its own ancestry |
| `Delegation.ChildSeatExactly` | src/hiveloom/loop/agent_loop.py:1722-1760 | when a child starts, in numbers: below the depth limit, outside the ancestry, with something left of the ceiling and a share of it; and what it then starts with |
| `Delegation.CapIsShareOfRest` | src/hiveloom/delegation.py:354-356 | the cap is the share of what is left, and nothing once the ceiling is passed |
| `Delegation.TighterIsLeast` | src/hiveloom/loop/agent_loop.py:1592-1600 | the ceiling of a child is the lesser of its own and the cap |
| `Delegation.AncestorsAreKnown` | src/hiveloom/loop/agent_loop.py:1588-1590 | no run forgets an ancestor or its place |
| `Delegation.ChainsNeverLoop` | src/hiveloom/delegation.py:334-351 | no chain of hand-offs visits a harness twice; its depth is the length of its ancestry and within the limit of the run that made the last hand-off |
| `Delegation.RootLimitHoldsExactlyWhenGreatest` | src/hiveloom/spec/schema.py:1397-1400 | a root's depth limit bounds every chain of hand-offs below it exactly when no run below has a greater limit |
| `Delegation.RootLimitIsNotInherited` | src/hiveloom/loop/agent_loop.py:1726-1733 | the shortest chain that passes it: below a root with limit 1, two hand-offs |
| `Delegation.CapsShrinkGeometrically` | src/hiveloom/delegation.py:354-356 | the ceiling k hops down is at most the root's times the k-th power of a share no run exceeds |
| `Delegation.RecordedCoversCharges` | src/hiveloom/loop/agent_loop.py:1772-1784 | what a run records covers what it was charged for hand-offs and is covered by what its tree spent |
| `Delegation.NothingStartsAtTheCeiling` | src/hiveloom/guardrails/builtin.py:40-48 | a run that has recorded its whole ceiling makes no more calls and no hand-off, whatever the estimate or the peer |
| `Delegation.ChargesStayWithinTheCeiling` | src/hiveloom/loop/agent_loop.py:1781-1784 | children that stay within their caps and are charged one after the other never take a run over its ceiling, whatever its own calls cost |
| `Delegation.SpendIsRecordedOrLost` | src/hiveloom/loop/agent_loop.py:1772-1784 | what a whole tree of runs spent is what its root recorded and what was spent in hand-offs that raised |
| `Delegation.MeansCoverTheTree` | src/hiveloom/loop/agent_loop.py:1740-1784 | a tree whose calls each cost at most what was left records no more than its ceiling and loses nothing |
| `Delegation.BudgetHoldsExactlyWithinMeans` | src/hiveloom/loop/agent_loop.py:1740-1784 | at every moment and in every run of a tree the spend is within the ceiling, and stays so under calls that cost their estimate, exactly when every call cost at most what was left when it was made and no hand-off raised after spending |
| `Delegation.EstimateTooLow` | src/hiveloom/guardrails/builtin.py:40-48 | a call admitted on its estimate can cost more than the ceiling |
| `Delegation.SelectedTooLate` | src/hiveloom/loop/agent_loop.py:1680-1699 | the call that selects a peer passes no guardrail and can overspend |
| `Delegation.RaisedAfterSpending` | src/hiveloom/loop/agent_loop.py:1772-1784 | a hand-off that raises after its peer has spent leaves the run to spend its whole ceiling again |
| `EvalReports.CellMapHoldsTheLast` | src/hiveloom/eval_reports.py:195-199 | each key has its last cell |
| `EvalReports.PairingPartitions` | src/hiveloom/eval_reports.py:283-288 | matched and one-sided cells partition each eval's cells |
| `EvalReports.ComparesCellsByKey` | src/hiveloom/eval_reports.py:283-288 | the matched keys are those both evals have a cell of, the one-sided keys those one has; success, duration and cost are compared over the last cells of each matched key, the baseline's first |
| `EvalReports.MeanIsSumOverCount` | src/hiveloom/eval_reports.py:217-232 | a mean is the sum over the count, and there is none of nothing |
| `EvalReports.ChangeIsDifferenceOfMeans` | src/hiveloom/eval_reports.py:226-232 | the mean of the differences is the difference of the two means, over the same samples |
| `EvalReports.PairedDelta` | src/hiveloom/eval_reports.py:217-232 | samples and missing values add up to the pairs |
| `EvalReports.SwapMirrorsDelta` | src/hiveloom/eval_reports.py:217-232 | exchanging the evals exchanges the means and negates the change |
| `EvalReports.SuccessChangeCountsWins` | src/hiveloom/eval_reports.py:323-343 | the change in success is the pairs won less the pairs lost, over those that both finished |
| `EvalReports.SuccessOfFinished` | src/hiveloom/eval_reports.py:323-343 | success is compared over the pairs that both completed with a run status, as 1 for a successful run and 0 for any other |
| `EvalReports.LatencyOfRuns` | src/hiveloom/eval_reports.py:344-362 | durations are compared over the pairs that both have a run status |
| `EvalReports.CostsOfSource` | src/hiveloom/eval_reports.py:241-249 | a cost group holds the costs of the pairs that both have a run status and its source |
| `EvalReports.BucketsAreDisjoint` | src/hiveloom/eval_reports.py:238-249 | a pair counts in the cost group of its own source and in no other, and with no source in none |
| `EvalReports.PairedCost` | src/hiveloom/eval_reports.py:235-267 | the loop's groups; comparable and other pairs add up to all pairs, the comparable ones being those in a group |
| `EvalReports.GroupsShown` | src/hiveloom/eval_reports.py:250-262 | billed and estimated costs have a group each, mixed ones only when some pair has them |
| `EvalReports.MetricCellMap` | src/hiveloom/eval_reports.py:202-214 | each cell and metric has the mean of its values, and nothing where there are none |
| `EvalReports.CollectCell` | src/hiveloom/eval_reports.py:294-301 | one cell: each metric of either side counted, its pair of means kept if both sides have it |
| `EvalReports.CollectMetrics` | src/hiveloom/eval_reports.py:290-301 | over all matched cells: a metric is present exactly when it was recorded for one, and its pairs are those cells with both |
| `EvalReports.MetricPairsNext` | src/hiveloom/eval_reports.py:294-301 | one more cell adds its two means, the baseline's first, when both sides have the metric |
| `EvalReports.ValuesNext` | src/hiveloom/eval_reports.py:202-214 | one more row adds its value to its own cell and metric and to no other |
| `EvalReports.ImprovementFollowsDirection` | src/hiveloom/eval_reports.py:302-321 | the directional improvement is the change in means, negated unless the metric is maximized |
| `EvalReports.CompareEvals` | src/hiveloom/eval_reports.py:270-377 | the comparison computed is the one the paired definitions give |
| `EvalReports.SwapMirrorsComparison` | src/hiveloom/eval_reports.py:270-377 | exchanging the evals mirrors the whole report: one-sided cells and means exchanged, every change and improvement negated |
| `JsonPath.ParseJsonPath` | src/hiveloom/json_path.py:11-31 | the position loop parses exactly the texts that start with `$` and go on in segments |
| `JsonPath.MatchIsWritten` | src/hiveloom/json_path.py:8 | what the expression matches is a way to write the segment returned |
| `JsonPath.KeysAreWords` | src/hiveloom/json_path.py:8 | a key is written as a dot, a letter or underscore, and letters, digits, underscores and dashes |
| `JsonPath.MatchFindsWritten` | src/hiveloom/json_path.py:8 | written segments are matched greedily to exactly their end |
| `JsonPath.ParserDecidesGrammar` | src/hiveloom/json_path.py:8-31 | the parser returns segments exactly when the text is written from them, so the grammar is unambiguous |
| `JsonPath.PrintedPathIsParsed` | src/hiveloom/json_path.py:11-31 | a printed path parses back |
| `JsonPath.ExtractSegment` | src/hiveloom/json_path.py:38-51 | one segment over the whole selection |
| `JsonPath.ExtractJsonPath` | src/hiveloom/json_path.py:34-52 | extraction segment by segment over the selection is extraction below each value |
| `JsonPath.ExtractionComposes` | src/hiveloom/json_path.py:34-52 | extracting by a concatenation is extracting by the first path and then, below each value, by the second |
| `JsonPath.ExtractsExactlyTheCovered` | src/hiveloom/json_path.py:34-52 | a path finds exactly the values at the places its segments cover |
| `JsonPath.NoWildcardFindsOne` | src/hiveloom/json_path.py:34-52 | without a wildcard there is at most one value |

## Left out

- `EvalMachine.RunInv` and all theorems over histories: base run ids are taken distinct and of one length; `EvalMatrix.ValidExactlyWhenShortIdsDiffer` says when the matrix gives that. Cells stay in manifest order, which is the order the source sorts them into.
- The eval machine does not model timestamps, error texts, requested provider and model, verification summaries, the Hive upserts, the model probe and the identity checks of a resume, two processes resuming one eval at once, or executors that write under another cell's trace path.
- `EvalGuarantees.FinishedIsNeverRerun`: stated for a cell whose own trace is kept; a run that returns no trace path and whose scoring fails is executed again on resume while attempts are left, which `EvalRunner.Runner.RunOneCell` states exactly.
- `EvalRunner.Runner.RunWorkers`: runs the workers one after another; what holds of every schedule of the pool is in `EvalCompletion` and the theorems over histories, not in this method.
- `EvalRunner.Runner.RunPending`: one sequential schedule, for the same reason.
- `EvalReplay.CrashesDoNotChangeResults`: the run id and trace path of a cell do depend on how many attempts crashed, and its ingestion counts on whether a crash came between the commit of its metrics and the save, which `EvalIngestion.IngestionExactlyWhenCommittedOnce` says exactly. An executor that reports the trace path of another run is not covered.
- `EvalIngestion.WorldHolds`: the store is this eval's alone, the scorers leave the same rows for a run whenever they are asked, and a run is reported under the id it was started with; the run is indexed, since its trace is ingested before its metrics. Which of the reasons a batch is refused for is not kept.
- `RankedRetrieval.DcgBelowIdeal`: over reals, with any positive increasing discount in place of the logarithm, and relevances from 0 up; negative ones are not modelled.
- The documentation of the egress filter calls redaction idempotent without condition; the code is so exactly under the condition of `EgressExact.IdempotentExactlyWhenStable`. Case folding and regular expressions are abstract functions; parsing of configured paths, and that path redaction overwrites the copy in place, are not modelled.
- The playbook source speaks of consecutive refusals; the code counts every block of an exit gate since the last successful switch, as `Playbooks.ForcedExactlyAtLimit` states, and the model follows the code. A hook that raises counts as no answer. The notes of a switch and of the first entry are kept, the reason texts are not.
- Delegation: estimates, costs, the peers' own ceilings and whether a hand-off raises are arguments; `Delegation.ChainsNeverLoop` bounds a chain by the limit of the run that makes the last hand-off, since the code does not pass a limit on. Discovery of peers and the model's choice among them are not modelled.
- `EvalReports.CompareEvals`: works on two snapshots, over reals; the nested single-eval reports, their rates and metric aggregates with the stability figure, and the Markdown rendering are left out, being sums over one list.
- `JsonPath.ParserDecidesGrammar`: digits are the ASCII ones, and an index has no length limit.
- `SpecPath.SetField`: trees are values, so that the source reassigns parts of one shared object in place is not captured, nor are paths written with an empty segment treated specially; the segments are taken as given. Index segments are ASCII digits.
- `SpecCommit.HarnessDir.Commit`: validation is any predicate of the document's text and of the other files; trust, the atomic write and the logging after it are answers of the environment. A failure after the write keeps the document and removes the created files, as the code does. Stubs that `add_skill` and `add_playbook` scaffold before their duplicate check are not modelled.
- `BoundedCapture.Capture.Feed`: bytes only; decoding head and tail to text is left out, and a character split between them is not preserved by the source.
- `Mounts.View`: paths are resolved segment sequences; symbolic links, namespaces and resource limits are left out.
- `SbLiteral.QuoteReadsBack`: only the quoting, not the rest of the Seatbelt profile.
- `ForkPaths.ForkTarget`: names `.` and `..` pass the slug check and are not excluded; paths are taken as segment sequences and not normalized.
- `ForkResume.InheritNotes`: the store is empty when the grant is taken, and copies are bytes: a copy that is not UTF-8 text, which the source leaves out of the journaled rows, is not modelled.
- `ForkNotes.NotesInJournal`: hashing is an abstract function; the verification of the journal's own hash chain, materializing files, trust and model overrides of a fork are left out.
- SQLite, HTTP routes, the command line, subprocesses, threads that drain pipes, model providers, and the workbench beyond its diff are not part of this model.
