# Verification of the oj-checker's durable queue, similarity search, evidence preparation and review protocol

This project models the parts of `oj_checker` whose correctness does not show in any one function, and proves what they
promise. `dafny verify dfyconfig.toml` checks everything.

## What is modelled

**The durable run queue** (`agent_runs.py`, and `plagiarism_runs.py` as a second policy). `RunMachine` is a transition
system. On disk there is, per run, metadata, an append-only event log, an optional create-only result and a publication
flag; in memory there is a cache, an index of the latest run per submission, a bounded queue and the position of every
worker. A step is what one holder of the lock, or one unlocked action of a worker, does before another thread can come
between; a crash keeps the disk and forgets the memory, and may leave a half-written result or a half-created run.
`RunInvariant` and `RunSteps` prove one invariant over every step, `RunTheorems`, `RunViews` and `RunFates` draw the
guarantees from it, and `RunService` is the service as an object whose methods update its fields in place, each proved
to be a run of the system. `RunWitnesses` builds reachable states in which the queue falls short. `RunLog` and
`EventNames` hold the log and the order of event file names.

**Similarity detection** (`similarity.py`). `Similarity` says what the MinHash index and the exhaustive comparison
report and relates the two, and `SimilarityReports` says it again by conditions on two submissions alone;
`SimilarityDetector` and `SimilaritySearch` are the loops that fill groups, buckets and the selection, proved to report
exactly that.

**Evidence for one prompt** (`reviewer.py`). `EvidenceSplit` cuts long texts into overlapping parts with unique cores,
`EvidencePacking` packs parts into chunks, `EvidenceBudget` shares a character budget and `EvidenceDelta` shares it
twice, among files and then among the hunks of each or between its added and removed text.

**Protocol loops** (`agent_reviewer.py`, `review_scope.py`). `ToolCallStream` merges fragmented tool calls,
`EventStream` reads them from server-sent events (section 9.2.6 of the WHATWG HTML Living Standard), `Conversation` is
the turn loop of a review, and `IncludeClosure` the include worklist.

`Common` and `Text` hold small shared definitions: strict order, text order, decimal notation.

## What is assumed

- `start` runs once per process and before any `create`, as in `src/oj_checker/cli.py:608`.
  `RunTheorems.CreateBeforeStartQueuesTwice` shows why.
- `max_run_attempts` is the same across restarts; the run directory is used by one process at a time.
- Event files are written whole; there are no symbolic links; the first append of an attempt does not fail. A result
  file may be torn, or too large to be read back: that is the state `Unreadable`.
- Submission ids are unique within a search, and paths within one delta. Where a theorem needs it, it says so.
- No line of a delta built from two texts is without its mark, so no listed hunk is empty
  (`src/oj_checker/similarity.py:101-130` and `src/oj_checker/similarity.py:456-500`).
- Ids, labs and owners are their ranks in text order. Times are integers that order like the ISO texts.
- The Jaccard threshold and the Jaccard values are fractions, compared by cross-multiplication.
- The rank of a shingle under a permutation is any function; the program's linear permutations of a hash are one.
- JSON text, signatures, digests, the model, the tool broker and the report validation are parameters: a parser, sizes
  of written parts, a client, a broker and an objection.

## Findings

- A result that is written but cannot be read back (torn, or over the read limit) makes `_append_event` raise after the
  event file exists. The log then says `completed` followed by `failed`, the cached view stays at `finalizing`, and the
  worker thread ends (`RunTheorems.ConclusionIsFinalIffReadable`, `RunViews.CacheFollowsLogIffReadable`). The run is
  never tried again, even with attempts left and a retryable code (`RunTheorems.UnreadableConclusionIsFinal`). This can
  happen (`RunWitnesses.UnreadableResultIsReachable`).
- Recovery stops at the first waiting run that finds the queue full. It covers all work exactly when the waiting runs
  fit (`RunTheorems.RecoveryCoversIffQueueFits`). A process without workers accepts runs without queueing them, so that
  more may wait than fit (`RunWitnesses.RecoveryCanLoseWork`).
- A run whose creation is cut off by a crash is shown as queued once it is looked up, and waits nowhere, for ever
  (`RunTheorems.TornRunIsStuck`, `RunTheorems.QueuedViewIsDueIffPublished`). It also makes the index of latest runs
  differ from the one a restart builds; the two are equal exactly when all runs the index points at are published and
  readable (`RunViews.IncrementalLatestIsRebuiltIff`, `RunWitnesses.TornRunIsShownAsQueued`).
- Event names sort by number exactly for fewer than 10^8 events (`EventNames.NewestByNameIffFewerThanLimit`). No log
  grows that long unless the attempt limit is about twenty million (`RunTheorems.NewestNameIsNewestEvent`).
- Documents with an empty input digest are never paired by the exact layer of the indexed search, while the exhaustive
  comparison treats two empty digests as equal, so the refinement `Similarity.IndexedRefinesExhaustive` goes one way
  only. `Similarity.SearchesAgreeIff` says when the two agree and `Similarity.EmptyDigestsDiffer` is an input on which
  they do not. `detect` receives empty digests (`src/oj_checker/postgres_catalog.py:126`); the exhaustive search is only
  called on bundles whose digests are checked to be SHA-256 values (`src/oj_checker/plagiarism_bundle.py:157-159`).
- The packing loop measures every chunk as the second of two. Once there are ten or more chunks the prompts are longer
  than measured and may exceed the budget. Evidence of at most ten parts is safe; of every larger number of parts, some
  is not (`EvidencePacking.BudgetHoldsIffFewParts`), and neither are ten or more pairs of any equal parts under the
  budget that just holds two (`EvidencePacking.PairsDoNotFit`).
- Every item with text gets at least one character, so the budgets may exceed `max_chars`: exactly when the first
  shares do (`EvidenceBudget.OverrunIffSharesOverrun`). Three items of one character share a budget of one
  (`EvidenceBudget.OneCharacterEach`).
- An empty hunk is budgeted one character that its file's budget does not contain, so a file whose characters all fit is
  still truncated, exactly when it has an empty hunk and some hunk of two or more characters
  (`EvidenceDelta.FileIsWholeIff`). No delta the program builds has such a file, so a payload whose files fit is whole
  (`EvidenceDelta.PayloadWithoutEmptyHunksIsWhole`).
- Without hunks, a file's budget is halved between added and removed text. A file whose one text is longer than half of
  what its hunks hold is truncated however large the budget is (`EvidenceDelta.UnevenTextsAreAlwaysCut`); one line
  replaced by a longer one is such a file (`EvidenceDelta.LongerLineIsCut`).
- A tool-call id sent in pieces is corrupted exactly when a piece begins with everything sent before it
  (`ToolCallStream.PiecesJoinIff`).
- The guard `end <= start` of the splitting loop (`src/oj_checker/reviewer.py:454-455`) is never true.
- `docs/agent-review-design.md:376` names event files by a digest and `docs/agent-review-design.md:207` lists the
  retried failures as timeouts, broken connections and 429/5xx. The code names them by state and also retries 408, 409,
  425 and a stream that ends before its end mark; the model follows the code.

## Model

| member | source | states |
|---|---|---|
| RunLog.LegalLogCounts | src/oj_checker/agent_runs.py:365-397 | in a legal log the queued events exceed the preparing events by one exactly while the last event is `queued`; every running event has its own preparing event |
| RunLog.LegalLogAnswersFailures | src/oj_checker/agent_runs.py:365-397 | in a legal log every `failed` event answers an earlier `queued` or `completed` one, so there are never more of them, and one fewer if the run is not failed |
| EventNames.NewestByNameIffPaddingSuffices | src/oj_checker/agent_runs.py:385-403 | for any padding width: the greatest file name is that of the newest event if and only if the log has fewer than 10^width events |
| EventNames.NewestByNameIffFewerThanLimit | src/oj_checker/agent_runs.py:385-403 | with the eight digits of the program: if and only if there are fewer than 10^8 events |
| RunInvariant.MergeAgrees | src/oj_checker/agent_runs.py:386-393 | laying an event over a cached view gives what a fresh read of the longer log gives, up to a leftover error code |
| RunInvariant.AppendKeepsRun | src/oj_checker/agent_runs.py:365-385 | appending a legal next state keeps a run's log legal, its attempts bounded and its result file consistent with its last state |
| RunSteps.StepKeepsInv | src/oj_checker/agent_runs.py:110-363 | each of the twenty steps (create, take, every append, result write, recovery and reconciliation run by run, crash, restart) keeps the whole invariant of disk, queue, workers, cache and index |
| RunSteps.ReachableInv | src/oj_checker/agent_runs.py:50-403 | the invariant holds after every run of the system from an empty directory, crashes and restarts included |
| RunSteps.RebuildRemembers | src/oj_checker/agent_runs.py:242-261 | a rebuild caches exactly the readable runs of the scan, each as a fresh read, and indexes their greatest (created_at, run_id) per submission |
| RunTheorems.BoundedAttempts | src/oj_checker/agent_runs.py:280-363 | in every reachable state a run has at most `max_run_attempts` preparing events and executor calls, fewer if it is queued, and occurs at most once across queue and workers |
| RunTheorems.LogsAreLegalPaths | src/oj_checker/agent_runs.py:325-393 | every published log is numbered 1..n along the legal edges from `queued`, which are written out; queued minus preparing is one if the last event is `queued` and zero otherwise |
| RunTheorems.QueueHoldsDueRuns | src/oj_checker/agent_runs.py:166-190 | the queue never exceeds `max_queued`, has no duplicates, and holds only published runs whose last event is `queued`, without a result and with attempts left |
| RunTheorems.ResultWriteNeverCollides | src/oj_checker/agent_runs.py:348-359 | a run whose last event is `queued`, `preparing` or `running` has no result file, so the create-only write of a worker always finds the place free |
| RunTheorems.RunGrows | src/oj_checker/agent_runs.py:431-470 | over every continuation, metadata, publication and results stay and logs are only extended |
| RunTheorems.CompletionIsFinal | src/oj_checker/agent_runs.py:325-363 | a run completed with a readable result keeps its log and result for ever, over every continuation |
| RunTheorems.CompletionIsHonest | src/oj_checker/agent_runs.py:325-363 | a `completed` event implies a result file, and a run shown as completed is shown with exactly the stored result |
| RunTheorems.ConclusionIsFinalIffReadable | src/oj_checker/agent_runs.py:358-363 | a worker that concludes leaves the run completed if and only if the stored result can be read back; otherwise `failed` follows `completed` and the worker thread ends |
| RunTheorems.FailureIsFinal | src/oj_checker/agent_runs.py:280-316 | a failure that is not retryable, that comes without a result after the last attempt, or whose result file cannot be read back, is final: no continuation ever changes the run |
| RunTheorems.UnreadableConclusionIsFinal | src/oj_checker/agent_runs.py:358-363 | a worker that concludes over an unreadable result leaves the run final, with attempts left and even where its code is retryable, as for plagiarism runs |
| RunTheorems.TornRunIsStuck | src/oj_checker/agent_runs.py:166-191 | a run whose creation was cut off before publication never changes again, over every continuation |
| RunTheorems.QueuedViewIsDueIffPublished | src/oj_checker/agent_runs.py:166-202 | while a fully recovered process serves, a run shown as queued waits in exactly one place if it is published, and nowhere if its creation was cut off |
| RunTheorems.LogsAreShort | src/oj_checker/agent_runs.py:365-393 | no published log ever has more than 5 * max_run_attempts + 2 events |
| RunTheorems.NewestNameIsNewestEvent | src/oj_checker/agent_runs.py:385-403 | so in every reachable state the greatest file name is that of the newest event, for every attempt limit below twenty million |
| RunTheorems.PassContinuesUnlessSettled | src/oj_checker/agent_runs.py:295-307 | a pass that reaches a failed run leaves it alone if and only if it is final in that sense; otherwise it is completed from its result or queued again |
| RunTheorems.NoLostWork | src/oj_checker/agent_runs.py:153-191 | while a fully recovered process serves, a published run that is queued is in exactly one place and an active one is held by exactly one worker |
| RunTheorems.RecoveryCoversIffQueueFits | src/oj_checker/agent_runs.py:263-278 | a recovery loses no work if and only if what waits in the queue plus the waiting runs still to be scanned fit into the queue |
| RunTheorems.StartCoversIffWaitingRunsFit | src/oj_checker/agent_runs.py:110-116 | the same condition before `start`: the number of published runs on disk whose last event is `queued` |
| RunTheorems.RecoverAllIsReachable | src/oj_checker/agent_runs.py:263-278 | recovery to its end consists of steps of the system, so all other theorems hold of its outcome |
| RunTheorems.CreateBeforeStartQueuesTwice | src/oj_checker/agent_runs.py:189-190 | a creation before `start` is queued a second time by the recovery of `start` |
| RunViews.CacheRefinesLog | src/oj_checker/agent_runs.py:365-393 | every cached view has the metadata of its run; if the run can be read, also the number, state and time of the last event, the number of preparing events, the code of a failure, and the stored result unless finalizing; if its result file cannot be read, it is at `finalizing` without a result |
| RunViews.CacheFollowsLogIffReadable | src/oj_checker/agent_runs.py:386-393 | the cached state equals the last logged state if and only if the result file can be read or the log still says `finalizing` |
| RunViews.LatestIsGreatest | src/oj_checker/agent_runs.py:249-261 | the index has an entry for exactly the submissions of known runs: the latest creation time, and the greatest run id among those |
| RunViews.RebuildIgnoresScanOrder | src/oj_checker/agent_runs.py:242-261 | scanning the directory in any order builds the same memory |
| RunViews.IncrementalLatestIsRebuiltIff | src/oj_checker/agent_runs.py:249-261 | the index kept step by step is the one a restart would build if and only if every run it points at is published and readable |
| RunViews.PassRequeuesEligiblePrefix | src/oj_checker/agent_runs.py:280-308 | one pass queues again exactly a prefix of the eligible runs in pass order, at most a batch, and short of all only after a full batch or at a full queue, with workers interleaving |
| RunViews.EligibleWereAnnounced | src/oj_checker/agent_runs.py:230-240 | a run without a result is shown as `will_retry` if and only if it is a candidate of a pass with attempts left |
| RunViews.CandidatesAreUnique | src/oj_checker/agent_runs.py:284-293 | the sort key of a pass leaves one order of candidates |
| RunViews.PassTakesFirst | src/oj_checker/plagiarism_runs.py:240-255 | no eligible run that a pass leaves behind failed later than one it queues again, for agent runs, and none failed earlier, for plagiarism runs; ties go to the greater and to the smaller run id |
| RunFates.CandidatesAreTriedAgain | src/oj_checker/agent_runs.py:284-316 | in every reachable state the candidates are exactly the known runs whose last event is a failure with one of the codes of the policy, written out, the manual ones for manual runs only, and whose result file, if any, can be read |
| RunFates.PassQueuesDueRuns | src/oj_checker/agent_runs.py:280-316 | a pass queues again only published runs with such a failure, no result and attempts left, and all of them unless it fills a batch or the queue, with workers interleaving |
| RunFates.PassTreats | src/oj_checker/agent_runs.py:295-308 | an undisturbed pass gives its candidates their turn in order until it is over: each gets exactly one `completed` or `queued` event with the next number and its own time, or none, and no other run changes |
| RunFates.RecoveryTreats | src/oj_checker/agent_runs.py:263-278 | a recovery gives the runs of its scan their turn in order: each gets exactly the event that its last state and result file call for, or none; waiting ones are queued in that order; it ends early only at a waiting run that finds the queue full |
| RunFates.UnreadableResultIsRecorded | src/oj_checker/agent_runs.py:325-335 | the codes under which either service records a result that cannot be read back |
| RunService.RunService.constructor | src/oj_checker/agent_runs.py:59-108 | opening a directory in any scan order is the boot step |
| RunService.RunService.AppendEvent | src/oj_checker/agent_runs.py:365-393 | writes the event file first and then refreshes the view; raises after the write when the result cannot be read |
| RunService.RunService.CreateRun | src/oj_checker/agent_runs.py:166-191 | a full queue refuses and changes nothing; a known run is looked up: from the cache, or read and remembered, or an error that changes nothing; a new run is on disk with one `queued` event at its creation time, is queued, and is answered as queued with no attempt |
| RunService.RunService.GetRun | src/oj_checker/agent_runs.py:193-202 | answers from the cache, or reads and remembers, or an error that changes nothing |
| RunService.RunService.RecoverPersistedResult | src/oj_checker/agent_runs.py:325-335 | completes or fails a run whose result file exists, and tells whether there was one |
| RunService.RunService.StartService | src/oj_checker/agent_runs.py:110-116 | starting is recovery to its end, from any reachable state and in any scan order, with the events and the queue of `RunFates.RecoveryTreats` |
| RunService.RunService.RecoverRun | src/oj_checker/agent_runs.py:264-278 | one iteration of the recovery loop is one recovery step, stopping exactly at a full queue |
| RunService.RunService.SortCandidates | src/oj_checker/agent_runs.py:284-293 | the candidates are exactly the known runs that failed with one of the codes of the policy, in pass order |
| RunService.RunService.ReconcileFailed | src/oj_checker/agent_runs.py:280-308 | a pass adds exactly the events of `RunFates.PassTreats`; the queue grows by a prefix of the eligible runs and the returned number is its length; short of a full batch and a full queue every run that is due is queued |
| RunService.RunService.ReconcileRun | src/oj_checker/agent_runs.py:298-307 | one candidate: persisted result first, then the attempt limit, then queued again |
| RunService.RunService.TakeRun | src/oj_checker/agent_runs.py:337-344 | a free worker takes the oldest entry of the queue |
| RunService.RunService.StoreResult | src/oj_checker/agent_runs.py:358 | the create-only write succeeds and stores exactly the result |
| RunService.RunService.ExecuteRun | src/oj_checker/agent_runs.py:348-363 | one undisturbed attempt adds exactly the events of its outcome, written out with numbers, times and codes: the code an executor raises is the code that is logged; the worker ends if and only if the stored result cannot be read back |
| RunService.AttemptIsTriedAgainIff | src/oj_checker/agent_runs.py:348-363 | which outcomes of an attempt lead to another one, under either policy |
| RunService.RunService.HandleException | src/oj_checker/agent_runs.py:360-363 | the handler appends `failed` with the code; the thread ends if that append raises too |
| RunWitnesses.TornRunIsShownAsQueued | src/oj_checker/agent_runs.py:169-202 | a reachable state in which a run whose creation was cut off is shown as queued, waits nowhere and makes the index differ from a rebuilt one |
| RunWitnesses.UnreadableResultIsReachable | src/oj_checker/agent_runs.py:348-359 | a reachable state in which a worker is to conclude a run whose stored result cannot be read back |
| RunWitnesses.RecoveryCanLoseWork | src/oj_checker/agent_runs.py:263-278 | for every queue size, a reachable start that leaves some waiting run out of its recovery |
| Similarity.ExhaustiveIsSymmetric | src/oj_checker/similarity.py:332-369 | the exhaustive comparison gives either member of a pair the same signal and the same candidate |
| Similarity.CandidateFollowsOrder | src/oj_checker/similarity.py:587-603 | a candidate names the submission first that comes first in sorted order, with its delta digest |
| Similarity.IndexedRefinesExhaustive | src/oj_checker/similarity.py:209-382 | every pair the indexed search reports is reported by the exhaustive search for both members, with the same ids, order, digests and Jaccard ratio and a signal at least as strong |
| Similarity.FewDifferencesShareBand | src/oj_checker/similarity.py:246-264 | signatures that differ in fewer positions than there are bands agree on a whole band |
| Similarity.IndexIsComplete | src/oj_checker/similarity.py:246-281 | such a pair of one lab, two owners and sufficient Jaccard is always reported |
| Similarity.EqualShinglesAreReported | src/oj_checker/similarity.py:246-281 | complete documents with equal non-empty shingle sets are never missed, whatever the hash |
| Similarity.MinimumIsUnique | src/oj_checker/similarity.py:561-567 | a signature component does not depend on the iteration order of the shingles |
| Similarity.RepresentativeIsEarliest | src/oj_checker/similarity.py:437-445 | in sorted order with unique ids, the first member of an owner in a group is the earliest eligible document of that owner |
| Similarity.ExactLayerCoverage | src/oj_checker/similarity.py:214-245 | the exact-submission candidates are exactly the pairs of earliest eligible documents of two owners with one lab and one non-empty input digest; later layers never replace them |
| Similarity.SearchesAgreeIff | src/oj_checker/similarity.py:209-369 | a pair the exhaustive search reports is reported by the same layer of the indexed search if and only if its digest is not empty and both are the earliest eligible submissions of their owners, for the exact layers, or their signatures share a band, for the Jaccard layer |
| Similarity.EmptyDigestsDiffer | src/oj_checker/similarity.py:339-369 | two submissions with empty input digests: the exhaustive search takes them for the same submission, the indexed search reports nothing |
| Similarity.SortedIsUnique | src/oj_checker/similarity.py:214-223 | documents with unique ids have one sorted order |
| SimilarityReports.ReportedForIff | src/oj_checker/similarity.py:304-369 | the exhaustive search finds for a submission exactly the pairs of another owner in its lab with the same input, the same delta, or shared shingles of at least the threshold, each condition written out; a pair names the one submitted first first and carries the two cardinalities |
| SimilarityReports.ReportedIff | src/oj_checker/similarity.py:209-302 | the indexed search finds exactly the pairs of first submissions of two owners with the same input or the same delta, and the pairs at the threshold that share a band |
| SimilarityReports.SharesBandIff | src/oj_checker/similarity.py:246-264 | two submissions share a band if and only if the least ranks of their shingles agree under all permutations of that band |
| SimilarityReports.FoundIsClose | src/oj_checker/similarity.py:266-281 | a similarity candidate of either search reaches the threshold, and its ratio is that of the shared to all shingles of the two submissions |
| SimilarityReports.DistantIsNotFound | src/oj_checker/similarity.py:266-281 | two submissions with different inputs, different deltas and a ratio below the threshold are in neither result |
| SimilarityDetector.GroupDocuments | src/oj_checker/similarity.py:437-441 | each group holds exactly its eligible documents, in order |
| SimilarityDetector.Representatives | src/oj_checker/similarity.py:443-446 | exactly the first member of each owner, in order |
| SimilarityDetector.OfferPair | src/oj_checker/similarity.py:447-453 | a pair whose key is free is selected, another changes nothing |
| SimilarityDetector.AddExactCandidates | src/oj_checker/similarity.py:422-453 | the pairs offered by an exact layer are exactly the cross-owner pairs of representatives of one group |
| SimilaritySearch.MinhashSignature | src/oj_checker/similarity.py:550-568 | for any order of the shingles, the minimum rank under each permutation |
| SimilaritySearch.Signatures | src/oj_checker/similarity.py:384-420 | signatures of exactly the indexed documents, in whatever order workers compute them |
| SimilaritySearch.FillBuckets | src/oj_checker/similarity.py:247-259 | a document is in a bucket if and only if it is of that lab and has those values in that band |
| SimilaritySearch.ApproximatePairs | src/oj_checker/similarity.py:261-264 | the pairs meeting in some bucket are exactly those of one lab that share a band |
| SimilaritySearch.AddNearCandidates | src/oj_checker/similarity.py:266-281 | exactly the cross-owner pairs of one lab that share a band and reach the threshold are offered |
| SimilaritySearch.SelectionIsReported | src/oj_checker/similarity.py:225-281 | after the three layers the selection holds exactly the reported candidates, each with the signal of the first layer that selects its pair |
| SimilaritySearch.Detect | src/oj_checker/similarity.py:209-302 | the result is sorted by lab and ids and holds exactly what `SimilarityReports.ReportedIff` writes out, for documents in any order |
| SimilaritySearch.DetectionIgnoresInputOrder | src/oj_checker/similarity.py:209-302 | two runs over the same documents in any two orders return the same list |
| SimilaritySearch.DetectForSubmission | src/oj_checker/similarity.py:304-382 | an error unless exactly one document has the id, otherwise the sorted list of exactly what `SimilarityReports.ReportedForIff` writes out, for documents in any order |
| SimilaritySearch.DetectedIsConfirmed | src/oj_checker/similarity.py:209-382 | of two results over the same documents, that of the exhaustive search for a member of a reported pair confirms the pair with a signal at least as strong |
| EvidenceSplit.CoreRanges | src/oj_checker/reviewer.py:443-458 | core ranges follow one another from 0 to the length; each takes as many whole lines as fit, or a full window without a line end |
| EvidenceSplit.PrefixStart | src/oj_checker/reviewer.py:461-465 | the context before a core: at most the context size, begun at a line if the window has one |
| EvidenceSplit.SuffixEnd | src/oj_checker/reviewer.py:466-470 | the context behind a core: at most the context size, ended at a line if the window has one |
| EvidenceSplit.SplitEvidenceItem | src/oj_checker/reviewer.py:437-482 | an item within the limit is returned as it is, another is cut along its core ranges with their contexts and bookkeeping |
| EvidenceSplit.SplitRoundTrip | src/oj_checker/reviewer.py:443-482 | for any text and positive limit, cutting the cores out of the parts and joining them gives the text; other fields are carried along |
| EvidenceSplit.PartsFit | src/oj_checker/reviewer.py:441-482 | no part is longer than the limit |
| EvidenceSplit.CoresEndAtLines | src/oj_checker/reviewer.py:446-456 | every core but the last ends with a line end or is a full window without one |
| EvidenceSplit.SplitIsUnique | src/oj_checker/reviewer.py:437-482 | the conditions determine the parts: an item has one split for a limit |
| EvidenceSplit.TextWithoutLinesIsCutEvenly | src/oj_checker/reviewer.py:437-482 | a text without line ends is cut into even cores, with min(6000, limit // 8) characters of context on either side where the text has them |
| EvidencePacking.PackPart | src/oj_checker/reviewer.py:339-344 | one turn of the packing loop keeps the chunks greedy |
| EvidencePacking.ComplianceChunks | src/oj_checker/reviewer.py:330-346 | the chunks hold the parts of all items in order and are greedy: multi-part chunks are within the budget as measured and none could take the next part; no items give one empty chunk |
| EvidencePacking.ChunksKeepTexts | src/oj_checker/reviewer.py:330-352 | cutting the cores out of all chunks and joining them gives the texts of all items |
| EvidencePacking.PartsAreSmall | src/oj_checker/reviewer.py:338 | no text in any chunk is longer than max(16000, chunk_chars // 2) |
| EvidencePacking.MeasureIsMonotone | src/oj_checker/reviewer.py:485-495 | a sublist of consecutive parts never measures more than the list |
| EvidencePacking.GreedyIsOptimal | src/oj_checker/reviewer.py:335-346 | no order-preserving packing with the same rule uses fewer chunks |
| EvidencePacking.GreedyIsUnique | src/oj_checker/reviewer.py:335-346 | there is one greedy packing, so the chunks are determined |
| EvidencePacking.ChunksBySize | src/oj_checker/reviewer.py:339-344 | by sizes: a chunk of several parts is within the budget with its commas, and one more comma and the first part of the next chunk would exceed it |
| EvidencePacking.PromptExceedsMeasure | src/oj_checker/reviewer.py:485-512 | the prompt sent is longer than measured by exactly the extra digits of index and count, which is nothing if and only if there are fewer than ten chunks |
| EvidencePacking.PairsDoNotFit | src/oj_checker/reviewer.py:340-352 | for every prompt and part, and the budget that just holds two such parts, the packing of ten or more pairs is greedy and its first prompt exceeds the budget |
| EvidencePacking.BudgetHoldsIffFewParts | src/oj_checker/reviewer.py:340-352 | the prompts that are sent keep the budget for all evidence of m parts if and only if m is at most ten |
| EvidenceBudget.Round | src/oj_checker/reviewer.py:1149-1161 | one round gives each unsaturated item one character until nothing is left, and tells whether it gave any |
| EvidenceBudget.AllocateBudgets | src/oj_checker/reviewer.py:1131-1161 | for items of any sizes, the budgets are a water level over the proportional first shares, and their sum is max(first shares, min(max_chars, wanted)) |
| EvidenceBudget.BudgetsAreBounded | src/oj_checker/reviewer.py:1142-1161 | every budget lies between the first share, which is at least one for an item that wants any, and the size |
| EvidenceBudget.LeftoversAreEven | src/oj_checker/reviewer.py:1147-1161 | among unsaturated items the extra characters differ by at most one, in favour of the sooner item |
| EvidenceBudget.EverythingFitsIff | src/oj_checker/reviewer.py:1131-1161 | every item gets its whole size if and only if the sizes sum to no more than max_chars or the first shares |
| EvidenceBudget.OverrunIffSharesOverrun | src/oj_checker/reviewer.py:1138-1161 | the budgets keep max_chars if and only if the first shares do; otherwise they exceed it by at most one character per item, and only if some proportional share is below one |
| EvidenceBudget.OneCharacterEach | src/oj_checker/reviewer.py:1142-1146 | items of one character each all get it, whatever max_chars is |
| EvidenceBudget.AllocationIgnoresOrder | src/oj_checker/reviewer.py:1131-1161 | the allocation is determined and does not depend on the order of the items |
| EvidenceBudget.AllocationIsFair | src/oj_checker/reviewer.py:1131-1161 | by sizes and priorities alone: the proportional first share, the exact sum, and nobody more than one extra character ahead of an item that wants more, in the order of priority, size and key |
| EvidenceBudget.PriorityCounts | src/oj_checker/reviewer.py:1131-1146 | two texts of a hundred characters with priorities 4 and 1 share fifty as forty and ten |
| EvidenceDelta.FilesShareByPriority | src/oj_checker/reviewer.py:875-888 | each file gets its hunks' characters or at least its share by size times priority |
| EvidenceDelta.BoundedText | src/oj_checker/reviewer.py:1082-1092 | a prefix no longer than the budget, marked truncated if and only if it is not the whole text |
| EvidenceDelta.DeltaPayload | src/oj_checker/reviewer.py:868-915 | the budget is allocated to the files and each file's budget to its hunks, which are cut along it |
| EvidenceDelta.FileIsWholeIff | src/oj_checker/reviewer.py:886-915 | a file that gets all its characters is untruncated if and only if none of its hunks is empty or all have at most one character |
| EvidenceDelta.PayloadIsWholeIff | src/oj_checker/reviewer.py:868-915 | when the files fit, nothing is truncated if and only if that holds of every file |
| EvidenceDelta.PayloadWithoutEmptyHunksIsWhole | src/oj_checker/reviewer.py:868-915 | when the files fit and no listed hunk is empty, which is so for every delta built from two texts, nothing is truncated |
| EvidenceDelta.EmptyHunkTruncates | src/oj_checker/reviewer.py:886-915 | the smallest case, made by hand: an empty hunk beside a hunk of four characters costs one of them |
| EvidenceDelta.DeltaTextPayload | src/oj_checker/reviewer.py:918-938 | without hunks, the budget is allocated to the files and each file's budget to its added and removed text, half and half if there are both |
| EvidenceDelta.TextPayloadIsWholeIff | src/oj_checker/reviewer.py:918-938 | when the files fit, no text is truncated if and only if the added and the removed text of every file each fit into half of what its hunks hold |
| EvidenceDelta.UnevenTextsAreAlwaysCut | src/oj_checker/reviewer.py:918-929 | a file for which that fails is truncated under every max_chars |
| IncludeClosure.IndexNames | src/oj_checker/review_scope.py:504-506 | the index gives exactly the files of a name |
| IncludeClosure.Candidates | src/oj_checker/review_scope.py:515-524 | the targets of a directive: relative to the file, relative to the root, or of that name |
| IncludeClosure.ExecutionScope.ScanFile | src/oj_checker/review_scope.py:514-531 | one file adds exactly the targets of its header edges, queues the new ones and records the reasons |
| IncludeClosure.ExecutionScope.AddIncludeClosure | src/oj_checker/review_scope.py:499-531 | the worklist ends with the least superset closed under header edges from code files; include reasons are recorded for exactly the edges out of it |
| IncludeClosure.ClosureIsUnique | src/oj_checker/review_scope.py:507-531 | the result does not depend on the order of the queue or the files |
| IncludeClosure.ClosureIsMonotone | src/oj_checker/review_scope.py:499-531 | a larger start gives a larger closure, and closing again adds nothing |
| IncludeClosure.ClosureIsReachability | src/oj_checker/review_scope.py:499-531 | a path is in the closure if and only if a chain of include edges leads to it from the start, cyclic or not |
| IncludeClosure.MemberIff | src/oj_checker/review_scope.py:507-531 | a path is in the closure if and only if it was there from the start or a code file of the closure includes it as a header: relative to itself, relative to the root, or just by name |
| IncludeClosure.OnlyHeadersAreAdded | src/oj_checker/review_scope.py:525-530 | everything added is a header among the files |
| ToolCallStream.MergeAllIsPointwise | src/oj_checker/agent_reviewer.py:429-471 | the table holds for every index the fold of that index's own deltas |
| ToolCallStream.MergeSucceedsIff | src/oj_checker/agent_reviewer.py:429-471 | merging succeeds if and only if no index is negative and the deltas of each call alone can be merged |
| ToolCallStream.OnlySubsequencesMatter | src/oj_checker/agent_reviewer.py:429-471 | two interleavings of the same deltas per call both fail or give the same table |
| ToolCallStream.ReassemblyRoundTrip | src/oj_checker/agent_reviewer.py:408-490 | any fragmentation and interleaving of a list of calls is reassembled into exactly that list |
| ToolCallStream.CallsWereSent | src/oj_checker/agent_reviewer.py:408-471 | whatever was streamed: every call that comes out has a name, an id of at most 64 characters and the type `function` that were sent for it, and its name and arguments are its own pieces joined; no delta belongs to another call |
| ToolCallStream.PiecesJoinIff | src/oj_checker/agent_reviewer.py:439-448 | ids sent in pieces are joined if and only if the id has at most 64 characters and no piece begins with everything sent before it |
| ToolCallStream.RepeatedPieceIsLost | src/oj_checker/agent_reviewer.py:439-448 | the pieces "a" and "ab" give "ab" |
| EventStream.FirstLineEndsAtNewline | src/oj_checker/agent_reviewer.py:70-72 | what a line read returns: up to and including the first newline, or everything |
| EventStream.MeaningIsField | src/oj_checker/agent_reviewer.py:382-396 | a line ends an event if and only if it is empty and is data if and only if it is the field `data`; the value is what follows the colon without one space; everything else is ignored |
| EventStream.OnlyMeaningsMatter | src/oj_checker/agent_reviewer.py:370-402 | two streams within the limit that say the same have the same outcome: comments, other fields, line ends and the space behind a colon change nothing |
| EventStream.DataLinesAreJoined | src/oj_checker/agent_reviewer.py:320-325 | an event on several data lines is dispatched once, as the lines joined by newlines |
| EventStream.StreamReader.MergeCall | src/oj_checker/agent_reviewer.py:429-471 | the in-place merge of one fragment is the merge function, with the same errors in the same order |
| EventStream.StreamReader.ConsumeEvent | src/oj_checker/agent_reviewer.py:320-369 | one dispatched event: nothing, the end mark, an error, or all its choices in order |
| EventStream.StreamReader.TakeLine | src/oj_checker/agent_reviewer.py:382-396 | one line: dispatch, comment, data or another field |
| EventStream.StreamReader.ReadEvents | src/oj_checker/agent_reviewer.py:370-402 | the loop processes the lines in turn, checks the limit before each, and reads at most one byte beyond it |
| EventStream.StreamReader.FinishCalls | src/oj_checker/agent_reviewer.py:408-414 | all calls in index order, or the error of a gap or of an incomplete call |
| EventStream.StreamReader.Read | src/oj_checker/agent_reviewer.py:310-426 | the outcome is that of the line-by-line specification of the whole input |
| EventStream.EventsAreRead | src/oj_checker/agent_reviewer.py:370-402 | any stream within the limit, with any number of data lines for an event, comments and empty lines between and either line end, is answered by its events: the first that fails or cannot be parsed, the end mark, or the error of a stream without one |
| EventStream.EncodingSaysEvents | src/oj_checker/agent_reviewer.py:370-402 | what a server writes, with either line end and any number of data lines for an event, says its events and then the end mark |
| EventStream.EveryStream | src/oj_checker/agent_reviewer.py:310-402 | the same for every stream at all, with the events that close within the 2 MiB limit; the rest is an error unless the stream has ended before |
| EventStream.EndMarkIsNeeded | src/oj_checker/agent_reviewer.py:320-398 | nothing is answered unless the end mark is among the events that close within the limit |
| EventStream.TruncatedStreamFails | src/oj_checker/agent_reviewer.py:395-398 | a stream of readable events that ends before the end mark has exactly the outcome `ended before [DONE]` |
| EventStream.EventsApplyIff | src/oj_checker/agent_reviewer.py:327-369 | events can be applied if and only if all choices are the first one, agree on the finish reason and carry mergeable pieces |
| EventStream.AnswerWasSent | src/oj_checker/agent_reviewer.py:320-426 | whatever the stream: calls, text, usage and finish reason of an answer are those of the events before the end mark |
| EventStream.StreamRoundTrip | src/oj_checker/agent_reviewer.py:310-490 | from bytes to calls: any stream whose events carry the pieces of a list of calls yields exactly that list, the finish reason, the joined text and the last usage |
| Conversation.CompletionIsFirstAnswer | src/oj_checker/agent_reviewer.py:233-253 | every request of a completion hands over the whole message list; it ends with the first answer that is not transient, or with the last request allowed |
| Conversation.ReviewSession.CompleteWithRetries | src/oj_checker/agent_reviewer.py:233-253 | transient failures are tried again with the same messages, anything else is returned at once |
| Conversation.ReviewSession.HandleCalls | src/oj_checker/agent_reviewer.py:185-213 | the calls of a turn are answered one by one; a report is returned if and only if the turn is one acceptable `finish_review` |
| Conversation.ReviewSession.TakeTurn | src/oj_checker/agent_reviewer.py:135-225 | one turn adds exactly the messages, counts and errors of the turn function |
| Conversation.ReviewSession.Review | src/oj_checker/agent_reviewer.py:100-231 | the loop is the run function from the first turn |
| Conversation.AssistantIsAnswered | src/oj_checker/agent_reviewer.py:183-213 | in a paired list an assistant message is followed by one reply per call, in order, and no further reply |
| Conversation.RequestsArePaired | src/oj_checker/agent_reviewer.py:135-225 | every message list handed to the model is paired |
| Conversation.RequestsAreAsked | src/oj_checker/agent_reviewer.py:135-139 | the recorded lists are what the model is asked: with another model that answers these requests the same, the whole review is the same |
| Conversation.CallsAreReplied | src/oj_checker/agent_reviewer.py:185-213 | each call is answered by what the broker returns for it, or by what is wrong with it; the protocol errors are exactly the rejections, with the names of their calls |
| Conversation.TurnCorrects | src/oj_checker/agent_reviewer.py:145-183 | a response that is no tool call is recorded as a protocol error with its text and corrected by a message; too many calls, or a model that fails, end the review |
| Conversation.TurnAddsReplies | src/oj_checker/agent_reviewer.py:183-225 | a turn adds the assistant message, one such reply per call, and a reminder exactly in the last four turns before the final one unless a report was tried |
| Conversation.RunIsBounded | src/oj_checker/agent_reviewer.py:135-231 | at most max_turns * max_attempts requests; correction_count equals the number of protocol errors; the turn limit is reported only after all turns |
| Conversation.ReportIsFirstAcceptable | src/oj_checker/agent_reviewer.py:185-203 | a report is returned exactly for the first turn that is a sole, unobjectionable `finish_review`, and ends the transcript |
| Conversation.ErrorsAreTold | src/oj_checker/agent_reviewer.py:145-210 | every protocol error is told to the model once |
| Conversation.EveryReview | src/oj_checker/agent_reviewer.py:100-231 | all of this for every review from its prompts to its end |

## Left out

- File descriptors, fsync, permissions, NFS, the database, git, HTTP servers and the command line: input and output.
- Request and bundle checks (signatures, base64, digests, UUIDs) and the field-by-field validation of reports: each is a
  sequence of independent branches.
- `close`, joins and restarts of a service object inside one process: outside the single-start protocol.
- Failures of the file system other than a torn or unreadable result, in particular a failing event write.
- RunService.RunService.CreateRun: a creation before `start` is excluded by the single-start protocol; what it does is `RunTheorems.CreateBeforeStartQueuesTwice`.
- RunService.RunService.ExecuteRun: states the log of an attempt that nothing interleaves with; interleavings are covered by the steps of `RunMachine`.
- RunService.RunService.ReconcileFailed: holds the lock for the whole pass; workers taking runs or storing results meanwhile are covered by `RunViews.PassRequeuesEligiblePrefix`.
- The extra fields of `latest_many` and of public runs, such as `max_attempts`, which are copied.
- The exclusion lists of both searches: a filter over the documents.
- Shingling, `difflib` hunks, tokenising and the include regular expression: library behaviour. Shingle sets, hunks and include values are inputs.
- SimilaritySearch.Detect: says what the result is for unique submission ids; with duplicate ids only its order is stated.
- Evidence priorities by file name: a file comes with its priority.
- The plagiarism prompt, prompt texts and the merging of chunk verdicts: text and simple folds.
- EvidenceBudget.AllocateBudgets: takes keys to be distinct, as both callers make them.
- The later stages of the execution scope, which add files after the include closure, so the final scope need not be closed.
- UTF-8 decoding of stream lines: a byte is a character; a decoding error would end the read like any other error.
- Malformed JSON values inside events: the parser answers `None` for every event that is not of the expected shape.
- Tool counters by name, inspected paths and durations in the trace of a review: they are only reported.
- `agent_tools.py`, `runner.py`, `report_api.py`, `nightly.py`, `catalog.py`, `domain.py`: paging, counters, routing and records.
