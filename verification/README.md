# resume-ir: verified models of the verification runner, the benchmark freezer and their neighbours

The project models the parts of resume-ir whose correctness rests on an argument rather than on
a comparison of constants, and proves those arguments for all inputs, all runs and all
completion orders:

- **The parallel verification runner** (`Manifest`, `Ledger`, `Scheduler`, `SchedulingLoop`,
  `Runner`). `Scheduler` is the state machine of starts, completions and skips. `SchedulingLoop`
  is the loop over mutable lists, proved to take only steps of that machine and to write the
  ledger file once per completed check. `Runner` adds planning, reuse, context blocks and the
  exit code, and then whole histories of runs, each possibly cut off after any ledger write.
- **The input fingerprint** (`InputHasher`, `FingerprintContent`): two memo tables, a sort, a
  digest over the result, and what of the file system that digest depends on.
- **Control-referenced nDCG** (`Rearrangement`, `Ndcg`, `QualitySummary`): the rearrangement inequality with its
  equality case, by summation by parts.
- **The mixed benchmark** (`Layout`, `DirectoryContract`, `Selection`, `Freeze`): round-robin
  placement into a three-level tree, the contract check over it, bounded sampling, the
  stratified holdout, and write-once outputs.
- **The OCR publication report** (`PdfWriter`, `OcrSample`, `OcrReport`, `OcrContract`, `OcrRun`): the
  PDF writer and its cross-reference table, the producer and the checker of the report, which
  compute the same numbers in two different files, and the run that queries an arbitrary daemon.
- **The delivery graph** (`Delivery`): what the goal checker accepts, and every run over it.
- **Streams and process trees** (`Framing`, `ResidentWorker`, `PdfRange`, `ProcessTree`).

`Wrappers`, `Sequences`, `Sorting` and `Decimal` hold shared definitions: optional values and
results, repetition-free lists, a stable sort and decimal numerals.

Conventions. Latencies, scores and gains are reals; Python's `round` is rounding to the nearest,
ties to even. Hashes, keyed digests, file-name derivations and the JSON encoding are function
parameters. The rank discount `1 / log2(rank + 2)` is any positive, strictly decreasing function.
What the environment decides (which checks complete first and with which exit code, how a pipe
fragments its bytes, when a process is cut off) is chosen freely in the model, so a proved
statement holds for every choice.

## Findings

Some plausible properties are not true of the code as it stands. Each has its exact condition:

- With `--no-resume`, a check skipped by fail-fast keeps a passed record it had before, and a
  later resuming run reuses it. A skipped check is reused exactly when it had such a record
  (`Runner.SkippedIsReusedIffRecordedBefore`, `Runner.SkippedIsReusedOnce`). After a resuming run
  this cannot happen (`Runner.RerunAfterResume`).
- A report without process cleanup is still accepted if it is a smoke report with an inexact
  epoch; otherwise it is rejected (`OcrRun.RunExperiment`, `OcrRun.UncleanSmokePasses`). Failed
  probes cannot occur (`OcrRun.ProbesPass`).
- Sampling can lose an acceptable layout: with 2 resumes, 1000 ordinary documents and a maximum
  of 10 only one resume is kept (`Selection.SamplingLosesABuild`). A sampled selection builds
  exactly when there are at least two resumes and one ordinary document, the maximum is at least
  three, and either all ordinary documents leave room for two resumes or the exact share of
  resumes in the maximum is at least one and a half (`Selection.BuildLayout`).
- The number of files per depth can differ by two, one for each role whose count is not a
  multiple of four (`DirectoryContract.DepthsAreBalanced`); the synthetic smoke run asserts at
  most one on its own input.
- A freeze cut off after one or two of its three writes is never repaired: every later call
  reports a mismatch (`Freeze.InterruptedNeverHeals`).
- The goal checker does not restrict what leaves `issue_reconciled_with_evidence` or what enters
  the delivery states, so a run may deliver twice. A run is the eight transitions alone exactly
  when it stops at its first reconciled issue (`Delivery.DeliveryIsForced`,
  `Delivery.DeliveryMayRepeat`, `Delivery.DeliveryRepeatsOnce`).
- The worklist process walk runs forever exactly when the root is its own descendant
  (`ProcessTree.WorklistEndsIff`), for instance when it is listed as its own parent
  (`ProcessTree.SelfParentNeverEnds`).
- The cross-reference table resolves exactly when the last object starts below 10^10
  (`PdfWriter.EveryEntryLeadsIff`).

## Model

| member | source | states |
|---|---|---|
| Manifest.ReadManifest | scripts/ci/verify_local_parallel_support.py:87-195 | success exactly for manifests with the known schema, positive capacities, known resources, distinct identifiers and legal patterns; every accepted manifest is schedulable; an error about an entry names the first bad one |
| Manifest.ArtifactsAreMarked | scripts/ci/verify_local_parallel_support.py:164-181 | in an accepted manifest exactly the checks with another source authority than the repository produce artifacts; they hold the packaging resource and claim more than a verification |
| Manifest.SelectionStaysSchedulable | scripts/ci/verify-local-parallel.py:56-64 | a successful `--only` selection holds exactly the requested identifiers and stays schedulable |
| Ledger.ApplyKeepsLatest | scripts/ci/verify_local_parallel_support.py:486-503 | after any log of results the ledger holds, for each check mentioned, the record of its latest result, field by field |
| Ledger.ApplyLeavesOthers | scripts/ci/verify_local_parallel_support.py:486-503 | results of other checks leave a record unchanged |
| Ledger.ReusableIffLatestPass | scripts/ci/verify_local_parallel_support.py:478-503 | from an empty ledger a record is reusable exactly when the log's latest result of the check is a pass, exit 0, on that fingerprint |
| Scheduler.StepKeepsInv | scripts/ci/verify-local-parallel.py:164-170 | every start, completion and skip keeps: use counts equal running users and stay within limits, at most `jobs` run, the plan is partitioned, results are honest |
| Scheduler.RunsKeepInv | scripts/ci/verify-local-parallel.py:204-264 | that invariant holds in every state of every run, for every completion order |
| Scheduler.OneResultPerCheck | scripts/ci/verify-local-parallel.py:216-264 | a finished run has exactly one result per planned check |
| Scheduler.FailureSticks | scripts/ci/verify-local-parallel.py:214-262 | the failed flag, once set, stays set to the end of the run |
| Scheduler.NothingStartsAfterFailure | scripts/ci/verify-local-parallel.py:218-262 | with fail-fast no event after a recorded failure is a start |
| Scheduler.StepDoesWork | scripts/ci/verify-local-parallel.py:216-264 | 2·pending + running strictly decreases with each event |
| Scheduler.RunsAreShort | scripts/ci/verify-local-parallel.py:216-264 | a run has at most two events per planned check |
| Scheduler.IdleMeansEverythingFits | scripts/ci/verify-local-parallel.py:164-165 | with nothing running, each pending check fits on its own |
| Scheduler.NotFittingMeansFull | scripts/ci/verify-local-parallel.py:164-165 | in every reachable state a pending check fits exactly when fewer than `jobs` checks run and, for each of its resources, fewer running checks use it than its limit |
| Scheduler.NoRunGetsStuck | scripts/ci/verify-local-parallel.py:238-246 | every run that is not finished has a next step, so the "could not schedule" failure is unreachable |
| Scheduler.CargoStaysWithinBudget | scripts/ci/verify-local-parallel.py:173-184 | in every state, running cargo checks times test threads is at most `jobs`, and times build jobs at most max(`cargo_build_jobs`, `jobs`) |
| Scheduler.CargoBudgetsAreLargest | scripts/ci/verify-local-parallel.py:173-184 | with as many slots as the cargo limit and the planned cargo checks allow, test threads and build jobs are the largest shares that, taken once per slot, stay within `jobs` and `cargo_build_jobs`, and 1 where not even that fits |
| SchedulingLoop.ScheduledRun.constructor | scripts/ci/verify-local-parallel.py:204-214 | a fresh loop is valid, with all checks pending and nothing in use |
| SchedulingLoop.ScheduledRun.Reserve | scripts/ci/verify-local-parallel.py:168-170 | changes the use count of exactly the named resources by the given amount |
| SchedulingLoop.ScheduledRun.StartCheck | scripts/ci/verify-local-parallel.py:222-235 | starting is the start step of the state machine and is logged |
| SchedulingLoop.ScheduledRun.FillSlots | scripts/ci/verify-local-parallel.py:217-237 | one pass starts, in pending order, each check that fits by then; afterwards no pending check fits |
| SchedulingLoop.ScheduledRun.Settle | scripts/ci/verify-local-parallel.py:248-262 | a completion is the finish step; ledger and file gain exactly its record |
| SchedulingLoop.ScheduledRun.Complete | scripts/ci/verify-local-parallel.py:249-262 | whatever the exit code, validity is kept and just that check stops running |
| SchedulingLoop.ScheduledRun.Collect | scripts/ci/verify-local-parallel.py:247-262 | a wait happens only when no pending check fits or scheduling is halted; any non-empty set of completions, in any order, is settled |
| SchedulingLoop.ScheduledRun.Run | scripts/ci/verify-local-parallel.py:216-264 | the loop ends with nothing pending or running, having only taken steps of the state machine |
| SchedulingLoop.ScheduledRun.SkipPending | scripts/ci/verify-local-parallel.py:239-245 | giving up after a failure is the skip step and ends the run |
| SchedulingLoop.RunScheduledChecks | scripts/ci/verify-local-parallel.py:192-264 | the results are those of a complete run of the state machine, every wait was justified, and the file history has one write per executed check |
| Runner.PlannedChecks | scripts/ci/verify-local-parallel.py:90-107 | runnable checks are split, in order, into those without and those with a reusable record, the latter only when resuming |
| Runner.UpdateAll | scripts/ci/verify-local-parallel.py:326-328 | context blocks are applied to the ledger one after the other |
| Runner.Run | scripts/ci/verify-local-parallel.py:267-363 | fails exactly when the ledger does not load; otherwise its report is that of a completed trial, and every content of the ledger file, from the start on, is what the run cut off after that many writes leaves |
| Runner.ContentsAreCuts | scripts/ci/verify-local-parallel.py:326-330 | the file content after i writes, the block write included, is what the crash model predicts for i writes |
| Runner.CutsAreSessions | scripts/ci/verify-local-parallel.py:248-258 | every completed run, cut off after any write, is a session of the crash model |
| Runner.FinalFileLoads | scripts/ci/verify_local_parallel_support.py:387-415 | what a completed run leaves in the file loads back as its final ledger |
| Runner.ReportCoversTheSelection | scripts/ci/verify-local-parallel.py:290-331 | whatever is reused, blocked, executed or skipped, the report has exactly one result for every selected check |
| Runner.ReportTells | scripts/ci/verify-local-parallel.py:66-107 | each result carries the current fingerprint; it is blocked exactly for a blocked check, with its reason, reused exactly when resuming with a usable record, and has exit 0 exactly when passed or reused |
| Runner.Verdict | scripts/ci/verify-local-parallel.py:317-363 | a selected check ends with a usable record exactly when it did not end failed, blocked, or skipped without an earlier usable record |
| Runner.ExitZeroIffAllRecorded | scripts/ci/verify-local-parallel.py:317-363 | exit 0 exactly when every selected check has a passed record with its current fingerprint in the final ledger |
| Runner.RerunPlansTheUnfinished | scripts/ci/verify-local-parallel.py:90-107 | a resuming rerun on the same fingerprints plans exactly the checks that ended unfinished |
| Runner.RerunAfterResume | scripts/ci/verify-local-parallel.py:90-107 | after a resuming run without blocks a rerun plans exactly the failed and not-scheduled checks |
| Runner.RerunExecutesTheOpen | scripts/ci/verify-local-parallel.py:90-107 | such a rerun executes only those checks; it executes all of them, unless it stops early itself under fail-fast |
| Runner.SkippedIsReusedIffRecordedBefore | scripts/ci/verify-local-parallel.py:239-245 | a skipped check is reused by a resuming rerun exactly when its record was usable before the run |
| Runner.SkippedIsReused | scripts/ci/verify-local-parallel.py:239-245 | for every two checks of which the first needs no resources there is a no-resume fail-fast run that skips the second, which a resuming rerun then reuses |
| Runner.SkippedIsReusedOnce | scripts/ci/verify-local-parallel.py:239-245 | one such run, with two given checks |
| Runner.WrittenIsHonest | scripts/ci/verify_local_parallel_support.py:407-415 | over any sequence of cut-off runs, nothing recorded is a reuse, and every recorded pass exited 0 |
| Runner.FileHoldsEverythingWritten | scripts/ci/verify_local_parallel_support.py:387-415 | over any such sequence the file loads to exactly everything written so far |
| Runner.ReuseIsSound | scripts/ci/verify_local_parallel_support.py:478-503 | over any such sequence a check is reused exactly when resuming and its latest recorded result is an exit-0 execution on the same fingerprint |
| InputHasher.InputHasher.constructor | scripts/ci/verify_local_parallel_support.py:274-277 | a fresh hasher is valid with empty caches |
| InputHasher.InputHasher.FileDigest | scripts/ci/verify_local_parallel_support.py:326-336 | a cached or fresh digest is that of the file's content |
| InputHasher.InputHasher.ExpandPattern | scripts/ci/verify_local_parallel_support.py:289-312 | one pattern gives its uncached entries, which `FingerprintContent.ExpansionIs` characterises by the file system |
| InputHasher.InputHasher.Expand | scripts/ci/verify_local_parallel_support.py:279-287 | whatever was expanded before, success and value are those of an uncached expansion |
| InputHasher.Feed | scripts/ci/verify_local_parallel_support.py:339-374 | the digest stream is the header followed by each sorted entry |
| InputHasher.FingerprintFor | scripts/ci/verify_local_parallel_support.py:339-374 | the fingerprint is that of an empty hasher, whatever is cached; what that is, is stated by `FingerprintContent.FingerprintIs` |
| InputHasher.EntryLeIsAnOrder | scripts/ci/verify_local_parallel_support.py:339-374 | tuple comparison of entries is a total order |
| InputHasher.ExpansionPermutes | scripts/ci/verify_local_parallel_support.py:279-287 | rearranged patterns expand to rearranged entries |
| InputHasher.FingerprintSeesOnlyTheMultiset | scripts/ci/verify_local_parallel_support.py:339-374 | checks with the same identity and the same multiset of entries have the same fingerprint, even from two file systems and two tables of input sets |
| InputHasher.FingerprintIgnoresPatternOrder | scripts/ci/verify_local_parallel_support.py:339-384 | reordering patterns, or moving them between inputs and input sets, keeps the fingerprint |
| FingerprintContent.ComponentsJoin | scripts/ci/verify_local_parallel_support.py:303-303 | splitting a path at its slashes loses nothing and leaves no slash |
| FingerprintContent.RelativeMeans | scripts/ci/verify_local_parallel_support.py:79-84 | a pattern is legal exactly when it is the worktree mark, or is not absolute and has no parent component |
| FingerprintContent.ExpansionIs | scripts/ci/verify_local_parallel_support.py:279-312 | an entry belongs to the expansion exactly when some pattern has no match and the entry says so, or some match below the root and outside the skipped directories is a link with that target or a regular file with that digest |
| FingerprintContent.EditChangesEntries | scripts/ci/verify_local_parallel_support.py:289-336 | editing a listed regular file so that its digest changes changes the multiset of entries |
| FingerprintContent.PatternsAre | scripts/ci/verify_local_parallel_support.py:346-384 | the patterns are the inputs, those of the named sets, and the command parts that name a source directory |
| FingerprintContent.DeclaredPatternsStayBelow | scripts/ci/verify_local_parallel_support.py:79-84 | no pattern of a check in an accepted manifest is empty, and those its command does not name are the worktree mark or stay below the root |
| FingerprintContent.AcceptedHasPatterns | scripts/ci/verify_local_parallel_support.py:159-163 | a check in an accepted manifest never has an empty list of patterns |
| FingerprintContent.HeaderIs | scripts/ci/verify_local_parallel_support.py:349-368 | in literal bytes, a check with the default context is hashed under the legacy schema without context, any other under the current schema with all four context fields |
| FingerprintContent.FingerprintIs | scripts/ci/verify_local_parallel_support.py:339-374 | the fingerprint is the digest of the header followed by the entries in ascending order, each as name, zero byte, digest, zero byte |
| FingerprintContent.NameLeMeans | scripts/ci/verify_local_parallel_support.py:369-369 | names are ordered by prefix or by the first differing character |
| Ndcg.ReferenceInvalidIff | scripts/local/embedding-prepacking-benchmark.py:438-454 | the reference is rejected exactly when k is 0 or the control is empty |
| Rearrangement.SumAtMostTop | scripts/local/embedding-prepacking-benchmark.py:438-454 | entries whose positive values are distinct sum to at most the largest values allowed |
| Rearrangement.IdealDominates | scripts/local/embedding-prepacking-benchmark.py:438-454 | every prefix of the ideal gains sums to at least the same prefix of any candidate's gains |
| Rearrangement.SurplusBound | scripts/local/embedding-prepacking-benchmark.py:438-454 | the discounted surplus is at least the plain surplus times the last discount |
| Rearrangement.EqualDotMeansEqual | scripts/local/embedding-prepacking-benchmark.py:438-454 | a dominated sequence reaches the same discounted total only by being equal |
| Ndcg.NdcgBound | scripts/local/embedding-prepacking-benchmark.py:438-454 | the score lies in [0, 1] and is 1 exactly when the control's top k stands in order at the front of the candidate |
| Ndcg.NdcgOneIffSameTop | scripts/local/embedding-prepacking-benchmark.py:438-454 | for rankings of equal length the score is 1 exactly when the first k entries agree |
| Ndcg.NdcgValue | scripts/local/embedding-prepacking-benchmark.py:438-454 | the score times the ideal total is the sum over the control's top passages of gain times the discount at the passage's place in the candidate, 0 when it is not among the first k |
| Ndcg.ExchangeCosts | scripts/local/embedding-prepacking-benchmark.py:438-454 | exchanging two neighbours of the control's top costs exactly the difference of their discounts, as a share of the ideal total |
| QualitySummary.RankingIsAPermutation | scripts/local/embedding-prepacking-benchmark.py:431-435 | a ranking lists every passage once, best score first, ties by position |
| QualitySummary.RankingIsByScore | scripts/local/embedding-prepacking-benchmark.py:431-435 | an earlier place has a larger score, or the same and a smaller index |
| QualitySummary.OverlapBound | scripts/local/embedding-prepacking-benchmark.py:486-488 | the overlap lies in [0, 1] and is 1 exactly when both tops hold the same passages |
| QualitySummary.OverlapCounts | scripts/local/embedding-prepacking-benchmark.py:486-488 | ten times the overlap is the number of the candidate's first ten passages that are among the control's first ten |
| QualitySummary.CompareQueries | scripts/local/embedding-prepacking-benchmark.py:480-492 | the loop collects each query's overlap and nDCG in order and counts the equal first places |
| QualitySummary.QualitySummary | scripts/local/embedding-prepacking-benchmark.py:457-501 | succeeds exactly on result sets of the contracted shape; means, minimum and agreement are those of the per-query values |
| QualitySummary.MatchesCount | scripts/local/embedding-prepacking-benchmark.py:492-492 | the counted agreements are the number of queries whose first places agree |
| QualitySummary.MeanIsTotal | scripts/local/embedding-prepacking-benchmark.py:497-500 | a mean times the number of values is their sum |
| QualitySummary.SummaryMeans | scripts/local/embedding-prepacking-benchmark.py:494-501 | the drop is never negative, and 0 exactly when all top lists agree in order; overlaps are 1 exactly when the top sets agree, agreement 1 exactly when the first places do |
| Layout.DirectoryPools | scripts/local/prepare-mixed-import-benchmark.py:260-272 | the pools list all 3, 6 and 12 directories of the three depths in order, sector 1 apart |
| Layout.ParentIndex | scripts/local/prepare-mixed-import-benchmark.py:260-272 | the parent of a pool's j-th directory is entry j/2 of the pool one level up |
| Layout.PlaceOne | scripts/local/prepare-mixed-import-benchmark.py:282-291 | the counters give the i-th candidate of a role its directory in closed form |
| Layout.PlaceRole | scripts/local/prepare-mixed-import-benchmark.py:280-293 | the i-th candidate of a role goes to its directory under its derived name |
| Layout.AssignLayout | scripts/local/prepare-mixed-import-benchmark.py:274-295 | resumes then ordinary documents are placed and the result sorted by path |
| Layout.NoCandidateIsLost | scripts/local/prepare-mixed-import-benchmark.py:274-295 | a layout, in whatever order, places every candidate exactly as often as it is given |
| Layout.PlacementName | scripts/local/prepare-mixed-import-benchmark.py:292-292 | a placed file is named after its candidate's derived name and keeps its extension |
| Layout.RenderedIs | scripts/local/prepare-mixed-import-benchmark.py:260-272 | the literal names of the directories at each depth |
| Layout.LayoutIsOrdered | scripts/local/prepare-mixed-import-benchmark.py:294-294 | the layout is in the order of its rendered paths |
| DirectoryContract.Survey | scripts/local/prepare-mixed-import-benchmark.py:298-305 | collects exactly the roles found directly in each directory and exactly all directories of the tree |
| DirectoryContract.CountKinds | scripts/local/prepare-mixed-import-benchmark.py:309-318 | accepted exactly when a resume-only and a mixed directory occur, with the right counts and depth |
| DirectoryContract.CheckContract | scripts/local/prepare-mixed-import-benchmark.py:297-318 | which layouts fail the non-leaf check, and that the rest are accepted exactly when both kinds occur |
| DirectoryContract.ParentIsPlacedEarlier | scripts/local/prepare-mixed-import-benchmark.py:274-295 | the parent of a placement is the placement of an earlier candidate of the same role |
| DirectoryContract.PlacedNonLeavesHaveFiles | scripts/local/prepare-mixed-import-benchmark.py:297-318 | the non-leaf check never fires on a placed layout |
| DirectoryContract.AcceptedIff | scripts/local/prepare-mixed-import-benchmark.py:274-318 | for every candidate list: accepted exactly with at least two resumes and one ordinary document |
| DirectoryContract.LayOut | scripts/local/prepare-mixed-import-benchmark.py:274-318 | placement and check together: no candidate is lost, acceptance as above, and balanced depths |
| DirectoryContract.LayoutDepths | scripts/local/prepare-mixed-import-benchmark.py:280-295 | how many files of each role any layout of the candidates, in any order, has at each depth |
| DirectoryContract.DepthsAreBalanced | scripts/local/prepare-mixed-import-benchmark.py:274-295 | the depths of a layout differ by at most one within a role; overall the spread is exactly one per role whose count is not a multiple of four |
| Selection.LimitsAreExact | scripts/local/prepare-mixed-import-benchmark.py:340-347 | whatever the rounding, exactly the maximum is selected, no role is overdrawn, and each role present keeps one |
| Selection.KeepsTheShare | scripts/local/prepare-mixed-import-benchmark.py:340-347 | a sampled selection keeps the share of resumes rounded to the nearest, ties to even, unless that would leave a role that is present without any |
| Selection.SelectCandidates | scripts/local/prepare-mixed-import-benchmark.py:338-351 | which inputs are rejected and why; otherwise the leading candidates of each role, in total the maximum when sampled |
| Selection.EnoughIsKept | scripts/local/prepare-mixed-import-benchmark.py:340-347 | the kept numbers suffice exactly with two resumes and an ordinary document and, if sampled, a maximum of three that has room for two resumes beside all ordinary documents or an exact share of at least one and a half resumes |
| Selection.BuildLayout | scripts/local/prepare-mixed-import-benchmark.py:338-351 | selection, placement and check succeed exactly under that condition on the three numbers |
| Selection.SamplingLosesABuild | scripts/local/prepare-mixed-import-benchmark.py:340-347 | two resumes among a thousand ordinary documents build without a maximum and not with ten |
| Freeze.HoldoutLeavesSome | scripts/local/prepare-mixed-import-benchmark.py:475-482 | for 1 to 50 percent a stratum of two or more gives at least one and keeps at least one |
| Freeze.HoldoutIsRounded | scripts/local/prepare-mixed-import-benchmark.py:479-479 | the count is 0 for at most one record; else it is the percentage rounded to the nearest, ties to even, but at least 1 |
| Freeze.Split | scripts/local/prepare-mixed-import-benchmark.py:475-482 | the layers are the records in and out of the chosen ids, in their order |
| Freeze.LayersPartition | scripts/local/prepare-mixed-import-benchmark.py:475-482 | the layers partition the records and share no id |
| Freeze.HoldoutIsExact | scripts/local/prepare-mixed-import-benchmark.py:475-482 | with unique ids the number of records of a role in the holdout is that percentage of the role's records |
| Freeze.HoldoutHasSmallestKeys | scripts/local/prepare-mixed-import-benchmark.py:475-482 | within a role no record outside the holdout has a smaller key than one inside |
| Freeze.BothLayersSeeTheRole | scripts/local/prepare-mixed-import-benchmark.py:475-484 | every role with at least two records appears in both layers |
| Freeze.EvidenceDirectory.WriteOutputs | scripts/local/prepare-mixed-import-benchmark.py:508-520 | verifies existing outputs or writes new ones, and when it reports a mismatch |
| Freeze.NothingIsRewritten | scripts/local/prepare-mixed-import-benchmark.py:508-520 | over any sequence of calls, cut off anywhere, an existing file keeps its contents |
| Freeze.CutLeavesPartial | scripts/local/prepare-mixed-import-benchmark.py:508-520 | a first call leaves a partial directory exactly when cut after one or two writes |
| Freeze.InterruptedNeverHeals | scripts/local/prepare-mixed-import-benchmark.py:508-520 | a partial directory stays as it is and matches no contents, whatever is called later |
| PdfWriter.WriteObjects | scripts/local/ocr-query-publication.py:114-121 | the body loop writes every object and records where each starts |
| PdfWriter.WriteTable | scripts/local/ocr-query-publication.py:123-125 | the table lists the recorded offsets in order |
| PdfWriter.BuildPdf | scripts/local/ocr-query-publication.py:114-130 | the output is header, objects, table and trailer |
| PdfWriter.TableIsFound | scripts/local/ocr-query-publication.py:122-129 | the number before the end mark is the position of the table |
| PdfWriter.ObjectAtOffset | scripts/local/ocr-query-publication.py:116-121 | object k stands, whole, at its recorded offset, in literal bytes |
| PdfWriter.HeadStands | scripts/local/ocr-query-publication.py:115-115 | the file begins with the literal header and binary mark |
| PdfWriter.TableStands | scripts/local/ocr-query-publication.py:122-124 | where the end of the file points to stand the literal head of the table, its size and the free entry |
| PdfWriter.TrailerStands | scripts/local/ocr-query-publication.py:126-129 | the file ends with the literal trailer, whose size and table position are right |
| PdfWriter.EntryResolves | scripts/local/ocr-query-publication.py:114-130 | if all offsets before it have ten digits, decoding entry k gives the offset of object k exactly when that one has as well |
| PdfWriter.EveryEntryLeadsIff | scripts/local/ocr-query-publication.py:114-130 | for every object list, every in-use entry leads to its whole object exactly when the last object starts below 10^10 (section 7.5.4 of ISO 32000-1) |
| PdfWriter.FirstFollowsHead | scripts/local/ocr-query-publication.py:114-130 | read through the table, object 1 starts right behind the header |
| PdfWriter.ObjectsAdjoin | scripts/local/ocr-query-publication.py:116-121 | read through the table, each object starts where the one before it ends |
| PdfWriter.PartsFillTheFile | scripts/local/ocr-query-publication.py:114-130 | behind the table's position come its head, one 20-byte entry per object and the free one, and the trailer, and nothing else |
| PdfWriter.EntryWidth | scripts/local/ocr-query-publication.py:124-125 | an entry has 20 bytes exactly for offsets below 10^10 |
| PdfWriter.EntriesAreNarrowIff | scripts/local/ocr-query-publication.py:124-125 | all entries have 20 bytes exactly when the last object starts below 10^10 |
| OcrSample.ErrorSampleAccepted | scripts/local/ocr-query-publication.py:285-290 | every error sample passes the checker |
| OcrSample.CompletedSampleAccepted | scripts/local/ocr-query-publication.py:293-300 | every completed sample passes the checker, its rounded residual included |
| OcrSample.ClassifiedIsAccepted | scripts/ci/check-ocr-query-publication.py:138-157 | whatever the daemon answers, the sample passes the checker; a signature comes exactly with a valid completion |
| OcrSample.ClassifiedKeepsTheTimes | scripts/local/ocr-query-publication.py:285-360 | whatever the daemon answers, the sample's wall, server and stage times are those observed and reported, to six decimals, and the unclassified time is the server time less the sum of the stages |
| OcrReport.SummaryIsMonotone | scripts/local/ocr-query-publication.py:506-511 | p50, p95, p99 and max never decrease, rounding included |
| OcrReport.PercentileMeans | scripts/local/ocr-query-publication.py:506-511 | a percentile is the least value that the given share of the values does not exceed |
| OcrReport.SummaryIs | scripts/local/ocr-query-publication.py:506-511 | the summary holds, to three decimals, the 50, 95 and 99 percent points in that sense and the maximum |
| OcrReport.CollectColumns | scripts/local/ocr-query-publication.py:518-534 | the loop gathers the columns of all epochs |
| OcrReport.ColumnsMean | scripts/local/ocr-query-publication.py:518-534 | what each column holds for each epoch, relative to the control |
| OcrReport.SignalsCount | scripts/local/ocr-query-publication.py:527-534 | the signal count is the number of epochs that are incomplete, or exceed the control by 20 ms with ratio 1.5 and residual 15 ms |
| OcrReport.AggregateMode | scripts/local/ocr-query-publication.py:514-542 | the aggregate is the summary of those columns |
| OcrContract.MaxSurvivesSorting | scripts/ci/check-ocr-query-publication.py:186-194 | the maximum of the values, which the checker takes, is that of the sorted list, which the producer takes |
| OcrContract.SummariesAgree | scripts/ci/check-ocr-query-publication.py:180-194 | checker and producer compute the same summary of every list |
| OcrContract.AddExpected | scripts/ci/check-ocr-query-publication.py:217-240 | the checker's step over a pair equals the producer's |
| OcrContract.ExpectedAggregate | scripts/ci/check-ocr-query-publication.py:206-251 | the checker's loop gives the aggregate of the same columns |
| OcrContract.OwnAggregateAccepted | scripts/ci/check-ocr-query-publication.py:254-265 | the produced aggregate passes against the recomputed one |
| OcrContract.CountsAgree | scripts/ci/check-ocr-query-publication.py:334-356 | both count the same outcomes although they walk the samples in different orders |
| OcrContract.DecisionsAgreeIff | scripts/ci/check-ocr-query-publication.py:362-409 | the two decision procedures agree exactly when all guards hold, or on a smoke run with an inexact sample |
| OcrContract.AcceptedIffGuarded | scripts/ci/check-ocr-query-publication.py:334-409 | for all well-shaped groups the assembled report is accepted exactly when probes and cleanup hold, or it is an inexact smoke report |
| OcrContract.AcceptedReportsAgree | scripts/ci/check-ocr-query-publication.py:334-409 | two accepted reports on the same groups have the same counts and diagnosis, and aggregates that rise and are equal up to the checker's tolerance |
| OcrContract.AcceptedDiagnosisMeans | scripts/ci/check-ocr-query-publication.py:362-390 | a guarded formal report is accepted only with the status, action and signals its raw samples call for: two slow or incomplete epochs of full text, and of semantic or hybrid |
| OcrContract.AcceptedStatusMeans | scripts/ci/check-ocr-query-publication.py:367-380 | an accepted formal report is inconclusive exactly without its guards; a smoke report passes exactly when guarded with all samples exact; integrity holds exactly without a protocol error |
| OcrContract.BuildReport | scripts/local/ocr-query-publication.py:545-597 | a report is returned exactly in those cases, and it validates |
| OcrRun.ObservedIsAccepted | scripts/local/ocr-query-publication.py:363-375 | whatever the transport or the daemon does, the observed sample passes the checker |
| OcrRun.ObserveGroup | scripts/local/ocr-query-publication.py:449-467 | a group holds, whatever the mode order, the first and warm sample of each mode |
| OcrRun.ProbesPass | scripts/local/ocr-query-publication.py:390-410 | the three classification probes always pass, so a failed probe never reaches a report |
| OcrRun.AllExactMeans | scripts/local/ocr-query-publication.py:545-549 | with an exact control all counted samples are exact exactly when every epoch is |
| OcrRun.ObservedIsWellShaped | scripts/ci/check-ocr-query-publication.py:160-177 | whatever the daemon answers after an exact control, the groups have the shape the checker demands |
| OcrRun.RunExperiment | scripts/local/ocr-query-publication.py:600-674 | for every daemon: the run stops exactly at an inexact control; otherwise its report passes the checker exactly when the processes were cleaned up or it is a smoke run with an inexact epoch |
| OcrRun.UncleanSmokePasses | scripts/ci/check-ocr-query-publication.py:368-375 | one daemon whose smoke run passes the checker without cleanup |
| Delivery.EntriesAccepted | scripts/ci/check-autonomous-goal.py:760-787 | the entry loop accepts exactly lists of well-formed entries with distinct names |
| Delivery.AllPinned | scripts/ci/check-autonomous-goal.py:291-322 | each pinned transition is present with its exact edge and terms |
| Delivery.AllOutgoing | scripts/ci/check-autonomous-goal.py:387-397 | each delivery state is left by exactly the listed names |
| Delivery.CheckTransitions | scripts/ci/check-autonomous-goal.py:760-812 | the checks together accept exactly the lists meeting the graph and term conditions |
| Delivery.ForcedStep | scripts/ci/check-autonomous-goal.py:156-176 | from each delivery state there is only the next delivery transition, or a way into an avoided state |
| Delivery.RunFollowsChain | scripts/ci/check-autonomous-goal.py:384-397 | an avoiding run from the privacy gate is at the k-th delivery state after k transitions |
| Delivery.DeliveryIsForced | scripts/ci/check-autonomous-goal.py:15-176 | over every accepted list, an avoiding run to a reconciled issue begins with the eight delivery transitions in order, and is just these exactly when it stops at the first |
| Delivery.DeliveryIsPossible | scripts/ci/check-autonomous-goal.py:291-322 | every accepted list has that run |
| Delivery.EntriesAreUnrestricted | scripts/ci/check-autonomous-goal.py:387-397 | a transition with a name and states the checker does not know, from outside the delivery states, may be added to any accepted list |
| Delivery.DeliveryMayRepeat | scripts/ci/check-autonomous-goal.py:387-397 | an accepted list may have a run of seventeen transitions between the same two states |
| Delivery.PinnedAloneIsAccepted | scripts/ci/check-autonomous-goal.py:15-176 | the tables are consistent: the pinned transitions with their terms are an accepted list |
| Delivery.DeliveryRepeatsOnce | scripts/ci/check-autonomous-goal.py:387-397 | one accepted list with a run that delivers twice |
| ProcessTree.Pass | scripts/local/coreml-product-path-experiment.py:395-399 | a pass adds only descendants, and leaves a closed set when it changes nothing |
| ProcessTree.Descendants | scripts/local/coreml-product-path-experiment.py:392-399 | ends on every listing and collects exactly the descendants of the root |
| ProcessTree.ProcessTreeRss | scripts/local/coreml-product-path-experiment.py:380-400 | the total is the sum of the resident sizes of exactly the descendants |
| ProcessTree.TotalIsSum | scripts/local/coreml-product-path-experiment.py:400-400 | the accumulated total is the sum over the listed rows whose pid is in the set |
| ProcessTree.WorklistEndsIff | scripts/local/ocr-query-publication.py:431-436 | the worklist walk ends exactly when the root is not its own descendant |
| ProcessTree.SelfParentNeverEnds | scripts/local/ocr-query-publication.py:431-436 | on a listing whose root is its own parent the walk never ends |
| ProcessTree.Members | scripts/local/ocr-query-publication.py:431-436 | when it ends, the walk holds exactly the descendants |
| ProcessTree.TableIsLatest | scripts/local/ocr-query-publication.py:426-430 | the table holds, for every listed pid, the last row that has it |
| ProcessTree.WorklistRss | scripts/local/ocr-query-publication.py:426-439 | fails exactly when the root is not listed; else the sum of the resident sizes of exactly the descendants |
| ProcessTree.BothAgree | scripts/local/coreml-product-path-experiment.py:385-400 | with unique pids and a listed, non-cyclic root both computations give the same total |
| Framing.Pipe.Read | scripts/local/embedding-batch-benchmark.py:43-46 | any non-empty fragment up to the requested size, in order; nothing only at the end |
| Framing.ReadExact | scripts/local/embedding-batch-benchmark.py:37-51 | exactly the requested bytes however fragmented, not one more, and when it fails |
| Framing.BigEndianRoundTrip | scripts/local/embedding-batch-benchmark.py:54-73 | a size survives encoding and decoding |
| Framing.FrameMeans | scripts/local/embedding-batch-benchmark.py:67-73 | a frame is four bytes of weights 2^24, 2^16, 2^8 and 1 that give the payload's length, and the payload |
| Framing.ReadFrame | scripts/local/embedding-batch-benchmark.py:54-64 | undoes writing whatever follows; a bad size is reported after four bytes, a short stream as ended |
| Framing.WriteFrames | scripts/local/embedding-batch-benchmark.py:67-73 | writing payloads in turn stops at the first out of bounds, with exactly the frames of those before it on the stream |
| Framing.ReadFrames | scripts/local/embedding-batch-benchmark.py:37-73 | for every payload list and fragmentation the payloads of the frames come back in order and the bytes behind them stay |
| Framing.RoundTrip | scripts/local/embedding-batch-benchmark.py:37-73 | written payloads are read back in order, whatever follows them on the stream |
| Framing.FramesAreInjective | scripts/local/embedding-batch-benchmark.py:67-73 | no two payload lists share a byte stream |
| ResidentWorker.ReadBlock | apps/desktop/scripts/coreml-resident-worker.swift:14-24 | the end is clean exactly before the first byte, broken exactly inside a block |
| ResidentWorker.Worker.constructor | apps/desktop/scripts/coreml-resident-worker.swift:55-67 | two fresh tensors of the batch's size |
| ResidentWorker.Worker.CopyTensor | apps/desktop/scripts/coreml-resident-worker.swift:26-31 | succeeds exactly on equal sizes and then overwrites the whole tensor |
| ResidentWorker.Worker.Serve | apps/desktop/scripts/coreml-resident-worker.swift:76-94 | a reply depends only on the two blocks of its request, although the tensors are shared |
| ResidentWorker.Worker.Run | apps/desktop/scripts/coreml-resident-worker.swift:72-95 | replies and end are those of the input read pair by pair, for every fragmentation |
| ResidentWorker.OneReplyPerPair | apps/desktop/scripts/coreml-resident-worker.swift:67-95 | given predictions, one reply per complete pair, and a normal exit exactly on a whole number of pairs |
| ResidentWorker.ReplyIsForItsPair | apps/desktop/scripts/coreml-resident-worker.swift:72-95 | reply k is the prediction for pair k |
| PdfRange.CountMeans | apps/desktop/src/pdf-preview-range.ts:30-31 | the ceiling counts exactly the chunk offsets before the end |
| PdfRange.SetBytes | apps/desktop/src/pdf-preview-range.ts:54-54 | the buffer gains the reply's bytes behind those already there |
| PdfRange.ProgressStep | apps/desktop/src/pdf-preview-range.ts:54-58 | a full reply advances by one chunk; anything else makes delivery impossible |
| PdfRange.Deliver | apps/desktop/src/pdf-preview-range.ts:12-61 | ends for every integer chunk size; succeeds exactly when every reply is full, after exactly the ceiling number of consecutive requests |
| PdfRange.DeliverableMeans | apps/desktop/src/pdf-preview-range.ts:29-60 | delivery is possible exactly for an ordered range, empty or with a positive chunk size and a full matching reply at every chunk offset |
| PdfRange.DeliveredIsTheRange | apps/desktop/src/pdf-preview-range.ts:27-60 | if replies carry the true bytes, the delivered range is that range of the file |

## Left out

- Subprocesses, git, HTTP transport, clocks, terminal output, log tails, round files and the `--list` and `--dry-run` modes: only their outcomes enter, as parameters or free choices.
- The `runner.lock` takeover: a single runner is assumed.
- SHA-256, HMAC, JSON and UTF-8: function parameters, with no injectivity assumed; floating-point rounding inside sums and logarithms is not modelled.
- Manifest.ReadManifest: the JSON types are already those of the record, so only the checks on values are modelled, and which of several errors about one entry is given is not stated.
- QualitySummary.QualitySummary: the query scores are inputs; vector deltas, cosine similarity and the pass thresholds are not modelled.
- ProcessTree.Members: requires that the root is not its own descendant, which is exactly when the loop ends.
- ProcessTree.WorklistRss: requires the same, for the same reason.
- Delivery.CheckTransitions: the further named transitions demanded by `main` (lines 790-795 and 814-868) and permission, policy and document checks are not modelled, so it accepts more lists than the script. The statements about every accepted list therefore cover the script's; those that give a list are about the modelled checks, and the further transitions, which have other names and leave no delivery state, can be added by `Delivery.EntriesAreUnrestricted`.
- Framing.ReadFrame: payloads are bytes; decoding them as JSON objects is not modelled.
- Framing.Pipe.Read: the deadline is a flag that says whether the reader can be made to wait too long.
- ResidentWorker.Worker.Serve: the prediction, its finiteness check and its encoding are one partial function of the two tensors.
- PdfRange.Deliver: base64 decoding and the request id are part of the modelled reply.
- OcrContract.AcceptedIffGuarded: the closed field sets, host-load, resource and revision fields, the report-size and path scans of the checker are not modelled.
- OcrContract.BuildReport: requires well-shaped groups with an exact control, which `OcrRun.ObservedIsWellShaped` shows the run to have; the resource fields are not modelled.
- OcrRun.RunExperiment: starting the processes, seeding, choosing the anchor and the publication-epoch races are not modelled; the daemon's answers are any function of group, mode and phase, with seven stage latencies where they are kept.
- OcrSample.ClassifiedIsAccepted: the closed field set and the echoed identity of a response are one flag.
- Freeze.EvidenceDirectory.WriteOutputs: a crash is modelled as stopping after any number of the three writes; file permissions are not modelled.
- Discovery and copying of benchmark files, `text_pdf`, `image_pdf`, bootstrap intervals and telemetry: foreign calls or easy members.
- The constant-table checkers, the user interface, the build scripts and the Rust crates.
