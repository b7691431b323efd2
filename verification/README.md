# Model and proofs for agent6

agent6 runs coding agents in a workspace and keeps their state in plain files. This project models the
parts of it that are protocols, ledgers, encodings and scanners, and proves what each of them is for.

| module | what it models |
|---|---|
| `LockFile` | the `.lock` file beside a target: open, lock, re-check of the inode, retry, unlink, unlock, close, as steps that any number of threads take in any order, with failed calls, crashes and reused inodes |
| `LockCalls` | one thread's call of `locked_file` among the others: how it leaves, what failures lead to, which steps it is made of |
| `Publish` | read-modify-write cycles under that lock that publish by temp file and rename; `atomic_write` itself; the per-thread map of held locks |
| `Transfer` | packing a home and unpacking it at another: snapshots that travel, stale ones included, the hashes each home remembers, and the three-way rule |
| `Importing` | the import as it changes a disk operation by operation, cut off anywhere, and rerun |
| `PlanMeter`, `Budget`, `StopCause`, `RouteHistory` | the spend meter: per-route counters, plan windows, credit balances, the stop reason, each in terms of the calls and readings before |
| `RankTest`, `Significance` | the Mann-Whitney U test from tie-averaged ranks, the tie-corrected variance and the two-sided p-value, the Wilson interval |
| `Utf8`, `RepoId`, `ElidedId`, `DeepId` | reversible directory names for repositories, cut on character boundaries when too long, and what such a cut name can be mistaken for |
| `Text`, `Media`, `WireForms` | the omission of media payloads from JSON values, and of their echoes; the block forms that are recognised |
| `Journal` | the append-only journal: repair of a torn tail, appends cut short, the readers |
| `Terminal` | the terminal scrubbers |
| `Directive` | the `/parallel` grammar |
| `Wrappers` | Option, Result, bytes and a law of sequences |

Where the source updates an object, a file or a collection in place the model is a class or a method with
a loop, proved against a specification function; the theorems are about those functions. Floats are
reals. Each regular expression is a scanner or a predicate on positions with the same alternatives in the
same order. What the code takes from its surroundings (hashes, `json.dumps`, base64, path resolution, the
square root, the normal tail, the order in which a set is listed) is a parameter, with no more assumed of
it than a named predicate (`Sound`, `Harmless`, `SymmetricTail`) or a `requires` says.

Some promises of the documentation are false of the code in some cases. The model keeps the code, shows
the case, and proves the promise under the condition that rules it out:

- Hashes are of contents, so two versions can have one hash, and then can pass for each other. A file that no
  home deletes keeps its edits in every run exactly under hashes where this does no harm: what descends from a
  version, and hashes otherwise, descends from every version with its hash (`Transfer.KeepsEditsExactly`, with
  nothing assumed of the hash). An edit that restores an earlier content breaks that
  (`Transfer.RestoredContentIsOverwritten`). For one run it is enough that the versions of the file occurring
  in it are harmless (`Transfer.NoLostEdit`), as they are when they hash apart (`Transfer.NothingIsLost`).
- A home that deletes a file can make an unpack of a stale pack bring an older version of it back, and the
  next transfer then undoes the edit at the other home too, for any file, either home and any edit that shows in
  the hash (`Transfer.DeletionLosesAnEdit`). So a file that is deleted keeps its edits only under a hash
  that tells no versions apart (`Transfer.KeepsEditsExactly`); deletions of other files do not matter
  (`Transfer.SafeExactlyUndeleted`).
- A plan reading that comes late, or again, counts nothing exactly on the clocks whose reset times fall into
  windows, jitter within the slack and windows further apart (`PlanMeter.CleanClocksAreExact`). On any other
  clock one can move the window's reset time back, and points count twice (`PlanMeter.JitterCountsTwice`).
- A reached cap stops the next check, not a request already out. After the crossing at most one call for
  each seat then in flight still lands (`Budget.NoCallAfterACap`, `Budget.OneCallASeatAfterACap`). A call can
  land exactly while its seat is in flight (`Budget.LandsExactlyInFlight`), and a landing takes no other seat's
  (`Budget.LandingLeavesOthers`), so all of them can (`Budget.AllInFlightLand`, `Budget.TwoSeatsCross`).
- An id does not always identify one root. The ends of a path too long for a component can, with its hash
  read as marks, spell another path that fits and has the same id; no two hashes need to agree for that.
  `ElidedId.SharedByPath` says exactly when, `DeepId.DeepIdIsShared` gives paths for which it happens unless
  the hash starts with a zero or its fourth digit is 3, 7, b or f, which puts an empty name between the ends,
  `ElidedId.FewDashesNeverCollide` names ids that are safe, and `ElidedId.ElidedIdReads` says when the decoder
  then answers with the other root.
- A payload that is empty, or a part of the text that replaces it, survives its own omission: `load` does
  (`Media.MarkerHoldsLoad`). All others go (`Media.SurvivorsAreInTheMarker`, both directions).
- Omitting echoes changes just the texts in which a collected payload occurs (`Media.ScrubChangesEchoes`). An
  empty payload, as of an image block with empty `data`, occurs in all of them: the marker is then put before
  every character of every text, names of types included (`Media.EmptyPayloadSpoilsAll`). A short payload can
  occur in the type or metadata that stands for its own block, which then is not as documented;
  `WireForms.BlockAlone` says when it is.
- `_tail_bytes` with limit 0 returns the whole text (`Utf8.TailKeepsLimit`). Its only caller passes 65.
- Re-scrubbing an accumulated stream equals scrubbing the whole stream exactly when the part scrubbed
  first does not end inside an escape sequence (`Terminal.RescrubbingIsExact`).

## Model

| member | source | states |
|---|---|---|
| `LockFile.StepKeepsInv` | src/agent6/portable.py:90-168 | every step of every thread, failed calls and crashes among them, keeps: a held lock belongs to the thread whose descriptor names the inode, and a thread past its re-check has the inode the path names |
| `LockFile.RunKeepsInv` | src/agent6/portable.py:90-168 | so does every run |
| `LockFile.OneBody` | src/agent6/portable.py:126-168 | under the invariant two threads in a guarded body are one |
| `LockFile.MutualExclusion` | src/agent6/portable.py:126-168 | in every run from nothing, whatever the interleaving, at most one thread is in a body that was yielded True |
| `LockFile.UnlockFirstBreaksExclusion` | src/agent6/portable.py:161-168 | with the release order the comment warns against, a run puts two threads in the body |
| `LockFile.EveryWayAcquires` | src/agent6/portable.py:103-123 | once no other thread holds the lock, every run of a thread's own steps without a failing call stands in a body yielded True after exactly the steps that were left, at most seven |
| `LockFile.LoneThreadAcquires` | src/agent6/portable.py:103-123 | and there is such a run for a thread that arrives, waits or retries, its inode still linked or unlinked under it, whatever lock file a crash left |
| `LockCalls.BodyIsLeft` | src/agent6/portable.py:161-168 | a block that ends is left by four steps of its thread, the unlink and unlock failing or not and other threads between them or not: it is back at its caller and holds no lock |
| `LockCalls.OnlyUnlinkUnlinks` | src/agent6/portable.py:162-165 | of those steps only the unlink touches the path, and it unlinks the thread's own file; one that fails leaves the path |
| `LockCalls.WayOut` | src/agent6/portable.py:161-168 | the steps out are always possible, and leave no lock file |
| `LockCalls.FailureFailsOpen` | src/agent6/portable.py:108-123 | a failing open, lock or retry's unlock leads to the body yielded False, at once or after one close, without a lock, whatever other threads do |
| `LockCalls.AnyCallMayFail` | src/agent6/portable.py:108-168 | each of the calls may fail where it is made, and a thread die anywhere |
| `LockCalls.CrashLetsGo` | src/agent6/portable.py:103-168 | a thread that dies is gone with its lock, and the lock file stays |
| `LockCalls.RunsAreCalls` | src/agent6/portable.py:103-168 | in every interleaving what a thread does from outside to outside is a sequence of whole calls: retry rounds, then a guarded body with unlink, unlock and close in that order, or one of the three failures with its unguarded body |
| `Publish.LockStepKeepsSerial` | src/agent6/portable.py:126-168 | a step of the lock leaves the target at the fold of the published updates |
| `Publish.RenameKeepsSerial` | src/agent6/portable.py:182-222 | a rename inside the lock applies its update to what the target holds at that moment |
| `Publish.ActKeepsSerial` | src/agent6/portable.py:126-222 | every act of reading, writing, renaming, giving up or dying keeps the target serial |
| `Publish.UpdatesAreSerialised` | src/agent6/portable.py:126-222 | in every run with crashes the target is the fold of the completed updates in lock order; no update is lost or torn |
| `Publish.BodyCanPublish` | src/agent6/portable.py:182-222 | whoever stands in the body can publish any update in four acts of its own |
| `Publish.CyclesMayStop` | src/agent6/portable.py:182-222 | a cycle may stop at any byte of its temp file or be given up, and the target is as it was |
| `Publish.Directory.AtomicWrite` | src/agent6/portable.py:182-222 | all of the data or nothing, with the mode given, else the old file's, else 0600: an error before the rename leaves no trace, a death leaves the old target and a stray temp file |
| `Publish.Thread.Run` | src/agent6/portable.py:147-168 | nested blocks of one thread leave its map of held locks as they found it and do just the specified lock operations |
| `Publish.NestedNeverReleases` | src/agent6/portable.py:149-168 | whatever a thread nests, a key an outer block entered is neither acquired again nor released before that block ends, and the thread ends owning what it began with |
| `Publish.EveryBlockIsToldItsLock` | src/agent6/portable.py:147-160 | every block of a thread is entered once and in program order, is yielded what the outermost block with its key got, and runs under exactly the locks so granted around it |
| `Transfer.DecisionIsLossless` | src/agent6/pack.py:50-69 | for any two versions whose base both sides went through, among versions that hash harmlessly, the rule overwrites only by a descendant and keeps only what went through the packed hash |
| `Transfer.ImportIsLossless` | src/agent6/pack.py:360-404 | for every file with consistent bases, an import that is not refused leaves a copy that has every edit of the home's and went through what hashes like the packed one |
| `Transfer.ImportedHashesFit` | src/agent6/pack.py:388-403 | the hash an import records for a file is one that both homes' versions went through |
| `Transfer.CutKeepsConsistent` | src/agent6/pack.py:336-404 | an import cut short and never rerun, some of its files moved and no base written, keeps all bases consistent and loses no edit |
| `Transfer.InterruptedImports` | src/agent6/pack.py:336-404 | an import cut short leaves each file as the whole import would or as it was, and no base; a rerun one lacks only some hashes |
| `Transfer.PacksMayLoseFiles` | src/agent6/pack.py:336-357 | a pack that lost a file can be imported later, as can the whole one |
| `Transfer.EventKeepsConsistent` | src/agent6/pack.py:156-212 | each edit, pack and import, imports cut short among them, and each deletion of another file, keeps every recorded and travelling base of a file a hash that both homes' versions went through |
| `Transfer.RunKeepsConsistent` | src/agent6/pack.py:156-404 | so does every run that does not delete the file |
| `Transfer.NoLostEdit` | src/agent6/pack.py:50-69 | in every run between two homes that does not delete the file and whose versions of it hash harmlessly, whatever else it deletes, stale packs and imports cut short included, an unpack replaces the file only by a descendant, and no copy of it ever loses an edit |
| `Transfer.NothingIsLost` | src/agent6/pack.py:50-69 | where the versions of the file that occur in the run hash apart, an unpack leaves a copy with every edit of both sides |
| `Transfer.DeletionLosesAnEdit` | src/agent6/pack.py:50-69 | for every file and either home, with deletions of that file there alone, and every edit that changes the hash, there is a run after which that edit, which both homes held, is in neither |
| `Transfer.KeepsEditsExactly` | src/agent6/pack.py:50-69 | for every hash and every set of deletions, over all runs that delete no more: every import keeps the file's edits exactly when the hash is harmless, or, where a home's deletion of the file is in the set, constant |
| `Transfer.SafeExactlyUndeleted` | src/agent6/pack.py:50-69 | under a harmless hash that is not constant, over all runs that delete no more than a given set, every import keeps the edits of a file exactly when neither home's deletion of that file is in the set |
| `Transfer.RestoredContentIsOverwritten` | src/agent6/pack.py:100-110 | whenever a version hashes like an earlier one and differently from one between them, edits can be lost, with no deletion at all |
| `Transfer.HandOverNeverConflicts` | src/agent6/pack.py:156-404 | under any hash a workspace handed back and forth, edited between, never conflicts, and each import ends with the holder's names and the holder's hash under each |
| `Transfer.HandOverCopies` | src/agent6/pack.py:156-404 | under a hash that tells all versions apart both homes end with the same files |
| `Transfer.SecondPushConflicts` | src/agent6/pack.py:206-212 | under any hash a second pack in the same direction with a further edit is refused exactly when the copies hash differently and the exporter's record is the hash of neither |
| `Transfer.SecondPushAfterMove` | src/agent6/pack.py:206-212 | after a first pack that was taken over, and versions told apart, unless the exporter had not changed the file since its own last import |
| `Importing.BaseOfIsHashes` | src/agent6/pack.py:388-403 | the base an import writes is the hash of each packed file |
| `Importing.Workspace.Preflight` | src/agent6/pack.py:279-333 | the facts list each packed file with its hash and its outcome, and the refusal comes exactly when some file conflicts |
| `Importing.Workspace.Unpack` | src/agent6/pack.py:360-404 | a conflict on any file changes nothing; otherwise the disk is what the plan's operations leave, as many as the process lived for |
| `Importing.MovesUnderway` | src/agent6/pack.py:336-357 | after any number of the move operations no conflict has appeared and finishing leads to the same files |
| `Importing.CompleteRunIsUnpack` | src/agent6/pack.py:360-404 | a run to the end does what the protocol's unpack says and removes the pack |
| `Importing.CrashesAreUnderway` | src/agent6/pack.py:336-404 | any number of interrupted attempts leaves the import on its way |
| `Importing.RerunCompletesImport` | src/agent6/pack.py:292-404 | an import interrupted any number of times and rerun ends with the files of an uninterrupted one; its recorded base is that one's less some files |
| `PlanMeter.ConsumedIsEpochPeaks` | src/agent6/budget.py:486-514 | consumed points plus the first reading are the sum of the percents at which an epoch ends, over the readings that are not behind an earlier one, and percents rise within an epoch |
| `PlanMeter.ConsumptionNeverFalls` | src/agent6/budget.py:486-514 | no reading lowers the consumption |
| `PlanMeter.SecondReadingCounts` | src/agent6/budget.py:486-514 | a second reading adds its whole percent when it resets over 60 seconds later, its rise within 60 seconds, and nothing otherwise |
| `PlanMeter.OutOfOrderIsExact` | src/agent6/budget.py:494-514 | a reading changes nothing exactly when it is from a window left before, lower within its window, or the high-water reading again |
| `PlanMeter.StaleReadingCountsNothing` | src/agent6/budget.py:494-514 | a reading behind the last one accepted, inserted at any point of any sequence, changes nothing |
| `PlanMeter.LateReadingCountsNothing` | src/agent6/budget.py:488-514 | on a clean clock a reading behind any earlier one, a window left or no more of the same, changes no count at any later point |
| `PlanMeter.RedeliveryCountsNothing` | src/agent6/budget.py:488-514 | in particular any earlier reading delivered again |
| `PlanMeter.JitterCountsTwice` | src/agent6/budget.py:33-35 | for all reset times within the slack step by step and beyond it end to end, a redelivery adds points |
| `PlanMeter.CleanClocksAreExact` | src/agent6/budget.py:488-514 | late readings, and redelivered ones alone, never count whatever is read at a set of reset times exactly when being within the slack is transitive on that set |
| `PlanMeter.OneWindowIsPeak` | src/agent6/budget.py:486-514 | within one window the consumption is the highest percent less the baseline, at least 0 |
| `PlanMeter.OneWindowAnyOrder` | src/agent6/budget.py:486-514 | and the same under every permutation of the later readings |
| `Budget.AddCallAddsItsCost` | src/agent6/budget.py:414-450 | adding a call to a route's counters adds that call's own cost to the route's cost |
| `Budget.LedgerIsHistory` | src/agent6/budget.py:700-715 | after any calls, readings and settles the estimate is the observed balance drops plus each call's own cost, and the unmetered tokens are those of exactly the calls with no plan, cost or price |
| `Budget.TotalsAreHistory` | src/agent6/budget.py:389-412 | the token totals are every call's tokens, kind by kind, negative ones as none |
| `StopCause.MillionCostsRate` | src/agent6/budget.py:270-276 | a million tokens of a kind cost its listed rate; unlisted cache writes 1.25 and cache reads 0.1 of the input rate |
| `Budget.RecordStopsAtCap` | src/agent6/budget.py:414-468 | a call that leaves a positive cap reached leaves the stop set |
| `Budget.ReadStopsAtCap` | src/agent6/budget.py:524-568 | so does a reading |
| `Budget.ReachedMeansStopped` | src/agent6/budget.py:524-568 | in every reachable state a reached cap means stopped, whichever branch of the chain took the update |
| `Budget.StopSticks` | src/agent6/budget.py:524-568 | once set the stop never clears |
| `StopCause.StopsExactlyCaused` | src/agent6/budget.py:414-468 | after every history the run is stopped exactly when some event was a cause: a positive cap reached by credits and call costs, by unmetered tokens or by some window's consumption, a call or reading that a cap of 0 refuses, or a reading of a plan about to spend credits it may not; the reason given is such a cause |
| `RouteHistory.RoutesAreHistory` | src/agent6/budget.py:389-412 | each route's counters are its own calls': how many, their tokens, what they reported, and the tokens of those that told nothing |
| `RouteHistory.GapIsHistory` | src/agent6/budget.py:700-715 | the estimate is flagged for a route exactly when that has no price and a call that told no cost, plan routes that cost nothing apart |
| `RouteHistory.PlansAreLatest` | src/agent6/budget.py:515-522 | each provider's plan is the one it showed last |
| `Budget.ProvidersAreHistory` | src/agent6/budget.py:486-514 | the providers with a window are those whose plan was ever read |
| `Budget.NoCallAfterACap` | src/agent6/budget.py:624-633 | when every call has a check of its own that did not raise, a call that lands after a cap is reached was in flight at the crossing |
| `Budget.OneCallASeatAfterACap` | src/agent6/budget.py:624-633 | of those at most one lands for each seat, and none for the seat whose call crossed |
| `Budget.LandsExactlyInFlight` | src/agent6/budget.py:624-633 | after any guarded run, over a cap or not, a call can land exactly when its seat is in flight, so one can exactly when some seat is |
| `Budget.LandingLeavesOthers` | src/agent6/budget.py:624-633 | a landing ends its own seat's flight and no other |
| `Budget.AllInFlightLand` | src/agent6/harness/review_gate.py:176-206 | and for any number of seats and any calls there is a guarded run in which all of them do |
| `Budget.TwoSeatsCross` | src/agent6/harness/review_gate.py:176-206 | two seats whose first call reaches the cap: the second still lands |
| `Budget.UnlimitedNeverStops` | src/agent6/budget.py:524-568 | with every cap negative and credits allowed nothing stops a run |
| `Budget.MeterIsFold` | src/agent6/budget.py:486-514 | the ledger's windows, under each provider and window name, are the meter's fold over that window's readings in the history |
| `Budget.PlanUsage.Binding` | src/agent6/budget.py:111-114 | the binding window is one of the reading's windows and none is used more |
| `Budget.BudgetTracker.EstimateUsd` | src/agent6/budget.py:700-715 | the loop over routes computes the ledger's estimate, and reports a gap exactly when some route has no price or a partial one |
| `Budget.BudgetTracker.PlanConsumed` | src/agent6/budget.py:470-484 | the largest consumption of any window, 0 when none moved |
| `Budget.BudgetTracker.NoteUsage` | src/agent6/budget.py:486-522 | a reading moves windows and balance as the ledger says and changes no counter |
| `Budget.BudgetTracker.RecordCall` | src/agent6/budget.py:389-468 | one call extends the history by itself, and the whole state stays the replay of the history |
| `Budget.BudgetTracker.RecordPlanPreflight` | src/agent6/budget.py:610-622 | so does one reading |
| `Budget.BudgetTracker.Settle` | src/agent6/budget.py:580-608 | settles once: a second call adds nothing; the first reads the plan of each provider with an earlier reading, whatever other threads record during each request, and reports whether one answered |
| `Budget.SettlementIsAnswers` | src/agent6/budget.py:580-608 | what it adds are the answers of those providers and no others |
| `Budget.BudgetTracker.Check` | src/agent6/budget.py:624-638 | raises exactly when stopped, hence whenever a cap is reached |
| `Budget.BudgetTracker.FractionRemaining` | src/agent6/budget.py:640-661 | lies in [0, 1], is 0 exactly when stopped, and otherwise is the smallest remaining share of the positive caps |
| `RankTest.AverageRanks` | bench/sweep/stats.py:209-219 | the nested loop gives every observation the rank that counting gives it: those below, half of its ties, and one half |
| `RankTest.RankSumIsPairCount` | bench/sweep/stats.py:220-221 | the rank sum less its minimum is the number of pairs won plus half the pairs tied |
| `RankTest.EveryPairCounts` | bench/sweep/stats.py:222 | the two samples' statistics add up to the number of pairs |
| `RankTest.DeltaIsWinDifference` | bench/sweep/stats.py:224-225 | Cliff's delta is pairs won less pairs lost over all pairs, lies in [-1, 1], and changes sign when the samples swap |
| `RankTest.SortedRankSum` | bench/sweep/stats.py:207-220 | sorting the pool does not change the rank sum of a sample |
| `RankTest.CountValues` | bench/sweep/stats.py:228-230 | the counting loop counts every value of the pool once for each time it occurs |
| `RankTest.TieTerm` | bench/sweep/stats.py:228-231 | the loop over the counts gives the tie term of the pool |
| `RankTest.TieBound` | bench/sweep/stats.py:231-233 | the tie term is at most n³ − n, with equality exactly when all values are equal |
| `RankTest.VarianceVanishes` | bench/sweep/stats.py:232-235 | the variance is never negative, and 0 exactly when all pooled values are equal |
| `RankTest.MannWhitneyU` | bench/sweep/stats.py:199-240 | no result exactly on an empty sample; otherwise the smaller pair count, the delta, and the p-value of that count and the tied variance, at most 1 and absent exactly when all pooled values are equal |
| `RankTest.SwapKeepsPValue` | bench/sweep/stats.py:199-240 | swapping the samples changes neither the statistic nor the p-value |
| `Significance.VarianceFormula` | bench/sweep/stats.py:231-233 | the variance times 12 n (n - 1) is na nb ((n + 1) n (n - 1) less the tie term) |
| `Significance.VarianceWithoutTies` | bench/sweep/stats.py:231-233 | without ties it is na nb (n + 1) / 12 |
| `Significance.PValueIsBothTails` | bench/sweep/stats.py:235-240 | for a symmetric tail and an exact root, the p-value is both tails beyond z, at most 1, where z is 0 within half a step of the mean and otherwise z² times the variance is the squared distance less a half |
| `Significance.DeviationIsOne` | bench/sweep/stats.py:238 | that z is one number |
| `Significance.NoDeviationNoEvidence` | bench/sweep/stats.py:238-240 | the p-value is 1 when U lies within a half of its mean |
| `Significance.FurtherIsLess` | bench/sweep/stats.py:238-240 | for the same sizes and ties it does not rise as U moves away |
| `RankTest.WilsonIsSound` | bench/sweep/stats.py:79-92 | the bounds before the clamps lie in [0, 1] and enclose k/n, so the clamps change nothing; the lower is 0 exactly for k = 0 and the upper 1 exactly for k = n |
| `Significance.WilsonSolvesScore` | bench/sweep/stats.py:79-92 | both bounds solve the score equation (p - x)² n = z² x (1 - x) |
| `Significance.NoTrialsTellNothing` | bench/sweep/stats.py:79-82 | without trials the interval is [0, 1] |
| `Utf8.DecodeEncode` | src/agent6/paths.py:322-335 | decoding an encoded text gives the text back |
| `Utf8.HeadIsLongestPrefix` | src/agent6/paths.py:322-324 | cutting the bytes and decoding what is whole gives a prefix that fits, and one character more does not |
| `Utf8.LongestPrefixIsLongest` | src/agent6/paths.py:322-324 | every prefix that fits is a prefix of that one |
| `Utf8.TailBytes` | src/agent6/paths.py:327-335 | the loop that drops bytes returns the longest suffix whose encoding fits a positive limit |
| `Utf8.LongestSuffixIsLongest` | src/agent6/paths.py:327-335 | every suffix that fits is a suffix of that one |
| `Utf8.TailKeepsLimit` | src/agent6/paths.py:327-335 | the suffix fits its limit exactly when the limit is positive or the text empty |
| `RepoId.PaddedValue` | src/agent6/paths.py:311-312 | the leading zeros a mark number loses are recovered from the number of dashes |
| `RepoId.RestoredIsBare` | src/agent6/paths.py:313-316 | a flat form and its marks give the path back |
| `RepoId.Restore` | src/agent6/paths.py:313-316 | the pass with an iterator on the marks computes that |
| `RepoId.ComputeRepoId` | src/agent6/paths.py:281-290 | the id as it is computed, elided form included |
| `RepoId.RepoRootOfId` | src/agent6/paths.py:293-319 | the root as it is computed, with every way to give None |
| `RepoId.RepoIdRoundTrip` | src/agent6/paths.py:281-319 | every canonical path whose flat form takes at most 100 bytes, the root included, reads back from its id |
| `RepoId.DocumentedIds` | src/agent6/paths.py:269-271 | the documented ids of `/a/b/c` and `/a/b-c` |
| `RepoId.RepoIdIsInjective` | src/agent6/paths.py:266-290 | two canonical paths that fit and have one id are one |
| `RepoId.NameReadsAsItsRoot` | src/agent6/paths.py:293-319 | a name reads as a canonical path that fits exactly when it is that path's id, and whatever a name reads as has that id |
| `RepoId.RepoIdSize` | src/agent6/paths.py:260-290 | every id is not empty, has no slash, and is at most 126 bytes |
| `RepoId.ElidedNameSize` | src/agent6/paths.py:284-287 | an elided one is at most 113 bytes |
| `RepoId.ElidedNameKeepsEnds` | src/agent6/paths.py:284-287 | an elided name has the longest head and tail of whole characters that fit, which do not meet |
| `ElidedId.FittingAndElidedIds` | src/agent6/paths.py:281-290 | a path that fits and one that does not have one id exactly when the first flattens to the kept ends of the second and its marks spell the hash |
| `ElidedId.ElidedIds` | src/agent6/paths.py:284-287 | two paths that do not fit have one id exactly when their ends and hashes agree |
| `ElidedId.FewDashesNeverCollide` | src/agent6/paths.py:284-290 | no path that fits has an elided id whose hash starts with a zero or whose ends have fewer than 45 dashes |
| `ElidedId.OnlyMisreadShares` | src/agent6/paths.py:281-290 | the paths that fit and share an elided id: just the one the id spells, exactly when the hash has no leading zero and reads as marks for the dashes of the ends |
| `ElidedId.ElidedIdReads` | src/agent6/paths.py:305-319 | when an elided id reads as a root, both ways: it spells a path that is its own resolved form; the root read is then another, which fits and has the same id |
| `ElidedId.SharedByPath` | src/agent6/paths.py:281-290 | a path that fits, with proper names between its slashes, shares an elided id exactly when the hash has no leading zero, reads as marks for the dashes of the ends, and spells such a path |
| `DeepId.DeepIdIsShared` | src/agent6/paths.py:266-290 | a path of more than fifty one-letter components shares its id with a path that fits exactly when its hash does not start with a zero and its fourth digit is none of 3, 7, b and f |
| `Text.ReplaceAddsNothing` | src/agent6/media.py:126-129 | replacing by a bracketed marker creates no occurrence of a word that has no bracket and is no part of the marker |
| `Text.ReplaceRemoves` | src/agent6/media.py:126-129 | and leaves none of such a word when that word is what is replaced |
| `Text.ReplaceOpens` | src/agent6/media.py:126-129 | replacing a word without brackets leaves a text as it is exactly when the word does not occur in it, and otherwise opens more brackets |
| `Text.EmptyReplaceAt` | src/agent6/media.py:126-129 | replacing the empty word puts the marker before every character and at the end, and nothing else |
| `Media.WalkLeavesNoMedia` | src/agent6/media.py:78-118 | the walk's result has no block the recogniser takes for media, at any depth |
| `Media.ScrubLeavesNoMedia` | src/agent6/media.py:126-137 | scrubbing texts, in any order of payloads, makes no block media |
| `Media.NoModalityMeansSourceFree` | src/agent6/media.py:206-224 | the modalities of a value are empty exactly when it has no media block at any depth |
| `Media.OmitLeavesNoMedia` | src/agent6/media.py:67-137 | the input modalities of an omitted value are empty |
| `Media.OmitIsIdentityWithoutMedia` | src/agent6/media.py:67-137 | omission returns its argument exactly when that has no modality |
| `Media.OmitTwice` | src/agent6/media.py:67-137 | omission is idempotent |
| `Media.EchoesAreScrubbed` | src/agent6/media.py:121-137 | no text of the result holds a collected payload that is not empty and no part of the marker |
| `Media.ScrubChangesEchoes` | src/agent6/media.py:124-129 | the scrub leaves a text as it is exactly when no collected payload occurs in it |
| `Media.OmitScrubsExactly` | src/agent6/media.py:121-137 | the result is the walked value exactly when no text of that holds a collected payload |
| `Media.EmptyPayloadSpoilsAll` | src/agent6/media.py:124-137 | with an empty payload every text of the result has the marker before each of its characters |
| `Media.EchoIsLeft` | src/agent6/media.py:126-129 | for any other payload there is a value whose result holds it |
| `Media.SurvivorsAreInTheMarker` | src/agent6/media.py:121-137 | a decodable payload can survive exactly when it is empty or part of the marker |
| `Media.MarkerIsSound` | src/agent6/media.py:129 | the source's marker is bracketed and holds no `;base64,` |
| `Media.MarkerHoldsLoad` | src/agent6/media.py:129 | `load` is base64 and part of the marker |
| `WireForms.BlockIsRecorded` | src/agent6/media.py:18-102 | a block of any form (image or document with a base64 source or with data and mimeType, resource blob, image_url and input_image as text and object, file and input_file by data URL), with whatever further fields, is replaced by its type, media type, and the size and hash of its payload, or an error |
| `WireForms.BlockHasModality` | src/agent6/media.py:206-224 | its modality is document exactly for application/pdf |
| `WireForms.PayloadIsOmitted` | src/agent6/media.py:67-137 | wherever such a block stands in a value, no text of the result holds its payload if that decodes, is not empty and no part of the marker |
| `WireForms.BlockAlone` | src/agent6/media.py:67-137 | a block by itself becomes its record when its payload is in none of the record's texts |
| `WireForms.BadBlockAlone` | src/agent6/media.py:95-102 | one whose payload does not decode becomes a record with the error |
| `WireForms.OnlyDataUrlsGo` | src/agent6/media.py:38-47 | a block by URL is left as it is exactly when the URL is no base64 data URL |
| `WireForms.OtherKindsStay` | src/agent6/media.py:19-28 | an object of any other type is left as it is |
| `WireForms.OtherSourcesStay` | src/agent6/media.py:29-34 | so is an image or document whose source is no base64 source |
| `WireForms.ToolResultIsJoined` | src/agent6/media.py:104-118 | a tool result with media among its content becomes one text of the lines of its items, and raises exactly on items that are no objects or texts without text |
| `WireForms.LinesJoin` | src/agent6/media.py:109-117 | the lines follow one another in the items' order, a text item by its text and any other by its dump and the note |
| `WireForms.PathIsNamedLast` | src/agent6/media.py:81-85 | a record's path is the one named last before or at its block |
| `Media.Omitter.Walk` | src/agent6/media.py:78-118 | the walk raises exactly on content it cannot join, and otherwise returns the rewritten value and adds exactly the payloads that decode |
| `Media.Omitter.OmitPayloads` | src/agent6/media.py:67-137 | the two passes compute the omission for the collected payloads, longest first |
| `Media.LongestFirst` | src/agent6/media.py:124 | the payloads without repetition, none before a longer one |
| `Media.InputModalities` | src/agent6/media.py:206-224 | the recursion that gathers computes the modalities |
| `Journal.CommittedIsLongest` | src/agent6/journal_tail.py:22-39 | the committed part is the one newline-terminated prefix with no newline behind it, and every other such prefix is a prefix of it |
| `Journal.JournalFile.HealTornTail` | src/agent6/journal_tail.py:10-42 | for any size and chunk boundary the file is cut to exactly its committed part; a missing file stays missing |
| `Journal.JournalFile.CommittedEnd` | src/agent6/journal_tail.py:28-37 | the chunked backward scan ends at the end of the committed part |
| `Journal.CommittedTwice` | src/agent6/journal_tail.py:10-42 | healing is idempotent |
| `Journal.RecordsAreCommitted` | src/agent6/machine/journal.py:430-447 | healing changes no reader's answer |
| `Journal.AppendsAreAllOrNothing` | src/agent6/machine/journal.py:405-419 | over any run of appends cut short at any byte, the committed part is the old one followed by exactly the lines whose newline reached the file |
| `Journal.ReadersSeeLandedRecords` | src/agent6/machine/journal.py:421-447 | and a reader sees the old records followed by exactly the landed ones |
| `Journal.LineIsRead` | src/agent6/machine/journal.py:430-442 | a finished line is read exactly when it has a byte that is no whitespace |
| `Journal.CommittedNeverShrinks` | src/agent6/journal_tail.py:38-39 | what was committed at any point of a run is a prefix of the file at every later point |
| `Journal.WindowShowsTheEnd` | src/agent6/machine/journal.py:459-467 | a window opened anywhere shows the last records of the journal and no other text |
| `Journal.JournalFile.Append` | src/agent6/machine/journal.py:405-419 | an append heals and then adds the bytes of the line that get out |
| `Journal.JournalFile.Read` | src/agent6/machine/journal.py:421-447 | every record in order, or the number of the first line that does not validate |
| `Journal.JournalFile.EndEvent` | src/agent6/machine/journal.py:449-478 | the tail window and its fallback agree with the whole journal: the last record decides, and there is an answer whenever the whole journal reads |
| `Terminal.ControlsLeaveNone` | src/agent6/terminal.py:31-42 | no control character but newline and tab is left |
| `Terminal.ControlsKeepPrintable` | src/agent6/terminal.py:31-42 | a text goes through unchanged exactly when it has none |
| `Terminal.ShowableIsLeft` | src/agent6/terminal.py:19 | what is left is newline, tab and codes 32 to 126 and from 160 on, and a text of these is left as it is |
| `Terminal.ControlsTwice` | src/agent6/terminal.py:31-42 | the controls scrub is idempotent |
| `Terminal.ControlsAreEscapesThenControls` | src/agent6/terminal.py:26-42 | it is the command-text scrub less the stray controls, and the command-text scrub leaves no escape character |
| `Terminal.ControlSequenceGoes` | src/agent6/terminal.py:11-13 | a control sequence goes whole and nothing behind it does |
| `Terminal.CommandGoes` | src/agent6/terminal.py:14 | so does an operating system command with its payload, by either terminator |
| `Terminal.StringGoes` | src/agent6/terminal.py:15 | and a device control, start-of-string, privacy or application string |
| `Terminal.OtherEscapeGoes` | src/agent6/terminal.py:15-17 | any other escape goes with the one character behind it, from both scrubs |
| `Terminal.BrokenSequenceStays` | src/agent6/terminal.py:12-15 | a control sequence that breaks off loses its introducer alone |
| `Terminal.CutOffGoes` | src/agent6/terminal.py:13-14 | a command or string that is cut off goes as far as it came |
| `Terminal.FamiliesGo` | src/agent6/terminal.py:12-14 | the families by their character codes |
| `Terminal.ConcealAheadIsConceal` | src/agent6/terminal.py:20-23 | the look-ahead holds exactly when some parameter is 8 with leading zeros |
| `Terminal.StyleIsOwn` | src/agent6/terminal.py:20-23 | a style sequence is kept whole without conceal, and not kept with it; the controls scrub takes all of it |
| `Terminal.OutputIsInTheLanguage` | src/agent6/terminal.py:45-47 | whatever the text, the output is printable characters, newlines, tabs and complete style sequences without conceal |
| `Terminal.LanguageIsUnchanged` | src/agent6/terminal.py:45-47 | and every such text is output unchanged |
| `Terminal.OutputTwice` | src/agent6/terminal.py:45-47 | the output scrub is idempotent |
| `Terminal.OutputAddsOnlyStyle` | src/agent6/terminal.py:31-47 | the two scrubs differ only in styling |
| `Terminal.RescrubbingIsExact` | src/agent6/terminal.py:31-42 | scrubbing an already scrubbed part with what follows equals scrubbing it all, for everything that may follow, exactly when the part does not end inside a sequence |
| `Directive.StartsAreAll` | src/agent6/directive.py:25 | the search finds every delimited separator |
| `Directive.StartsAreTokens` | src/agent6/directive.py:25 | and nothing else |
| `Directive.TokenIsAnyCase` | src/agent6/directive.py:25-26 | a separator is its letters in either case each, between whitespace or the ends of the text |
| `Directive.SpacesAreListed` | src/agent6/directive.py:25 | the whitespace characters one by one |
| `Directive.SegmentRoundTrip` | src/agent6/directive.py:313-338 | a printed segment between whitespace parses to the segment |
| `Directive.ParsedIsProper` | src/agent6/directive.py:313-338 | a parsed segment is stripped, has a task, holds no separator, and its spec ends at the first `--` |
| `Directive.SegmentErrors` | src/agent6/directive.py:310-338 | the three errors: for nothing but whitespace, for what begins with a spec separator, and for what ends with its first one |
| `Directive.PrintParse` | src/agent6/directive.py:287-310 | printing proper segments and parsing gives the same segments |
| `Directive.ParsedAreProper` | src/agent6/directive.py:287-310 | what parses is a non-empty list of proper segments |
| `Directive.LeadingSpaceIsNothing` | src/agent6/directive.py:299 | whitespace before a text makes no difference |
| `Directive.DirectivesStartWithTheCommand` | src/agent6/directive.py:299-302 | a text is a directive exactly when it starts, but for whitespace, with the command in any case and whitespace or its end behind it |
| `Directive.ParsedListsAreProper` | src/agent6/directive.py:287-338 | the lists that some text parses to are exactly the proper ones, which are exactly those that survive print and parse |
| `Directive.SteerRoundTrip` | src/agent6/directive.py:25-26 | the same for `/parallel` and `--` |
| `Directive.ParseDirective` | src/agent6/directive.py:287-310 | the loop over the matches parses as specified, one segment per separator, or gives the first piece's error |

## Left out

- Windows branches, the sudo hand-back of ownership, directory creation, workspace leases.
- Writers that go on unserialised when the lock cannot be taken: the lock's model has them, the serialised updates are those of guarded writers.
- `_copy` cut short across file systems, and the recursive removal of a pack cut short: both are single operations here.
- A home that unpacks its own pack: imports are of the other home's packs.
- How a hash comes from a content: `sha` hashes histories and may give several of them one hash; digests of different contents that collide are not told from contents that recur.
- The secrets, listing and manifest checks of a pack, and its file modes.
- Transfer.NoLostEdit: states the promise for files that no home deletes and versions that hash harmlessly; `Transfer.KeepsEditsExactly` says that for all runs it holds under no less.
- Budget.BudgetTracker.Settle: a reader that raises is not modelled; the reader registry and what other threads do meanwhile are its arguments.
- The wording of stop reasons and the formatted summaries; the parsing of a balance string; NaN and the rounding of floats.
- The p-value beyond its bound: the normal tail is a parameter. Fisher's test, the bootstrap and the quartiles.
- Lone surrogates in paths and texts: a Dafny character is a Unicode scalar value.
- RepoId.RepoIdIsInjective: states injectivity for names that are not elided; `ElidedId` says when the others are shared.
- ElidedId.ElidedIdReads: for a decoded path that does not lead over links to one too long for a component, which would be elided in turn.
- `int(tag, 16)` on anything but lower-case digits: a parameter, since whatever else it reads does not survive the check that the root has that name.
- Utf8.DecodeIgnoring: skips one byte at a time where CPython skips the start of a cut character at once; what is left is the same.
- JSON text and `_source_path`: values are trees and the path a text names is a parameter. Object keys are no texts, as in the source.
- The attachment limits of `media.py`.
- A power cut that loses bytes already written before the last sync of a journal, and writers that do not hold its lock.
- The schema of journal events: a record is valid or not by a parameter.
- `printable_name`, and the other steer directives.
- The lane specs of `/parallel`, which a later step checks.
- Subprocesses, git, providers, the network and the user interfaces.
