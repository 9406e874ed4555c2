# Corelamo verification model

Corelamo is a sharded search database. This project models its hard parts in Dafny 4.11 and proves
what they promise: the banded fuzzy-search automaton, the LSM index with asynchronous flushes and
compaction and the worker that drives it, the shard's write-ahead log, replay and restore swap, backup
chains, and the kernels for numeric fields, embedding and shard routing.

`dafny verify dfyconfig.toml` checks everything.

## Layout

| file | models |
|---|---|
| `Osa.dfy`, `Utf8.dfy`, `LevenshteinAutomaton.dfy` | fuzzy search: reference distance, character encoding, byte automaton |
| `EditCosts.dfy`, `EditPrices.dfy`, `WeightedDistance.dfy`, `WeightedPrices.dfy` | weighted cost in tenths: costs of edits as computed and as listed, the matrix, and what single edits come to |
| `LsmState.dfy` | the index as a value, one function per operation |
| `LsmInvariants.dfy`, `LsmCompaction.dfy`, `LsmMerges.dfy` | what every operation keeps, over all runs; which segments a merge replaces; a merge from plan to installation |
| `LsmVisibility.dfy`, `LsmOrder.dfy` | what a search sees; the order of the segment list |
| `FlushAcks.dfy`, `FlushOutcomes.dfy` | the index worker's steps, its flush acknowledgements and what they say |
| `LsmIndex.dfy`, `IndexWorker.dfy` | the objects with their loops, tied to the values above |
| `CompactionWindows.dfy`, `WriteAmplification.dfy` | which segments to merge; bytes rewritten by whole-shard merges |
| `ShardLog.dfy`, `ShardDb.dfy` | write-ahead log, double-buffered checkpoints, crashes |
| `WalReplay.dfy`, `CrashRecovery.dfy` | replay of the log at start; log and replay together |
| `RestoreSwap.dfy` | two-directory restore swap with crashes and startup recovery |
| `BackupChain.dfy`, `BackupManager.dfy` | full and incremental backups, their chains, and the manager that makes, deletes and restores them |
| `NumericValues.dfy`, `NumericFields.dfy`, `NumericAnswers.dfy`, `NumericIndex.dfy` | numeric fields in memory and on disk |
| `PooledRuns.dfy` | runs of texts within the device's memory |
| `VectorRows.dfy`, `EmbedRounds.dfy`, `EmbeddingJob.dfy` | vector files and embedding rounds |
| `ShardRouter.dfy` | consistent hashing |
| `Options.dfy`, `Numbers.dfy`, `Lists.dfy`, `Sorting.dfy` | shared helpers |

The disk, the clock, the model and the other threads are parameters: every method that meets them takes
their answers (an append that fails, a write that fails, a file that is still shared, a run that does
not fit) as arguments, and every theorem holds for all answers.

## Where the code does not do what one would expect

Each of these is kept as the code has it. The first six come with a concrete input and the exact condition or
bound.

- Dropping tombstones (`crates/core-index/src/lsm/manager.rs:880-883`) brings back a deleted document that is
  still in the memtable, a generation or a pending flush. `LsmVisibility.DeletedDocumentComesBack` is the run;
  `LsmVisibility.ClearingShowsMemory` says that nothing changes exactly if memory holds no tombstoned id.
- A merge planned by an idle index while a flush is pending (`crates/core-index/src/lsm/manager.rs:653-655` lets
  it through) can put that flush before older data: `LsmOrder.EarlyMergeBreaksOrder` is the run.
  `LsmOrder.MergeKeepsListOrderIff` says when the list is sorted once the pending flushes completed: the inputs
  are neighbours and, unless there is one, every pending flush is newer than all of them, or is the oldest flush
  and older than every segment. `LsmOrder.MergeKeepsOrderIff` says the same of the list together with the counts
  the pending flushes keep, where the last exception does not hold.
- A `Flush` refused on arrival is answered before earlier ones that still wait
  (`crates/core-index/src/lsm/index_worker.rs:487-502`): `FlushAcks.RefusedFlushOvertakes`, and
  `FlushAcks.AcksInCommandOrderIff` for when acknowledgements are in command order.
- The comment at `crates/core-index/src/lsm/manager.rs:711-714` bounds how often whole merges rewrite a byte. A merge
  writes its output before it is installed, and one that fails is retried without limit
  (`crates/core-index/src/lsm/compaction.rs:293-337`, `crates/core-core/src/background_worker.rs:158-171`):
  `WriteAmplification.RetriesExceedEveryBound`. `WriteAmplification.WholeMergesAreBounded` has the bound for what is
  installed, and for everything written in terms of the merges that failed or went stale.
- A range bound of the other numeric kind is compared by its packed bits on disk and by kind in memory
  (`crates/core-index/src/bkd.rs:78-101`, `crates/core-index/src/numeric_values.rs:230-241`):
  `NumericAnswers.FloatBoundOnIntegersDisagrees`, and `NumericAnswers.RangesAgreeIff` for which pairs of bounds agree.
- After more than 64 halvings the memory budget of a run is halved no further
  (`crates/core-embed/src/pooled.rs:293`): `PooledRuns.RunLeavesBudget`, and `PooledRuns.RunsStayInBudgetIff` for
  when every run stays in the halved budget.
- A comment at `crates/core-core/src/shard_db.rs:93` says at most one checkpoint is in flight; the code allows two
  (`crates/core-core/src/shard_db.rs:1457-1463`), and the model follows the code.
- A document without text in one vector field is skipped for all vector fields
  (`crates/core-core/src/embed.rs:313-315`, `crates/core-core/src/embed.rs:189-193`); the model follows the code.

## Model

| member | source | states |
|---|---|---|
| `Osa.OsaIsLeastScriptCost` | crates/core-index/src/fuzzy.rs:594-616 | the reference recurrence is the least cost of an edit script: some script reaches it and none is cheaper |
| `Osa.CheapestScript` | crates/core-index/src/fuzzy.rs:594-616 | builds an edit script between any two prefixes whose cost is the matrix entry |
| `Osa.ScriptCostsAtLeastDistance` | crates/core-index/src/fuzzy.rs:594-616 | every edit script costs at least the matrix entry |
| `Osa.DistanceIsSymmetric` | crates/core-index/src/fuzzy.rs:594-616 | the reference distance is symmetric |
| `Osa.ZeroDistanceMeansEqual` | crates/core-index/src/fuzzy.rs:594-616 | distance zero exactly for equal prefixes |
| `Osa.DistanceAtLeastLengthGap` | crates/core-index/src/fuzzy.rs:167-170 | an entry is at least its distance from the diagonal, so the band loses nothing |
| `Osa.NextCellStaysAbove` | crates/core-index/src/fuzzy.rs:213-228 | a row all above k is followed by an entry above k, even through a transposition over two rows |
| `Osa.RowsBelowStayAbove` | crates/core-index/src/fuzzy.rs:213-228 | hence a pruned row can never recover |
| `Utf8.DecodeUndoesEncode` | crates/core-index/src/fuzzy.rs:326-339 | decoding a multi-byte encoding gives the character back |
| `Utf8.EncodeUndoesDecode` | crates/core-index/src/fuzzy.rs:326-339 | bytes that decode are the encoding of what they decode to |
| `Utf8.EncodedShape` | crates/core-index/src/fuzzy.rs:269-277 | the lead byte gives the width, the rest are continuation bytes |
| `Utf8.EncodeIsPrefixFree` | crates/core-index/src/fuzzy.rs:297-343 | no encoding is the start of another |
| `Utf8.EncodeAllIsInjective` | crates/core-index/src/fuzzy.rs:297-343 | different words have different bytes |
| `LevenshteinAutomaton.InitialFuzzyInPlace` | crates/core-index/src/fuzzy.rs:172-190 | the loop fills the first row: column j holds j, other cells the cap |
| `LevenshteinAutomaton.StepCharInPlace` | crates/core-index/src/fuzzy.rs:192-238 | the loop over the band computes the next row, or the dead state when every cell is above the limit |
| `LevenshteinAutomaton.StepCharTracks` | crates/core-index/src/fuzzy.rs:192-238 | if the rows hold min(distance, limit + 1) of the full matrix, so do the next ones; a dead state means the whole row is above the limit |
| `LevenshteinAutomaton.DistanceTo` | crates/core-index/src/fuzzy.rs:257-266 | the loop over a word's bytes gives the answer of the automaton's run |
| `LevenshteinAutomaton.BytesStepLikeCharacters` | crates/core-index/src/fuzzy.rs:297-343 | the bytes of any characters lead to the state of stepping once per character |
| `LevenshteinAutomaton.MidCharacterNeverMatches` | crates/core-index/src/fuzzy.rs:241-253 | a state inside a character is never a match |
| `LevenshteinAutomaton.MatchesOnlyEncodings` | crates/core-index/src/fuzzy.rs:297-343 | only bytes that encode characters can match |
| `LevenshteinAutomaton.AutomatonAgreesWithOsa` | crates/core-index/src/fuzzy.rs:145-343 | for every byte string, query, prefix and limit: the answer is d exactly if the key is the key prefix, the pinned characters and characters at reference distance d <= min(limit, 3) |
| `LevenshteinAutomaton.WordsWithinDistanceMatch` | crates/core-index/src/fuzzy.rs:145-266 | for every word: a match exactly if it starts with the pinned prefix and the remainders are within min(limit, 3), and then with their distance |
| `WeightedDistance.WeightedDistance` | crates/core-index/src/fuzzy.rs:456-498 | the nested loops compute the weighted recurrence, in tenths; its value for single edits is stated below |
| `WeightedDistance.WeightedIsLeastScriptCost` | crates/core-index/src/fuzzy.rs:456-498 | the recurrence is the least cost of an edit script priced letter by letter from explicit tables: some script reaches it and none is cheaper |
| `EditPrices.NeighborsAreListed` | crates/core-index/src/fuzzy.rs:413-431 | the keyboard geometry gives exactly the listed touching keys, for every pair of characters |
| `EditPrices.CostIsPrice` | crates/core-index/src/fuzzy.rs:433-482 | the code charges every edit its listed price |
| `WeightedDistance.SubstituteIsSymmetric` | crates/core-index/src/fuzzy.rs:443-451 | the substitution cost is symmetric |
| `WeightedDistance.WeightedDistanceLaws` | crates/core-index/src/fuzzy.rs:443-498 | symmetric, zero exactly for equal words, between half and twice the reference distance |
| `WeightedPrices.InnerLetterCosts` | crates/core-index/src/fuzzy.rs:461-468 | for every word and letter behind the first: a letter more or less costs 7 tenths if the longer word starts with the shorter, as for a last letter, else 10 |
| `WeightedPrices.SwapCosts` | crates/core-index/src/fuzzy.rs:486-493 | swapping two different neighbours costs 5, also at the start |
| `WeightedPrices.ReplacedLetterCosts` | crates/core-index/src/fuzzy.rs:443-451 | another letter behind the first costs 6 for two vowels, touching keys or letters alike in sound, else 10 |
| `WeightedPrices.ReplacedFirstLetterCosts` | crates/core-index/src/fuzzy.rs:479-482 | another first letter costs 6 if both sound alike, 16 if easily confused otherwise, else 20 |
| `WeightedPrices.AddedFirstLetterCosts` | crates/core-index/src/fuzzy.rs:461-468 | a letter put before a word or dropped there costs at most 20 tenths, 17 for the empty word, and just 20 unless letters can be confused or swapped |
| `ShardRouter.JumpConsistentHash` | crates/core-core/src/lib.rs:44-53 | the loop ends with the last jump below the bucket count |
| `ShardRouter.NextKeyIsDrawn` | crates/core-core/src/lib.rs:49 | wrapping at every draw gives the key of an unbounded generator wrapped once |
| `ShardRouter.BucketIsLastCandidate` | crates/core-core/src/lib.rs:44-53 | the bucket is the last of the ascending candidates below the bucket count, each a step from the one before with the next key of the generator |
| `ShardRouter.ExactStepAdvances` | crates/core-core/src/lib.rs:48-50 | the jump, computed exactly, goes at least one bucket further |
| `ShardRouter.RoutingIsConsistent` | crates/core-core/src/lib.rs:34-53 | the shard is in range, and with more shards it is the same or one of the new ones |
| `LsmInvariants.CompleteKeepsInv` | crates/core-index/src/lsm/manager.rs:526-573 | a finished or failed flush keeps handles and readers aligned, paths unique, flush numbers contiguous and the manifest true |
| `LsmInvariants.QueueKeepsInv` | crates/core-index/src/lsm/manager.rs:459-499 | queueing, refusing or freezing a flush keeps them |
| `LsmInvariants.AddKeepsInv` | crates/core-index/src/lsm/manager.rs:595-621 | adding a segment, written or not, keeps them |
| `LsmInvariants.PlanKeepsInv` | crates/core-index/src/lsm/manager.rs:684-709 | planning a merge keeps them and reserves a fresh output path |
| `LsmCompaction.RemoveDownPicks` | crates/core-index/src/lsm/manager.rs:849-857 | removing positions from the highest down leaves the others in order, in both lists alike |
| `LsmCompaction.WholeMergeLeavesOne` | crates/core-index/src/lsm/manager.rs:844-864 | a job with as many live inputs as there are segments replaces all of them by one |
| `LsmCompaction.MergedShows` | crates/core-index/src/lsm/manager.rs:849-864 | a merge loses only documents with tombstones it knew |
| `LsmCompaction.InstallKeepsInv` | crates/core-index/src/lsm/manager.rs:823-886 | installing, rejecting or failing to record a merge keeps the invariants, also for other running jobs |
| `LsmCompaction.RunKeepsInv` | crates/core-index/src/lsm/manager.rs:372-886 | they hold in every state of every run of the index |
| `LsmMerges.PlannedWindowIsReplaced` | crates/core-index/src/lsm/manager.rs:684-886 | a merge planned and installed with nothing in between is installed: it puts one segment with the surviving documents of the window in its place, and drops the tombstones exactly if the window was the whole list |
| `LsmVisibility.StepMoves` | crates/core-index/src/lsm/manager.rs:372-621 | sealing, queueing, completing or failing a flush only moves documents; merges into the memtable and added segments add theirs |
| `LsmVisibility.MergeKeepsVisible` | crates/core-index/src/lsm/manager.rs:823-886 | installing a merge that keeps the tombstones changes nothing a search sees |
| `LsmVisibility.ClearingShowsMemory` | crates/core-index/src/lsm/manager.rs:844-883 | one that drops them brings back what is in memory; nothing changes exactly if memory holds no tombstoned id |
| `LsmVisibility.VisibleAfterStep` | crates/core-index/src/lsm/manager.rs:413-437 | what every step of the index does to the visible documents |
| `LsmVisibility.SearchSeesAddedMinusDeleted` | crates/core-index/src/lsm/manager.rs:372-886 | in every run without reused ids and with memory clean when tombstones are dropped, a search sees exactly the documents added and not deleted |
| `LsmVisibility.DeletedDocumentComesBack` | crates/core-index/src/lsm/manager.rs:880-883 | a run in which a deleted document is visible again |
| `LsmOrder.CompleteKeepsOrder` | crates/core-index/src/lsm/manager.rs:545-573 | a flush lands after everything older and before everything newer, and the counts of the others stay right |
| `LsmOrder.PushKeepsOrder` | crates/core-index/src/lsm/manager.rs:112-116 | an added segment is counted by every pending flush |
| `LsmOrder.MergeKeepsOrderIff` | crates/core-index/src/lsm/manager.rs:849-864 | a merge keeps the order and the counts of the pending flushes exactly if its inputs are neighbours and, unless it has one input, none is newer than a pending flush |
| `LsmOrder.MergeKeepsListOrderIff` | crates/core-index/src/lsm/manager.rs:545-573 | after a merge and the completion of every pending flush the list is sorted exactly if the inputs were neighbours and, unless there was one, every pending flush is newer than all of them, or is the oldest and older than every segment |
| `LsmOrder.SegmentsStayOrdered` | crates/core-index/src/lsm/manager.rs:79-130 | in every run with merges planned only while no flush is pending, the list stays ordered by when its data was queued or added |
| `LsmOrder.EarlyMergeBreaksOrder` | crates/core-index/src/lsm/manager.rs:653-655 | a run in which a merge planned beside a pending flush breaks the order |
| `FlushAcks.ReleaseKeepsInv` | crates/core-index/src/lsm/index_worker.rs:737-749 | releasing waiters leaves only those whose segments are still being written, and what was acknowledged Ok is durable |
| `FlushAcks.ReachedIsDurable` | crates/core-index/src/lsm/manager.rs:133-135 | once every flush below a target finished without failure, what it covered is in files the manifest lists |
| `FlushAcks.StepKeepsDurable` | crates/core-index/src/lsm/manager.rs:551-562 | a durable document stays durable until deleted, also over merges |
| `FlushAcks.RunKeepsWInv` | crates/core-index/src/lsm/index_worker.rs:365-573 | the worker's invariants hold in every state of every run; the writer always reports the oldest pending flush |
| `FlushAcks.AcknowledgedFlushIsDurable` | crates/core-index/src/lsm/index_worker.rs:487-512 | on a persistent index, a Flush acknowledged Ok has every document added before the command, unless deleted, in a listed segment file, from then on; `FlushOutcomes.AnswerTellsTheOutcome` says when it is Ok |
| `FlushOutcomes.AnswerTellsTheOutcome` | crates/core-index/src/lsm/index_worker.rs:487-512 | for every acknowledgement of every run: it belongs to a Flush command and was sent by one step; it is Ok exactly if the tombstones of the command were synced and no segment or manifest write up to that step failed |
| `FlushOutcomes.FailureMeansAFailedWrite` | crates/core-index/src/lsm/manager.rs:526-573 | in every run the index is failed exactly if a reported segment or manifest write failed |
| `FlushOutcomes.ReleaseAnswersTheReached` | crates/core-index/src/lsm/index_worker.rs:737-749 | exactly the waiters at the front whose target is reached are answered, in order, with the health of the index |
| `FlushOutcomes.HealthyFlushesSucceed` | crates/core-index/src/lsm/index_worker.rs:487-512 | as long as no write and no sync fails every Flush is answered Ok |
| `FlushAcks.NoOkAfterFailure` | crates/core-index/src/lsm/index_worker.rs:504-512 | after a failed segment write no later Flush is acknowledged Ok |
| `FlushAcks.NoFlushIsForgotten` | crates/core-index/src/lsm/index_worker.rs:737-749 | when no write is pending, no Flush waits |
| `FlushAcks.AcksInCommandOrderIff` | crates/core-index/src/lsm/index_worker.rs:487-512 | acknowledgements are in command order exactly if no Flush was refused while others waited |
| `FlushAcks.RefusedFlushOvertakes` | crates/core-index/src/lsm/index_worker.rs:487-502 | a run in which the second Flush is answered first |
| `LsmIndex.Absorb` | crates/core-index/src/lsm/manager.rs:376-392 | the loop keeps the older generations and merges the others with the memtable: exactly down to the first that is read by a snapshot or larger than all merged before it |
| `LsmIndex.LsmIndex.Seal` | crates/core-index/src/lsm/manager.rs:372-394 | seals the memtable onto the generations, merged exactly that far |
| `LsmIndex.LsmIndex.QueueFlush` | crates/core-index/src/lsm/manager.rs:459-499 | refused after a failure; else seals as far as `Seal` does, syncs tombstones and queues or freezes |
| `LsmIndex.LsmIndex.CompleteFlush` | crates/core-index/src/lsm/manager.rs:526-573 | installs at the flush's position, from disk or kept in memory; out-of-order completion only sets the failure |
| `LsmIndex.LsmIndex.SegmentAdded` | crates/core-index/src/lsm/manager.rs:112-116 | the loop counts one more for every pending flush |
| `LsmIndex.LsmIndex.AddImmutableSegment` | crates/core-index/src/lsm/manager.rs:595-621 | adds segments one by one until a write fails |
| `LsmIndex.LsmIndex.ChooseWindow` | crates/core-index/src/lsm/manager.rs:636-683 | exactly which window is chosen: none, all segments, the best tiered one or the cheapest one; it holds disk segments only, and without quiet none is chosen while a flush is pending |
| `LsmIndex.LsmIndex.PlanCompaction` | crates/core-index/src/lsm/manager.rs:636-709 | none exactly if no window is to be chosen; else the files of exactly the chosen window, in order, with the tombstones known now |
| `LsmIndex.LsmIndex.RemoveInputs` | crates/core-index/src/lsm/manager.rs:849-857 | the loop removes exactly the inputs from both lists and finds the first position |
| `LsmIndex.LsmIndex.InstallCompaction` | crates/core-index/src/lsm/manager.rs:823-886 | the new state is the installed, stale or failed merge of the value model |
| `LsmIndex.LsmIndex.BuildSnapshot` | crates/core-index/src/lsm/manager.rs:413-437 | the parts together are generations, pending flushes and segments |
| `LsmIndex.LsmIndex.PublishSnapshot` | crates/core-index/src/lsm/manager.rs:403-406 | a published snapshot shows exactly the visible documents, and publishing changes none |
| `IndexWorker.IndexWorker.ReleaseFlushWaiters` | crates/core-index/src/lsm/index_worker.rs:737-749 | the loop answers exactly the waiters at the front whose target is reached, in order, Ok unless the index failed |
| `IndexWorker.IndexWorker.AnswerFlush` | crates/core-index/src/lsm/index_worker.rs:487-502 | refused at once with an error, or waiting for everything queued so far |
| `IndexWorker.IndexWorker.InstallWritten` | crates/core-index/src/lsm/index_worker.rs:504-512 | a reported write is the oldest pending one, so it is installed or kept in memory and waiters are released |
| `IndexWorker.IndexWorker.StageAndMerge` | crates/core-index/src/lsm/index_worker.rs:601-630 | the documents counted are exactly those that reached the memtable, all of them unless a flush failed, which only a failed write or tombstone sync makes it; afterwards the memtable is below the flush threshold or empty |
| `IndexWorker.IndexWorker.AddIndexedDocuments` | crates/core-index/src/lsm/index_worker.rs:402-428 | fails only for a batch not tokenized, a failed write or a failed sync; searches see everything once 100 documents wait or the interval passed, else their old snapshot |
| `IndexWorker.IndexWorker.AddSegment` | crates/core-index/src/lsm/index_worker.rs:443-465 | succeeds exactly if every segment is written; searches see everything once 100 documents wait or the interval passed, else their old snapshot |
| `IndexWorker.IndexWorker.DeleteDocument` | crates/core-index/src/lsm/index_worker.rs:429-442 | the document is no longer visible, all others are; searches see that at once if the tombstone was recorded |
| `IndexWorker.IndexWorker.InstallCompaction` | crates/core-index/src/lsm/index_worker.rs:472-483 | visible documents stay as they are unless tombstones are dropped; searches see an installed merge at once |
| `IndexWorker.IndexWorker.PlanCompaction` | crates/core-index/src/lsm/index_worker.rs:466-470 | replies with a merge of exactly the chosen window, or none exactly if there is none to choose; searches see no change |
| `IndexWorker.IndexWorker.Flush` | crates/core-index/src/lsm/index_worker.rs:487-502 | an accepted Flush shows searches everything the index holds, a refused one leaves their snapshot |
| `IndexWorker.IndexWorker.SegmentWritten` | crates/core-index/src/lsm/index_worker.rs:504-512 | searches see a written segment at once, and the acknowledgements are those of the value model |
| `CompactionWindows.ExtendRun` | crates/core-index/src/lsm/manager.rs:772-788 | the inner loop finds the run from a start that cannot be extended, with its total |
| `CompactionWindows.TieredWindow` | crates/core-index/src/lsm/manager.rs:758-798 | for min_width >= 2 a window exactly if some run within ratio and widths exists; the window is the first cheapest greedy run |
| `CompactionWindows.GreedyRunIsLongest` | crates/core-index/src/lsm/manager.rs:772-788 | no allowed run from the same start is longer |
| `CompactionWindows.CheapestWindow` | crates/core-index/src/lsm/manager.rs:800-821 | the cheapest run of at least two disk segments, or none exists |
| `CompactionWindows.IsMergeAllDue` | crates/core-index/src/lsm/manager.rs:715-723 | the saturating comparison decides what exact arithmetic would |
| `WriteAmplification.DueMergeIsPaidFor` | crates/core-index/src/lsm/manager.rs:711-723 | a due whole merge reads at most k = max(ratio,1)+1 times the bytes outside the last merged segment |
| `WriteAmplification.InstallKeepsJobs` | crates/core-index/src/lsm/manager.rs:836-842 | of overlapping jobs, those an installation does not make stale read none of the replaced segments and stay paid for |
| `WriteAmplification.WholeMergesAreBounded` | crates/core-index/src/lsm/manager.rs:660-668 | over every run, with overlapping jobs and tiered merges in between and k = max(ratio,1)+1: installed whole merges wrote at most k bytes per flushed byte, all whole merges at most that once more for each that failed or went stale, and a running one reads at most that |
| `WriteAmplification.RetriesExceedEveryBound` | crates/core-index/src/lsm/compaction.rs:293-337 | no multiple of the flushed bytes bounds all bytes written: a run of failing retries exceeds it |
| `ShardLog.NextKeepsInv` | crates/core-core/src/shard_db.rs:1457-1557 | every step of writes, checkpoints, failures and crashes keeps the log invariants |
| `ShardLog.AcknowledgedWritesSurvive` | crates/core-core/src/shard_db.rs:1457-1557 | in every run each acknowledged write is in the log or on disk, and checkpoints finish in order |
| `CrashRecovery.EveryWriteIsKept` | crates/core-core/src/shard_db.rs:1457-1557 | after every run the log holds the newest records in order, and every acknowledged write is in it or on disk |
| `CrashRecovery.StartRestoresEveryWrite` | crates/core-core/src/shard_db.rs:240-382 | after any run and crash, replaying the log onto a store that per document got to some point of it gives the documents of every record on disk or in the log, every acknowledged one among them, applied once in order |
| `ShardLog.ReindexKeepsTheLog` | crates/core-core/src/shard_db.rs:862-906 | while a reindex is open no log segment is removed |
| `ShardDb.ShardDb.RemoveThrough` | crates/core-storage/src/wal.rs:181-194 | deletes exactly the closed segments, oldest first, and succeeds exactly if listing, deletions and the sync do |
| `ShardDb.ShardDb.FinishOldest` | crates/core-core/src/shard_db.rs:1516-1541 | exactly when it succeeds and what it leaves of the log: segments go only after a successful flush and outside a reindex; a failure marks the shard |
| `ShardDb.ShardDb.ReapCheckpoints` | crates/core-core/src/shard_db.rs:1493-1503 | finishes checkpoints in order while the oldest is done; exactly which and whether that succeeds, by the answers of disk and tickets |
| `ShardDb.ShardDb.WaitCheckpoints` | crates/core-core/src/shard_db.rs:1506-1512 | ends with none pending, and with everything they cover on disk exactly if each flush and removal succeeds |
| `ShardDb.ShardDb.StartCheckpoint` | crates/core-core/src/shard_db.rs:1457-1490 | starts exactly if room can be made, the log rotates and the flush starts; the new checkpoint closes the newest segment and at most two pend, here and after every other method |
| `ShardDb.ShardDb.Write` | crates/core-core/src/shard_db.rs:664-724 | acknowledged exactly if the shard runs, log and apply succeed and the checkpoint, if due, starts; one is due exactly when the pending documents reach the batch size: it then closes the segment written to, and otherwise nothing but the counts and the newest segment change |
| `ShardDb.ShardDb.Flush` | crates/core-core/src/shard_db.rs:1137-1143 | succeeds exactly if a checkpoint starts and all pending ones finish; then everything written is on disk, and outside a reindex the log is one empty segment |
| `ShardDb.ShardDb.MaybeIdleFlush` | crates/core-core/src/shard_db.rs:1546-1557 | checkpoints exactly when quiet, with documents pending and no checkpoint left after reaping |
| `ShardDb.ShardDb.PrepareReindex` | crates/core-core/src/shard_db.rs:862-906 | opens a reindex exactly if the flush before it succeeds |
| `WalReplay.PutDocuments` | crates/core-core/src/shard_db.rs:251-382 | replayed inputs in batches end as applying them in order |
| `WalReplay.ReplayCreate` | crates/core-core/src/shard_db.rs:251-382 | a replayed Create keeps what is stored and adds the rest |
| `WalReplay.Start` | crates/core-core/src/shard_db.rs:251-382 | the replay loop ends with the recovered document map |
| `WalReplay.ApplyAllPerDocument` | crates/core-core/src/shard_db.rs:664-1133 | records act on each document by its own operations only |
| `WalReplay.ReplayIsIdempotent` | crates/core-core/src/shard_db.rs:251-382 | if each document holds the effect of any prefix of its records, replay gives what applying all records once gives |
| `WalReplay.ClearStartsOver` | crates/core-core/src/shard_db.rs:251-382 | a logged Clear leaves exactly the effect of the records after the last Clear |
| `WalReplay.CrashLeavesRecoverableStore` | crates/core-core/src/shard_db.rs:251-382 | a crash that left any prefix per document leaves such a store |
| `WalReplay.CrashedReplayLeavesRecoverableStore` | crates/core-core/src/shard_db.rs:251-382 | so does a crash during replay itself |
| `RestoreSwap.NextKeepsInv` | crates/core-core/src/shard_db.rs:1607-1681 | every file-system step, partial delete and crash keeps the swap invariant |
| `RestoreSwap.RestoreIsAllOrNothing` | crates/core-core/src/shard_db.rs:1370-1396 | for every run of commits, crashes and recoveries that finishes: both directories old, or both restored with an empty log, never a mix; restored if no crash cut the commit |
| `RestoreSwap.RecoveryFinishes` | crates/core-core/src/shard_db.rs:1663-1681 | from every state it can be cut at, recovery left alone finishes |
| `BackupChain.DeltaRestoresAppendedStore` | crates/core-backup/src/backup.rs:281-299 | applying the delta of an appended store to a restored copy gives the non-empty files byte for byte |
| `BackupChain.ChainRestoresSnapshot` | crates/core-backup/src/backup.rs:417-544 | a full backup and any number of increments restore the store as of the last of them |
| `BackupManager.BackupManager.CreateFullBackup` | crates/core-backup/src/backup.rs:194-279 | records the store whole, moves the marks, removes exactly the increments of the chain before and keeps what can be restored; refuses an empty store |
| `BackupManager.BackupManager.DeleteIncrementalChain` | crates/core-backup/src/backup.rs:378-408 | the loop deletes exactly the increments reached from the given one through parents that are there, and every other backup that could be restored still can |
| `BackupManager.BackupManager.CreateIncrementalBackup` | crates/core-backup/src/backup.rs:301-376 | records the delta since the last backup, nothing if there is none; refused without a base |
| `BackupManager.BackupManager.RequireFullBackup` | crates/core-backup/src/backup.rs:620-623 | the next backup has to be full |
| `BackupChain.DeletingBreaksExactly` | crates/core-backup/src/backup.rs:625-638 | deleting a backup takes exactly itself and what builds on it |
| `BackupManager.BackupManager.DeleteBackup` | crates/core-backup/src/backup.rs:625-638 | refuses malformed and unknown ids; otherwise the directory is gone and exactly what builds on it can no longer be restored |
| `BackupManager.BackupManager.RestoreChain` | crates/core-backup/src/backup.rs:502-544 | for every history of backups and deletions: succeeds exactly if the backup and all it builds on are there, and then gives the store it was made from; otherwise it is not found |
| `BackupManager.BackupManager.CollectChain` | crates/core-backup/src/backup.rs:502-521 | the loop reaches the full backup exactly if all directories on the way are there |
| `BackupManager.BackupManager.ChainIsWhole` | crates/core-backup/src/backup.rs:524-538 | the gap check passes for every chain of the manager |
| `NumericValues.PackingIsOrderIsomorphism` | crates/core-index/src/numeric_values.rs:276-318 | packing keeps the order of one kind, floats by totalOrder (section 5.10 of IEEE 754-2008), and unpacking inverts it both ways |
| `NumericFields.BkdRangeIsExact` | crates/core-index/src/bkd.rs:78-116 | a range lists exactly the documents with a key inside the packed bounds, ascending, once |
| `NumericFields.DocValueIsExact` | crates/core-index/src/document_values.rs:88-107 | the 256-entry block search finds a document's value exactly if there is one |
| `NumericAnswers.FlushKeepsRanges` | crates/core-index/src/bkd.rs:78-116 | ranges from disk equal ranges from memory for all bounds of the field's kind |
| `NumericAnswers.FlushKeepsBounds` | crates/core-index/src/bkd.rs:66-75 | least and greatest value from disk equal those from memory |
| `NumericAnswers.FlushKeepsValues` | crates/core-index/src/document_values.rs:88-107 | with one value per document, lookups from disk equal lookups from memory |
| `NumericAnswers.RangesAgreeIff` | crates/core-index/src/numeric_values.rs:230-264 | for any pair of bounds of any kinds, disk and memory agree on all fields of a kind exactly if the kinds fit, a condition on the least and greatest key the bounds admit |
| `NumericAnswers.FloatBoundOnIntegersDisagrees` | crates/core-index/src/bkd.rs:78-101 | one integer field and one float bound with different answers from memory and disk |
| `NumericIndex.FlushedFieldAnswersAlike` | crates/core-index/src/numeric_values.rs:112-114 | a built field answers ranges, extremes and lookups as the memtable did |
| `NumericIndex.NumericPoints.Insert` | crates/core-index/src/numeric_values.rs:99-110 | one point more, the others kept, in document order |
| `NumericIndex.NumericPoints.Merge` | crates/core-index/src/numeric_values.rs:147-156 | the points of both, in document order, other fields untouched |
| `NumericIndex.NumericPoints.Build` | crates/core-index/src/numeric_values.rs:112-114 | every field is built from exactly its points |
| `PooledRuns.NextRun` | crates/core-embed/src/pooled.rs:290-308 | one text, or as many as fit both budgets and not one more |
| `PooledRuns.FullestRunIsLargest` | crates/core-embed/src/pooled.rs:290-308 | no longer run of the length-sorted texts fits |
| `PooledRuns.RunsStayInBudgetIff` | crates/core-embed/src/pooled.rs:284-308 | every run of several texts stays within both budgets halved as often as in force exactly if at most 64 halvings happened or the budget is below 2^65 token states |
| `PooledRuns.PlannedRunsStayInBudget` | crates/core-embed/src/pooled.rs:169-205 | so do all runs an embedding plans |
| `PooledRuns.RunLeavesBudget` | crates/core-embed/src/pooled.rs:293-295 | otherwise a run of one-token texts is planned beyond it |
| `PooledRuns.PooledModel.RunSplitting` | crates/core-embed/src/pooled.rs:209-234 | for any out-of-memory pattern: succeeds exactly if no run fails for good or does not fit alone; then every row's slot holds its vector and no other slot changed; one halving for each run split |
| `PooledRuns.PooledModel.Embed` | crates/core-embed/src/pooled.rs:169-205 | succeeds exactly if no run fails for good; then slot i holds text i's vector, and the planned runs partition the length-sorted order, each greedy for the halvings in force, which only grow |
| `VectorRows.OverrideIsExact` | crates/core-core/src/embed.rs:450-482 | the merged rows ascend strictly and are the new rows and the old ones not replaced |
| `VectorRows.WriteVectors` | crates/core-core/src/embed.rs:450-482 | the loops write exactly that, for any new rows with one per document |
| `EmbedRounds.Sanitized` | crates/core-core/src/embed.rs:65-82 | a round of no documents becomes one of 10000, and the batch the nearest size from 1 to the round; other settings are kept |
| `EmbedRounds.Measure` | crates/core-core/src/embed.rs:177-198 | done falls short of total by exactly the vectors missing |
| `EmbedRounds.NextTask` | crates/core-core/src/embed.rs:249-288 | no task exactly if nothing is missing; a task is, sorted, all or the first so many documents missing in the first such field of the largest segment that has any |
| `EmbedRounds.RoundMakesProgress` | crates/core-core/src/embed.rs:290-368 | a round never leaves more missing, and strictly less if its first document got a row or was skipped |
| `EmbedRounds.TaskExistsIff` | crates/core-core/src/embed.rs:249-288 | there is a task exactly while a vector is missing |
| `EmbedRounds.RoundsAreBounded` | crates/core-core/src/embed.rs:162-173 | a run of rounds, each a task whose file is rewritten and whose first document is settled, is no longer than the number of vectors missing at its start, and one of that length leaves none |
| `EmbeddingJob.EmbeddingJob.EmbedAll` | crates/core-core/src/background_worker.rs:172-182 | rounds until nothing is left or one finishes no batch, which takes a lost segment, a stop or a failing model: at most as many as vectors are missing, and none is missing unless one stalled |
| `EmbeddingJob.EmbeddingJob.EmbedIsolating` | crates/core-core/src/embed.rs:392-429 | fails exactly if the model returns a wrong count or fails on the probe; failed ids are exactly those it fails on alone while the probe works, and the rows those of the others, in order |
| `EmbeddingJob.RowsAndFailures` | crates/core-core/src/embed.rs:392-429 | every id ends in a row or among the failed, not both |
| `EmbeddingJob.EmbeddingJob.EmbedBatch` | crates/core-core/src/embed.rs:305-340 | every document of a batch gets a row with its text's vector or is skipped, unless the model itself fails; skipped are exactly those without text and those isolated |
| `EmbeddingJob.EmbeddingJob.EmbedBatches` | crates/core-core/src/embed.rs:290-341 | the same for all finished batches of a task; all are finished unless stopped or the model fails |
| `EmbeddingJob.EmbeddingJob.Step` | crates/core-core/src/embed.rs:162-173 | nothing to do exactly if nothing is missing; else the file of the task is rewritten with the vectors of the documents tried and not skipped, what is reported is their number or the error, and a round that finishes a batch on a live segment leaves strictly less |

## Left out

- Query parsing and compilation, ranking, highlighting, suggestions and result fusion.
- ONNX Runtime, tokenizers, downloads and HNSW graphs: a model run is an oracle that may fail.
- The FST walk over terms: the automaton is proved on all byte strings a walk could feed it.
- Postings, array rows and boolean fields inside a segment: a segment is a set of documents, a merge the union of its inputs without the tombstones it knew.
- Reopening an index from its manifest and tombstone file: `Durable` is what the listed files hold.
- The index worker's Shutdown arm and the drain after its loop, and a writer thread that stops.
- An error while clearing the tombstone file after a merge was installed: the merge stays installed and the tombstones in memory are dropped, as the model has it, only the reply differs.
- Vector files and graphs attached to segments by `install_vectors` and `install_graph`.
- Power loss beneath `fsync`, torn log records and checksums: a log append is atomic.
- `commit_reindex` between its two renames, and a restart after an aborted reindex.
- A second `prepare_restore` after an I/O error of the first.
- `cleanup_after_restore` and deletion of backups by age; a new backup's id is taken to be one never used.
- WriteAmplification.WholeMergesAreBounded: bytes of vector files beside a merged segment are not counted.
- CrashRecovery.StartRestoresEveryWrite: what the store holds per document after a crash is a hypothesis, met by any prefix of the log (`WalReplay.CrashLeavesRecoverableStore`).
- Documents with an empty external id: the document parser yields none.
- Statistics, timings, estimates and poll intervals: time is a flag or an oracle.
- Overflow of 64- and 128-bit sums and products of sizes; saturation is modelled where the code saturates.
- PooledRuns.PlannedRunsStayInBudget: not claimed beyond 64 halvings with budgets of 2^65 token states and more, where it is false (`PooledRuns.RunLeavesBudget`).
- FlushAcks.AcksInCommandOrderIff: command order is not claimed for a Flush refused while others wait, where it is false (`FlushAcks.RefusedFlushOvertakes`).
- BackupManager.BackupManager.CollectChain: manifests this manager did not write or that cannot be read, and their errors.
- BackupManager.BackupManager.CreateFullBackup: I/O errors, compression and archive format; a backup holds the files' bytes.
- EmbeddingJob.EmbeddingJob.Step: an I/O error while loading a text or writing a file ends the round; it is not modelled.
- LsmIndex.LsmIndex.RemoveInputs: finds, sorts and removes the inputs in one downward scan, where the code collects the positions first.
- ShardRouter.RoutingIsConsistent: the floating-point jump is any function that goes at least one bucket further; hashing the id is a parameter.
- WeightedDistance.WeightedDistanceLaws: costs are exact tenths, not floats.
- WeightedPrices.AddedFirstLetterCosts: a letter added in front of a word has no closed price, since confusing or swapping letters may be cheaper; it is bounded, and exact where neither applies.
