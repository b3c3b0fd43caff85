# Verified model of the NFT indexer

A Dafny model of an Ethereum NFT indexer and proofs about it. The indexer reads
transfer events from an Ethereum node, block range by block range, into a
document database; keeps a log of the ranges read; repairs its store after a
chain reorganisation; hands the events to workers that register contracts and
tokens; and rebuilds search indexes, wallet views and statistics from what is
stored. `dafny verify dfyconfig.toml` (Dafny 4.11) checks the whole project.

## How the model is built

A component that updates state in place is a class whose methods do what the
source does, statement by statement. Each method is proved to compute a function
of (or to stand in a relation to) its old state, and the theorems are lemmas
about those functions and relations, over all inputs and all runs.

| file | models |
|---|---|
| `Ethnode.dfy` | hash-linked chains, the log filter and decoder |
| `EventStore.dfy`, `BlocksQueue.dfy` | the two collections of the reader |
| `Reader.dfy` | `read` / `reread`, mutually recursive |
| `Reorg.dfy`, `ReorgRuns.dfy`, `ReorgExact.dfy`, `ReorgLimits.dfy` | what one reorg cascade does; reorg correctness over runs; when a call is sure to repair the log; where the repair fails |
| `WalkBack.dfy`, `WalkLimits.dfy` | how many re-reads a call can begin over any log; a live task whose call need not end |
| `RangeTask.dfy`, `LiveTask.dfy`, `ReaderModule.dfy` | the range task and the live task |
| `LiveSessions.dfy`, `RestartLimits.dfy` | the live task across restarts of the service; a restart that breaks reorg correctness |
| `CrashRecovery.dfy`, `Announcements.dfy`, `LiveAnnouncements.dfy` | a range task that may die between any two database operations; when all that it, or any call of `read`, logs is announced |
| `ReaderTasks.dfy`, `ReaderRaces.dfy` | starting and stopping tasks over the state log, as atomic steps and interleaved |
| `LazyMint.dfy`, `LazyCrash.dfy` | the lazy-mint indexer; a run that dies with a window stored, or half stored, and not handed on |
| `TokenTasks.dfy`, `TokenProcessor.dfy`, `TokenFaults.dfy`, `TokenEvents.dfy` | what processing a list of events amounts to; the concurrent tasks that do it; sequences of calls with failures; what a call leaves, read off its events alone |
| `WaitGroup.dfy`, `SqsConsumer.dfy`, `SqsTransport.dfy` | the concurrency limiter, the poll loop, delivery |
| `Keyset.dfy`, `TokensReader.dfy`, `MetadataIndexer.dfy` | keyset pagination and the loops over it, bulk indexing with retries |
| `Wallet.dfy` | wallet balances and pages |
| `Average.dfy` | the running average, in wrapping 64-bit arithmetic |
| `ExampleChains.dfy`, `Prelude.dfy` | material of the witnesses; shared datatypes |

Choices that a reader of the theorems should know:

- A block hash is a number. Where chains are compared (`ReorgRuns.World`), a hash
  commits to the block's number and content, and every block names its parent.
- A stored event's `_id` is the string `blockNumber:transactionHash:logIndex`.
  Its parts contain no colon, so the model keys the store by the triple. The
  `blockNumber` and `logIndex` fields of a document repeat its key and live there.
- `softDelete` is one `updateOne` on `{from, to}`: it may hit any record of the
  range, deleted or not, and the model leaves the choice open. `getLatest` may
  return any of several live records with the greatest end.
- Within one call the node shows one chain; between calls it may show any other.
- Decoding failures, taken ids, throwing handlers, lost bulk requests, failing
  deletes and failing sends are part of the model: parameters say which occur.
- `read` and `reread` call each other with no bound in the source, and over a log with an
  improper range (`from > to`) need not end. The relation `Reader.Reads` and the methods
  take any range and any log, and a number `most`: how many re-reads the process lives to
  begin. A call ends `Completed`, `Threw`, or `Died` with a re-read pending; `Completes`
  means that it completes for some `most`. Over proper ranges it never needs more than the
  number of its first block (`Reader.ProperWalkEnds`).
- A node asked for the logs of an improper range is taken to answer with none.

## What the proofs found

- A live call is sure to repair the log if and only if no range it re-reads has a
  soft-deleted twin (`ReorgExact.CascadeRelogsIff`; for one soft delete,
  `BlocksQueue.SoftDeleteSureIff`). `ReorgLimits.TwinBreaksReorg` is a run of four
  completed calls from an empty database after which a transfer that is on no
  current block stays stored.
- The walk back of `read` need not end. A live task told to start above the head logs an
  improper range (`reader-start` takes any `blockNumberFrom`, and the loop never compares
  its next block with the head); two reorgs later a call can go on to any number of
  re-reads (`WalkLimits.ThirdCallNeedNotEnd`, from an empty database). Re-reading an
  improper range, the only one live, need not end if and only if the range has a
  soft-deleted twin and its record looks stale to its own re-read
  (`WalkBack.ImproperWalkIff`). While the head does not drop below the next block no
  improper range is logged (`LiveTask.RangeProperIff`, `LiveTask.GrowingNeverDrops`).
- Restarting the live task while the head is the last logged block breaks reorg
  correctness too, with nothing ever soft-deleted and no head dropping: `getLatest`
  asks for ends strictly below the head, so the last range is read and logged a
  second time (`RestartLimits.RestartBreaksReorg`). A resume keeps what reorg
  correctness needs if and only if nothing is logged or it resumes at the end of
  the log, that is, the head is past the last logged block
  (`LiveSessions.ResumeKeepsInvIff`); under that condition, and without twins,
  reorg correctness holds over any number of sessions
  (`LiveSessions.SessionsFollowChain`).
- A crash after a range is logged and before its cascade loses the repair
  (`ReorgLimits.CrashBreaksReorg` is a run); the store is then right if and only if
  there was nothing to repair (`ReorgLimits.CrashHarmlessIff`), which under the invariant
  of reorg correctness is so whenever the call's own guard finds its latest record current
  (`ReorgLimits.CrashHarmlessIfCurrent`).
- A range whose call dies before it sends INDEX_BLOCK_RANGE is never announced: the
  ranges announced are the ranges logged if and only if no call died between the two
  (`Announcements.AnnouncedIff` for a range task; `LiveAnnouncements.CallsAnnouncedIff`
  for any history of calls and their cascades).
- A range task that crashes in its very first chunk cannot be resumed
  (`CrashRecovery.DirtyReached` is a run): with no log entry to clear up to, the
  next attempt inserts a taken id. An attempt completes if and only if the restart
  is clean (`CrashRecovery.AttemptCompletesIff`).
- Resuming the lazy-mint indexer can delete events above the end of its run;
  `LazyMint.ResumeKeepsBeyondIff` says exactly when it does not.
- A lazy-mint run that dies after logging a window and before handing its events to the
  token processor loses them: the next run makes up for it if and only if the window
  lacked nothing, or it was the last one and the log holds one before it, so that the
  resume clears it (`LazyCrash.LostWindowIff`). If it dies before logging the window, the
  next run makes up for it if and only if nothing of it was inserted or the log holds a
  window before it (`LazyCrash.HalfStoredIff`).
- `WaitGroup` keeps its bound for one caller that awaits each `go`. A further `go`
  can break it if and only if another one is blocked and at most one place is free
  (`WaitGroups.SecondCallExceedsIff`). Starting an SQS consumer can break it if and
  only if a poll is left over from before, waiting or as a timer
  (`SqsConsumer.RestartExceedsIff`); a stop clears the timers but not the waiting polls,
  so a stop and a later start can break it if and only if a poll was waiting at the stop
  (`SqsConsumer.RestartAfterStopIff`).
- Starts and stops of the reader are not atomic: two starts can both end in progress
  (`ReaderRaces.RacingStarts`), a stop between a start's steps can leave the signal raised
  on the new task (`ReaderRaces.StopDuringStart`), and a start between a stop's steps can
  have its log ended while its task goes on (`ReaderRaces.StartDuringStop`). At most one
  log is in progress if and only if no start writes after another start's write that no
  stop has found and ended (`ReaderRaces.RaceSafeIff`); log and signal then agree exactly
  as the order of the calls says (`ReaderRaces.SignalIff`).
- A token whose READ_TOKEN could not be sent is never announced again
  (`TokenFaults.LostSend`): over any calls, a stored token has been announced if and only
  if the call that stored it could send (`TokenFaults.AnnouncedIffSent`).
- Bulk indexing uses `create`, so a partial success makes every further retry of
  the page fail (`MetadataIndexer.PartialSuccessDooms`).
- A wallet's balance is what it received minus what it sent if and only if it sent
  none to itself and each event that takes some away is processed after one that
  brought some (`Wallet.BalanceIff`).
- The running average is the rounded-down incremental mean if and only if the
  branch taken does not overflow (`Average.NextExactIff`).
- `src/app-events-reader/README.md:34` says that events with a non-zero sender are
  weeded out. The code (`src/shared/ethnode/events.ts:116-179`) keeps every
  transfer; the model follows the code.

## Model

| member | source | states |
|---|---|---|
| Ethnode.GetEthNodeTransferEvents | src/shared/ethnode/events.ts:94-182 | one pass over all logs of the range gives the blocks' transfer events in order; it throws exactly when some block holds an undecodable log |
| Ethnode.DecodeAll | src/shared/ethnode/events.ts:115-181 | the filter-and-decode loop over any logs: the events of the kept logs in order, or a throw exactly if a kept log is unsuitable; which logs are kept and what each event holds is stated apart by `EventsYielded` and `LogDecodes` |
| Ethnode.EventsYielded | src/shared/ethnode/events.ts:116-178 | the events of a list of logs are, one each and in order, those of the logs with four topics or of a pre-721 contract, with the log's block, index, hash, address, sender and recipient, and with ids, values and standard given for each of the three kinds of transfer, pre-721 or not |
| Ethnode.LogDecodes | src/shared/ethnode/events.ts:116-163 | a log throws exactly if it is kept and unsuitable, and else yields exactly that event or is skipped |
| Ethnode.RangeYields | src/shared/ethnode/events.ts:94-182 | an event is in the result for a range if and only if some kept log of a block of the range yields it |
| Ethnode.LogsByBlock | src/shared/ethnode/events.ts:113-181 | decoding the logs of a range at once is decoding it block by block |
| Ethnode.RangeSplit | src/shared/ethnode/events.ts:94-182 | fetching a range in two adjacent pieces gives the events of the whole, in order |
| Ethnode.RangeIsProper | src/shared/events/events-repo.ts:133-154 | the events of one fetch lie in its range and have pairwise distinct ids: its bulk insert never collides with itself |
| Ethnode.HashDeterminesAncestry | src/app-events-reader/events-reader/events-reader.service.ts:153-155 | chains that agree on one block hash agree on every block below it, which is why one stored hash can certify a prefix |
| EventStore.EventsRepo.BulkSave | src/shared/events/events-repo.ts:133-154 | inserts all events if no id is taken, else stops having inserted a prefix, and says which happened |
| EventStore.EventsRepo.BulkUpsert | src/shared/events/events-repo.ts:165-190 | every event's document is written, whatever was stored under its id |
| EventStore.EventsRepo.DeleteByBlockRange | src/shared/events/events-repo.ts:87-90 | removes exactly the events of the inclusive range |
| EventStore.EventsRepo.DeleteWhereBlockNumberGreaterThan | src/shared/events/events-repo.ts:101-104 | keeps exactly the events up to the block |
| EventStore.RangeDocsAt | src/shared/events/events-repo.ts:133-190 | storing one fetch puts into each block of the range exactly the chain's documents of that block |
| EventStore.DocsHold | src/shared/events/events-repo.ts:133-190 | under the id of each event the store holds its contract, standard, sender, recipient, ids and values |
| EventStore.FreshIfEmpty | src/shared/events/events-repo.ts:133-154 | a range with nothing stored in its blocks is free for inserting |
| BlocksQueue.BlocksQueueRepo.SoftDelete | src/shared/blocks-queue/repo.ts:34-36 | flags some record of the range, if there is one, and touches nothing else |
| BlocksQueue.BlocksQueueRepo.Save | src/shared/blocks-queue/repo.ts:38-48 | appends one live record |
| BlocksQueue.BlocksQueueRepo.GetLatest | src/shared/blocks-queue/repo.ts:64-74 | a live record ending strictly below the bound with the greatest end, or none if there is none |
| BlocksQueue.SoftDeleteRetires | src/shared/blocks-queue/repo.ts:34-36 | without a soft-deleted twin, the live record of the range is the one retired and every other live record stays |
| BlocksQueue.SoftDeleteSureIff | src/shared/blocks-queue/repo.ts:34-36 | a soft delete is sure to retire the live record of its range if and only if the range has no soft-deleted twin |
| Reader.EventsReaderService.Save | src/app-events-reader/events-reader/events-reader.service.ts:94-108 | writes the range's events or throws, and says exactly when; a throw leaves some first events inserted |
| Reader.EventsReaderService.Log | src/app-events-reader/events-reader/events-reader.service.ts:116-151 | logs and announces a stored range; with reorg handling, finds its first block, and the latest live record below it as the log was before |
| Reader.EventsReaderService.Read | src/app-events-reader/events-reader/events-reader.service.ts:82-158 | for any range and log, a call that throws failed to write and left some first events inserted; else its range is stored, logged and announced, and then it completes if the latest record below is current, or ends as the re-read of that record does |
| Reader.EventsReaderService.Reread | src/app-events-reader/events-reader/events-reader.service.ts:160-172 | for any record: deletes the events of its range, soft-deletes one record of it and reads it again with upserts and reorg handling |
| Reader.NeverThrows | src/app-events-reader/events-reader/events-reader.service.ts:82-172 | with every log decodable and no id of its range taken, a call cannot throw, in its re-reads either, whatever the log holds |
| Reader.ProperWalkEnds | src/app-events-reader/events-reader/events-reader.service.ts:153-171 | over proper ranges a call begins no more re-reads than the number of its first block |
| Reorg.StaleIsMaximalSuffix | src/app-events-reader/events-reader/events-reader.service.ts:153-155 | the records re-read are the longest suffix of the live records whose stored hash is not the chain's hash at their end |
| Reorg.CascadeAnnounces | src/app-events-reader/events-reader/events-reader.service.ts:147-171 | a completed live call announces its range and then exactly the stale ranges, newest first |
| Reorg.CascadeStores | src/app-events-reader/events-reader/events-reader.service.ts:82-172 | it replaces the events of its own and the stale ranges by the chain's and leaves every other block alone |
| Reorg.CascadeRelogs | src/app-events-reader/events-reader/events-reader.service.ts:123-171 | it retires exactly the stale records and logs fresh ones of the same ranges with the chain's hashes |
| ReorgRuns.CertifiedPrefix | src/app-events-reader/events-reader/events-reader.service.ts:153-155 | a live record whose hash is on the chain certifies the whole stored prefix up to its end |
| ReorgRuns.LiveStep | src/app-events-reader/events-reader/events-reader.service.ts:82-172 | one live call keeps the invariant (contiguous live records, each certifying its prefix) and leaves every covered block as on the chain |
| ReorgRuns.RunKeeps | src/app-events-reader/events-reader/events-reader.service.ts:82-172 | the invariant holds after every prefix of a run |
| ReorgRuns.ReorgCorrect | src/app-events-reader/events-reader/events-reader.service.ts:82-172 | over any run of completed live calls with any reorgs between them, after each call the stored events are exactly the current chain's on the covered blocks |
| ReorgRuns.FreshRun | src/app-events-reader/events-reader/events-reader.service.ts:82-172 | the same from an empty database |
| ReorgLimits.NothingToRepair | src/app-events-reader/events-reader/events-reader.service.ts:153-155 | a call whose predecessor was just logged on the same chain re-reads nothing |
| ReorgExact.CompletionExists | src/app-events-reader/events-reader/events-reader.service.ts:82-172 | with every log decodable and no id of its range taken, a live call can complete |
| ReorgExact.CascadeRelogsIff | src/app-events-reader/events-reader/events-reader.service.ts:123-171 | every completion of a live call replaces the stale records by fresh ones if and only if none of the stale ranges has a soft-deleted twin |
| WalkBack.WalksIff | src/app-events-reader/events-reader/events-reader.service.ts:82-172 | a call on decodable logs with free ids can begin `k` re-reads, one inside the other, if and only if its log alone allows them |
| WalkBack.ImproperRangeLoops | src/app-events-reader/events-reader/events-reader.service.ts:153-171 | re-reading a live improper range that has a twin can lead back to re-reading it |
| WalkBack.ImproperWalkIff | src/app-events-reader/events-reader/events-reader.service.ts:153-171 | the re-read of an improper range, the only one live, can be followed by any number of further re-reads if and only if the range has a soft-deleted twin and its record looks stale to its own re-read; else by no more than its first block's number |
| WalkLimits.ThirdCallNeedNotEnd | src/app-events-reader/events-reader/events-reader.module.ts:115-157 | a live task started above the head of an empty database: two calls complete, and after two reorgs the third can go on to any number of re-reads |
| ReorgLimits.CrashLosesRepair | src/app-events-reader/events-reader/events-reader.service.ts:127-155 | a crash between the log entry and the cascade: after the next call on the same chain every block from the interrupted range on is right and every block below it as before |
| ReorgLimits.CrashHarmlessIff | src/app-events-reader/events-reader/events-reader.service.ts:127-155 | after such a crash the store mirrors the chain if and only if it did below the interrupted range, where the repair was due |
| ReorgLimits.CrashHarmlessIfCurrent | src/app-events-reader/events-reader/events-reader.service.ts:127-155 | under the invariant of reorg correctness, the crash is harmless if the interrupted call's latest record was current |
| ReorgLimits.CrashBreaksReorg | src/app-events-reader/events-reader/events-reader.service.ts:127-155 | a run with such a crash after which a transfer of an abandoned chain stays stored |
| ReorgLimits.TwinBreaksReorg | src/shared/blocks-queue/repo.ts:34-36 | a run of four completed calls, with a soft-deleted twin, after which the store differs from the chain |
| ReorgLimits.RunOfTwo | src/app-events-reader/events-reader/events-reader.service.ts:82-172 | the first two of those calls, a reorg and its repair, are a run as reorg correctness assumes it |
| ReorgLimits.WorldOfThree | src/app-events-reader/events-reader/events-reader.service.ts:82-172 | the chains of that run meet every assumption made about chains |
| RangeTask.RangesPartition | src/app-events-reader/events-reader/events-reader.module.ts:90-108 | for any limit the chunks cover the range in order, without gap or overlap, each at most limit + 1 blocks |
| RangeTask.ChunkSizes | src/app-events-reader/events-reader/events-reader.module.ts:101-107 | every chunk but the last has exactly limit + 1 blocks, and the last one ends the task |
| RangeTask.WritableSplit | src/shared/events/events-repo.ts:133-154 | inserting two adjacent ranges in turn meets a taken id exactly when inserting them at once does |
| RangeTask.SplitStores | src/app-events-reader/events-reader/events-reader.module.ts:90-108 | reading contiguous chunks stores what one unsplit read stores |
| RangeTask.SplitCompletes | src/app-events-reader/events-reader/events-reader.module.ts:90-108 | all chunks complete exactly when every log of the range decodes and no id is taken |
| RangeTask.RangeTaskRefinesOneRead | src/app-events-reader/events-reader/events-reader.module.ts:72-113 | a range task completes exactly when one read of the whole range would, and leaves the same event store whatever the limit |
| RangeTask.InterruptedCoversPrefix | src/app-events-reader/events-reader/events-reader.module.ts:91-94 | an aborted task has stored exactly a contiguous prefix of its range |
| RangeTask.LatestEndIs | src/shared/blocks-queue/repo.ts:64-74 | whichever record `getLatest` returns, its end is the greatest live end below the bound |
| ReaderModule.EventsReaderModule.Resume | src/app-events-reader/events-reader/events-reader.module.ts:79-86 | a new-only task with a live record ending below its end starts one block after the last such end and drops exactly the events from there on; a rewriting task, or one without such a record, starts where it was told, or at block 0, and drops nothing |
| ReaderModule.EventsReaderModule.ReadChunk | src/app-events-reader/events-reader/events-reader.module.ts:101-107 | one iteration extends the chunks read by one, or throws because this chunk cannot be read, leaving some first of its events inserted and log and bus as they were |
| ReaderModule.EventsReaderModule.ReadChunks | src/app-events-reader/events-reader/events-reader.module.ts:90-108 | the loop terminates: finished having read all chunks, aborted after a prefix of them, or thrown out of the first one that cannot be read, with the chunks before it and some first of its events stored |
| ReaderModule.EventsReaderModule.BlockRangeProcessing | src/app-events-reader/events-reader/events-reader.module.ts:72-113 | the same for the whole task, from its resume point |
| ReaderModule.EventsReaderModule.Iterate | src/app-events-reader/events-reader/events-reader.module.ts:140-155 | one pass of the live loop: wait if the head has been read, else read towards it, wherever the head is |
| ReaderModule.EventsReaderModule.FollowHead | src/app-events-reader/events-reader/events-reader.module.ts:134-156 | for any views of the chain the live loop makes, in order, the calls they ask for, improper ranges included, up to the abort or to the first call that throws or does not end |
| ReaderModule.EventsReaderModule.LiveProcessing | src/app-events-reader/events-reader/events-reader.module.ts:115-157 | the same for the whole live task, from its resume point, over any database |
| LiveTask.CallStaysBelow | src/app-events-reader/events-reader/events-reader.service.ts:82-172 | whatever a live call re-reads and whichever records the database picks, nothing is stored at or above a bound above its range |
| LiveTask.LiveCallsChained | src/app-events-reader/events-reader/events-reader.module.ts:134-156 | with a non-decreasing head the ranges written by the loop, cascades apart, are contiguous |
| LiveTask.LiveCallAt | src/app-events-reader/events-reader/events-reader.module.ts:140-155 | each call of the loop starts right after the one before and reads limit + 1 blocks, or up to its chain's last block if that comes first |
| LiveTask.LiveCallIff | src/app-events-reader/events-reader/events-reader.module.ts:134-156 | a further iteration makes a call if and only if the last block of its chain is not the one the loop read up to before, be it higher or lower |
| LiveTask.RangeProperIff | src/app-events-reader/events-reader/events-reader.module.ts:148-153 | the next logged range is proper if and only if the head has not dropped below its start |
| LiveTask.LiveNeverCollides | src/app-events-reader/events-reader/events-reader.module.ts:134-156 | with contiguous ranges, before every call of the loop all stored events lie below its range, so its insert never meets a taken id |
| LiveTask.GrowingNeverDrops | src/app-events-reader/events-reader/events-reader.module.ts:134-156 | with a non-decreasing head every call of the loop has a proper range on its chain |
| LiveTask.LiveEndsAborted | src/app-events-reader/events-reader/events-reader.module.ts:134-156 | with a non-decreasing head, decodable logs and nothing stored from its start on, the loop ends only by being aborted: no call throws, and none needs more re-reads than its chain has blocks |
| LiveTask.ResumedEndsAborted | src/app-events-reader/events-reader/events-reader.module.ts:115-157 | the same for a task that resumes over a proper log |
| LiveTask.LiveFollowsChain | src/app-events-reader/events-reader/events-reader.module.ts:134-156 | from a state that satisfies the invariant, after each call of the live loop the store holds exactly the current chain's events on the covered blocks |
| LiveSessions.ResumePointIff | src/app-events-reader/events-reader/events-reader.module.ts:121-132 | with something logged, the live task resumes at the end of the log if and only if the head is past the last logged block (or it is told to start there and no logged range ends below the head) |
| LiveSessions.ResumeKeepsInvIff | src/app-events-reader/events-reader/events-reader.module.ts:121-132 | the resumed state satisfies the invariant of reorg correctness exactly then, or with nothing logged |
| LiveSessions.HalfWrittenIsDebris | src/shared/events/events-repo.ts:101-104 | what a crash in a bulk insert leaves lies beyond the log, where the resume clears it |
| LiveSessions.SessionKeeps | src/app-events-reader/events-reader/events-reader.module.ts:115-157 | one session that starts with the head past the log is correct in all its calls and ends in a state that satisfies the invariant |
| LiveSessions.SessionsFollowChain | src/app-events-reader/events-reader/events-reader.module.ts:115-157 | over any number of such sessions, with any reorgs within and between them and ranges left half written, after each call the covered blocks hold exactly the current chain's events |
| LiveSessions.FreshSessions | src/app-events-reader/events-reader/events-reader.module.ts:115-157 | the same from an empty database |
| RestartLimits.RestartBreaksReorg | src/shared/blocks-queue/repo.ts:64-74 | two sessions, the second started while the head is the last logged block, after which the store differs from the chain |
| CrashRecovery.NextKeeps | src/app-events-reader/events-reader/events-reader.module.ts:79-108 | every step of a crashing task, from a single insert to a restart, keeps the invariant, but for a crash in the first chunk of a task without log entries |
| CrashRecovery.DirtyForever | src/app-events-reader/events-reader/events-reader.module.ts:79-108 | after such a crash the task never completes |
| CrashRecovery.GoodOrDirty | src/app-events-reader/events-reader/events-reader.module.ts:79-108 | in any run each state satisfies the invariant or is dirty, and completes only in the first case |
| CrashRecovery.CrashSafe | src/app-events-reader/events-reader/events-reader.module.ts:79-108 | a task that completes, however often and wherever it crashed, ends with the event store of a task that never crashed; while restarts are clean no insert meets a taken id |
| CrashRecovery.DirtyReached | src/app-events-reader/events-reader/events-reader.module.ts:79-108 | a run from an empty database that crashes into the dirty state |
| CrashRecovery.AttemptCompletesIff | src/app-events-reader/events-reader/events-reader.module.ts:79-108 | the attempt after a crash completes if and only if the restart is clean, and then leaves what an uninterrupted task leaves |
| Announcements.AnnouncedIff | src/app-events-reader/events-reader/events-reader.service.ts:127-151 | with any crashes, the messages sent are those of the ranges logged, in order, if and only if none is pending and the task never died between a log entry and its message |
| LiveAnnouncements.CallsAnnouncedIff | src/app-events-reader/events-reader/events-reader.service.ts:82-172 | over any history of calls, live or not, their cascades, restarts and deaths, the ranges announced are those logged, in order, if and only if no call or re-read ever died between a log entry and its message |
| ReaderTasks.ReaderTasksProvider.GetCurrentLog | src/shared/events/state-log-repo.ts:84-89 | a log with the greatest start time, or none |
| ReaderTasks.ReaderTasksProvider.InsertOrUpdate | src/shared/events/state-log-repo.ts:44-78 | field by field: those passed are set and the others kept; in progress exactly if so asked or no end time is passed; the start time is set on insert only |
| ReaderTasks.ReaderTasksProvider.StartReaderTask | src/app-events-reader/events-reader/reader-tasks.provider.ts:27-45 | refused, changing nothing, exactly when some log is in progress; else the new log is the one in progress, with the blocks passed (zero counting as absent), and the abort signal is clear |
| ReaderTasks.ReaderTasksProvider.StopReaderTask | src/app-events-reader/events-reader/reader-tasks.provider.ts:47-65 | refused exactly when no log is in progress; ends the one in progress; the signal is raised either way |
| ReaderTasks.ReaderTasksProvider.GetActiveReaderTask | src/app-events-reader/events-reader/reader-tasks.provider.ts:67-75 | the log in progress, exactly if there is one |
| ReaderTasks.CurrentDecides | src/shared/events/state-log-repo.ts:84-89 | looking at the newest log alone decides whether any log is in progress |
| ReaderTasks.ReaderTaskSafety | src/app-events-reader/events-reader/reader-tasks.provider.ts:27-75 | over any run of starts, stops and process restarts at most one log is in progress, it is the newest, and the signal is clear while it is |
| ReaderRaces.WriteSafeIff | src/app-events-reader/events-reader/reader-tasks.provider.ts:36-40 | the write of a start keeps at most one log in progress, the newest, if and only if none is in progress at that moment |
| ReaderRaces.OrderTells | src/app-events-reader/events-reader/reader-tasks.provider.ts:27-65 | until a write goes wrong, the order of the calls alone tells whether a log is in progress, whether the signal is raised, and whether a stop is about to end the newest log |
| ReaderRaces.RaceSafeIff | src/app-events-reader/events-reader/reader-tasks.provider.ts:27-65 | over any interleaving of the three steps of starts, the three steps of stops, and reboots, at most one log is in progress, the newest, if and only if no start writes after another start's write that no stop has found and ended |
| ReaderRaces.SignalIff | src/app-events-reader/events-reader/reader-tasks.provider.ts:27-65 | with the writes in that order, a log is in progress under a raised signal exactly with a write not yet ended and an abort not yet reset, and none is in progress under a clear signal exactly with no such write and no such abort |
| ReaderRaces.UninterruptedStart | src/app-events-reader/events-reader/reader-tasks.provider.ts:27-45 | a start whose three steps are not interrupted is the atomic start |
| ReaderRaces.UninterruptedStop | src/app-events-reader/events-reader/reader-tasks.provider.ts:47-65 | a stop whose steps are not interrupted is the atomic stop |
| ReaderRaces.RacingStarts | src/app-events-reader/events-reader/reader-tasks.provider.ts:27-45 | a run of two starts that both look before either writes: both logs end in progress |
| ReaderRaces.StopDuringStart | src/app-events-reader/events-reader/reader-tasks.provider.ts:34-54 | a run in which a stop between a start's reset and write is refused and leaves the signal raised on the new task |
| ReaderRaces.StartDuringStop | src/app-events-reader/events-reader/reader-tasks.provider.ts:34-60 | a run in which a start resets and writes between a stop's abort and look: its log ends, its signal stays clear |
| LazyMint.LazyMintIndexer.Read | src/app-lazy-mint-indexer/events-reader/events-reader.service.ts:21-69 | returns and stores exactly the chain events of the window that the store lacked, and logs the window; throws, changing nothing, exactly on an undecodable log |
| LazyMint.LazyMintIndexer.Resume | src/app-lazy-mint-indexer/app.module.ts:50-59 | resumes after the last logged window and clears one window's worth of blocks |
| LazyMint.LazyMintIndexer.ReadWindow | src/app-lazy-mint-indexer/app.module.ts:61-75 | one window is read, logged and its missing events handed on, or, on an undecodable log, nothing changes |
| LazyMint.LazyMintIndexer.ReadWindows | src/app-lazy-mint-indexer/app.module.ts:61-76 | the loop reads all its windows in order, or throws out of the first that does not decode; store, log and processed events are those of the windows read |
| LazyMint.LazyMintIndexer.RunLoop | src/app-lazy-mint-indexer/app.module.ts:43-77 | the same for the whole run, from its resume point |
| LazyMint.MissingLacks | src/app-lazy-mint-indexer/events-reader/events-reader.service.ts:23-31 | filtering by id keeps exactly the documents the store lacks |
| LazyMint.WindowsPartition | src/app-lazy-mint-indexer/app.module.ts:61-68 | the windows partition the remaining range in order |
| LazyMint.WindowSizes | src/app-lazy-mint-indexer/app.module.ts:61-68 | every window but the last has exactly `limit` blocks, and the last one ends the run |
| LazyMint.PlainYields | src/app-lazy-mint-indexer/events-reader/events-reader.service.ts:22 | the chain's events here are those of the logs with four topics alone, pre-721 contracts or not, each decoded as ERC-721 or ERC-1155 |
| LazyMint.RunAddsMissing | src/app-lazy-mint-indexer/app.module.ts:61-76 | a completed run adds exactly the chain events its range lacked and processes exactly those, whatever the window size |
| LazyMint.ReadCovers | src/app-lazy-mint-indexer/events-reader/events-reader.service.ts:21-69 | over a store holding only chain events the range mirrors the chain after a read, and a second read returns nothing |
| LazyMint.ResumeKeepsBeyondIff | src/app-lazy-mint-indexer/app.module.ts:53-57 | resuming leaves the blocks above the end of the run alone if and only if nothing is stored there within one window of the resume point |
| LazyCrash.LostWindowIff | src/app-lazy-mint-indexer/app.module.ts:50-75 | a run dies with a window logged and not handed on: the next run makes up for it if and only if the window lacked nothing, or it was the last one and the log holds one before it |
| LazyCrash.HalfStoredIff | src/app-lazy-mint-indexer/events-reader/events-reader.service.ts:42-57 | a run dies in or after the insert of a window and before logging it: the next run makes up for it if and only if nothing was inserted or it finds an earlier window in the log |
| TokenTasks.StartedIffFirst | src/app-indexer/token-processor/token-processor.provider.ts:151-230 | a task is started exactly when it is the first for its key and the key is new |
| TokenTasks.StoredAt | src/shared/tokens/repo.ts:208-222 | tasks on distinct keys leave the old table plus each new key with its task's row |
| TokenTasks.TableAt | src/app-indexer/token-processor/token-processor.provider.ts:141-296 | after a call each key has its old row, else the fields of its first event; `TokenEvents` says which those are |
| TokenTasks.SentAt | src/app-indexer/token-processor/token-processor.provider.ts:187-293 | a call sends, once each, the message of each new contract's and of each newly stored token's first event, and nothing else; `TokenEvents` says which those are |
| TokenTasks.ProcessSplit | src/app-indexer/token-processor/token-processor.provider.ts:136-303 | two calls with the parts of an event list end as one call with the whole: same contracts known, same tables, same messages |
| TokenTasks.CallsAmountToOne | src/app-indexer/token-processor/token-processor.provider.ts:136-303 | any sequence of calls, with repeated or re-split lists, amounts to one call |
| TokenTasks.SentExactlyOnce | src/app-indexer/token-processor/token-processor.provider.ts:187-293 | over any sequence of calls READ_TOKEN is sent exactly once per token ever inserted and READ_CONTRACT at most once per contract |
| TokenProcessor.NextKeeps | src/app-indexer/token-processor/token-processor.provider.ts:160-294 | every single write or send of any task, in any interleaving, keeps the invariant relating table and bus to the tasks' progress |
| TokenProcessor.AllDone | src/app-indexer/token-processor/token-processor.provider.ts:296-296 | confluence: once all tasks are done, in any interleaving and with any failing writes and sends, table and messages are those of the started tasks that did not fail |
| TokenProcessor.TokenProcessorProvider.Go | src/shared/wg/index.ts:23-36 | starts the task with at most the limit running, whatever the others do meanwhile; with a limit of zero it hangs |
| TokenProcessor.TokenProcessorProvider.Wait | src/shared/wg/index.ts:38-40 | ends with every started task done |
| TokenProcessor.TokenProcessorProvider.Consider | src/app-indexer/token-processor/token-processor.provider.ts:151-160 | a candidate is started unless its key is known already |
| TokenProcessor.TokenProcessorProvider.ProcessToken | src/app-indexer/token-processor/token-processor.provider.ts:216-230 | one token: skipped if found in this call, else noted and started |
| TokenProcessor.TokenProcessorProvider.ProcessTokens | src/app-indexer/token-processor/token-processor.provider.ts:208-294 | the token loop of one event considers its ids in order |
| TokenProcessor.TokenProcessorProvider.ProcessEvent | src/app-indexer/token-processor/token-processor.provider.ts:141-294 | one event: its contract unless met before, then its tokens |
| TokenProcessor.TokenProcessorProvider.ProcessEvents | src/app-indexer/token-processor/token-processor.provider.ts:137-295 | the loop starts exactly the first task of each new key, within the limit, and remembers every contract |
| TokenProcessor.TokenProcessorProvider.Process | src/app-indexer/token-processor/token-processor.provider.ts:136-303 | in any interleaving the call ends with known contracts, table and messages determined by the events and the failures alone; it hangs exactly with no workers and something to start |
| TokenProcessor.FaultlessOutcome | src/app-indexer/token-processor/token-processor.provider.ts:136-303 | without failures that outcome is the one the redelivery theorems are about |
| TokenEvents.TokenStoredIff | src/app-indexer/token-processor/token-processor.provider.ts:209-245 | a token is in the table after a call if and only if it was before, or some event of its contract lists its id and its write does not throw |
| TokenEvents.NewTokenIs | src/app-indexer/token-processor/token-processor.provider.ts:230-284 | a new token's row has the sender and block of the first event that moves it, and exactly one READ_TOKEN is sent for it, with that event's standard and block, unless its send throws |
| TokenEvents.OldTokenStays | src/app-indexer/token-processor/token-processor.provider.ts:216-284 | a token stored before, moved by no event, or whose write throws keeps its row, if any, and is not announced |
| TokenEvents.ContractStoredIff | src/app-indexer/token-processor/token-processor.provider.ts:149-175 | a contract is in the table after a call if and only if it was before, or it was not met yet, has an event and its write does not throw |
| TokenEvents.NewContractIs | src/app-indexer/token-processor/token-processor.provider.ts:158-207 | a contract met for the first time has the standard and block of its first event, if it is new to the table, and exactly one READ_CONTRACT with them is sent, unless its send throws |
| TokenEvents.OldContractStays | src/app-indexer/token-processor/token-processor.provider.ts:151-207 | a contract met before, without an event, or whose write throws keeps its row, if any, and is not announced |
| TokenEvents.MetIff | src/app-indexer/token-processor/token-processor.provider.ts:151-152 | the contracts met after a call are those met before and those with an event, written or not |
| TokenFaults.SentAtMostOnce | src/app-indexer/token-processor/token-processor.provider.ts:187-293 | with any failures, over any sequence of calls, READ_TOKEN is sent at most once per token and only for stored ones, READ_CONTRACT at most once per contract |
| TokenFaults.NeverAnnouncedAgain | src/app-indexer/token-processor/token-processor.provider.ts:216-284 | once a token is stored, or a contract met, no later call announces it |
| TokenFaults.LostSend | src/app-indexer/token-processor/token-processor.provider.ts:273-292 | a token whose write succeeds and whose send fails is stored and not announced, so never after either |
| TokenFaults.AnnouncedIffSent | src/app-indexer/token-processor/token-processor.provider.ts:216-293 | over any calls with any failures, a token newly stored by a call has been announced in the end if and only if its send did not fail in that call |
| WaitGroups.WaitGroup.Go | src/shared/wg/index.ts:23-36 | awaits exactly when the group is full, else starts the action |
| WaitGroups.WaitGroup.Resume | src/shared/wg/index.ts:25-31 | after the race resolves the action is started without another look at the limit |
| WaitGroups.WaitGroup.Finally | src/shared/wg/index.ts:32-35 | a settled task leaves the group and the gauge |
| WaitGroups.WaitGroupBound | src/shared/wg/index.ts:23-36 | with one caller that awaits each `go`, every reachable state has at most `limit` tasks and a gauge equal to their number, and actions start exactly once, in order |
| WaitGroups.BlockedProgressIff | src/shared/wg/index.ts:24-26 | a waiting `go` can move on, or will once a task settles, if and only if the limit is not zero |
| WaitGroups.WaitDrains | src/shared/wg/index.ts:38-40 | once the tasks seen by `wait` are settled no task is left |
| WaitGroups.SecondCallExceedsIff | src/shared/wg/index.ts:23-36 | a further `go` can lead to more than `limit` tasks if and only if another `go` is blocked, the limit is not zero and at most one place is free |
| WaitGroups.TwoCallersExceed | src/shared/wg/index.ts:23-36 | in particular two callers on the same full group |
| SqsConsumer.SQSConsumer.constructor | src/shared/microservices/sqs/sqs-consumer.ts:57-73 | an absent or zero number of workers means one |
| SqsConsumer.SQSConsumer.PollOnce | src/shared/microservices/sqs/sqs-consumer.ts:100-129 | nothing once stopped; else one `go`, which sets the next timer when its action starts |
| SqsConsumer.SQSConsumer.Start | src/shared/microservices/sqs/sqs-consumer.ts:79-82 | running, and polls once |
| SqsConsumer.SQSConsumer.Stop | src/shared/microservices/sqs/sqs-consumer.ts:84-89 | stopped, with every pending timer cleared |
| SqsConsumer.PollTokenInvariant | src/shared/microservices/sqs/sqs-consumer.ts:79-129 | after a `start` with no poll left over, and before `stop`, exactly one poll is pending in every reachable state, so receives in flight never exceed the workers |
| SqsConsumer.StopDrains | src/shared/microservices/sqs/sqs-consumer.ts:84-129 | after `stop`, without a restart, at most one more receive is issued |
| SqsConsumer.RestartExceeds | src/shared/microservices/sqs/sqs-consumer.ts:79-129 | a start that finds a poll left over, waiting or as a timer, leads to a run with one receive too many in flight |
| SqsConsumer.RestartExceedsIff | src/shared/microservices/sqs/sqs-consumer.ts:79-129 | after a `start` the bound on receives in flight can be broken if and only if a poll was left over |
| SqsConsumer.StopStartIff | src/shared/microservices/sqs/sqs-consumer.ts:79-89 | from any consistent state within the bound, a stop followed at once by a start can break the bound if and only if a poll was waiting at the stop: pending timers do not matter, because the stop clears them |
| SqsConsumer.RestartAfterStopIff | src/shared/microservices/sqs/sqs-consumer.ts:79-129 | over runs: some restart after the stop, at once or later, can break the bound if and only if a poll was waiting at the stop |
| SqsTransport.SQSWorker.HandleMessageBatch | src/shared/microservices/sqs/sqs-transport.ts:27-39 | succeeds exactly when every body parses and every message with a handler is handled; the messages handled grow by exactly those with a handler that does not throw, beside a failing one too |
| SqsTransport.SQSWorker.ProcessMessageBatch | src/shared/microservices/sqs/sqs-consumer.ts:131-167 | a queued message leaves if and only if it is in the batch, the delete removes it, and every message of the batch parses and has no handler that throws; the messages handled grow by those whose handlers finish |
| SqsTransport.BatchAllOrNothing | src/shared/microservices/sqs/sqs-consumer.ts:131-142 | a failing message keeps its whole batch queued; a message leaves only when every message of its batch is settled |
| SqsTransport.AtLeastOnce | src/shared/microservices/sqs/sqs-consumer.ts:131-167 | in every run each message ever sent is still queued, or its handler finished, or nothing handles its pattern |
| SqsTransport.LeavesIff | src/shared/microservices/sqs/sqs-consumer.ts:131-142 | the same as one step of a run: a message leaves exactly when its batch succeeds and the delete removes it |
| SqsTransport.GoneUnlessResent | src/shared/microservices/sqs/sqs-consumer.ts:131-142 | over runs: a message deleted with a batch that succeeded is not queued afterwards, unless it is sent again |
| Keyset.SortAscending | src/shared/tokens/repo.ts:135-137 | rows with unique keys sort strictly ascending by number and `_id` |
| Keyset.SortCounts | src/shared/tokens/repo.ts:135-137 | sorting keeps every row, each as often as before |
| Keyset.BeforeIff | src/shared/tokens/repo.ts:135-154 | `_id`s are compared lexicographically: a proper prefix, or the lesser character where they first differ |
| Keyset.NextPage | src/shared/tokens/repo.ts:138-154 | moving the cursor to the last row of a page leaves exactly the rows after the page, ties included |
| Keyset.PageIs | src/shared/tokens/repo.ts:133-158 | a page is the first `limit` rows after the cursor, or all of them if there are fewer |
| TokensReader.SendPage | src/tokens-reader/index.ts:96-134 | one page sends its tokens with a URI and, if asked, without metadata, in order |
| TokensReader.ReadPages | src/tokens-reader/index.ts:80-135 | the paging loop terminates; its pages together are the sorted rows strictly after the start cursor |
| TokensReader.FillMetadataQueue | src/tokens-reader/index.ts:65-138 | the same for `fill-metadata-queue`, by creation time |
| TokensReader.CountTokenUrisForBlockRange | src/tokens-reader/index.ts:227-350 | the same for the block-range loop, by block; the count is the number of lines written |
| TokensReader.CreationVisitsOnce | src/shared/tokens/repo.ts:133-158 | the creation loop visits every token after the cursor, by creation time and then `_id`, exactly once, in strictly ascending order |
| TokensReader.BlockVisitsOnce | src/shared/tokens/repo.ts:160-183 | the block loop visits every token after the cursor, by block and then `_id`, and below the end block exactly once |
| TokensReader.SentIff | src/tokens-reader/index.ts:96-134 | a token is sent exactly when its row is visited, it has a URI and, if asked, no metadata |
| MetadataIndexer.MetadataIndexerService.BulkWithRetry | src/app-opensearch-indexer/metadata-indexer/metadata-indexer.service.ts:42-73 | retries until an answer without errors, applying whatever each attempt applied |
| MetadataIndexer.MetadataIndexerService.IndexPage | src/app-opensearch-indexer/metadata-indexer/metadata-indexer.service.ts:99-131 | a page without mappable rows needs no call; else one retried bulk call of its mappable rows |
| MetadataIndexer.MetadataIndexerService.Process | src/app-opensearch-indexer/metadata-indexer/metadata-indexer.service.ts:75-139 | the loop visits each row once, page by page; the final index, the count of mappable rows on successful pages and the reported ids are those that the pages' bulk calls amount to; it gets stuck exactly when the cursor cannot move |
| MetadataIndexer.EachRowOnce | src/app-opensearch-indexer/metadata-indexer/metadata-indexer.service.ts:75-139 | every row counts once, either as on a successful page or as reported, and never as both |
| MetadataIndexer.PageSizes | src/shared/metadata/metadata-repo-db.ts:25-35 | every page but the last has `limit` rows and the last at least one and at most that many; with a limit of zero there is one page |
| MetadataIndexer.IdsAt | src/app-opensearch-indexer/metadata-indexer/metadata-indexer.service.ts:99-131 | the ids reported are those of the rows of the failed pages, in order |
| MetadataIndexer.PageIndexedIff | src/app-opensearch-indexer/metadata-indexer/metadata-indexer.service.ts:99-131 | the rows of a page count as successful if and only if, over the index the pages before it left, some attempt is clean and every earlier one indexed nothing, or the page has nothing to index; else they are reported |
| MetadataIndexer.RetriedSound | src/app-opensearch-indexer/metadata-indexer/metadata-indexer.service.ts:42-73 | retrying adds only documents of the page, and success means all of them are there |
| MetadataIndexer.AttemptIs | src/app-opensearch-indexer/metadata-indexer/metadata-indexer.service.ts:42-66 | an answered bulk request indexes the documents it does not reject, a lost one those it was applied to; the answer is clean exactly if there is one and no document is rejected or was indexed already |
| MetadataIndexer.PartialSuccessDooms | src/app-opensearch-indexer/metadata-indexer/metadata-indexer.service.ts:50-66 | once one document of the page is indexed no retry can succeed |
| MetadataIndexer.RetriedIff | src/app-opensearch-indexer/metadata-indexer/metadata-indexer.service.ts:42-73 | a page succeeds if and only if some attempt is clean and every earlier one indexed nothing |
| MetadataIndexer.NextFrom | src/shared/metadata/metadata-repo-db.ts:25-35 | the next cursor is a real one and leaves exactly the rows after the page |
| MetadataIndexer.StuckIff | src/shared/metadata/metadata-repo-db.ts:28-30 | the loop asks for the same page for ever exactly when an empty `_id` fills a page by itself |
| Wallet.WalletService.ReceiveIds | src/api/wallet/wallet.service.ts:96-106 | the ids of an incoming event are added one by one; a missing value in a batch ends the event |
| Wallet.WalletService.SendIds | src/api/wallet/wallet.service.ts:107-119 | the ids of an outgoing event are subtracted where held, and skipped where not |
| Wallet.WalletService.ApplyLog | src/api/wallet/wallet.service.ts:65-123 | what one event does to the cache: nothing if it does not decode or the wallet is only its operator, else incoming before outgoing |
| Wallet.WalletService.Balances | src/api/wallet/wallet.service.ts:60-124 | the loop applies the events from the last to the first |
| Wallet.WalletService.Filter | src/api/wallet/wallet.service.ts:126-137 | the ids of the filtered contract with a positive amount, in cache order |
| Wallet.WalletService.GetNFTs | src/api/wallet/wallet.service.ts:39-144 | the page asked for of those ids: at most `limit` of them, from the offset on, each in its place; a throw exactly if listing throws |
| Wallet.BalanceExact | src/api/wallet/wallet.service.ts:60-124 | the amount of each id is received minus sent, plus what the wallet sent to itself, plus what it sent while holding none |
| Wallet.OneTransfer | src/api/wallet/wallet.service.ts:92-119 | one transfer of one id adds its value to exactly that id if it comes in, else takes it from the id if it goes out and the id is held, and else does nothing |
| Wallet.BatchIsSingles | src/api/wallet/wallet.service.ts:92-119 | a batch is worth its transfers one after the other |
| Wallet.MissingValue | src/api/wallet/wallet.service.ts:92-119 | an id without a value ends the event if the wallet holds it; else it is stored without an amount if it comes in, and skipped if it goes out |
| Wallet.UnheldIff | src/api/wallet/wallet.service.ts:107-119 | nothing sent is dropped if and only if each event that takes some of the id away is processed after one that brought some |
| Wallet.BalanceIff | src/api/wallet/wallet.service.ts:60-124 | it is received minus sent if and only if nothing was sent to itself and each event that takes some away is processed after one that brought some |
| Wallet.AfterLogsOrderly | src/api/wallet/wallet.service.ts:96-106 | the cache lists each of its ids once, in the order of first insertion |
| Wallet.HeldIff | src/api/wallet/wallet.service.ts:96-106 | an id is in the cache once some incoming event has named it |
| Wallet.IncomingFirstSuffices | src/api/wallet/wallet.service.ts:107-119 | with an incoming event of the id processed before each outgoing one, nothing is dropped |
| Wallet.ListedIff | src/api/wallet/wallet.service.ts:126-137 | the ids listed are exactly those of the filtered contract with a positive amount, each once |
| Wallet.ListingThrowsIff | src/api/wallet/wallet.service.ts:126-137 | listing throws if and only if an id that passes the filter is stored without an amount |
| Wallet.PositiveInOrder | src/api/wallet/wallet.service.ts:126-137 | the ids are listed in the order of the cache |
| Wallet.PageAt | src/api/wallet/wallet.service.ts:139-141 | page p has min(limit, ids left from (p - 1) * limit on) ids, and its j-th is id (p - 1) * limit + j of the list |
| Wallet.PagesCover | src/api/wallet/wallet.service.ts:139-141 | pages 1 to n together are the first n * limit ids of the list, or all of them: each id on one page, once |
| Average.Incremental.Increment | metadata-reader/private/average/average.go:13-25 | the new average is that of all values given so far, in wrapping arithmetic |
| Average.Incremental.Value | metadata-reader/private/average/average.go:31-33 | the reading is within the error bound whenever no increment overflowed |
| Average.NextExactIff | metadata-reader/private/average/average.go:19-24 | both branches compute floor(((n-1)*avg + val)/n) if and only if the branch taken does not overflow |
| Average.RunBetween | metadata-reader/private/average/average.go:13-25 | the average of one or more values lies between the least and the greatest |
| Average.RunBelowMean | metadata-reader/private/average/average.go:13-25 | it is at most the true mean and below it by at most (n-1)/2 |
| Average.NarrowFits | metadata-reader/private/average/average.go:19-24 | values whose spread times their number fits in int64 never overflow |
| Average.RampAttainsBound | metadata-reader/private/average/average.go:13-25 | the error bound is attained, for every n |
| Average.OverflowBreaksBound | metadata-reader/private/average/average.go:13-25 | two values for which overflow breaks it |

## Left out

- Session: ends between two calls or in the bulk insert of a further range; a crash between a log entry and its cascade is the subject of `CrashHarmlessIff`.
- Value: states no error bound after an overflow, because there is none (`OverflowBreaksBound`).
- Increment: a count that itself reaches 2^63 - 1 is outside the model.
- ImproperWalkIff: is about a log with one live improper record, the latest below its own start; for any other log `WalksIff` reduces the question to the log.
- Growing: the live theorems take a head that does not decrease; `RangeProperIff` says what goes wrong first otherwise.
- A negative `processingLimit`.
- Concurrent calls of one token processor; the tasks of one call are modelled in every interleaving.
- Rejecting actions in a wait group: both callers pass actions that catch their errors.
- `fillContractQueue`, whose paging is that of `FillMetadataQueue`; the per-kind counters and log lines of the block-range loop.
- The contents of `pollTimersMap` (fired timers stay in it); the model counts pending timers.
- `createdAt` values, except as a sort key; the chain's name, which is a constant part of token and contract ids.
- The wallet loop's first iteration, past the end of the list, which only logs an error.
- The order of `getByBlockRange` and `getWhereIdIn`, whose results are used as sets.
- `bulkSaveOrUpdate`, `getCreatedAfter` and the other repository methods no modelled component calls.
- Retries and back-off of node calls, real time, logging and Prometheus counters other than the wait group's gauge.
- Hexadecimal conversion of ids and checksum addresses; logs come parsed.
- The metadata reader, the pre-contracts application, statistics, HTTP controllers and configuration.
