# lv-logdb: a verified model of its hard core

A Dafny model of the log engine (`logdb`), the service over it (`logdbd`) and the consumer-group
broker (`logdb-broker`), with proofs about whole runs of its protocols and about every input of its
codecs and algorithms.  `dafny verify dfyconfig.toml` checks everything.

One module per component:

| file | component |
|---|---|
| `Arith`, `Bytes`, `Sorting`, `Reading`, `Wrappers` | arithmetic, little-endian fields, sorting, reading lists off a buffer |
| `RecordIds` | global ids: local sequence and shard in one 64-bit word |
| `Replication` | primary push loop and standby handler as a state machine with an unreliable network |
| `Rebalance` | consumer-group shard assignment |
| `Tailer`, `TailerProgress` | merged reading across shards, and its progress file |
| `Committer`, `CommitLoop` | ring to segment files, durable cursors, flush and drain; the committer loop |
| `LoopRuns`, `FlushDrain` | runs of the loop: when it is stuck, and when a flush or drain is answered |
| `RecordFormat`, `Recovery` | record layout, crash recovery of the last segment, where a shard resumes |
| `SegmentHeaders` | which first record the header of the active segment names |
| `CrashRecovery` | from the committer's files through a crash to what recovery finds |
| `ChainKeys` | masked hash-chain keys across key rotation and restarts |
| `GlobalCursor` | recovery report, publisher, start-up scan |
| `SeqMap`, `SeqMapFile` | per-stream index, its checkpoint, the checkpoint file |
| `OffsetLog`, `OffsetFlush` | broker offsets in the meta stream; consumer offsets saved in the background |
| `Tail` | the long-poll Tail |
| `Quota`, `QuotaRace` | usage counts, tombstones, limits; the same under concurrent requests |
| `Catalog`, `CatalogFile` | names and ids, the snapshot file |

Where a promise of the code or its documentation does not hold in general, the model keeps the code's
behaviour, proves exactly when the promise holds, and gives a concrete failing input or run:

- the replicated cursor is backed by the standbys the policy asks for in some configurations only
  (`Replication.SafeIffGuaranteed`, `Replication.UnsafeRun`);
- a failed sync of a rolled segment is forgotten, and the next success overstates durability
  (`Committer.SyncTruthfulIff`, `Committer.NothingForgottenIff`, `Committer.ForgottenSegmentLosesRecord`);
- a batch that fails after its write is written twice (`Committer.ExactIff`,
  `Committer.LateFailureWritesTwice`), and recovery stops at the repetition
  (`CrashRecovery.RecoversAllIff`, `CrashRecovery.LateFailureLosesDurable`);
- a flush or drain is never answered when the loop is stuck on a shard with nothing to sync while another has
  (`LoopRuns.StuckIff`, `CommitLoop.ReachStuck`), nor on a reopened log to which nothing was added
  (`FlushDrain.FlushAnsweredIff`, `FlushDrain.ReopenedFlushHangs`), nor behind a record that no segment can
  hold (`FlushDrain.OversizedNeverCommitted`);
- recovered records count as durable although recovery syncs nothing (`Committer.ReopenedTruthfulIff`,
  `Committer.ReopenedUnsynced`);
- a restart reuses ids when the last segment is empty, when segment 1 is gone, as after retention, or when
  in an unsharded log the header of the last segment names another first record (`Recovery.ReuseIff`,
  `CrashRecovery.CrashReuseIff`, `Recovery.PreparedSegmentReusesIds`, `Recovery.RetentionReusesIds`,
  `Recovery.StaleHeaderReusesIds`);
- such a header comes from batches written between the preparation of a segment and the roll, and costs an
  unsharded log all records of that segment (`SegmentHeaders.HeaderTrueIff`, `CrashRecovery.CrashThenRecover`,
  `CrashRecovery.StaleHeaderLosesDurable`);
- retention that overtakes a tailer by its batch size stops it (`Tailer.EmptyPollIff`,
  `Tailer.OvertakenTailer`);
- the index checkpoint may be ahead of the disk or miss an append in flight (`SeqMap.CheckpointExactIff`,
  `SeqMap.RestartExactIff`, `SeqMap.HastyCheckpoint`, `SeqMap.StoredTwice`), and the full rebuild gives up
  when one shard is empty (`SeqMap.RebuildExactIff`, `SeqMap.EmptyShardForgets`);
- the start-up scan for quotas and tombstones compares a local cursor with global ids and is complete for
  one shard only (`GlobalCursor.StartupScanCompleteIff`, `GlobalCursor.StartupScanMisses`);
- a Tail passes a lower seq that is mapped late (`Tail.SentIff`, `Tail.OvertakenAppendSkipped`);
- a client append with the reserved event type makes the usage drift (`Quota.Replay`, `Quota.Drift`), so
  does an append around a delete (`QuotaRace.ExactIff`, `QuotaRace.StraddledDelete`), and concurrent
  requests exceed a limit by a bounded amount (`QuotaRace.OvershootBounded`, `QuotaRace.OvershootReached`);
- a start-up snapshot of offsets hides commits that arrive after the load (`OffsetLog.CommitRecoveredIff`,
  `OffsetLog.SnapshotFaithfulIff`, `OffsetLog.HiddenCommit`);
- an unwritten catalog snapshot lets ids be given twice (`Catalog.AnswersKeptIff`, `Catalog.ReissuedIff`,
  `Catalog.UnsavedIdsReused`), and colliding saves leave a file that is refused (`Catalog.RefusedIff`,
  `Catalog.CollidingSaves`);
- once retention has removed segment 1, a restart begins a new chain under a new key
  (`ChainKeys.ChainKeyStableIff`, `ChainKeys.RetentionLosesKey`);
- two flushers may save an older copy last, and a flush may answer while another's copy is unsaved
  (`OffsetFlush.CleanIff`, `OffsetFlush.OlderCopySavedLast`, `OffsetFlush.ShutdownFlushTooEarly`).

Conventions.  Integers are unbounded; 64-bit truncation is written out where ids are encoded and where the
recovery scan adds the stride, and field widths are explicit in every codec.  Checksums, UTF-8 validity, key
derivation and the chain hash are parameters.  Disk, network and scheduling outcomes are parameters of the
methods and nondeterministic steps of the machines.  Where the broker's documentation speaks of a round-robin
split, the model follows the code: round robin for the first member only, sticky afterwards.

## Model

| member | source | states |
|---|---|---|
| `RecordIds.ShardBits` | logdb/src/shard.rs:36-42 | the fewest bits that can number the shards, for every shard count including non-powers of two |
| `RecordIds.DecodeGlobalId` | logdb/src/shard.rs:46-63 | decoding undoes encoding for every shard and local sequence |
| `RecordIds.GlobalIdDecode` | logdb/src/shard.rs:46-63 | every number is the id of exactly the pair it decodes to |
| `RecordIds.GlobalIdOrder` | logdb/src/shard.rs:46-63 | ids are ordered by local sequence first, by shard among equals |
| `RecordIds.EncodeRoundTripIff` | logdb/src/shard.rs:46-63 | with the 64-bit shift that drops high bits, the id names its pair exactly while the local sequence is below 2^(64 - bits) |
| `Replication.Standby.Replicate` | logdb/src/lib.rs:657-726 | a known id is a no-op, the next id is appended, a gap is refused; success iff the write was not refused and there is no gap |
| `Replication.Standby.Sync` | logdbd/src/replication.rs:47-82 | a request only ever extends the log with its own records at their own ids; wrong cluster and stale epoch are refused exactly when they should be and change nothing; an acknowledgement means every record of the request is held |
| `Replication.Primary.AdvanceReplicated` | logdbd/src/storage.rs:479-492 | the replicated cursor never goes back |
| `Replication.Primary.Conclude` | logdbd/src/replication.rs:146-235 | acknowledgements are counted once per client; the loop moves to the highest acknowledged id exactly when the mode, policy or timeout rule lets it |
| `Replication.ConcludeMatches` | logdbd/src/replication.rs:146-235 | the method above is the step of the state machine |
| `Replication.NextKeepsInv` | logdbd/src/replication.rs:47-235 | every step, with requests lost, delayed, repeated or half applied, keeps standbys prefixes of the primary, and no standby ever loses a record |
| `Replication.NextKeepsSafe` | logdbd/src/replication.rs:126-235 | where the configuration guarantees it, every step keeps the required number of standbys behind the replicated cursor |
| `Replication.RunKeepsInv` | logdbd/src/replication.rs:89-235 | both hold in every state of every run |
| `Replication.StandbysArePrefixes` | logdbd/src/replication.rs:47-82 | in every run each standby holds a prefix of the durable log of the primary |
| `Replication.HoldersHaveEverything` | logdbd/src/replication.rs:126-235 | who holds the replicated record holds the records of the primary up to it, contents included |
| `Replication.SafeIffGuaranteed` | logdbd/src/replication.rs:126-235 | over all runs the replicated cursor is backed by the required standbys if and only if nothing is required, or standbys exist and either the mode is sync without warn-and-continue or at most one standby is required |
| `Replication.UnsafeRun` | logdbd/src/replication.rs:146-235 | every other configuration has a run of a few steps that breaks the promise |
| `Replication.AtLeastOneHolder` | logdbd/src/replication.rs:146-235 | in every configuration with standbys connected at least one of them holds the replicated record |
| `Replication.AckMeansAgreementIff` | logdb/src/lib.rs:689-698 | an acknowledged batch means agreement exactly when the standby agreed on what it already had, since known ids are skipped uncompared |
| `Rebalance.TargetsCover` | logdb-broker/src/coordinator.rs:184-187 | the fair shares add up to the number of shards |
| `Rebalance.TargetShrinks` | logdb-broker/src/coordinator.rs:184-187 | one more member never raises the share of a position |
| `Rebalance.Shed` | logdb-broker/src/coordinator.rs:193-218 | a member over its share keeps exactly its share; foreign shards go before home shards; nothing is lost |
| `Rebalance.CollectFree` | logdb-broker/src/coordinator.rs:174-182 | the pool is exactly the shards nobody holds |
| `Rebalance.ShedAll` | logdb-broker/src/coordinator.rs:193-218 | shedding conserves the shards and cuts every member as above |
| `Rebalance.PoolNotEmpty` | logdb-broker/src/coordinator.rs:220-231 | while a member is below its share the pool has something, so the fill loop never breaks off |
| `Rebalance.PoolExhausted` | logdb-broker/src/coordinator.rs:220-231 | with every member at its share the pool is empty and the holdings are all shards |
| `Rebalance.FillAll` | logdb-broker/src/coordinator.rs:220-231 | every member ends at its share and keeps what it had |
| `Rebalance.RecomputeSticky` | logdb-broker/src/coordinator.rs:159-252 | the result is a balanced, ascending partition, sticky to the old assignment, and the reported changes are exactly the differences |
| `Rebalance.RecomputeRoundRobin` | logdb-broker/src/coordinator.rs:140-157 | member i gets exactly the shards congruent to i |
| `Rebalance.BalancedIsPartition` | logdb-broker/src/coordinator.rs:159-236 | balanced means every shard has exactly one owner and no owner has anything else |
| `Rebalance.SoleMemberBalanced` | logdb-broker/src/coordinator.rs:97-119 | the first member of a group is balanced by round robin |
| `Rebalance.JoinOnlyTakes` | logdb-broker/src/coordinator.rs:97-119 | after a join no earlier member has a shard it did not have |
| `Rebalance.LeaveOnlyGives` | logdb-broker/src/coordinator.rs:121-131 | after a leave every remaining member still has all it had |
| `Rebalance.GroupState.constructor` | logdb-broker/src/coordinator.rs:63-73 | a new group is valid, empty and at generation 0 |
| `Rebalance.GroupState.Join` | logdb-broker/src/coordinator.rs:97-119 | join keeps the group balanced, appends the member, bumps the generation; joining twice changes nothing |
| `Rebalance.GroupState.Leave` | logdb-broker/src/coordinator.rs:121-131 | leave keeps the rest balanced and reports the changes among current members; an unknown member changes nothing |
| `Rebalance.GroupState.CommitOffset` | logdb-broker/src/coordinator.rs:257-265 | offsets only rise, per shard, and the answer says whether this one did |
| `Rebalance.Replay` | logdb-broker/src/coordinator.rs:97-131 | after any history of joins and leaves the members are those present, in join order, and the assignment is balanced |
| `Rebalance.KeptExactly` | logdb-broker/src/coordinator.rs:189-236 | a member keeps exactly the smaller of what it had and its share |
| `Rebalance.MovementMinimal` | logdb-broker/src/coordinator.rs:189-236 | no assignment with the same shares leaves more shards in place |
| `Rebalance.StickyIsMinimal` | logdb-broker/src/coordinator.rs:189-236 | the same for the shares of the rebalance itself |
| `Rebalance.JoinMovesOneShare` | logdb-broker/src/coordinator.rs:97-119 | a join moves exactly the share of the joiner |
| `Rebalance.ChangedIffMoved` | logdb-broker/src/coordinator.rs:238-252 | a member is reported exactly when its shard set differs |
| `Tailer.Gather` | logdb/src/tailer.rs:219-246 | one poll reads exactly the capped durable range of every shard, each record once |
| `Tailer.Merge` | logdb/src/tailer.rs:247-254 | the batch is the lowest ids of what was read, ascending |
| `Tailer.Advance` | logdb/src/tailer.rs:255-262 | positions move past exactly the delivered records |
| `Tailer.TailerState.NextBatch` | logdb/src/tailer.rs:218-264 | a read error changes nothing; an empty poll changes nothing; a batch is one poll step |
| `Tailer.CapLosesNothing` | logdb/src/tailer.rs:228-254 | reading at most max_count per shard still finds the lowest max_count of all |
| `Tailer.PollReturnsLowest` | logdb/src/tailer.rs:218-264 | for any shard count a poll returns exactly the first max_count undelivered durable records, unless retention overtook a position |
| `Tailer.EmptyPollIff` | logdb/src/tailer.rs:218-264 | a poll is empty exactly when every shard with something to read has its whole window removed by retention |
| `Tailer.OvertakenTailer` | logdb/src/tailer.rs:218-264 | a poll of a tailer that retention overtook: empty although two records above the cut are durable |
| `Tailer.StuckForever` | logdb/src/tailer.rs:218-264 | retention that far ahead stops the shard for good |
| `Tailer.DeliveredOnce` | logdb/src/tailer.rs:218-264 | over any run each record between the positions is delivered or skipped exactly once |
| `Tailer.DeliveredExactly` | logdb/src/tailer.rs:218-264 | without retention ahead the delivered locals of a shard are a gap-free interval, each once |
| `TailerProgress.Save` | logdb/src/tailer.rs:106-134 | the bytes written are the one-shard or the many-shard layout, with the checksum over everything before it |
| `TailerProgress.Load` | logdb/src/tailer.rs:50-104 | takes the positions from a file that checks, zeros otherwise |
| `TailerProgress.CommitThenOpen` | logdb/src/tailer.rs:50-134 | a reopened tailer resumes exactly where it committed |
| `TailerProgress.OtherShardCountIgnored` | logdb/src/tailer.rs:50-104 | progress for another shard count is never taken |
| `TailerProgress.ProgressFile.Commit` | logdb/src/tailer.rs:106-134 | create, write, sync, rename, sync the directory, with a failure at any of them: Ok exactly when all succeed, and no failure touches what is certain to survive a crash |
| `TailerProgress.ProgressFile.Crash` | logdb/src/tailer.rs:106-134 | a crash may undo a rename whose directory was not synced, and nothing else |
| `TailerProgress.ProgressFile.Open` | logdb/src/tailer.rs:50-104 | after any commits, failures and crashes the tailer resumes at one attempted commit, whole, never before the last one answered Ok |
| `Committer.SyncAll` | logdb/src/storage/mod.rs:725-735 | syncs pending segments in order, then the active one; which segments end synced after a failure at any point |
| `Committer.DrainPending` | logdb/src/storage/mod.rs:706-711 | tries every pending sync once; which segments end synced |
| `Committer.NextKeepsInv` | logdb/src/pipeline/committer.rs:66-266 | every step that forgets no rolled segment keeps cursors ordered, every committed record in the files and everything below the durable cursor stored, a batch failing after its write included |
| `Committer.RunKeepsInv` | logdb/src/pipeline/committer.rs:66-266 | the same in every state of every run in which no rolled segment of the shard is forgotten, whatever else fails |
| `Committer.CrashKeepsDurable` | logdb/src/pipeline/committer.rs:217-242 | whatever a crash leaves holds every record below the durable cursor, in any state with the invariant |
| `Committer.FlushOkMeansDurable` | logdb/src/lib.rs:732-764 | in any run that forgets no rolled segment of the shard, late failures included, a successful flush or drain covers every record claimed before it, whatever crash follows |
| `Committer.SyncTruthfulIff` | logdb/src/storage/mod.rs:725-735 | a successful sync makes the durable cursor true exactly when no rolled segment that the sync cannot reach holds an unsynced committed record, late failures or not |
| `Committer.MissedIff` | logdb/src/storage/mod.rs:725-735 | such a segment is always a forgotten one, and without late failures every forgotten one is such a segment |
| `Committer.ReopenedTruthfulIff` | logdb/src/ring/mod.rs:97-113 | the durable cursor a shard is opened with is true of the recovered records exactly if their file had been synced before, since recovery syncs nothing |
| `Committer.ReopenedUnsynced` | logdb/src/ring/mod.rs:97-113 | a recovered record below the durable cursor that a crash may still take away |
| `Committer.FailedSyncForgetsIff` | logdb/src/storage/mod.rs:725-735 | for a failure at any point, or none: a segment is forgotten exactly when one behind the failure was still unsynced |
| `Committer.FailedDrainForgetsIff` | logdb/src/storage/mod.rs:706-711 | the idle clean-up forgets a segment exactly when its only attempt failed |
| `Committer.NothingForgottenIff` | logdb/src/storage/mod.rs:706-735 | over any run a shard has no forgotten segment if and only if every step spared them all |
| `Committer.ForgottenSegmentLosesRecord` | logdb/src/storage/mod.rs:725-735 | a run from an opened shard in which the durable cursor covers a record that was never stored |
| `Committer.ExactIff` | logdb/src/storage/mod.rs:449-540 | over any run the files hold exactly the committed records if and only if no batch failed after its write |
| `Committer.LateFailureWritesTwice` | logdb/src/storage/mod.rs:449-540 | a run from an opened shard in which a late failure leaves record 0 in the file twice |
| `SegmentHeaders.HeaderTrueIff` | logdb/src/storage/mod.rs:553-639 | over any run the header of the active segment names its first record if and only if the last roll took no stale prepared segment, or without a roll the shard was opened so |
| `SegmentHeaders.StaleIff` | logdb/src/storage/mod.rs:536-607 | a prepared segment is stale if and only if a batch was committed since it was prepared |
| `SegmentHeaders.PreparedFrom` | logdb/src/storage/mod.rs:536-607 | a segment is prepared only by a batch since the last roll |
| `CommitLoop.ChooseBatchEnd` | logdb/src/pipeline/committer.rs:281-285 | the batch ends at what is available or at the buffer limit |
| `CommitLoop.FillSegment` | logdb/src/storage/mod.rs:449-474 | the longest prefix of the batch that fits goes into the segment, and it is reported full exactly when not even the first record fits, a fresh segment included |
| `CommitLoop.ChooseShard` | logdb/src/pipeline/committer.rs:115-126 | the first shard with work in cyclic order is served and the turn passes to its successor; nobody iff nobody has work |
| `CommitLoop.CommitBatch` | logdb/src/pipeline/committer.rs:156-202 | a commit, a late failure, a roll or nothing: each is at most one step of the machine |
| `CommitLoop.SyncShards` | logdb/src/pipeline/committer.rs:217-255 | durable cursors move for all shards or for none, exactly when every sync succeeded |
| `CommitLoop.CommitterLoop.Pass` | logdb/src/pipeline/committer.rs:66-266 | which shard is served and whose turn is next; when a batch and when a sync is due, from the trigger, the flush requests and draining; each half is the matching step of the machine; the loop ends exactly when draining finds everything durable; a stuck loop stays stuck |
| `CommitLoop.ServedIsPath` | logdb/src/pipeline/committer.rs:66-266 | serving a shard is at most two steps of the machine, the batch and then the sync or clean-up |
| `CommitLoop.SyncFollowsCommit` | logdb/src/lib.rs:398-403 | outside async mode, with the trigger the engine builds, whatever makes a batch due makes a sync due in the same pass |
| `CommitLoop.EntersStuckIff` | logdb/src/pipeline/committer.rs:115-255 | a pass over work leaves the loop stuck exactly when its batch takes the last of the work, the sync fails and the shard whose turn comes has nothing of its own to sync |
| `CommitLoop.PassStuckIff` | logdb/src/pipeline/committer.rs:66-266 | after any pass the loop is stuck exactly when it was before or the pass strands it in that way |
| `CommitLoop.ReachStuck` | logdb/src/pipeline/committer.rs:115-255 | running the loop from opened shards with the trigger of the engine and one failing sync ends stuck |
| `CommitLoop.CommitterLoop.StuckForever` | logdb/src/pipeline/committer.rs:115-217 | outside async mode, when the shard whose turn it is has nothing to sync while another has, no number of passes syncs it |
| `LoopRuns.StuckIff` | logdb/src/pipeline/committer.rs:66-266 | over any run of the loop with producers at work, it is stuck if and only if some pass stranded it and nothing was published since |
| `FlushDrain.IdleForever` | logdb/src/pipeline/committer.rs:83-150 | whatever the weather, a loop that is stuck or has nothing to write or sync moves no completed mark in any number of passes |
| `FlushDrain.FlushAnsweredIff` | logdb/src/lib.rs:732-764 | after enough passes in which writes and syncs succeed and segments are rolled as needed, a flush or drain up to everything claimed is answered if and only if the loop was not stuck, and had something to do or the marks were already there; everything is durable if and only if it was not stuck |
| `FlushDrain.DrainFairly` | logdb/src/lib.rs:1080-1119 | the same for the running loop, in any such weather |
| `FlushDrain.ReopenedFlushHangs` | logdb/src/pipeline/signal.rs:25-37 | a reopened log of five records: not stuck, everything durable, and no number of passes answers a flush |
| `FlushDrain.OversizedNeverCommitted` | logdb/src/pipeline/committer.rs:171-193 | while the batch of a shard comes back as too large for a segment, fresh or not, its committed cursor stays and no flush up to it is answered |
| `RecordFormat.RecordRoundTrip` | logdb/src/storage/format.rs:280-375 | a written record is read back unchanged |
| `Recovery.SegmentFile.ScanLastSegment` | logdb/src/recovery.rs:450-684 | for arbitrary bytes the scan terminates, truncates the file to the returned offset, and warns of a torn write exactly when it cut something |
| `Recovery.FinalGrows` | logdb/src/recovery.rs:608-681 | the valid end only grows and never leaves the file |
| `Recovery.RecoveryIdempotent` | logdb/src/recovery.rs:608-684 | a second recovery truncates nothing and reports the same offset, last id and count |
| `Recovery.PrefixSurvives` | logdb/src/recovery.rs:608-681 | whatever follows, the records of a well-formed segment are accepted first |
| `Recovery.GarbageTailKeepsRecords` | logdb/src/recovery.rs:608-681 | nothing before a garbled tail is given up |
| `Recovery.CutRecoversExactly` | logdb/src/recovery.rs:608-681 | a segment ending in a piece of a record recovers exactly the whole records |
| `Recovery.CutAnywhere` | logdb/src/recovery.rs:608-681 | for a cut at any byte |
| `Recovery.ResumesAfterNewestIff` | logdb/src/lib.rs:316-374 | a shard resumes right after its newest record exactly when segment 1 is there and the last segment holds a record under, in an unsharded log, a header that names its first, or nothing was ever stored |
| `Recovery.ReuseIff` | logdb/src/lib.rs:316-374 | ids are reused after opening exactly when records are there and segment 1 is not, or the last segment is empty, or in an unsharded log its header names another first record |
| `Recovery.AnyReuseIff` | logdb/src/lib.rs:316-374 | for any directory of a shard whose last segment is in sequence, whatever the other files hold: the same, or some record is beyond the newest of the last segment |
| `Recovery.SecondRestartReuseIff` | logdb/src/lib.rs:316-374 | once a new segment 1 stands beside old files, the next restart reuses ids exactly when the new files have outgrown the old |
| `Recovery.PreparedSegmentReusesIds` | logdb/src/lib.rs:329-339 | an instance: a full segment and a freshly prepared one |
| `Recovery.RetentionReusesIds` | logdb/src/lib.rs:316-374 | another: one surviving segment with record 5 and no segment 1, where the shard starts over at 0 |
| `Recovery.StaleHeaderReusesIds` | logdb/src/recovery.rs:632-640 | another: records 0 and 1 in segment 1 and record 2 in a segment prepared for record 1, where the shard starts over at 0 |
| `Recovery.ReusedIdsDiscarded` | logdb/src/recovery.rs:632-640 | records written with reused ids into a prepared segment are discarded by the next recovery of an unsharded log |
| `Recovery.WrongIdEndsScan` | logdb/src/recovery.rs:632-640 | for any shard count and after any accepted records, a sound record with an unexpected id ends the segment: it and everything behind it is cut off |
| `Recovery.ScanKeepsRun` | logdb/src/recovery.rs:608-681 | whatever records a segment holds, the scan keeps exactly the leading ones that are in sequence |
| `Recovery.OtherShardsUntouched` | logdb/src/lib.rs:329-339 | the ids of another shard are never reused |
| `CrashRecovery.RecoversRun` | logdb/src/recovery.rs:608-681 | of what the committer wrote to the last segment, recovery keeps exactly the leading run of consecutive records, and none of an unsharded log under a header for another first record |
| `CrashRecovery.RecoversAllIff` | logdb/src/recovery.rs:608-681 | everything in the last segment comes back exactly when its records are consecutive and begin where the header says |
| `CrashRecovery.RecoversIff` | logdb/src/recovery.rs:608-681 | consecutive records survive any bytes after them exactly under a header that names the first |
| `CrashRecovery.CrashThenRecover` | logdb/src/recovery.rs:450-684 | in any run of the committer that forgets no rolled segment and has no late failure, also on a segment with older records, after any crash that leaves at least the synced records and any torn or garbled bytes after them: every durable record is still there, and the scan cuts off nothing of the last segment if and only if it is empty, the log is sharded or the last roll took no stale segment |
| `CrashRecovery.CrashReuseIff` | logdb/src/lib.rs:316-374 | after any such crash, with segment 1 there, opening reuses ids if and only if something is stored and the file of a prepared segment is there, or nothing is left in the active segment, or the log is unsharded and the last roll took a stale segment |
| `CrashRecovery.StaleHeaderLosesDurable` | logdb/src/storage/mod.rs:536-639 | a run in which a batch is written between the preparation of a segment and the roll: record 2 is durable and synced, and recovery cuts it off |
| `CrashRecovery.LateFailureLosesDurable` | logdb/src/recovery.rs:632-640 | a run in which a batch fails late and is written again: record 1 is durable, the crash loses nothing, and recovery still cuts it off |
| `ChainKeys.XorInvolution` | logdb/src/lib.rs:1231-1237 | masking twice gives the key back |
| `ChainKeys.ResolveChainKey` | logdb/src/recovery.rs:158-198 | tries the candidates in order and falls back to the active key |
| `ChainKeys.ResolvedIff` | logdb/src/recovery.rs:158-198 | the original chain key is returned exactly when the first segment has a readable first record, a true previous hash and a known masking key, or the active key derives it |
| `ChainKeys.ReopenKeepsKeyIff` | logdb/src/lib.rs:316-374 | a restart keeps the chain key exactly when segment 1 is there and has a readable record and a known masking key, or the active key derives the chain key |
| `ChainKeys.ChainKeyStableIff` | logdb/src/lib.rs:316-374 | over any run of appends, rolls under any keys, retention and restarts the chain key stays the original one if and only if every restart is of that kind |
| `ChainKeys.RolledHeaderTrueIff` | logdb/src/storage/mod.rs:653-674 | a segment rolled in a session carries the true previous hash if and only if nothing had been appended between opening the shard and the roll |
| `ChainKeys.ManagerFallsBehind` | logdb/src/storage/mod.rs:576-597 | throughout a session the manager keeps the hash it was opened with, which is current exactly until the first append |
| `ChainKeys.OriginalHeaderTrue` | logdb/src/storage/mod.rs:337-373 | in every state of every run the segment numbered 1 has a true header |
| `ChainKeys.RetentionLosesKey` | logdb/src/lib.rs:316-374 | for any contents and keys: append, roll, append, removal of segment 1, restart ends with a newly generated key and a new segment 1 beside the old files |
| `GlobalCursor.RecoveryReport` | logdb/src/lib.rs:1032-1058 | the count is the number of durable records at or after the checkpoint, and the watermark is the least id that is not durable |
| `GlobalCursor.CountShardIs` | logdb/src/lib.rs:1040-1047 | rounding up (checkpoint - shard) / stride counts exactly the records with an id at or after the checkpoint |
| `GlobalCursor.FirstLocalIff` | logdb/src/lib.rs:1040-1047 | an id is at or after the checkpoint exactly when its local sequence is at or after the rounded-up quotient |
| `GlobalCursor.BelowLowestDurable` | logdbd/src/publisher.rs:71-94 | every id below the lowest local cursor is durable, for any shard count |
| `GlobalCursor.Publisher.Poll` | logdbd/src/publisher.rs:71-94 | one poll scans from the last position to the lowest cursor, or leaves the position alone |
| `GlobalCursor.VisitedOnceInOrder` | logdbd/src/publisher.rs:71-94 | no id is visited twice and none after a higher one |
| `GlobalCursor.VisitedIff` | logdbd/src/publisher.rs:71-94 | an id is visited exactly when it lies below the position |
| `GlobalCursor.VisitedIsDurable` | logdbd/src/publisher.rs:71-94 | a visited record is durable at that poll |
| `GlobalCursor.StartupScanCompleteIff` | logdbd/src/main.rs:203-217 | the start-up scan bounded by the lowest local cursor finds every record exactly for one shard or an empty log |
| `GlobalCursor.StartupScanMisses` | logdbd/src/main.rs:203-217 | two shards with one record each: the second record is not found |
| `SeqMap.Rebuild` | logdbd/src/storage.rs:53-87 | the full scan gives every stored key a place it is stored at and counters beyond it, or nothing when some shard is empty; keys stored twice included |
| `SeqMap.RebuildExactIff` | logdbd/src/storage.rs:54-57 | the rebuilt index is right exactly when no key is stored twice and no shard is empty, or nothing was stored |
| `SeqMap.CheckpointCursors` | logdbd/src/storage.rs:250-259 | each cursor is one past the highest mapped record of its shard |
| `SeqMap.ScanShard` | logdbd/src/storage.rs:360-391 | a shard is scanned from its cursor; an unreadable record ends the load |
| `SeqMap.LoadCheckpoint` | logdbd/src/storage.rs:294-393 | loading is the checkpointed map overridden by everything at or after the cursors, the last one winning, counters raised just beyond it; it fails exactly on another shard count or an unreadable record |
| `SeqMap.CheckpointRefines` | logdbd/src/storage.rs:245-393 | for any log at checkpoint time and any extension, loading gives the index and the counters of the whole log |
| `SeqMap.CheckpointExactIff` | logdbd/src/storage.rs:245-393 | after a crash that keeps any prefix of every shard, loading is right exactly when every cursor survived and no record below a cursor was unmapped |
| `SeqMap.CountersCoverSurvivors` | logdbd/src/storage.rs:245-393 | after such a crash the counters are beyond every surviving record |
| `SeqMap.NextKeepsInv` | logdbd/src/storage.rs:105-393 | allocate, append, map, sync, checkpoint at any time, crash: each careful step keeps seqs unique and counters ahead, and a load finds the true index exactly when the checkpoint missed no record below its cursors |
| `SeqMap.CarefulRunsStayUnique` | logdbd/src/storage.rs:105-393 | if no crash takes away what the checkpoint on disk describes, no (stream, seq) is ever stored twice, checkpoints with appends in flight included |
| `SeqMap.RestartExactIff` | logdbd/src/storage.rs:245-393 | in such a run a restart finds the true index if and only if no append below the cursors was between its write and its mapping when the checkpoint was taken |
| `SeqMap.UncoveredCrashReissues` | logdbd/src/storage.rs:245-393 | from any state, a crash that does take some of it away can be continued to a seq stored twice |
| `SeqMap.UncoveredRebuildReissues` | logdbd/src/storage.rs:245-393 | so can a rebuild after such a crash, once the checkpoint left behind is loaded |
| `SeqMap.EmptyShardReissues` | logdbd/src/storage.rs:53-87 | from any state, a rebuild that meets an empty shard beside a stored record can be continued to the seq of that record stored twice |
| `SeqMap.HastyCheckpoint` | logdbd/src/storage.rs:245-285 | a run whose checkpoint maps a record the crash takes away |
| `SeqMap.StoredTwice` | logdbd/src/storage.rs:105-393 | one run from the start, through that checkpoint, that stores a (stream, seq) twice |
| `SeqMap.EmptyShardForgets` | logdbd/src/storage.rs:53-87 | a run in which the full rebuild forgets the record of one shard because the other is empty, and its seq is stored twice |
| `SeqMapFile.Save` | logdbd/src/storage.rs:261-285 | the file is the header and the words of the document |
| `SeqMapFile.Load` | logdbd/src/storage.rs:300-349 | the reader accepts, refuses or panics as the layout says |
| `SeqMapFile.FileRoundTrip` | logdbd/src/storage.rs:261-349 | a written file is read back word for word |
| `SeqMapFile.CheckpointFileRoundTrip` | logdbd/src/storage.rs:261-349 | for every map iteration order the loaded cursors, index and counters are those saved |
| `SeqMapFile.OtherShardCountRefused` | logdbd/src/storage.rs:312-314 | a file for another shard count is refused |
| `SeqMapFile.PlacesReadBackIff` | logdb/src/shard.rs:46-63 | places survive their encoding as ids exactly while every local sequence fits |
| `OffsetLog.Recover` | logdb-broker/src/persistence.rs:119-162 | recovery replaces at a snapshot and takes the maximum at a commit |
| `OffsetLog.ToList` | logdb-broker/src/persistence.rs:152-161 | the recovered offsets as a list, in any order |
| `OffsetLog.NextKeepsInv` | logdb-broker/src/service.rs:272-299 | with sessions, other brokers, late commits and late snapshots: no step lets recovery invent an offset, and a step keeps recovery equal to the highest stored commit exactly when a snapshot it stores is up to date |
| `OffsetLog.RecoveryFindsEveryCommit` | logdb-broker/src/persistence.rs:93-162 | over any sessions, failed and late appends and crashes, if each snapshot is up to date when it enters the stream, recovery is the maximum of all stored commits and covers every answered one |
| `OffsetLog.CommitRecoveredIff` | logdb-broker/src/persistence.rs:119-162 | in every state of every run the highest commit of a slot is recovered if and only if the last snapshot lists it or a commit behind that snapshot reaches it |
| `OffsetLog.RecoveryNeverAhead` | logdb-broker/src/service.rs:283-299 | with a single broker whose appends do not outlive it every snapshot is up to date, and recovery never exceeds memory |
| `OffsetLog.SnapshotFaithfulIff` | logdb-broker/src/main.rs:123-131 | commits that arrive between load and snapshot are lost exactly when one is above what was loaded |
| `OffsetLog.HiddenCommit` | logdb-broker/src/main.rs:123-131 | a run in which a snapshot hides a commit |
| `Tail.Select` | logdbd/src/storage.rs:414-430 | the first wanted records in seq order, cut at the limit |
| `Tail.TailLoop.Poll` | logdbd/src/service.rs:301-398 | one poll sends only visible live records, skips nothing visible and live, and moves exactly when something it looks at is durable |
| `Tail.SentAscending` | logdbd/src/service.rs:301-398 | what is sent is strictly increasing across polls |
| `Tail.SentIff` | logdbd/src/service.rs:301-398 | a record below the cursor was sent exactly when it was visible and live at the poll that passed it |
| `Tail.SequentialTailComplete` | logdb-broker/src/forwarder.rs:139-156 | on one shard with appends one after another every record below the cursor was sent or is tombstoned |
| `Tail.OvertakenAppendSkipped` | logdbd/src/storage.rs:105-168 | two overtaking appends: the lower seq is never sent |
| `Quota.RebuildCutoffs` | logdbd/src/tombstone.rs:36-52 | the cutoff of a stream is its highest tombstone |
| `Quota.SeedUsage` | logdbd/src/quota.rs:33-53 | the seed counts exactly the live records that are not tombstones |
| `Quota.CheckQuota` | logdbd/src/service.rs:218-250 | accepted exactly when the usage afterwards is within every limit |
| `Quota.Service.Append` | logdbd/src/service.rs:405-455 | refused exactly over a limit or on a failed write; the counts stay a recount, or above it exactly in streams where a client stored the reserved event type |
| `Quota.Service.BatchAppend` | logdbd/src/service.rs:457-539 | checked as a whole, stored one by one; what was stored, counted and tainted at every stopping point |
| `Quota.Service.DeleteStream` | logdbd/src/service.rs:1053-1090 | in any state, drifted or not: everything stored before is dead, counter and recount are zero, and the answer is the tracked number of records |
| `Quota.Service.Restart` | logdbd/src/main.rs:203-217 | in any state: the recount makes every stream exact again and changes no stream that was |
| `Quota.Service.Publish` | logdbd/src/publisher.rs:71-94 | the later visit of the publisher to a tombstone changes no cutoff unless a client stored that tombstone |
| `Quota.Replay` | logdbd/src/service.rs:405-539 | over any run of appends, batches, deletes, publisher passes and restarts with any event types: the counter of a stream equals the recount if and only if no operation stored the reserved event type in it for a client since its last delete or the last restart; what is live is within every limit |
| `Quota.Drift` | logdbd/src/service.rs:405-455 | one append with the reserved event type: a record is counted and none is live |
| `Quota.CountedOnce` | logdbd/src/quota.rs:55-60 | one stored record keeps counter and recount equal exactly if it is not a tombstone, and the counter above otherwise |
| `QuotaRace.OvershootBounded` | logdbd/src/service.rs:405-455 | in every run, with check, store and count of concurrent requests and the steps of deletes interleaved in any way, at most m requests at a time: what is live is at most the limit and the weight of m - 1 requests, once more for each reset since the last tombstone that erased a count |
| `QuotaRace.OvershootReached` | logdbd/src/service.rs:405-455 | that bound is reached, for every limit, number of requests and number of such resets |
| `QuotaRace.ExactIff` | logdbd/src/service.rs:1053-1090 | a delete leaves the counter right if and only if no append was stored and counted between its tombstone and its reset, and it stays right if and only if no record stored before the tombstone is counted later |
| `QuotaRace.StraddledDelete` | logdbd/src/service.rs:1053-1090 | a run in which an append around a delete is counted and not live |
| `Catalog.Resolver.Resolve` | logdbd/src/catalog.rs:77-159 | known names keep their ids, new names get the next ids, nothing but the asked pair is added, all four maps stay mutual inverses; invalid names change nothing |
| `Catalog.DistinctIds` | logdbd/src/catalog.rs:77-159 | distinct names never share a stream id |
| `Catalog.SameNamesSameTables` | logdbd/src/catalog.rs:288-418 | the two name maps of a snapshot determine all tables and counters |
| `Catalog.NamesKeepTheirIds` | logdbd/src/catalog.rs:55-159 | over any run in which each restart finds the tables as they were, failed saves in between allowed, a name keeps the ids it was first given |
| `Catalog.ReopenKeepsIff` | logdbd/src/catalog.rs:152-156 | a restart keeps every answer if and only if the file holds exactly the current tables |
| `Catalog.AnswersKeptIff` | logdbd/src/catalog.rs:55-159 | over any run every answer stays known at all times if and only if each restart found the file as the tables were: the save of the last creation reached it and no older one replaced it |
| `Catalog.RefusedIff` | logdbd/src/catalog.rs:264-286 | over any run the service refuses to start if and only if two saves collided in the temporary file and no whole snapshot was saved since |
| `Catalog.CollidingSaves` | logdbd/src/catalog.rs:264-286 | two creations at once whose saves collide |
| `Catalog.ReissuedIff` | logdbd/src/catalog.rs:408-418 | the first stream created after a restart gets an id somebody else has if and only if the file lacks a stream and the created one is not the very stream that held the next id |
| `Catalog.UnsavedIdsReused` | logdbd/src/catalog.rs:152-156 | one failed save before a restart: two streams are given the same ids |
| `CatalogFile.Serialize` | logdbd/src/catalog.rs:228-261 | the bytes are the layout of the maps as iterated |
| `CatalogFile.Build` | logdbd/src/catalog.rs:325-418 | the tables and counters built from the parsed namespaces |
| `CatalogFile.Load` | logdbd/src/catalog.rs:288-418 | a file that does not check is reported; otherwise the tables are those of its contents |
| `CatalogFile.MixedNeedsCollision` | logdbd/src/catalog.rs:288-309 | a shorter snapshot written over a longer one is accepted only if the mixture has the checksum of the longer one |
| `CatalogFile.FileRoundTrip` | logdbd/src/catalog.rs:228-418 | parsing undoes the layout |
| `CatalogFile.DocumentRestores` | logdbd/src/catalog.rs:228-418 | for every iteration order the document rebuilds all four maps and both counters |
| `CatalogFile.LoadUndoesSave` | logdbd/src/catalog.rs:228-418 | loading the file written from the tables gives the tables back |
| `OffsetFlush.ConsumerTracker.CommitOffset` | logdbd/src/consumer.rs:50-72 | a commit changes the map and sets the flag in one step |
| `OffsetFlush.ConsumerTracker.BeginFlush` | logdbd/src/consumer.rs:113-129 | a copy is taken and the flag cleared in one step, unless the flag is clear |
| `OffsetFlush.ConsumerTracker.EndFlush` | logdbd/src/consumer.rs:130-140 | a failed save sets the flag again |
| `OffsetFlush.ConsumerTracker.Flush` | logdbd/src/consumer.rs:113-140 | with any number of other copies being saved: Ok exactly when the flag was clear or the save succeeded; after a save the file is memory; on a clear flag it is memory exactly when the newest copy has reached it |
| `OffsetFlush.CleanIff` | logdbd/src/consumer.rs:50-140 | over any run with any number of flushers, the flag is set or the newest copy is the current map, at all times, if and only if no newest copy was saved, the flag clear, while a different older one was still being saved |
| `OffsetFlush.QuietMeansSaved` | logdbd/src/consumer.rs:113-140 | in such a run, with the flag clear and nothing being saved the file holds every offset |
| `OffsetFlush.ShutdownFlushTooEarly` | logdbd/src/main.rs:338-347 | a shutdown flush that finds the flag clear while the copy of the loop is unsaved |
| `OffsetFlush.RunKeepsInv` | logdbd/src/consumer.rs:50-140 | under every interleaving with one flusher: the flag is set, or the copy in flight, or else the file, is the current map |
| `OffsetFlush.FlushedStaysFlushed` | logdbd/src/consumer.rs:113-140 | after a successful flush without a later commit the file holds every offset |
| `OffsetFlush.OlderCopySavedLast` | logdbd/src/consumer.rs:113-140 | two flushers: the older copy saved last loses a commit |

## Left out

- Frame-mode (compressed or encrypted) recovery, and the scan's hash checks: the raw scan with hashing off is modelled.
- Committer: retention and checkpoint truncation during a roll; what a restart makes of a directory without segment 1 is in `Recovery` and `ChainKeys`.
- CommitLoop: one snapshot of the available records serves a whole pass; backoff, health states and wake-ups.
- Replication: standbys do not crash, and clients stay connected; one shard, as the source demands of a standby.
- Replication.Standby.Sync: the index update after a record is written is represented only by its possible failure.
- CrashRecovery: segment 1 is there, so that recovery takes place, and a prepared file counts as there if its header is whole; only the last segment is scanned, as in the source, and rolled segments are taken as the crash left them.
- Recovery: listing segment files, header validation and the warnings of earlier segments.
- SeqMap: replication into the index of a standby; places stand for ids, related to them by `SeqMapFile.PlacesReadBackIff`.
- SeqMapFile.Load: reads all words of the file before interpreting them, where the source interprets as it reads.
- CatalogFile.Load: parses all namespaces before filling the tables, where the source fills them as it reads.
- Catalog: 32- and 64-bit exhaustion of the id counters; listing namespaces and streams.
- Catalog.Resolver.Resolve: one resolve at a time; only the snapshot writes are concurrent.
- ChainKeys: the recovery scan is taken to keep every record; what it keeps is the subject of `Recovery`. Rolls that fail because a file of the old chain has the next number are not followed.
- Quota.Service.Append: one request at a time; the interleavings of its steps with those of other requests are in `QuotaRace`.
- QuotaRace: a batch is one request, and a seq is taken together with the write.
- Quota.Service.Restart: recounts the whole log; how much the start-up scan really sees is `GlobalCursor.StartupScanCompleteIff`.
- Tail: heartbeats, wake-ups and disconnects; point reads that fail.
- OffsetLog: the JSON of the events, leader election and sessions.
- Ring slots and the claim protocol, the sealer, the sparse index and the reader: only their contracts are used.
- Queries, record codec of `logdbd`, configuration, authentication, TLS, metrics, backups, clients and sinks: input and output plumbing or flat round trips.
