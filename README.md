# Fault-tolerance strategy framework, modelled in Dafny

The framework is an in-process key-value store with four interchangeable
ways of surviving a simulated failure. It also has a manager that picks one
of them and runs a populate → fail → recover → verify experiment.

- **Baseline**: a plain map. A failure wipes it, and recovery only clears
  the failed flag.
- **Replication**: N replica nodes, each with a health flag and its own
  map.
  - Writes need a write quorum of healthy nodes. Reads need a read quorum
    and are answered by a healthy node.
  - A failure only flips health flags.
  - Recovery copies the first healthy node's data to every failed node.
    When no node is healthy, the failed nodes come back empty.
- **Checkpointing**: an in-memory map with a write-ahead log (WAL).
  - Snapshots go to a checkpoint directory that survives failures.
  - Recovery reloads the snapshot with the newest modification time.
- **Hybrid**: a replication cluster of its own, plus snapshots of its first
  healthy node.
  - After a total failure, every node is first reloaded from the newest
    snapshot. The cluster's own recovery then runs.

Each strategy is a Dafny `class` whose methods update its fields in place.

- Every method is specified against value-level functions of the old state.
  Examples are `Replication.Written`, `Replication.Recovered`,
  `Checkpointing.LoadedData` and `Storage.Latest`.
- The counters and failed flag that all strategies inherit are a
  `Base.StrategyBase` object, held by each strategy.
- The checkpoint directories are `Storage.Directory` objects. They map a
  file name to the snapshot the file holds, and a logical clock stamps each
  write.
- The directories belong to a `Storage.FileSystem` that outlives strategy
  instances. A strategy the manager builds later therefore sees the files
  an earlier one wrote.

Randomness becomes an input:

- `random.sample` and `random.choice` become nondeterministic choice.
- The 2% corruption draw and the 5% cascade draw become a `rareEvent`
  parameter.
- The random fields of the synthetic items become a `draw` oracle.
- `int(time.time())` in file names becomes a `now` parameter.

Exceptions the source raises become `Result`/`Outcome` errors:

- an unknown strategy name;
- a negative sample size;
- `random.choice` on an empty list;
- a keyword `simulate_failure` does not take;
- the division by zero in `run_experiment`.

Files: `common.dfy`, `base.dfy`, `storage.dfy`, `baseline.dfy`,
`replication.dfy`, `checkpointing.dfy`, `hybrid.dfy` and `manager.dfy`
follow the source files. `findings.dfy` exhibits the eviction bug below.
`scenarios.dfy` holds end-to-end runs.

## Model

| member | source | states |
|---|---|---|
| Common.Lookup | backend/fault_tolerance/baseline.py:72-78 | `dict.get`: a value is returned exactly when the key is stored, and it is the stored one |
| Common.NatToStringInjective | backend/fault_tolerance/replication.py:92-93 | decimal rendering is injective, so `node-{i+1}`, `issue_{i}` and file names never collide |
| Base.Stats.Bump | backend/fault_tolerance/base.py:110-113 | the chosen counter grows by exactly one and every other counter is unchanged |
| Base.StrategyBase.constructor | backend/fault_tolerance/base.py:27-42 | a new strategy is not failed and all four counters are zero |
| Base.StrategyBase.RecordOperation | backend/fault_tolerance/base.py:110-113 | the counters become the old ones bumped at the operation; the failed flag is untouched |
| Base.StrategyBase.IsHealthy | backend/fault_tolerance/base.py:106-108 | healthy exactly when not failed, with no state change |
| Base.StrategyBase.GetStats | backend/fault_tolerance/base.py:98-104 | reports the current counters, the name and `is_failed` equal to the failed flag, with no state change |
| Baseline.BaselineStrategy.constructor | backend/fault_tolerance/baseline.py:33-43 | starts empty, not failed, with zero counters |
| Baseline.BaselineStrategy.Store | backend/fault_tolerance/baseline.py:48-64 | accepted exactly when not failed; the map then holds the new entry and `writes` grows by one, otherwise nothing changes |
| Baseline.BaselineStrategy.Retrieve | backend/fault_tolerance/baseline.py:66-78 | absent while failed, otherwise the stored value; `reads` counts only answered reads |
| Baseline.BaselineStrategy.SimulateFailure | backend/fault_tolerance/baseline.py:80-98 | from any state: the map is empty, the strategy failed and `failures_simulated` one higher |
| Baseline.BaselineStrategy.Recover | backend/fault_tolerance/baseline.py:100-126 | a healthy instance is unchanged; a failed one comes back operational with an empty map and one more recovery |
| Baseline.BaselineStrategy.GetDataCount | backend/fault_tolerance/baseline.py:128-130 | the number of stored keys |
| Baseline.BaselineStrategy.ListKeys | backend/fault_tolerance/baseline.py:132-134 | exactly the stored keys, each once |
| Replication.NodeIdInjective | backend/fault_tolerance/replication.py:90-100 | different node positions get different ids |
| Replication.CountHealthyZero | backend/fault_tolerance/replication.py:102-104 | no healthy node counted exactly when every node is down |
| Replication.CountHealthyFull | backend/fault_tolerance/replication.py:102-104 | every node counted exactly when every node is up |
| Replication.FirstHealthy | backend/fault_tolerance/replication.py:102-104 | `healthy_replicas[0]`: a healthy node with no healthy node before it, or none when all are down |
| Replication.FailedCount | backend/fault_tolerance/replication.py:204-212 | while the failed set is exact, failed plus healthy nodes add up to N |
| Replication.WrittenKeepsInvariant | backend/fault_tolerance/replication.py:133-138 | a write to every healthy node keeps ids, the failed set and agreement of healthy nodes |
| Replication.WrittenView | backend/fault_tolerance/replication.py:133-138 | after the write every healthy node maps the key to the value and nothing else of it changes |
| Replication.FlagsOnlyKeepsInvariant | backend/fault_tolerance/replication.py:198-213 | taking nodes down, with their ids added to the failed set, keeps the invariant and clears no data |
| Replication.RecoveryKeepsInvariant | backend/fault_tolerance/replication.py:243-294 | every recovery path keeps the invariant, and an exact failed set stays exact |
| Replication.CalmRecoveryHeals | backend/fault_tolerance/replication.py:243-285 | without the cascade draw every recovery leaves an empty failed set and every node up |
| Replication.RecoveryHealsAll | backend/fault_tolerance/replication.py:250-285 | a recovery that is not aborted brings every node up, all empty when none was healthy, all holding the source's data otherwise |
| Replication.RecoveryAfterRestore | backend/fault_tolerance/hybrid.py:188-210 | after a checkpoint load, recovery leaves every node with the snapshot's data and all but the sync source up |
| Replication.InitializeReplicas | backend/fault_tolerance/replication.py:90-100 | N nodes `node-1..node-N`, healthy, empty, zero counts |
| Replication.WriteHealthy | backend/fault_tolerance/replication.py:133-143 | the loop's replicas are the reference `Written` list and its success count is the healthy count |
| Replication.TakeAllDown | backend/fault_tolerance/replication.py:198-205 | every node down, only flags changed, and the ids reported are exactly the ones that went down |
| Replication.TakeSomeDown | backend/fault_tolerance/replication.py:207-213 | exactly `k` healthy nodes go down, only flags change, and the ids reported are the ones that went down |
| Replication.ResyncNodes | backend/fault_tolerance/replication.py:274-285 | the loop's replicas are the reference `Resynced` list for the pending ids |
| Replication.ReadKeepsInvariant | backend/fault_tolerance/replication.py:176-180 | a served read only bumps one node's read count and keeps the invariant and the healthy count |
| Replication.AnyHealthyServes | backend/fault_tolerance/replication.py:176-180 | any healthy node holds the same data as the first one, so the random choice does not change the answer |
| Replication.RecoverNodes | backend/fault_tolerance/replication.py:243-294 | the loop's replicas and failed set are the reference `Recovered`/`FailedAfterRecovery`, and it completes exactly on the empty-start and synced paths |
| Replication.ReplicationStrategy.constructor | backend/fault_tolerance/replication.py:51-86 | factor defaults to 3, write quorum to N/2+1, read quorum to 1; fresh healthy empty nodes and no failed ids |
| Replication.ReplicationStrategy.Store | backend/fault_tolerance/replication.py:106-153 | accepted exactly when not failed and a write quorum is healthy; then every healthy node has the entry, otherwise no node changes; reads then see the write |
| Replication.ReplicationStrategy.Retrieve | backend/fault_tolerance/replication.py:155-186 | absent when failed or below the read quorum, an error when no node can be chosen, else the healthy nodes' value; only the serving node's read count changes |
| Replication.ReplicationStrategy.SimulateFailure | backend/fault_tolerance/replication.py:188-221 | a negative count raises and changes nothing; at least the healthy count takes all down and fails the cluster; otherwise exactly k go down; no data is cleared |
| Replication.ReplicationStrategy.Recover | backend/fault_tolerance/replication.py:223-297 | the replicas and failed set become the reference recovery; it completes, clears the failed flag and counts a recovery except when nothing failed or the source crashed; without the cascade draw no node is left failed or down |
| Replication.ReplicationStrategy.ClusterStatusReport | backend/fault_tolerance/replication.py:299-320 | healthy count, failed ids, quorum flags and per-node health; healthy + failed == N while the failed set is exact |
| Replication.ReplicationStrategy.DataCount | backend/fault_tolerance/replication.py:322-327 | the key count every healthy node has, 0 when none is healthy |
| Checkpointing.ReplayLookup | backend/fault_tolerance/checkpointing.py:93-121 | the store equals the snapshot with the WAL replayed: every key holds its newest logged value, or the snapshot's |
| Checkpointing.CheckpointingStrategy.constructor | backend/fault_tolerance/checkpointing.py:40-88 | defaults 30 s, `/tmp/gitforge_checkpoints`, 5 files; the directory is created if missing and the newest snapshot loaded |
| Checkpointing.CheckpointingStrategy.Store | backend/fault_tolerance/checkpointing.py:93-121 | refused while failed with nothing changed; otherwise the map holds the entry and exactly one WAL entry is appended |
| Checkpointing.CheckpointingStrategy.Retrieve | backend/fault_tolerance/checkpointing.py:123-131 | absent while failed, otherwise the stored value |
| Checkpointing.CheckpointingStrategy.SimulateFailure | backend/fault_tolerance/checkpointing.py:133-157 | map and WAL empty, failed set, count kept; the checkpoint files are outside what it may change |
| Checkpointing.CheckpointingStrategy.LoadLatestCheckpoint | backend/fault_tolerance/checkpointing.py:269-303 | loads exactly when a checkpoint file exists; the map and count become the newest file's |
| Checkpointing.CheckpointingStrategy.Recover | backend/fault_tolerance/checkpointing.py:159-227 | no change when healthy; on corruption the map stays empty and no recovery is counted; otherwise the newest snapshot is loaded and a recovery counted; always operational after |
| Checkpointing.CheckpointingStrategy.CreateCheckpoint | backend/fault_tolerance/checkpointing.py:229-267 | refused while failed with nothing changed; otherwise a snapshot of the map with id count+1 is written, the WAL emptied, old files evicted, and the new file is the one a load picks |
| Checkpointing.CheckpointingStrategy.ForceCheckpoint | backend/fault_tolerance/checkpointing.py:333-336 | a checkpoint when not failed; with room for one file a later load gives back exactly the current map and count |
| Checkpointing.CheckpointingStrategy.CheckpointInfoReport | backend/fault_tolerance/checkpointing.py:338-347 | count, WAL length and data count; a failed strategy reports no entries and no data |
| Storage.FileName | backend/fault_tolerance/checkpointing.py:248 | the name carries the prefix and `.json`, so it passes the listing filter |
| Storage.Latest | backend/fault_tolerance/checkpointing.py:271-290 | none exactly when no file passes the filter; otherwise a file with the newest modification time |
| Storage.LatestUnique | backend/fault_tolerance/checkpointing.py:282-288 | with distinct modification times the newest file is the one picked |
| Storage.NewestIsLatest | backend/fault_tolerance/checkpointing.py:248-257 | a file just written is the one a load picks |
| Storage.PrunedKeepsLatestIfPresent | backend/fault_tolerance/checkpointing.py:305-319 | eviction by name that spares the newest file leaves it the one a load picks |
| Storage.PrunedWithinLimit | backend/fault_tolerance/checkpointing.py:313 | within the limit, eviction removes nothing |
| Storage.PrunedByAgeKeepsLatest | backend/fault_tolerance/checkpointing.py:305-319 | eviction by age with a limit of at least one keeps the newest file, which a load still picks |
| Storage.WrittenThenPrunedByAge | backend/fault_tolerance/checkpointing.py:248-258 | a written checkpoint survives eviction by age exactly when the limit is at least one, and is then the one a load picks |
| Storage.Smallest | backend/fault_tolerance/checkpointing.py:308-314 | `sorted(...)[0]`: a name that sorts before every other |
| Storage.Oldest | backend/fault_tolerance/checkpointing.py:305-319 | the file with the smallest modification time |
| Storage.Directory.Write | backend/fault_tolerance/checkpointing.py:248-253 | the file is created or replaced and stamped with the current clock |
| Storage.Directory.Remove | backend/fault_tolerance/checkpointing.py:315 | exactly that file is gone |
| Storage.Directory.FindLatest | backend/fault_tolerance/checkpointing.py:271-288 | the sorted-by-mtime listing's head is `Latest` |
| Storage.Directory.PruneOldest | backend/fault_tolerance/checkpointing.py:305-319 | as written: removes the smallest names until `limit` remain (all for a negative limit); nothing else changes |
| Storage.Directory.PruneByAge | backend/fault_tolerance/checkpointing.py:305-319 | corrected: removes the oldest files until `limit` remain; nothing else changes |
| Storage.Directory.SaveCheckpoint | backend/fault_tolerance/checkpointing.py:240-258 | write then evict by age; the new file survives exactly when the limit is at least one and is then the newest |
| Storage.FileSystem.MakeDirs | backend/fault_tolerance/checkpointing.py:76 | `os.makedirs(exist_ok=True)`: an existing directory is kept with its files, a missing one is created empty |
| Hybrid.NodesToFail | backend/fault_tolerance/hybrid.py:152-166 | "partial" exactly 1, "majority" exactly N/2+1 (a strict majority), "total" all N, any other name none |
| Hybrid.HybridStrategy.constructor | backend/fault_tolerance/hybrid.py:47-96 | a cluster of N (default 3) with default quorums, the directory created and the newest snapshot loaded into every node |
| Hybrid.HybridStrategy.Store | backend/fault_tolerance/hybrid.py:101-120 | refused while failed; otherwise the cluster's answer, and `writes` grows only on success |
| Hybrid.HybridStrategy.Retrieve | backend/fault_tolerance/hybrid.py:122-133 | absent while failed; otherwise counted (even on a miss) and answered by the cluster |
| Hybrid.HybridStrategy.SimulateFailure | backend/fault_tolerance/hybrid.py:135-167 | the node counts of `NodesToFail`; only flags change and no node comes up; the downed ids join the cluster's failed set; the cluster is marked failed once every healthy node went down; "total" fails the strategy; the failure is always counted |
| Hybrid.HybridStrategy.LoadFromCheckpoint | backend/fault_tolerance/hybrid.py:264-301 | loads exactly when a snapshot exists: every node healthy with its data, count its id, the cluster's failed set untouched |
| Hybrid.HybridStrategy.Recover | backend/fault_tolerance/hybrid.py:169-213 | the cluster recovers from `Reloaded`: its own replicas while a node is healthy, else every node loaded with the newest snapshot; the cluster's replicas, failed set and failed flag are those of that recovery path; with a snapshot every node holds its data and all but the crashed source are up; always operational with one more recovery |
| Hybrid.HybridStrategy.CreateCheckpoint | backend/fault_tolerance/hybrid.py:215-262 | refused while failed or with no healthy node; otherwise the first healthy node's data is written with id count+1, kept, newest, and equal to every healthy node's data |
| Hybrid.HybridStrategy.HybridStatusReport | backend/fault_tolerance/hybrid.py:330-342 | operational is not-failed; the cluster's healthy count and the checkpoint count |
| Manager.KindOf | backend/fault_tolerance/manager.py:53-58 | exactly the four registry names select a strategy |
| Manager.KindName | backend/fault_tolerance/manager.py:53-58 | each kind has exactly one registry name, which selects it |
| Manager.AvailableStrategies | backend/fault_tolerance/manager.py:148-150 | exactly the accepted names, each once |
| Manager.CreateStrategy | backend/fault_tolerance/manager.py:79-92 | an unknown name raises and opens no directory; otherwise a fresh instance of that kind, operational, serving only what its checkpoint files give back |
| Manager.ReplicationStartsUp | backend/fault_tolerance/replication.py:68-100 | a new cluster serves reads exactly when it has nodes and the read quorum can be met, and serves nothing |
| Manager.HybridStartsUp | backend/fault_tolerance/hybrid.py:75-86 | a new hybrid strategy serves exactly its newest snapshot |
| Manager.ExperimentKeyInjective | backend/fault_tolerance/manager.py:187-215 | different items get different keys |
| Manager.ExperimentKeys | backend/fault_tolerance/manager.py:187-215 | n keys (none for negative n), the i-th being `issue_i` or `repo_i` |
| Manager.ExperimentKeysDistinct | backend/fault_tolerance/manager.py:187-215 | the experiment's keys are pairwise distinct |
| Manager.CountPresentAll | backend/fault_tolerance/manager.py:236-240 | when every key is present all of them are counted |
| Manager.CountPresentNone | backend/fault_tolerance/manager.py:236-240 | nothing is counted against an empty store |
| Manager.RecoveryRate | backend/fault_tolerance/manager.py:242 | between 0 and 100 for 0 ≤ recovered ≤ n, 0 when none and 100 when all came back |
| Manager.FaultToleranceManager.Create | backend/fault_tolerance/manager.py:60-92 | an unknown name raises; otherwise a manager recording the name over a freshly started strategy of that kind |
| Manager.FaultToleranceManager.SetStrategy | backend/fault_tolerance/manager.py:94-108 | the name changes even when creation raises; the old strategy then stays; otherwise a fresh started instance of the named kind |
| Manager.FaultToleranceManager.Store | backend/fault_tolerance/manager.py:122-124 | delegated: an accepted write is served afterwards; a refused one changes nothing served; files untouched |
| Manager.FaultToleranceManager.Retrieve | backend/fault_tolerance/manager.py:126-128 | delegated: what the strategy serves for the key; only replication can raise |
| Manager.FaultToleranceManager.SimulateFailure | backend/fault_tolerance/manager.py:130-132 | a keyword the strategy does not take raises and changes nothing; otherwise replication fails `node_count` nodes (default 1) with the outcome, flags, failed set and healthy count of the cluster's own failure, and hybrid takes `failure_type` (default "partial") with the node counts, failed set and flags of its own failure |
| Manager.FaultToleranceManager.Recover | backend/fault_tolerance/manager.py:134-136 | delegated: a recovered baseline serves nothing; a recovered checkpointing strategy serves its newest snapshot unless corrupted; replication and hybrid end with the replicas, failed set and failed flag of the cluster's recovery path |
| Manager.FaultToleranceManager.IsHealthy | backend/fault_tolerance/manager.py:138-140 | the active strategy's not-failed flag |
| Manager.FaultToleranceManager.GetStats | backend/fault_tolerance/manager.py:142-144 | the active strategy's counters, full name and failed flag |
| Manager.FaultToleranceManager.Populate | backend/fault_tolerance/manager.py:187-215 | stores exactly the n experiment keys; an unreplicated serving strategy then holds every one |
| Manager.FaultToleranceManager.CountRecovered | backend/fault_tolerance/manager.py:236-240 | the number of keys the strategy serves a value for, or replication's empty-choice error; what is served does not change |
| Manager.FaultToleranceManager.FailAndRecover | backend/fault_tolerance/manager.py:220-232 | a forced checkpoint only for checkpointing, and no file changes otherwise; the baseline comes back empty; a kept checkpoint without corruption restores exactly what was served |
| Manager.FaultToleranceManager.RunExperiment | backend/fault_tolerance/manager.py:152-260 | zero items raises; the report's fields; the recovered count is the number of experiment keys served after recovery, 0 ≤ recovered ≤ n; baseline recovers nothing; a kept forced checkpoint without corruption recovers all n at 100% |
| Manager.ManagerRegistry.GetManager | backend/fault_tolerance/manager.py:287-308 | the existing instance unless none exists or a new one is forced; a failed creation keeps the old one |
| Findings.PrunedEvictsFirstName | backend/fault_tolerance/checkpointing.py:308-316 | over the limit, eviction by name always deletes the name that sorts first, however new that file is |
| Findings.NewestCheckpointEvicted | backend/fault_tolerance/checkpointing.py:308-316 | with checkpoints 5 and 10 and room for one, checkpoint 10 (the newest) is deleted and a load picks 5 |
| Findings.NewestCheckpointKeptByAge | backend/fault_tolerance/checkpointing.py:305-319 | the same directory pruned by age keeps checkpoint 10 as the one a load picks |
| Scenarios.BaselineForgets | backend/fault_tolerance/baseline.py:48-126 | a stored value is readable until a failure and absent after recovery |
| Scenarios.CheckpointKeepsSavedWrites | backend/fault_tolerance/checkpointing.py:93-336 | store a, checkpoint, store b, fail, recover: a comes back unless corrupted, b never does |
| Scenarios.TotalFailureRecovery | backend/fault_tolerance/replication.py:250-262 | with no healthy node, recovery takes the empty-start path and every node comes back up and empty |
| Scenarios.ReplicationTotalFailureLosesData | backend/fault_tolerance/replication.py:188-297 | after every node went down and recovered, a stored key reads as absent, cascade or not |

## Left out

- Background checkpoint threads, `threading.Event` and `join` (checkpointing.py:321-331, hybrid.py:319-328): concurrency. Checkpoints happen only through explicit `create_checkpoint` calls.
- `time.sleep` latencies and the elapsed times that `recover` and `run_experiment` return: wall-clock floats. Timestamps, `version` fields and `last_operation` are not modelled either.
- JSON writing and reading is taken to give back exactly the map written. I/O exceptions that the source catches and logs are not modelled.
- Logging and the float formatting of percentages.
- `combined.py`: it calls collaborators that are not shown and uses a lock and a thread.
- The HTTP routers and everything outside `backend/fault_tolerance/`.
- `run_experiment`'s `failure_type` argument: the source never uses it.
- The unreachable statements after `return` (manager.py:262-280).
- Checkpointing.CheckpointingStrategy.CreateCheckpoint and Hybrid.HybridStrategy.CreateCheckpoint evict by modification time, not by file name as the source does. This is the corrected retention of the finding below. The as-written eviction is `Storage.Directory.PruneOldest`.
- Hybrid.HybridStrategy.CreateCheckpoint always keeps five files. The source's `_cleanup_old_checkpoints` uses its own default of 5 and never reads the configuration.
- Checkpointing.CheckpointingStrategy.ForceCheckpoint: its promise that the new checkpoint survives holds only for eviction by age. With the eviction by name as written, checkpoint_5 to checkpoint_9 on disk and a limit of 5, the new checkpoint_10 sorts first and is deleted at once.
- Storage.Directory.SaveCheckpoint: keeps the newly written file only because it evicts by age; the as-written eviction by name is `Storage.Directory.PruneOldest`.
- Manager.KeepsForcedCheckpoint: states when a forced checkpoint survives under eviction by age. It says nothing about the as-written eviction by name.
- Manager.FaultToleranceManager.FailAndRecover: the restored-exactly promise holds only for eviction by age. Under the as-written eviction by name the forced checkpoint can be deleted, as in the finding below. For replication and hybrid the contract does not say which items come back; that follows from the strategies' own `Recover` contracts.
- Manager.FaultToleranceManager.RunExperiment: the all-items-recovered promise holds only for eviction by age, for the same reason. For replication and hybrid only the count's tie to what is served is stated, not its value.
- Storage.Stamped: checkpoint files are taken to have distinct modification times, each older than the directory's clock. Two files written within the file system's timestamp resolution, a tie, are not modelled. With a tie, the source's stable sort by modification time (checkpointing.py:283-286, hybrid.py:277-280) keeps directory-listing order, which the model does not represent.
- Common.Value: there is no `None` value. The source can store `None`, and a retrieve that returns it is counted as not recovered. The model stores only text, issue and repository values.
- Base.Config: the configuration's numbers are natural numbers. A negative `replication_factor` or `checkpoint_interval` is not modelled. In the source a negative factor builds an empty cluster (replication.py:92) with a write quorum of at most zero.
- Manager.RecoveryRate: the percentage is an exact real number, not a floating-point value with rounding.
- Manager.FaultToleranceManager.SetStrategy: the manager's invariant covers only the active strategy. The file system's invariant is required and re-established separately.

## Findings

| source | as written | input that shows it | evidently intended | confidence | as-written member | corrected member |
|---|---|---|---|---|---|---|
| backend/fault_tolerance/checkpointing.py:308-316 (also hybrid.py:306-314) | the cleanup sorts checkpoint file names as strings and deletes from the front; the ids in the names are decimal without padding | `max_checkpoints` 1, with `checkpoint_5_100.json` written before `checkpoint_10_200.json`: "checkpoint_10…" sorts first, so the checkpoint just written is deleted and a load restores checkpoint 5 | delete the oldest files, keeping the newest | not executed | Storage.Directory.PruneOldest, Findings.NewestCheckpointEvicted | Storage.Directory.PruneByAge, Storage.PrunedByAgeKeepsLatest, Findings.NewestCheckpointKeptByAge |
