/**
 * HybridStrategy: a replication cluster of its own for serving reads and
 * writes, plus snapshots of a healthy replica written to its own checkpoint
 * directory. A partial failure is absorbed by the replicas; after a total
 * failure every replica is reloaded from the latest snapshot and then
 * resynced by the cluster's own recovery.
 */
module Hybrid {
  import opened Common
  import opened Base
  import opened Storage
  import opened Replication

  const DefaultCheckpointInterval: nat := 30
  const DefaultHybridReplicationFactor: nat := 3
  const DefaultHybridCheckpointDir := "/tmp/gitforge_hybrid_checkpoints"
  const HybridPrefix := "hybrid_checkpoint_"
  /** `_cleanup_old_checkpoints`' own default; the configuration is not consulted. */
  const HybridMaxCheckpoints: int := 5

  /** How many nodes each named failure takes down; other names take down none. */
  function NodesToFail(failureType: string, replicationFactor: nat): (k: Option<nat>)
    ensures failureType == "partial" ==> k == Some(1)
    ensures failureType == "majority" ==> k == Some(replicationFactor / 2 + 1)
    ensures failureType == "majority" ==> k.Some? && k.value > replicationFactor - k.value
    ensures failureType == "total" ==> k == Some(replicationFactor)
    ensures failureType !in {"partial", "majority", "total"} <==> k.None?
  {
    if failureType == "partial" then Some(1)
    else if failureType == "majority" then Some(replicationFactor / 2 + 1)
    else if failureType == "total" then Some(replicationFactor)
    else None
  }

  /** The replicas the cluster's recovery starts from in `recover`: as they
    * are while a node is healthy; otherwise every replica reloaded with the
    * latest snapshot's data, when there is one. */
  ghost function Reloaded(rs: seq<ReplicaNode>, files: map<string, CheckpointFile>): (r: seq<ReplicaNode>)
    ensures |r| == |rs|
  {
    if CountHealthy(rs) > 0 then rs
    else match Latest(files, HybridPrefix)
      case None => rs
      case Some(n) => Restored(rs, files[n].data)
  }

  /** The checkpointing part of what `get_hybrid_status` reports. */
  datatype HybridStatus = HybridStatus(strategy: string, replication: ClusterStatus,
                                       checkpointCount: nat, checkpointInterval: nat,
                                       checkpointDir: string, operational: bool)

  class HybridStrategy {
    const base: StrategyBase
    const checkpointInterval: nat
    const replicationFactor: nat
    const checkpointDir: string
    const replication: ReplicationStrategy
    const dir: Directory
    var checkpointCount: nat

    /** The owned cluster was built from `{'replication_factor': N}` alone, so
      * its quorums are the defaults; the two counters objects are distinct. */
    ghost predicate Valid()
      reads this, replication, dir
    {
      && replication.Valid() && dir.Valid()
      && replication.replicationFactor == replicationFactor
      && replication.writeQuorum == replicationFactor / 2 + 1
      && replication.readQuorum == 1
      && base != replication.base
    }

    /** What a retrieve can currently return for each key. */
    ghost function View(): map<Key, Value>
      reads this, base, replication, replication.base
    {
      if base.failed then map[] else replication.View()
    }

    /** Reads are answered: the strategy is up and so is its cluster. */
    ghost predicate Serving()
      reads this, base, replication, replication.base
    {
      !base.failed && replication.Serving()
    }

    /** `__init__`: build the cluster, create the directory if needed and load
      * the latest snapshot into every replica. */
    constructor (config: Config, fs: FileSystem)
      requires fs.Valid()
      modifies fs
      ensures Valid() && fs.Valid()
      ensures fresh(base) && fresh(replication) && fresh(replication.base)
      ensures checkpointInterval == config.checkpointInterval.GetOr(DefaultCheckpointInterval)
      ensures replicationFactor == config.replicationFactor.GetOr(DefaultHybridReplicationFactor)
      ensures checkpointDir == config.checkpointDir.GetOr(DefaultHybridCheckpointDir)
      ensures checkpointDir in fs.dirs && dir == fs.dirs[checkpointDir]
      ensures replication.Consistent() && replication.failedNodes == {}
      ensures !base.failed && base.stats == NoStats && !replication.base.failed
      ensures match Latest(dir.files, HybridPrefix)
        case None => checkpointCount == 0 && forall i :: 0 <= i < |replication.replicas| ==> replication.replicas[i] == FreshNode(i)
        case Some(n) =>
          && checkpointCount == dir.files[n].id
          && forall i :: 0 <= i < |replication.replicas| ==>
               replication.replicas[i].healthy && replication.replicas[i].data == dir.files[n].data
    {
      var factor := config.replicationFactor.GetOr(DefaultHybridReplicationFactor);
      var cluster := new ReplicationStrategy(Config(None, None, None, Some(factor), None, None));
      var path := config.checkpointDir.GetOr(DefaultHybridCheckpointDir);
      var d := fs.MakeDirs(path);
      base := new StrategyBase();
      checkpointInterval := config.checkpointInterval.GetOr(DefaultCheckpointInterval);
      replicationFactor := factor;
      checkpointDir := path;
      replication := cluster;
      dir := d;
      checkpointCount := 0;
      new;
      var loaded := LoadFromCheckpoint();
      if loaded {
        assert forall i :: 0 <= i < |replication.replicas| ==> replication.replicas[i].healthy;
      }
    }

    function StrategyName(): string {
      "Hybrid (Replication: " + NatToString(replicationFactor) + ", Checkpoint: "
        + NatToString(checkpointInterval) + "s)"
    }

    /** `store`: refused while failed; otherwise handed to the cluster, and
      * counted when the cluster accepts it. */
    method Store(key: Key, value: Value) returns (ok: bool)
      requires Valid()
      modifies base, replication, replication.base
      ensures Valid()
      ensures ok <==> !old(base.failed) && !old(replication.base.failed)
                      && old(replication.HealthyCount()) >= replication.writeQuorum
      ensures replication.replicas == if ok then Written(old(replication.replicas), key, value) else old(replication.replicas)
      ensures replication.failedNodes == old(replication.failedNodes)
      ensures base.failed == old(base.failed) && replication.base.failed == old(replication.base.failed)
      ensures base.stats == if ok then old(base.stats).Bump(Writes) else old(base.stats)
      ensures old(replication.Consistent()) ==> replication.Consistent()
      ensures Serving() == old(Serving())
      ensures ok && Serving() ==> View() == old(View())[key := value]
      ensures !ok ==> View() == old(View())
    {
      if base.failed {
        return false;
      }
      ok := replication.Store(key, value);
      if ok {
        base.RecordOperation(Writes);
      }
    }

    /** `retrieve`: absent while failed; otherwise counted, and answered by the
      * cluster, which answers from any healthy node while enough are up. */
    method Retrieve(key: Key) returns (r: Option<Value>)
      requires Valid()
      modifies base, replication, replication.base
      ensures Valid()
      ensures r == Lookup(old(View()), key)
      ensures View() == old(View()) && Serving() == old(Serving())
      ensures base.stats == if old(base.failed) then old(base.stats) else old(base.stats).Bump(Reads)
      ensures base.failed == old(base.failed) && replication.base.failed == old(replication.base.failed)
      ensures replication.failedNodes == old(replication.failedNodes)
      ensures replication.HealthyCount() == old(replication.HealthyCount())
      ensures old(replication.Consistent()) ==> replication.Consistent()
    {
      if base.failed {
        return None;
      }
      base.RecordOperation(Reads);
      var answer, _ := replication.Retrieve(key);
      r := match answer
        case Ok(v) => v
        case Err(_) => None;
    }

    /** `simulate_failure(failure_type)`: "partial" takes one node down,
      * "majority" a majority, "total" all of them and fails the hybrid
      * strategy too; any other name takes none. The failure is counted in
      * every case, and no node loses its data. */
    method SimulateFailure(failureType: string)
      requires Valid()
      modifies base, replication, replication.base
      ensures Valid()
      ensures old(replication.Consistent()) ==> replication.Consistent()
      ensures FlagsOnly(old(replication.replicas), replication.replicas)
      ensures NoneRevived(old(replication.replicas), replication.replicas)
      ensures NodesToFail(failureType, replicationFactor).None? ==>
        && replication.replicas == old(replication.replicas)
        && replication.failedNodes == old(replication.failedNodes)
        && replication.base.failed == old(replication.base.failed)
      ensures NodesToFail(failureType, replicationFactor).Some? ==>
        var k := NodesToFail(failureType, replicationFactor).value;
        && replication.failedNodes == old(replication.failedNodes) + WentDown(old(replication.replicas), replication.replicas)
        && replication.HealthyCount() == (if k >= old(replication.HealthyCount()) then 0 else old(replication.HealthyCount()) - k)
        && replication.base.failed == (old(replication.base.failed) || k >= old(replication.HealthyCount()))
      ensures base.failed == (old(base.failed) || failureType == "total")
      ensures base.stats == old(base.stats).Bump(FailuresSimulated)
    {
      var nodes := NodesToFail(failureType, replicationFactor);
      if nodes.Some? {
        var _ := replication.SimulateFailure(nodes.value);
      }
      if failureType == "total" {
        base.failed := true;
      }
      base.RecordOperation(FailuresSimulated);
    }

    /** `_load_from_checkpoint`: every replica takes a copy of the latest
      * snapshot's data and comes up; the count becomes the snapshot's id. */
    method LoadFromCheckpoint() returns (loaded: bool)
      requires Valid()
      modifies this, replication
      ensures Valid()
      ensures loaded <==> Latest(dir.files, HybridPrefix).Some?
      ensures replication.failedNodes == old(replication.failedNodes)
      ensures match Latest(dir.files, HybridPrefix)
        case None => replication.replicas == old(replication.replicas) && checkpointCount == old(checkpointCount)
        case Some(n) =>
          replication.replicas == Restored(old(replication.replicas), dir.files[n].data)
          && checkpointCount == dir.files[n].id
    {
      var latest := dir.FindLatest(HybridPrefix);
      if latest.None? {
        return false;
      }
      var file := dir.files[latest.value];
      RestoredKeepsInvariant(replication.replicas, replication.failedNodes, file.data);
      replication.replicas := Restored(replication.replicas, file.data);
      checkpointCount := file.id;
      loaded := true;
    }

    /** `recover`, with `rareEvent` the cluster's cascade draw. With a healthy
      * node left, the cluster recovers itself. Otherwise the latest snapshot
      * is loaded into every node first (when there is one) and the cluster
      * then recovers; every node then holds the snapshot's data, and all but
      * at most the crashed sync source are up. Without a snapshot the nodes
      * come back empty. The strategy ends operational and counts a recovery. */
    method Recover(rareEvent: bool)
      requires Valid()
      modifies this, base, replication, replication.base
      ensures Valid()
      ensures !base.failed && base.stats == old(base.stats).Bump(Recoveries)
      ensures var start := Reloaded(old(replication.replicas), dir.files);
        && replication.replicas == Recovered(start, old(replication.failedNodes), rareEvent)
        && replication.failedNodes == FailedAfterRecovery(start, old(replication.failedNodes), rareEvent)
        && match PathOf(start, old(replication.failedNodes), rareEvent)
           case NothingFailed | Cascaded(_) =>
             replication.base.failed == old(replication.base.failed) && replication.base.stats == old(replication.base.stats)
           case _ =>
             && !replication.base.failed && replication.HealthyCount() == |replication.replicas|
             && replication.base.stats == old(replication.base.stats).Bump(Recoveries)
      ensures !rareEvent ==> replication.failedNodes == {} && replication.HealthyCount() == |replication.replicas|
      ensures old(replication.HealthyCount()) > 0 || Latest(dir.files, HybridPrefix).None? ==>
        checkpointCount == old(checkpointCount)
      ensures old(replication.HealthyCount()) == 0 && Latest(dir.files, HybridPrefix).Some? ==>
        var n := Latest(dir.files, HybridPrefix).value;
          && checkpointCount == dir.files[n].id
          && (forall i :: 0 <= i < replicationFactor ==> replication.replicas[i].data == dir.files[n].data)
          && (forall i :: 1 <= i < replicationFactor ==> replication.replicas[i].healthy)
    {
      if replication.HealthyCount() > 0 {
        replication.Recover(rareEvent);
      } else {
        ghost var before := replication.replicas;
        var loaded := LoadFromCheckpoint();
        if loaded {
          RecoveryAfterRestore(before, replication.failedNodes, dir.files[Latest(dir.files, HybridPrefix).value].data, rareEvent);
        }
        replication.Recover(rareEvent);
      }
      base.failed := false;
      base.RecordOperation(Recoveries);
    }

    /** `create_checkpoint` at wall-clock second `now`: refused while failed or
      * with no healthy node; otherwise the first healthy node's data is
      * written to a new snapshot, the count advances and the oldest hybrid
      * files beyond five are removed (eviction by age, the corrected form of
      * the name order the cleanup sorts by). The new snapshot is kept, is the
      * one a load picks, and holds what every healthy node holds. */
    method CreateCheckpoint(now: nat) returns (ok: bool)
      requires Valid()
      modifies this, dir
      ensures Valid()
      ensures ok <==> !base.failed && replication.HealthyCount() > 0
      ensures ok <==> !base.failed && FirstHealthy(replication.replicas).Some?
      ensures !ok ==> checkpointCount == old(checkpointCount) && dir.files == old(dir.files)
      ensures ok ==>
        var name := FileName(HybridPrefix, old(checkpointCount) + 1, now);
        var source := replication.replicas[FirstHealthy(replication.replicas).value];
        var written := old(dir.files)[name := CheckpointFile(old(checkpointCount) + 1, source.data, old(dir.clock))];
        && checkpointCount == old(checkpointCount) + 1
        && dir.clock == old(dir.clock) + 1
        && PrunedByAge(written, dir.files, HybridPrefix, HybridMaxCheckpoints)
        && name in dir.files
        && Latest(dir.files, HybridPrefix) == Some(name)
        && dir.files[name].id == checkpointCount
        && forall i :: 0 <= i < |replication.replicas| && replication.replicas[i].healthy ==>
             dir.files[name].data == replication.replicas[i].data
    {
      if base.failed {
        return false;
      }
      var first := FirstHealthy(replication.replicas);
      if first.None? {
        CountHealthyZero(replication.replicas);
        return false;
      }
      CountHealthyZero(replication.replicas);
      var source := replication.replicas[first.value];
      var id := checkpointCount + 1;
      var name := FileName(HybridPrefix, id, now);
      dir.SaveCheckpoint(HybridPrefix, HybridMaxCheckpoints, name, id, source.data);
      checkpointCount := id;
      ok := true;
    }

    /** `get_hybrid_status`. */
    function HybridStatusReport(): (s: HybridStatus)
      requires Valid()
      reads this, base, replication, dir
      ensures s.operational <==> !base.failed
      ensures s.replication.healthyNodes == replication.HealthyCount()
      ensures s.checkpointCount == checkpointCount
    {
      HybridStatus(StrategyName(), replication.ClusterStatusReport(), checkpointCount,
                   checkpointInterval, checkpointDir, !base.failed)
    }
  }
}
