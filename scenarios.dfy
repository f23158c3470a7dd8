/**
 * End-to-end runs of single strategies, each on fresh objects, showing what
 * a failure followed by recovery leaves readable: nothing for the baseline,
 * the last checkpoint's contents for checkpointing, and nothing for
 * replication once every node went down.
 */
module Scenarios {
  import opened Common
  import opened Base
  import opened Storage
  import opened Baseline
  import opened Replication
  import opened Checkpointing

  /** The baseline keeps a write until a failure, and none after recovery. */
  method BaselineForgets(key: Key, value: Value) returns (before: Option<Value>, after: Option<Value>)
    ensures before == Some(value) && after == None
  {
    var b := new BaselineStrategy();
    var _ := b.Store(key, value);
    before := b.Retrieve(key);
    b.SimulateFailure();
    b.Recover();
    after := b.Retrieve(key);
  }

  /** Store a, force a checkpoint, store b, fail and recover on an empty
    * checkpoint directory: a comes back unless the checkpoint was found
    * corrupted, and b, written after the checkpoint, is lost either way. */
  method CheckpointKeepsSavedWrites(a: Key, va: Value, b: Key, vb: Value, now: nat, rareEvent: bool)
    returns (ra: Option<Value>, rb: Option<Value>)
    requires a != b
    ensures ra == if rareEvent then None else Some(va)
    ensures rb == None
  {
    var fs := new FileSystem(map[]);
    var c := new CheckpointingStrategy(EmptyConfig, fs);
    var _ := c.Store(a, va);
    var _ := c.ForceCheckpoint(now);
    ghost var saved := c.dir.files;
    assert LoadedData(saved, map[]) == map[a := va];
    var _ := c.Store(b, vb);
    c.SimulateFailure();
    assert c.dir.files == saved;
    c.Recover(rareEvent);
    assert c.dataStore == if rareEvent then map[] else map[a := va];
    assert b !in c.dataStore;
    ra := c.Retrieve(a);
    rb := c.Retrieve(b);
  }

  /** On a well-formed replica list with no healthy node, recovery takes
    * the empty-start path: every node comes back healthy and empty. */
  lemma TotalFailureRecovery(rs: seq<ReplicaNode>, failed: set<string>, rareEvent: bool)
    requires WellFormed(rs, failed) && |rs| > 0 && CountHealthy(rs) == 0
    ensures PathOf(rs, failed, rareEvent).StartedEmpty?
    ensures CountHealthy(Recovered(rs, failed, rareEvent)) == |rs|
    ensures FirstHealthy(Recovered(rs, failed, rareEvent)) == Some(0)
    ensures Recovered(rs, failed, rareEvent)[0].data == map[]
  {
    CountHealthyZero(rs);
    assert rs[0].nodeId in failed;
    RecoveryHealsAll(rs, failed, rareEvent);
  }

  /** A default three-node cluster that accepted one write and then lost
    * every node. */
  method DownedCluster(key: Key, value: Value) returns (rep: ReplicationStrategy)
    ensures fresh(rep) && fresh(rep.base) && rep.Valid()
    ensures rep.replicationFactor == 3 && rep.readQuorum == 1 && rep.HealthyCount() == 0
  {
    rep := new ReplicationStrategy(EmptyConfig);
    CountHealthyFull(rep.replicas);
    var _ := rep.Store(key, value);
    var _ := rep.SimulateFailure(3);
  }

  /** With every node down, recovery brings the nodes back empty: a stored
    * value is gone whether or not the rare event happens. */
  method ReplicationTotalFailureLosesData(key: Key, value: Value, rareEvent: bool)
    returns (r: Result<Option<Value>>)
    ensures r == Ok(None)
  {
    var rep := DownedCluster(key, value);
    TotalFailureRecovery(rep.replicas, rep.failedNodes, rareEvent);
    rep.Recover(rareEvent);
    assert !rep.base.failed && rep.HealthyCount() == 3;
    assert rep.View() == map[];
    ghost var servedBy;
    r, servedBy := rep.Retrieve(key);
  }
}
