/**
 * ReplicationStrategy: N in-process replica nodes with quorum-gated writes
 * and reads. Failure only flips health flags; recovery copies the first
 * healthy node's data to every failed node, or, when no node is healthy,
 * brings all failed nodes back empty.
 *
 * The nodes are the values of a sequence the strategy owns (`_replicas` in
 * insertion order, node i having id "node-<i+1>"); `_failed_nodes` is kept
 * as a set of ids, as in the source.
 */
module Replication {
  import opened Common
  import opened Base

  const DefaultReplicationFactor: nat := 3

  /** `ReplicaNode` (its heartbeat timestamp is not modelled). */
  datatype ReplicaNode = ReplicaNode(nodeId: string, healthy: bool, data: map<Key, Value>,
                                     writeCount: nat, readCount: nat)

  /** `f"node-{i+1}"`. */
  function NodeId(i: nat): string {
    "node-" + NatToString(i + 1)
  }

  lemma NodeIdInjective(i: nat, j: nat)
    ensures NodeId(i) == NodeId(j) ==> i == j
  {
    if NodeId(i) == NodeId(j) {
      PrefixCancel("node-", NatToString(i + 1), NatToString(j + 1));
      NatToStringInjective(i + 1, j + 1);
    }
  }

  function FreshNode(i: nat): ReplicaNode {
    ReplicaNode(NodeId(i), true, map[], 0, 0)
  }

  // ---------------------------------------------------------------------
  // Counting and finding healthy nodes (`_get_healthy_replicas`).

  function Bit(b: bool): nat {
    if b then 1 else 0
  }

  /** `len(self._get_healthy_replicas())`. */
  function CountHealthy(rs: seq<ReplicaNode>): (c: nat)
    ensures c <= |rs|
  {
    if rs == [] then 0 else CountHealthy(rs[..|rs| - 1]) + Bit(rs[|rs| - 1].healthy)
  }

  lemma CountHealthyPrefix(rs: seq<ReplicaNode>, i: nat)
    requires i < |rs|
    ensures CountHealthy(rs[..i + 1]) == CountHealthy(rs[..i]) + Bit(rs[i].healthy)
  {
    assert rs[..i + 1][..i] == rs[..i];
  }

  lemma {:induction false} CountHealthyZero(rs: seq<ReplicaNode>)
    ensures CountHealthy(rs) == 0 <==> forall i :: 0 <= i < |rs| ==> !rs[i].healthy
  {
    if rs != [] {
      var init := rs[..|rs| - 1];
      CountHealthyZero(init);
      assert forall i :: 0 <= i < |init| ==> init[i] == rs[i];
    }
  }

  lemma {:induction false} CountHealthyFull(rs: seq<ReplicaNode>)
    ensures CountHealthy(rs) == |rs| <==> forall i :: 0 <= i < |rs| ==> rs[i].healthy
  {
    if rs != [] {
      var init := rs[..|rs| - 1];
      CountHealthyFull(init);
      assert forall i :: 0 <= i < |init| ==> init[i] == rs[i];
    }
  }

  /** Changing one node changes the count by that node's flag change. */
  lemma {:induction false} CountHealthyUpdate(rs: seq<ReplicaNode>, i: nat, n: ReplicaNode)
    requires i < |rs|
    ensures CountHealthy(rs[i := n]) + Bit(rs[i].healthy) == CountHealthy(rs) + Bit(n.healthy)
    decreases |rs|
  {
    var rs' := rs[i := n];
    if i == |rs| - 1 {
      assert rs'[..|rs'| - 1] == rs[..|rs| - 1];
    } else {
      assert rs'[..|rs'| - 1] == rs[..|rs| - 1][i := n];
      CountHealthyUpdate(rs[..|rs| - 1], i, n);
    }
  }

  /** Only the health flags matter to the count. */
  lemma {:induction false} CountHealthySameFlags(a: seq<ReplicaNode>, b: seq<ReplicaNode>)
    requires |a| == |b|
    requires forall i :: 0 <= i < |a| ==> a[i].healthy == b[i].healthy
    ensures CountHealthy(a) == CountHealthy(b)
  {
    if a != [] {
      CountHealthySameFlags(a[..|a| - 1], b[..|b| - 1]);
    }
  }

  /** `healthy_replicas[0]`: the first healthy node in insertion order. */
  function FirstHealthy(rs: seq<ReplicaNode>): (r: Option<nat>)
    ensures r.Some? ==> r.value < |rs| && rs[r.value].healthy
    ensures r.Some? ==> forall j :: 0 <= j < r.value ==> !rs[j].healthy
    ensures r.None? ==> forall j :: 0 <= j < |rs| ==> !rs[j].healthy
  {
    if rs == [] then None
    else if rs[0].healthy then Some(0)
    else match FirstHealthy(rs[1..])
      case None => None
      case Some(j) => Some(j + 1)
  }

  // ---------------------------------------------------------------------
  // The cluster invariant.

  /** Every two healthy nodes hold the same data. Writes reach all healthy
    * nodes and recovery copies one healthy node's data, so this holds in every
    * reachable state; it is why a read may be served by any healthy node. */
  ghost predicate Agree(rs: seq<ReplicaNode>) {
    forall i, j :: 0 <= i < |rs| && 0 <= j < |rs| && rs[i].healthy && rs[j].healthy ==> rs[i].data == rs[j].data
  }

  ghost function Ids(rs: seq<ReplicaNode>): set<string> {
    set i | 0 <= i < |rs| :: rs[i].nodeId
  }

  /** The invariant of a replica list and its failed-id set: node i has id
    * "node-<i+1>", every unhealthy node's id is in the failed set, the failed
    * set holds only node ids, and healthy nodes agree. */
  ghost predicate WellFormed(rs: seq<ReplicaNode>, failed: set<string>) {
    && (forall i :: 0 <= i < |rs| ==> rs[i].nodeId == NodeId(i))
    && (forall i :: 0 <= i < |rs| && !rs[i].healthy ==> rs[i].nodeId in failed)
    && failed <= Ids(rs)
    && Agree(rs)
  }

  /** `_failed_nodes` is exactly the set of ids of unhealthy nodes. */
  ghost predicate ExactlyFailed(rs: seq<ReplicaNode>, failed: set<string>) {
    forall i :: 0 <= i < |rs| ==> (rs[i].nodeId in failed <==> !rs[i].healthy)
  }

  /** The ids of the unhealthy nodes, as a set. */
  ghost function DownIds(rs: seq<ReplicaNode>): set<string> {
    set i | 0 <= i < |rs| && !rs[i].healthy :: rs[i].nodeId
  }

  /** The unhealthy ids of a list are those of its prefix plus, if the last
    * node is down, the last node's id. */
  lemma DownIdsSnoc(rs: seq<ReplicaNode>)
    requires rs != []
    ensures DownIds(rs) == DownIds(rs[..|rs| - 1]) + (if rs[|rs| - 1].healthy then {} else {rs[|rs| - 1].nodeId})
  {
    var k := |rs| - 1;
    var init := rs[..k];
    forall x | x in DownIds(rs)
      ensures x in DownIds(init) + (if rs[k].healthy then {} else {rs[k].nodeId})
    {
      var i :| 0 <= i < |rs| && !rs[i].healthy && rs[i].nodeId == x;
      if i < k {
        assert init[i] == rs[i];
      }
    }
  }

  /** The last node's id is not among the ids of the nodes before it. */
  lemma LastIdFresh(rs: seq<ReplicaNode>)
    requires rs != []
    requires forall i :: 0 <= i < |rs| ==> rs[i].nodeId == NodeId(i)
    ensures rs[|rs| - 1].nodeId !in DownIds(rs[..|rs| - 1])
  {
    var k := |rs| - 1;
    if rs[k].nodeId in DownIds(rs[..k]) {
      var i :| 0 <= i < k && !rs[i].healthy && rs[i].nodeId == rs[k].nodeId;
      NodeIdInjective(i, k);
    }
  }

  /** With distinct ids, the number of unhealthy ids is the number of nodes
    * minus the healthy count. */
  lemma {:induction false} DownIdsCount(rs: seq<ReplicaNode>)
    requires forall i :: 0 <= i < |rs| ==> rs[i].nodeId == NodeId(i)
    ensures |DownIds(rs)| == |rs| - CountHealthy(rs)
  {
    if rs != [] {
      var init := rs[..|rs| - 1];
      assert forall i :: 0 <= i < |init| ==> init[i].nodeId == NodeId(i);
      DownIdsCount(init);
      DownIdsSnoc(rs);
      LastIdFresh(rs);
    }
  }

  /** So, when `_failed_nodes` is exact, healthy + failed == N. */
  lemma FailedCount(rs: seq<ReplicaNode>, failed: set<string>)
    requires WellFormed(rs, failed)
    ensures ExactlyFailed(rs, failed) ==> |failed| + CountHealthy(rs) == |rs|
  {
    if ExactlyFailed(rs, failed) {
      assert failed == DownIds(rs);
      DownIdsCount(rs);
    }
  }

  // ---------------------------------------------------------------------
  // The effect of each operation on the replica list, as functions.

  function WriteNode(n: ReplicaNode, key: Key, value: Value): ReplicaNode {
    if n.healthy then n.(data := n.data[key := value], writeCount := n.writeCount + 1) else n
  }

  /** A replicated write: every healthy node stores the entry. */
  function Written(rs: seq<ReplicaNode>, key: Key, value: Value): (r: seq<ReplicaNode>)
    ensures |r| == |rs|
  {
    seq(|rs|, i requires 0 <= i < |rs| => WriteNode(rs[i], key, value))
  }

  lemma WrittenKeepsInvariant(rs: seq<ReplicaNode>, failed: set<string>, key: Key, value: Value)
    requires WellFormed(rs, failed)
    ensures WellFormed(Written(rs, key, value), failed)
    ensures ExactlyFailed(rs, failed) ==> ExactlyFailed(Written(rs, key, value), failed)
    ensures CountHealthy(Written(rs, key, value)) == CountHealthy(rs)
  {
    var w := Written(rs, key, value);
    assert Ids(w) == Ids(rs) by {
      assert forall i :: 0 <= i < |rs| ==> w[i].nodeId == rs[i].nodeId;
    }
    CountHealthySameFlags(rs, w);
  }

  /** After a replicated write the same node serves reads, and every healthy
    * node maps the key to the new value. */
  lemma WrittenView(rs: seq<ReplicaNode>, key: Key, value: Value)
    ensures FirstHealthy(Written(rs, key, value)) == FirstHealthy(rs)
    ensures forall i :: 0 <= i < |rs| && rs[i].healthy ==> Written(rs, key, value)[i].data == rs[i].data[key := value]
  {
    FirstHealthySameFlags(rs, Written(rs, key, value));
  }

  /** Only health flags differ; data and counters are as they were. */
  ghost predicate FlagsOnly(a: seq<ReplicaNode>, b: seq<ReplicaNode>) {
    |a| == |b| && forall i :: 0 <= i < |a| ==> b[i] == a[i].(healthy := b[i].healthy)
  }

  /** No node came back up. */
  ghost predicate NoneRevived(a: seq<ReplicaNode>, b: seq<ReplicaNode>) {
    |a| == |b| && forall i :: 0 <= i < |a| && b[i].healthy ==> a[i].healthy
  }

  /** The ids of the nodes that went down between `a` and `b`. */
  ghost function WentDown(a: seq<ReplicaNode>, b: seq<ReplicaNode>): set<string>
    requires |a| == |b|
  {
    set i | 0 <= i < |a| && a[i].healthy && !b[i].healthy :: a[i].nodeId
  }

  /** Taking one more healthy node down keeps the failure bookkeeping exact. */
  lemma WentDownStep(a: seq<ReplicaNode>, b: seq<ReplicaNode>, i: nat)
    requires |a| == |b| && i < |b| && a[i].healthy && b[i].healthy
    ensures WentDown(a, b[i := b[i].(healthy := false)]) == WentDown(a, b) + {a[i].nodeId}
  {
    var b' := b[i := b[i].(healthy := false)];
    forall x | x in WentDown(a, b')
      ensures x in WentDown(a, b) + {a[i].nodeId}
    {
      var j :| 0 <= j < |a| && a[j].healthy && !b'[j].healthy && a[j].nodeId == x;
      if j != i {
        assert !b[j].healthy;
      }
    }
  }

  lemma FlagsOnlyKeepsInvariant(a: seq<ReplicaNode>, failed: set<string>, b: seq<ReplicaNode>)
    requires WellFormed(a, failed)
    requires FlagsOnly(a, b) && NoneRevived(a, b)
    ensures WellFormed(b, failed + WentDown(a, b))
    ensures ExactlyFailed(a, failed) ==> ExactlyFailed(b, failed + WentDown(a, b))
  {
    assert Ids(b) == Ids(a) by {
      assert forall i :: 0 <= i < |a| ==> b[i].nodeId == a[i].nodeId;
    }
    assert WentDown(a, b) <= Ids(a);
    forall i | 0 <= i < |b| && !b[i].healthy
      ensures b[i].nodeId in failed + WentDown(a, b)
    {
      if a[i].healthy {
        assert a[i].nodeId in WentDown(a, b);
      }
    }
    if ExactlyFailed(a, failed) {
      forall i | 0 <= i < |b| && b[i].nodeId in failed + WentDown(a, b)
        ensures !b[i].healthy
      {
        if b[i].nodeId !in failed {
          var j :| 0 <= j < |a| && a[j].healthy && !b[j].healthy && a[j].nodeId == b[i].nodeId;
          NodeIdInjective(i, j);
        }
      }
    }
  }

  /** Recovery of the nodes whose ids are pending: each comes back healthy
    * holding `source` (a copy of the sync source, or an empty map); every
    * other node is left as it was. */
  function Resynced(rs: seq<ReplicaNode>, pending: set<string>, source: map<Key, Value>): (r: seq<ReplicaNode>)
    ensures |r| == |rs|
  {
    seq(|rs|, i requires 0 <= i < |rs| =>
      if rs[i].nodeId in pending then rs[i].(healthy := true, data := source) else rs[i])
  }

  /** Which way `recover` goes. */
  datatype RecoveryPath =
    | NothingFailed          // no failed nodes: nothing happens
    | StartedEmpty           // no healthy node: failed nodes come back empty
    | Cascaded(source: nat)  // the sync source crashed: recovery aborted
    | Synced(source: nat)    // failed nodes got a copy of the source's data

  function PathOf(rs: seq<ReplicaNode>, failed: set<string>, rareEvent: bool): (p: RecoveryPath)
    ensures p.Cascaded? || p.Synced? ==> p.source < |rs| && Some(p.source) == FirstHealthy(rs)
  {
    if failed == {} then NothingFailed
    else match FirstHealthy(rs)
      case None => StartedEmpty
      case Some(src) => if |failed| >= 2 && rareEvent then Cascaded(src) else Synced(src)
  }

  /** The replica list after `recover`. */
  function Recovered(rs: seq<ReplicaNode>, failed: set<string>, rareEvent: bool): (r: seq<ReplicaNode>)
    ensures |r| == |rs|
  {
    match PathOf(rs, failed, rareEvent)
    case NothingFailed => rs
    case StartedEmpty => Resynced(rs, failed, map[])
    case Cascaded(src) => rs[src := rs[src].(healthy := false)]
    case Synced(src) => Resynced(rs, failed, rs[src].data)
  }

  /** `_failed_nodes` after `recover`. */
  function FailedAfterRecovery(rs: seq<ReplicaNode>, failed: set<string>, rareEvent: bool): set<string> {
    match PathOf(rs, failed, rareEvent)
    case NothingFailed => failed
    case Cascaded(src) => failed + {rs[src].nodeId}
    case _ => {}
  }

  /** A recovery that is not aborted brings every node back up: all of them
    * empty when none was healthy, all of them holding the sync source's data
    * otherwise. */
  lemma RecoveryHealsAll(rs: seq<ReplicaNode>, failed: set<string>, rareEvent: bool)
    requires WellFormed(rs, failed)
    requires PathOf(rs, failed, rareEvent).StartedEmpty? || PathOf(rs, failed, rareEvent).Synced?
    ensures forall i :: 0 <= i < |rs| ==> Recovered(rs, failed, rareEvent)[i].healthy
    ensures PathOf(rs, failed, rareEvent).StartedEmpty? ==>
      forall i :: 0 <= i < |rs| ==> Recovered(rs, failed, rareEvent)[i].data == map[]
    ensures PathOf(rs, failed, rareEvent).Synced? ==>
      forall i :: 0 <= i < |rs| ==>
        Recovered(rs, failed, rareEvent)[i].data == rs[PathOf(rs, failed, rareEvent).source].data
    ensures CountHealthy(Recovered(rs, failed, rareEvent)) == |rs| > 0
  {
    var r := Recovered(rs, failed, rareEvent);
    var x :| x in failed;
    assert |rs| > 0;
    CountHealthyFull(r);
  }

  /** Without the cascade draw a recovery always completes: afterwards no
    * node is marked failed and every node is up. */
  lemma CalmRecoveryHeals(rs: seq<ReplicaNode>, failed: set<string>)
    requires WellFormed(rs, failed)
    ensures FailedAfterRecovery(rs, failed, false) == {}
    ensures CountHealthy(Recovered(rs, failed, false)) == |rs|
  {
    if failed == {} {
      CountHealthyFull(rs);
    } else {
      RecoveryHealsAll(rs, failed, false);
    }
  }

  lemma RecoveryHealsAllIf(rs: seq<ReplicaNode>, failed: set<string>, rareEvent: bool)
    requires WellFormed(rs, failed)
    ensures PathOf(rs, failed, rareEvent).StartedEmpty? || PathOf(rs, failed, rareEvent).Synced? ==>
      CountHealthy(Recovered(rs, failed, rareEvent)) == |rs| > 0
  {
    if PathOf(rs, failed, rareEvent).StartedEmpty? || PathOf(rs, failed, rareEvent).Synced? {
      RecoveryHealsAll(rs, failed, rareEvent);
    }
  }

  /** A node list in which the nodes keep their ids keeps the id set. */
  lemma SameIds(a: seq<ReplicaNode>, b: seq<ReplicaNode>)
    requires |a| == |b| && forall i :: 0 <= i < |a| ==> a[i].nodeId == b[i].nodeId
    ensures Ids(a) == Ids(b)
  {
    forall x | x in Ids(b) ensures x in Ids(a) {
      var i :| 0 <= i < |b| && b[i].nodeId == x;
      assert a[i].nodeId == x;
    }
  }

  /** The aborted path: the sync source goes down and joins the failed set. */
  lemma CascadeKeepsInvariant(rs: seq<ReplicaNode>, failed: set<string>, src: nat)
    requires WellFormed(rs, failed) && src < |rs|
    ensures WellFormed(rs[src := rs[src].(healthy := false)], failed + {rs[src].nodeId})
    ensures ExactlyFailed(rs, failed) ==>
      ExactlyFailed(rs[src := rs[src].(healthy := false)], failed + {rs[src].nodeId})
  {
    var r := rs[src := rs[src].(healthy := false)];
    SameIds(rs, r);
    if ExactlyFailed(rs, failed) {
      forall i | 0 <= i < |r| && r[i].nodeId in failed + {rs[src].nodeId}
        ensures !r[i].healthy
      {
        if i != src && r[i].nodeId == rs[src].nodeId {
          NodeIdInjective(i, src);
        }
      }
    }
  }

  /** Every path of `recover` keeps the invariant, and keeps the failed set
    * exact when it was exact. */
  lemma RecoveryKeepsInvariant(rs: seq<ReplicaNode>, failed: set<string>, rareEvent: bool)
    requires WellFormed(rs, failed)
    ensures WellFormed(Recovered(rs, failed, rareEvent), FailedAfterRecovery(rs, failed, rareEvent))
    ensures ExactlyFailed(rs, failed) ==>
      ExactlyFailed(Recovered(rs, failed, rareEvent), FailedAfterRecovery(rs, failed, rareEvent))
  {
    match PathOf(rs, failed, rareEvent)
    case NothingFailed =>
    case StartedEmpty =>
      RecoveryHealsAll(rs, failed, rareEvent);
      SameIds(rs, Recovered(rs, failed, rareEvent));
    case Synced(src) =>
      RecoveryHealsAll(rs, failed, rareEvent);
      SameIds(rs, Recovered(rs, failed, rareEvent));
    case Cascaded(src) =>
      CascadeKeepsInvariant(rs, failed, src);
  }

  /** What hybrid's checkpoint load does to the nodes: every node comes up
    * holding a copy of the checkpoint data; the failed set is left alone. */
  function Restored(rs: seq<ReplicaNode>, data: map<Key, Value>): (r: seq<ReplicaNode>)
    ensures |r| == |rs|
    ensures forall i :: 0 <= i < |rs| ==> r[i].healthy && r[i].data == data && r[i].nodeId == rs[i].nodeId
  {
    seq(|rs|, i requires 0 <= i < |rs| => rs[i].(healthy := true, data := data))
  }

  lemma RestoredKeepsInvariant(rs: seq<ReplicaNode>, failed: set<string>, data: map<Key, Value>)
    requires WellFormed(rs, failed)
    ensures WellFormed(Restored(rs, data), failed)
    ensures CountHealthy(Restored(rs, data)) == |rs|
  {
    SameIds(rs, Restored(rs, data));
    CountHealthyFull(Restored(rs, data));
  }

  /** A recovery run right after a checkpoint load leaves every node holding
    * the checkpoint data, and every node but at most the crashed sync source
    * healthy. */
  lemma RecoveryAfterRestore(rs: seq<ReplicaNode>, failed: set<string>, data: map<Key, Value>, rareEvent: bool)
    requires WellFormed(rs, failed)
    ensures forall i :: 0 <= i < |rs| ==> Recovered(Restored(rs, data), failed, rareEvent)[i].data == data
    ensures forall i :: 1 <= i < |rs| ==> Recovered(Restored(rs, data), failed, rareEvent)[i].healthy
  {
    var r := Restored(rs, data);
    RestoredKeepsInvariant(rs, failed, data);
    match PathOf(r, failed, rareEvent)
    case NothingFailed =>
    case StartedEmpty =>
    case Cascaded(src) =>
    case Synced(src) =>
      RecoveryHealsAll(r, failed, rareEvent);
  }

  /** `_initialize_replicas`: nodes "node-1" .. "node-N", healthy and empty. */
  method InitializeReplicas(count: nat) returns (rs: seq<ReplicaNode>)
    ensures |rs| == count
    ensures forall i :: 0 <= i < count ==> rs[i] == FreshNode(i)
  {
    rs := [];
    for i := 0 to count
      invariant |rs| == i
      invariant forall j :: 0 <= j < i ==> rs[j] == FreshNode(j)
    {
      rs := rs + [FreshNode(i)];
    }
  }

  /** The write loop of `store`: every healthy node stores the entry and
    * bumps its write counter; the number of successful writes is the number
    * of healthy nodes. */
  method WriteHealthy(rs: seq<ReplicaNode>, key: Key, value: Value) returns (out: seq<ReplicaNode>, successes: nat)
    ensures out == Written(rs, key, value)
    ensures successes == CountHealthy(rs)
  {
    out := rs;
    successes := 0;
    var i := 0;
    while i < |out|
      invariant 0 <= i <= |out| == |rs|
      invariant forall j :: 0 <= j < i ==> out[j] == WriteNode(rs[j], key, value)
      invariant forall j :: i <= j < |out| ==> out[j] == rs[j]
      invariant successes == CountHealthy(rs[..i])
    {
      CountHealthyPrefix(rs, i);
      if out[i].healthy {
        out := out[i := WriteNode(out[i], key, value)];
        successes := successes + 1;
      }
      i := i + 1;
    }
    assert rs[..i] == rs;
  }

  /** The loop of `simulate_failure` that takes every healthy node down,
    * collecting the ids it adds to the failed set. */
  method TakeAllDown(rs: seq<ReplicaNode>) returns (out: seq<ReplicaNode>, downed: set<string>)
    ensures FlagsOnly(rs, out) && NoneRevived(rs, out)
    ensures forall i :: 0 <= i < |out| ==> !out[i].healthy
    ensures downed == WentDown(rs, out)
  {
    out := rs;
    downed := {};
    var i := 0;
    while i < |out|
      invariant 0 <= i <= |out| == |rs|
      invariant FlagsOnly(rs, out) && NoneRevived(rs, out)
      invariant forall j :: 0 <= j < i ==> !out[j].healthy
      invariant forall j :: i <= j < |out| ==> out[j] == rs[j]
      invariant downed == WentDown(rs, out)
    {
      if out[i].healthy {
        WentDownStep(rs, out, i);
        downed := downed + {out[i].nodeId};
        out := out[i := out[i].(healthy := false)];
      }
      i := i + 1;
    }
  }

  /** The loop of `simulate_failure` over `random.sample(healthy, count)`:
    * exactly `count` healthy nodes, chosen arbitrarily, go down. */
  method TakeSomeDown(rs: seq<ReplicaNode>, count: nat) returns (out: seq<ReplicaNode>, downed: set<string>)
    requires count <= CountHealthy(rs)
    ensures FlagsOnly(rs, out) && NoneRevived(rs, out)
    ensures CountHealthy(out) == CountHealthy(rs) - count
    ensures downed == WentDown(rs, out)
  {
    out := rs;
    downed := {};
    var taken := 0;
    while taken < count
      invariant 0 <= taken <= count
      invariant FlagsOnly(rs, out) && NoneRevived(rs, out)
      invariant CountHealthy(out) == CountHealthy(rs) - taken
      invariant downed == WentDown(rs, out)
    {
      CountHealthyZero(out);
      var i :| 0 <= i < |out| && out[i].healthy;
      WentDownStep(rs, out, i);
      CountHealthyUpdate(out, i, out[i].(healthy := false));
      downed := downed + {out[i].nodeId};
      out := out[i := out[i].(healthy := false)];
      taken := taken + 1;
    }
  }

  /** The loop over `list(self._failed_nodes)` in `recover`: every pending node
    * comes back healthy holding `source`, and its id is discarded. */
  method ResyncNodes(rs: seq<ReplicaNode>, pending: set<string>, source: map<Key, Value>)
    returns (out: seq<ReplicaNode>, remaining: set<string>)
    ensures out == Resynced(rs, pending, source)
    ensures remaining == pending - Ids(rs)
  {
    out := rs;
    remaining := pending;
    var i := 0;
    while i < |out|
      invariant 0 <= i <= |out| == |rs|
      invariant forall j :: 0 <= j < i ==> out[j] == Resynced(rs, pending, source)[j]
      invariant forall j :: i <= j < |out| ==> out[j] == rs[j]
      invariant remaining == pending - set j | 0 <= j < i :: rs[j].nodeId
    {
      ghost var seen := set j | 0 <= j < i :: rs[j].nodeId;
      assert (set j | 0 <= j < i + 1 :: rs[j].nodeId) == seen + {rs[i].nodeId};
      if out[i].nodeId in pending {
        out := out[i := out[i].(healthy := true, data := source)];
        remaining := remaining - {out[i].nodeId};
      }
      i := i + 1;
    }
    assert (set j | 0 <= j < i :: rs[j].nodeId) == Ids(rs);
  }

  /** Node i serves one read: its read counter goes up by one. */
  function CountRead(rs: seq<ReplicaNode>, i: nat): (r: seq<ReplicaNode>)
    requires i < |rs|
    ensures |r| == |rs|
    ensures forall j :: 0 <= j < |rs| ==>
      r[j].nodeId == rs[j].nodeId && r[j].healthy == rs[j].healthy && r[j].data == rs[j].data
  {
    rs[i := rs[i].(readCount := rs[i].readCount + 1)]
  }

  /** Changes that leave every node's id, health and data alone keep the
    * invariant. */
  lemma SameShapeKeepsInvariant(a: seq<ReplicaNode>, b: seq<ReplicaNode>, failed: set<string>)
    requires |a| == |b|
    requires forall j :: 0 <= j < |a| ==>
      b[j].nodeId == a[j].nodeId && b[j].healthy == a[j].healthy && b[j].data == a[j].data
    requires WellFormed(a, failed)
    ensures WellFormed(b, failed)
    ensures ExactlyFailed(a, failed) ==> ExactlyFailed(b, failed)
    ensures CountHealthy(b) == CountHealthy(a) && FirstHealthy(b) == FirstHealthy(a)
  {
    SameIds(a, b);
    forall i, j | 0 <= i < |b| && 0 <= j < |b| && b[i].healthy && b[j].healthy
      ensures b[i].data == b[j].data
    {
      assert a[i].data == a[j].data;
    }
    CountHealthySameFlags(a, b);
    FirstHealthySameFlags(a, b);
  }

  /** Counting a read keeps the invariant, the health flags and the node
    * that would serve the next read. */
  lemma ReadKeepsInvariant(rs: seq<ReplicaNode>, failed: set<string>, i: nat)
    requires WellFormed(rs, failed) && i < |rs|
    ensures WellFormed(CountRead(rs, i), failed)
    ensures ExactlyFailed(rs, failed) ==> ExactlyFailed(CountRead(rs, i), failed)
    ensures CountHealthy(CountRead(rs, i)) == CountHealthy(rs)
    ensures FirstHealthy(CountRead(rs, i)) == FirstHealthy(rs)
  {
    SameShapeKeepsInvariant(rs, CountRead(rs, i), failed);
  }

  lemma {:induction false} FirstHealthySameFlags(a: seq<ReplicaNode>, b: seq<ReplicaNode>)
    requires |a| == |b|
    requires forall i :: 0 <= i < |a| ==> a[i].healthy == b[i].healthy
    ensures FirstHealthy(a) == FirstHealthy(b)
  {
    if a != [] && !a[0].healthy {
      FirstHealthySameFlags(a[1..], b[1..]);
    }
  }

  /** Any healthy node serves what the first healthy node holds. */
  lemma AnyHealthyServes(rs: seq<ReplicaNode>, failed: set<string>, i: nat)
    requires WellFormed(rs, failed) && i < |rs| && rs[i].healthy
    ensures FirstHealthy(rs).Some? && rs[i].data == rs[FirstHealthy(rs).value].data
  {
  }

  /** The body of `recover` on the node list and the failed set: nothing to
    * do, every failed node back empty, the sync source crashing (the
    * recovery is then aborted and `completed` is false), or every failed node
    * resynced from the first healthy one. */
  method RecoverNodes(rs: seq<ReplicaNode>, failed: set<string>, rareEvent: bool)
    returns (out: seq<ReplicaNode>, outFailed: set<string>, completed: bool)
    requires failed <= Ids(rs)
    ensures out == Recovered(rs, failed, rareEvent)
    ensures outFailed == FailedAfterRecovery(rs, failed, rareEvent)
    ensures completed <==> PathOf(rs, failed, rareEvent).StartedEmpty? || PathOf(rs, failed, rareEvent).Synced?
    ensures !rareEvent && WellFormed(rs, failed) ==> outFailed == {} && CountHealthy(out) == |out|
  {
    if !rareEvent && WellFormed(rs, failed) {
      CalmRecoveryHeals(rs, failed);
    }
    if failed == {} {
      return rs, failed, false;
    }
    var first := FirstHealthy(rs);
    if first.None? {
      out, outFailed := ResyncNodes(rs, failed, map[]);
    } else {
      var src := first.value;
      if |failed| >= 2 && rareEvent {
        return rs[src := rs[src].(healthy := false)], failed + {rs[src].nodeId}, false;
      }
      out, outFailed := ResyncNodes(rs, failed, rs[src].data);
    }
    completed := true;
  }

  /** The dictionary `get_cluster_status` reports for one node. */
  datatype NodeStatus = NodeStatus(nodeId: string, healthy: bool, dataCount: nat, writeCount: nat, readCount: nat)

  /** The dictionary `get_cluster_status` reports for the cluster. */
  datatype ClusterStatus = ClusterStatus(
    replicationFactor: nat, healthyNodes: nat, failedNodes: set<string>,
    writeQuorum: int, readQuorum: int, canAcceptWrites: bool, canAcceptReads: bool,
    nodes: seq<NodeStatus>)

  class ReplicationStrategy {
    const base: StrategyBase
    const replicationFactor: nat
    const writeQuorum: int
    const readQuorum: int
    var replicas: seq<ReplicaNode>
    var failedNodes: set<string>

    ghost predicate Valid()
      reads this
    {
      |replicas| == replicationFactor && WellFormed(replicas, failedNodes)
    }

    /** The invariant the replication strategy keeps on its own; hybrid's
      * checkpoint load marks nodes healthy without touching the failed set. */
    ghost predicate Consistent()
      reads this
    {
      Valid() && ExactlyFailed(replicas, failedNodes)
    }

    function HealthyCount(): nat
      reads this
    {
      CountHealthy(replicas)
    }

    /** What a retrieve returns for each key, whichever healthy node serves it. */
    ghost function View(): map<Key, Value>
      reads this, base
    {
      if base.failed || HealthyCount() < readQuorum then map[]
      else match FirstHealthy(replicas)
        case None => map[]
        case Some(i) => replicas[i].data
    }

    /** Reads are answered: the cluster is up, a read quorum of nodes is
      * healthy, and there is a node to choose. */
    ghost predicate Serving()
      reads this, base
    {
      !base.failed && HealthyCount() >= readQuorum && HealthyCount() > 0
    }

    constructor (config: Config)
      ensures Valid() && Consistent() && fresh(base)
      ensures replicationFactor == config.replicationFactor.GetOr(DefaultReplicationFactor)
      ensures writeQuorum == config.writeQuorum.GetOr(replicationFactor / 2 + 1)
      ensures readQuorum == config.readQuorum.GetOr(1)
      ensures forall i :: 0 <= i < |replicas| ==> replicas[i] == FreshNode(i)
      ensures failedNodes == {}
      ensures !base.failed && base.stats == NoStats
    {
      var factor := config.replicationFactor.GetOr(DefaultReplicationFactor);
      var nodes := InitializeReplicas(factor);
      base := new StrategyBase();
      replicationFactor := factor;
      writeQuorum := config.writeQuorum.GetOr(factor / 2 + 1);
      readQuorum := config.readQuorum.GetOr(1);
      replicas := nodes;
      failedNodes := {};
      new;
      assert forall i :: 0 <= i < |replicas| ==> replicas[i].healthy;
    }

    function StrategyName(): string {
      "Replication (Factor: " + NatToString(replicationFactor) + ")"
    }

    /** `store`: accepted iff the cluster is up and at least a write quorum of
      * nodes is healthy; then every healthy node gets the entry. A rejected
      * write touches no node. */
    method Store(key: Key, value: Value) returns (ok: bool)
      requires Valid()
      modifies this, base
      ensures Valid() && (old(Consistent()) ==> Consistent())
      ensures ok <==> !old(base.failed) && old(HealthyCount()) >= writeQuorum
      ensures replicas == if ok then Written(old(replicas), key, value) else old(replicas)
      ensures failedNodes == old(failedNodes)
      ensures HealthyCount() == old(HealthyCount())
      ensures base.failed == old(base.failed)
      ensures base.stats == if ok then old(base.stats).Bump(Writes) else old(base.stats)
      ensures Serving() == old(Serving())
      ensures ok && Serving() ==> View() == old(View())[key := value]
      ensures !ok ==> View() == old(View())
    {
      if base.failed {
        return false;
      }
      var healthyCount := HealthyCount();
      if healthyCount < writeQuorum {
        return false;
      }
      WrittenKeepsInvariant(replicas, failedNodes, key, value);
      WrittenView(replicas, key, value);
      CountHealthyZero(replicas);
      var successfulWrites;
      replicas, successfulWrites := WriteHealthy(replicas, key, value);
      ok := successfulWrites >= writeQuorum;
      if ok {
        base.RecordOperation(Writes);
      }
    }

    /** `retrieve`: absent while the cluster is failed or below the read
      * quorum; otherwise some healthy node (random.choice) serves the read and
      * counts it. Healthy nodes agree, so the answer is the same whichever
      * node is chosen. With a read quorum of 0 and no healthy node,
      * random.choice raises. */
    method Retrieve(key: Key) returns (r: Result<Option<Value>>, ghost servedBy: nat)
      requires Valid()
      modifies this, base
      ensures Valid() && (old(Consistent()) ==> Consistent())
      ensures r == if old(base.failed) || old(HealthyCount()) < readQuorum then Ok(None)
                   else if old(HealthyCount()) == 0 then Err(EmptyChoice)
                   else Ok(Lookup(old(View()), key))
      ensures old(base.failed) || old(HealthyCount()) < readQuorum || old(HealthyCount()) == 0 ==>
        replicas == old(replicas) && base.stats == old(base.stats)
      ensures !old(base.failed) && old(HealthyCount()) >= readQuorum && old(HealthyCount()) > 0 ==>
        && servedBy < |replicas| && old(replicas)[servedBy].healthy
        && replicas == CountRead(old(replicas), servedBy)
        && base.stats == old(base.stats).Bump(Reads)
      ensures failedNodes == old(failedNodes) && base.failed == old(base.failed)
      ensures HealthyCount() == old(HealthyCount()) && View() == old(View())
    {
      servedBy := 0;
      if base.failed {
        return Ok(None), servedBy;
      }
      var healthyCount := HealthyCount();
      if healthyCount < readQuorum {
        return Ok(None), servedBy;
      }
      if healthyCount == 0 {
        return Err(EmptyChoice), servedBy;
      }
      CountHealthyZero(replicas);
      var i :| 0 <= i < |replicas| && replicas[i].healthy;
      servedBy := i;
      AnyHealthyServes(replicas, failedNodes, i);
      ReadKeepsInvariant(replicas, failedNodes, i);
      r := Ok(Lookup(replicas[i].data, key));
      ghost var before := replicas;
      replicas := CountRead(replicas, i);
      assert HealthyCount() == CountHealthy(before) && FirstHealthy(replicas) == FirstHealthy(before);
      base.RecordOperation(Reads);
    }

    /** `simulate_failure(node_count)`. If the count reaches the number of
      * healthy nodes, all of them go down and the cluster fails; otherwise
      * exactly that many healthy nodes (random.sample) go down and the failed
      * flag is unchanged; a negative count makes random.sample raise. No node
      * loses its data either way. */
    method SimulateFailure(nodeCount: int) returns (outcome: Outcome)
      requires Valid()
      modifies this, base
      ensures Valid() && (old(Consistent()) ==> Consistent())
      ensures outcome == if nodeCount < 0 then Fail(NegativeSampleSize(nodeCount)) else Pass
      ensures outcome.Fail? ==> replicas == old(replicas) && failedNodes == old(failedNodes)
                                && base.failed == old(base.failed) && base.stats == old(base.stats)
      ensures FlagsOnly(old(replicas), replicas) && NoneRevived(old(replicas), replicas)
      ensures failedNodes == old(failedNodes) + WentDown(old(replicas), replicas)
      ensures nodeCount >= old(HealthyCount()) ==> HealthyCount() == 0 && base.failed
      ensures 0 <= nodeCount < old(HealthyCount()) ==>
        HealthyCount() == old(HealthyCount()) - nodeCount && base.failed == old(base.failed)
      ensures outcome == Pass ==> base.stats == old(base.stats).Bump(FailuresSimulated)
    {
      var healthyCount := HealthyCount();
      var downed: set<string>;
      ghost var before := replicas;
      if nodeCount >= healthyCount {
        replicas, downed := TakeAllDown(replicas);
        CountHealthyZero(replicas);
        base.failed := true;
      } else if nodeCount < 0 {
        return Fail(NegativeSampleSize(nodeCount));
      } else {
        replicas, downed := TakeSomeDown(replicas, nodeCount);
      }
      FlagsOnlyKeepsInvariant(before, failedNodes, replicas);
      failedNodes := failedNodes + downed;
      base.RecordOperation(FailuresSimulated);
      outcome := Pass;
    }

    /** `recover`, with `rareEvent` standing for the 5% draw that crashes the
      * sync source when two or more nodes are being recovered. The new node
      * list and failed set are `Recovered` and `FailedAfterRecovery`; a
      * recovery that runs to the end clears the failed flag exactly when some
      * node is healthy and counts one recovery. */
    method Recover(rareEvent: bool)
      requires Valid()
      modifies this, base
      ensures Valid() && (old(Consistent()) ==> Consistent())
      ensures replicas == Recovered(old(replicas), old(failedNodes), rareEvent)
      ensures failedNodes == FailedAfterRecovery(old(replicas), old(failedNodes), rareEvent)
      ensures match PathOf(old(replicas), old(failedNodes), rareEvent)
        case NothingFailed | Cascaded(_) =>
          base.failed == old(base.failed) && base.stats == old(base.stats)
        case _ =>
          !base.failed && HealthyCount() == |replicas| && base.stats == old(base.stats).Bump(Recoveries)
      ensures !rareEvent ==> failedNodes == {} && HealthyCount() == |replicas|
    {
      RecoveryKeepsInvariant(replicas, failedNodes, rareEvent);
      RecoveryHealsAllIf(replicas, failedNodes, rareEvent);
      var completed;
      replicas, failedNodes, completed := RecoverNodes(replicas, failedNodes, rareEvent);
      if completed {
        base.failed := HealthyCount() == 0;
        base.RecordOperation(Recoveries);
      }
    }

    /** `get_cluster_status`. When the failed set is exact the healthy and
      * failed counts add up to the replication factor. */
    function ClusterStatusReport(): (s: ClusterStatus)
      requires Valid()
      reads this
      ensures s.healthyNodes == HealthyCount() && s.failedNodes == failedNodes
      ensures s.canAcceptWrites <==> HealthyCount() >= writeQuorum
      ensures s.canAcceptReads <==> HealthyCount() >= readQuorum
      ensures Consistent() ==> s.healthyNodes + |s.failedNodes| == replicationFactor
      ensures |s.nodes| == |replicas|
      ensures forall i :: 0 <= i < |replicas| ==> s.nodes[i].healthy == replicas[i].healthy
    {
      FailedCount(replicas, failedNodes);
      StatusOf()
    }

    function StatusOf(): ClusterStatus
      reads this
    {
      var h := HealthyCount();
      ClusterStatus(replicationFactor, h, failedNodes, writeQuorum, readQuorum,
                    h >= writeQuorum, h >= readQuorum,
                    seq(|replicas|, i requires 0 <= i < |replicas| reads this =>
                      NodeStatus(replicas[i].nodeId, replicas[i].healthy, |replicas[i].data|,
                                 replicas[i].writeCount, replicas[i].readCount)))
    }

    /** `get_data_count`: the first healthy node's key count, 0 when none is
      * healthy; since healthy nodes agree, every healthy node has that many. */
    function DataCount(): (n: nat)
      requires Valid()
      reads this
      ensures forall i :: 0 <= i < |replicas| && replicas[i].healthy ==> n == |replicas[i].data|
      ensures HealthyCount() == 0 ==> n == 0
    {
      CountHealthyZero(replicas);
      match FirstHealthy(replicas)
      case None => 0
      case Some(i) => |replicas[i].data|
    }
  }
}
