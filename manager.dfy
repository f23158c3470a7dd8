/**
 * FaultToleranceManager: the strategy registry, the hot swap between
 * strategies, delegation of the data operations to the active strategy,
 * the experiment harness, and the process-wide manager instance.
 */
module Manager {
  import opened Common
  import opened Base
  import opened Storage
  import opened Baseline
  import opened Replication
  import opened Checkpointing
  import opened Hybrid

  // ---------------------------------------------------------------------
  // The registry (STRATEGY_MAP).

  datatype StrategyKind = BaselineKind | CheckpointingKind | ReplicationKind | HybridKind

  /** The registry's keys, in their insertion order. */
  const StrategyNames: seq<string> := ["baseline", "checkpointing", "replication", "hybrid"]

  /** The registry lookup: the four names and nothing else select a strategy. */
  function KindOf(name: string): (k: Option<StrategyKind>)
    ensures k.Some? <==> name in StrategyNames
  {
    if name == "baseline" then Some(BaselineKind)
    else if name == "checkpointing" then Some(CheckpointingKind)
    else if name == "replication" then Some(ReplicationKind)
    else if name == "hybrid" then Some(HybridKind)
    else None
  }

  /** The registry key of a strategy kind; looking it up gives the kind back,
    * and it is the only name that does. */
  function KindName(k: StrategyKind): (name: string)
    ensures KindOf(name) == Some(k)
    ensures forall n :: KindOf(n) == Some(k) ==> n == name
  {
    match k
    case BaselineKind => "baseline"
    case CheckpointingKind => "checkpointing"
    case ReplicationKind => "replication"
    case HybridKind => "hybrid"
  }

  /** `get_available_strategies`: exactly the names the registry accepts,
    * each once. */
  function AvailableStrategies(): (names: seq<string>)
    ensures forall n :: n in names <==> KindOf(n).Some?
    ensures forall i, j :: 0 <= i < j < |names| ==> names[i] != names[j]
  {
    StrategyNames
  }

  // ---------------------------------------------------------------------
  // The active strategy.

  /** The keyword arguments `simulate_failure(**kwargs)` is called with. */
  datatype FailureArgs = NoArguments | NodeCount(count: int) | FailureType(failureType: string)

  /** Which keyword a strategy's `simulate_failure` signature accepts. */
  predicate Accepts(k: StrategyKind, args: FailureArgs) {
    match k
    case BaselineKind | CheckpointingKind => args.NoArguments?
    case ReplicationKind => !args.FailureType?
    case HybridKind => !args.NodeCount?
  }

  /** The strategy instance the manager delegates to. */
  datatype Active =
    | BaselineActive(b: BaselineStrategy)
    | CheckpointingActive(c: CheckpointingStrategy)
    | ReplicationActive(r: ReplicationStrategy)
    | HybridActive(h: HybridStrategy)
  {
    function Kind(): StrategyKind {
      match this
      case BaselineActive(_) => BaselineKind
      case CheckpointingActive(_) => CheckpointingKind
      case ReplicationActive(_) => ReplicationKind
      case HybridActive(_) => HybridKind
    }

    /** The objects holding the strategy's in-memory state. */
    function Memory(): set<object> {
      match this
      case BaselineActive(b) => {b, b.base}
      case CheckpointingActive(c) => {c, c.base}
      case ReplicationActive(r) => {r, r.base}
      case HybridActive(h) => {h, h.base, h.replication, h.replication.base}
    }

    /** Its checkpoint directory, which outlives the instance. */
    function Dirs(): set<object> {
      match this
      case CheckpointingActive(c) => {c.dir}
      case HybridActive(h) => {h.dir}
      case _ => {}
    }

    /** Every object the strategy's operations may change. */
    function Footprint(): set<object> {
      Memory() + Dirs()
    }

    /** The counters and failed flag the strategy inherits. */
    function BaseOf(): StrategyBase {
      match this
      case BaselineActive(b) => b.base
      case CheckpointingActive(c) => c.base
      case ReplicationActive(r) => r.base
      case HybridActive(h) => h.base
    }

    /** The strategy's `strategy_name` property. */
    function FullName(): string {
      match this
      case BaselineActive(b) => b.StrategyName()
      case CheckpointingActive(c) => c.StrategyName()
      case ReplicationActive(r) => r.StrategyName()
      case HybridActive(h) => h.StrategyName()
    }

    ghost predicate Valid()
      reads Footprint()
    {
      match this
      case BaselineActive(b) => true
      case CheckpointingActive(c) => c.Valid()
      case ReplicationActive(r) => r.Valid()
      case HybridActive(h) => h.Valid()
    }

    /** What a retrieve currently returns for each key. */
    ghost function Served(): map<Key, Value>
      reads Memory()
    {
      match this
      case BaselineActive(b) => b.View()
      case CheckpointingActive(c) => c.View()
      case ReplicationActive(r) => r.View()
      case HybridActive(h) => h.View()
    }

    /** Whether reads are currently answered at all. */
    ghost predicate Serving()
      reads Memory()
    {
      match this
      case BaselineActive(b) => !b.base.failed
      case CheckpointingActive(c) => !c.base.failed
      case ReplicationActive(r) => r.Serving()
      case HybridActive(h) => h.Serving()
    }

    /** The checkpoint files the strategy reads from and writes to. */
    ghost function Files(): map<string, CheckpointFile>
      reads Dirs()
    {
      match this
      case CheckpointingActive(c) => c.dir.files
      case HybridActive(h) => h.dir.files
      case _ => map[]
    }

    /** What the strategy's checkpoint files give back on a load: nothing for
      * the in-memory strategies; the newest snapshot for the two that write
      * snapshots (for hybrid, when it has a node to hold it). */
    ghost function OnDisk(): map<Key, Value>
      reads Dirs()
    {
      match this
      case CheckpointingActive(c) => LoadedData(c.dir.files, map[])
      case HybridActive(h) =>
        if h.replicationFactor == 0 then map[]
        else (match Latest(h.dir.files, HybridPrefix)
          case None => map[]
          case Some(n) => h.dir.files[n].data)
      case _ => map[]
    }
  }

  /** The strategies whose store accepts a write exactly when they serve reads. */
  predicate Unreplicated(a: Active) {
    a.BaselineActive? || a.CheckpointingActive?
  }

  /** A forced checkpoint is taken and kept: the checkpointing strategy is
    * asked for one while it is up and keeps at least one file. */
  predicate KeepsForcedCheckpoint(a: Active, triggerCheckpoint: bool)
    reads a.Memory()
  {
    triggerCheckpoint && a.CheckpointingActive? && !a.c.base.failed && a.c.maxCheckpoints >= 1
  }

  /** A strategy as its constructor leaves it: operational with zeroed
    * counters; the unreplicated strategies serve reads, the replication
    * strategy does when it has nodes and its read quorum can be met, hybrid
    * does when it has nodes; and it serves exactly what its checkpoint files
    * give back. */
  ghost predicate Started(a: Active)
    reads a.Footprint()
  {
    && a.Valid()
    && !a.BaseOf().failed && a.BaseOf().stats == NoStats
    && (Unreplicated(a) ==> a.Serving())
    && (a.ReplicationActive? ==>
          (a.Serving() <==> 0 < a.r.replicationFactor && a.r.readQuorum <= a.r.replicationFactor))
    && (a.HybridActive? ==> (a.Serving() <==> 0 < a.h.replicationFactor))
    && a.Served() == a.OnDisk()
  }

  /** `_create_strategy`: an unknown name raises; otherwise a new instance of
    * the named strategy, built from the configuration, which serves exactly
    * what its checkpoint files give back and nothing of any earlier instance. */
  method CreateStrategy(name: string, config: Config, fs: FileSystem) returns (r: Result<Active>)
    requires fs.Valid()
    modifies fs
    ensures fs.Valid()
    ensures r.Err? <==> KindOf(name).None?
    ensures r.Err? ==> r.error == UnknownStrategy(name) && fs.dirs == old(fs.dirs)
    ensures r.Ok? ==>
      && r.value.Kind() == KindOf(name).value
      && fresh(r.value.Memory())
      && Started(r.value)
  {
    var kind := KindOf(name);
    if kind.None? {
      return Err(UnknownStrategy(name));
    }
    match kind.value
    case BaselineKind =>
      var b := new BaselineStrategy();
      r := Ok(BaselineActive(b));
    case CheckpointingKind =>
      var c := new CheckpointingStrategy(config, fs);
      r := Ok(CheckpointingActive(c));
    case ReplicationKind =>
      var rs := new ReplicationStrategy(config);
      ReplicationStartsUp(rs);
      r := Ok(ReplicationActive(rs));
    case HybridKind =>
      var h := new HybridStrategy(config, fs);
      HybridStartsUp(h);
      r := Ok(HybridActive(h));
  }

  /** A new cluster has every node up and empty, so it serves reads exactly
    * when it has nodes and the read quorum can be met, and serves nothing. */
  lemma ReplicationStartsUp(rs: ReplicationStrategy)
    requires rs.Valid() && !rs.base.failed && rs.base.stats == NoStats
    requires forall i :: 0 <= i < |rs.replicas| ==> rs.replicas[i] == FreshNode(i)
    ensures Started(ReplicationActive(rs))
  {
    CountHealthyFull(rs.replicas);
    if rs.replicationFactor > 0 {
      assert rs.replicas[0].healthy;
    }
  }

  /** A new hybrid strategy has every node up, all holding the newest
    * snapshot (or nothing), so it serves that snapshot. */
  lemma HybridStartsUp(h: HybridStrategy)
    requires h.Valid() && !h.base.failed && h.base.stats == NoStats && !h.replication.base.failed
    requires match Latest(h.dir.files, HybridPrefix)
      case None => forall i :: 0 <= i < |h.replication.replicas| ==> h.replication.replicas[i] == FreshNode(i)
      case Some(n) =>
        forall i :: 0 <= i < |h.replication.replicas| ==>
          h.replication.replicas[i].healthy && h.replication.replicas[i].data == h.dir.files[n].data
    ensures Started(HybridActive(h))
  {
    var rs := h.replication.replicas;
    assert forall i :: 0 <= i < |rs| ==> rs[i].healthy;
    CountHealthyFull(rs);
    if h.replicationFactor > 0 {
      assert rs[0].healthy;
    }
  }

  // ---------------------------------------------------------------------
  // The experiment harness's data.

  /** `issue_<i>` for even i, `repo_<i>` for odd i. */
  function ExperimentKey(i: nat): Key {
    if i % 2 == 0 then "issue_" + NatToString(i) else "repo_" + NatToString(i)
  }

  /** Different items get different keys, so the experiment never overwrites
    * one of its own items. */
  lemma ExperimentKeyInjective(i: nat, j: nat)
    ensures ExperimentKey(i) == ExperimentKey(j) ==> i == j
  {
    if i % 2 != j % 2 {
      assert ExperimentKey(i)[0] != ExperimentKey(j)[0];
    } else if ExperimentKey(i) == ExperimentKey(j) {
      if i % 2 == 0 {
        PrefixCancel("issue_", NatToString(i), NatToString(j));
      } else {
        PrefixCancel("repo_", NatToString(i), NatToString(j));
      }
      NatToStringInjective(i, j);
    }
  }

  /** The keys of the first n items (none for a negative n, as `range` gives). */
  function ExperimentKeys(n: int): (keys: seq<Key>)
    ensures |keys| == if n < 0 then 0 else n
    ensures forall i :: 0 <= i < |keys| ==> keys[i] == ExperimentKey(i)
  {
    seq(if n < 0 then 0 else n, i requires 0 <= i => ExperimentKey(i))
  }

  /** One more loop iteration appends the next key. */
  lemma ExperimentKeysSnoc(n: nat)
    ensures ExperimentKeys(n + 1) == ExperimentKeys(n) + [ExperimentKey(n)]
  {
    assert ExperimentKeys(n + 1)[..n] == ExperimentKeys(n);
  }

  lemma ExperimentKeysDistinct(n: int)
    ensures forall i, j :: 0 <= i < j < |ExperimentKeys(n)| ==> ExperimentKeys(n)[i] != ExperimentKeys(n)[j]
  {
    forall i, j | 0 <= i < j < |ExperimentKeys(n)|
      ensures ExperimentKeys(n)[i] != ExperimentKeys(n)[j]
    {
      ExperimentKeyInjective(i, j);
    }
  }

  /** The random draws behind one synthetic item's fields. */
  datatype RandomDraw = RandomDraw(status: string, priority: string, creator: nat,
                                   owner: nat, stars: nat, language: string)

  /** The synthetic issue (even i) or repository (odd i) stored under item i. */
  function ExperimentValue(i: nat, d: RandomDraw): Value {
    if i % 2 == 0 then
      Issue(i, "Bug report #" + NatToString(i) + ": System crash on load", d.status, d.priority,
            "user_" + NatToString(d.creator))
    else
      Repository(i, "project-alpha-" + NatToString(i), "org_" + NatToString(d.owner), d.stars, d.language)
  }

  /** How many of the keys a map holds (with repetitions). */
  function CountPresent(keys: seq<Key>, m: map<Key, Value>): (n: nat)
    ensures n <= |keys|
  {
    if keys == [] then 0
    else CountPresent(keys[..|keys| - 1], m) + (if keys[|keys| - 1] in m then 1 else 0)
  }

  lemma {:induction false} CountPresentAll(keys: seq<Key>, m: map<Key, Value>)
    requires AllPresent(keys, m)
    ensures CountPresent(keys, m) == |keys|
  {
    if keys != [] {
      CountPresentAll(keys[..|keys| - 1], m);
    }
  }

  lemma {:induction false} CountPresentNone(keys: seq<Key>)
    ensures CountPresent(keys, map[]) == 0
  {
    if keys != [] {
      CountPresentNone(keys[..|keys| - 1]);
    }
  }

  /** `(recovered / data_items) * 100`: a percentage between 0 and 100 when
    * no more items came back than were stored, 0 when none did and 100 when
    * all did. */
  function RecoveryRate(recovered: nat, items: int): (rate: real)
    requires items != 0
    ensures 0 < items && recovered <= items ==> 0.0 <= rate <= 100.0
    ensures recovered == 0 ==> rate == 0.0
    ensures recovered == items ==> rate == 100.0
  {
    var q := recovered as real / items as real;
    assert q * items as real == recovered as real;
    q * 100.0
  }

  /** Every key of the sequence is in the map. */
  ghost predicate AllPresent(keys: seq<Key>, m: map<Key, Value>) {
    forall k :: k in keys ==> k in m
  }

  /** The experiment report (timings not modelled). */
  datatype ExperimentResult = ExperimentResult(strategy: string, strategyFullName: string,
                                               dataItems: int, itemsRecovered: nat,
                                               recoveryRatePercent: real, stats: StatsReport)

  // ---------------------------------------------------------------------
  // The manager.

  class FaultToleranceManager {
    /** Where the checkpointing strategies keep their directories. */
    const fs: FileSystem
    var strategyName: string
    var strategy: Active

    /** The active strategy keeps its invariant. (The file system's own
      * invariant is required and kept by the operations that open
      * directories.) */
    ghost predicate Valid()
      reads this`strategy, strategy.Footprint()
    {
      strategy.Valid()
    }

    constructor FromStrategy(name: string, a: Active, files: FileSystem)
      requires a.Valid()
      requires files.Valid()
      ensures Valid() && strategyName == name && strategy == a && fs == files && fs.Valid()
    {
      fs := files;
      strategyName := name;
      strategy := a;
    }

    /** `FaultToleranceManager(strategy, config)`: the name is recorded and
      * the strategy created; an unknown name raises. */
    static method Create(name: string, config: Config, fs: FileSystem) returns (r: Result<FaultToleranceManager>)
      requires fs.Valid()
      modifies fs
      ensures r.Err? <==> KindOf(name).None?
      ensures r.Err? ==> r.error == UnknownStrategy(name) && fs.dirs == old(fs.dirs)
      ensures r.Ok? ==>
        && fresh(r.value) && r.value.Valid() && r.value.fs == fs && fs.Valid()
        && r.value.strategyName == name && r.value.strategy.Kind() == KindOf(name).value
        && fresh(r.value.strategy.Memory())
        && Started(r.value.strategy)
    {
      var created := CreateStrategy(name, config, fs);
      if created.Err? {
        return Err(created.error);
      }
      var m := new FaultToleranceManager.FromStrategy(name, created.value, fs);
      r := Ok(m);
    }

    /** `set_strategy`: the recorded name changes first, so an unknown name
      * raises with the name changed and the old strategy still in place; a
      * known name gets a new instance, which serves only what its checkpoint
      * files give back. */
    method SetStrategy(name: string, config: Config) returns (outcome: Outcome)
      requires Valid() && fs.Valid()
      modifies this, fs
      ensures Valid() && fs.Valid() && strategyName == name
      ensures outcome.Fail? <==> KindOf(name).None?
      ensures outcome.Fail? ==> outcome.error == UnknownStrategy(name) && strategy == old(strategy)
      ensures outcome.Pass? ==>
        && strategy.Kind() == KindOf(name).value
        && fresh(strategy.Memory())
        && !strategy.BaseOf().failed && strategy.BaseOf().stats == NoStats
        && strategy.Served() == strategy.OnDisk()
    {
      var created := CreateStrategy(name, config, fs);
      if created.Err? {
        strategyName := name;
        return Fail(created.error);
      }
      Install(name, created.value);
      outcome := Pass;
    }

    /** Makes `a`, registered under `name`, the active strategy. */
    method Install(name: string, a: Active)
      requires Started(a) && this !in a.Footprint()
      modifies this`strategyName, this`strategy
      ensures strategyName == name && strategy == a && Valid() && Started(a)
    {
      strategyName := name;
      strategy := a;
    }

    /** `store`, delegated. A write that is accepted while reads are served
      * is visible to every later read; a refused one changes nothing that
      * reads can see. The two unreplicated strategies accept exactly when they
      * serve reads. */
    method Store(key: Key, value: Value) returns (ok: bool)
      requires Valid()
      modifies strategy.Memory()
      ensures Valid()
      ensures strategy.BaseOf().failed == old(strategy.BaseOf().failed)
      ensures strategy.Serving() == old(strategy.Serving())
      ensures ok && strategy.Serving() ==> strategy.Served() == old(strategy.Served())[key := value]
      ensures !ok ==> strategy.Served() == old(strategy.Served())
      ensures Unreplicated(strategy) ==> (ok <==> strategy.Serving())
      ensures strategy.Files() == old(strategy.Files())
    {
      match strategy
      case BaselineActive(b) => ok := b.Store(key, value);
      case CheckpointingActive(c) => ok := c.Store(key, value);
      case ReplicationActive(r) => ok := r.Store(key, value);
      case HybridActive(h) => ok := h.Store(key, value);
    }

    /** `retrieve`, delegated: what the strategy serves for the key. Only the
      * replication strategy can raise, when it has no node to choose. */
    method Retrieve(key: Key) returns (r: Result<Option<Value>>)
      requires Valid()
      modifies strategy.Memory()
      ensures Valid()
      ensures r.Ok? ==> r.value == Lookup(old(strategy.Served()), key)
      ensures r.Err? ==> strategy.ReplicationActive? && r.error == EmptyChoice
      ensures strategy.Served() == old(strategy.Served()) && strategy.Serving() == old(strategy.Serving())
      ensures strategy.BaseOf().failed == old(strategy.BaseOf().failed)
      ensures strategy.Files() == old(strategy.Files())
    {
      match strategy
      case BaselineActive(b) =>
        var v := b.Retrieve(key);
        r := Ok(v);
      case CheckpointingActive(c) =>
        var v := c.Retrieve(key);
        r := Ok(v);
      case ReplicationActive(rs) =>
        ghost var served;
        r, served := rs.Retrieve(key);
      case HybridActive(h) =>
        var v := h.Retrieve(key);
        r := Ok(v);
    }

    /** `simulate_failure(**kwargs)`, delegated. A keyword the strategy's
      * signature does not take raises and changes nothing; with no keyword
      * each strategy fails in its default way (one node for replication, a
      * partial failure for hybrid). The in-memory state of the unreplicated
      * strategies is lost; checkpoint files are never touched. */
    method SimulateFailure(args: FailureArgs) returns (outcome: Outcome)
      requires Valid()
      modifies strategy.Memory()
      ensures Valid()
      ensures !Accepts(strategy.Kind(), args) <==> outcome == Fail(UnexpectedArgument)
      ensures !Accepts(strategy.Kind(), args) ==> unchanged(strategy.Memory())
      ensures strategy.Files() == old(strategy.Files())
      ensures Unreplicated(strategy) && args.NoArguments? ==>
        strategy.BaseOf().failed && strategy.Served() == map[]
      ensures strategy.CheckpointingActive? && args.NoArguments? ==> strategy.c.dataStore == map[]
      ensures strategy.ReplicationActive? && outcome.Fail? ==>
        outcome.error == UnexpectedArgument || (args.NodeCount? && args.count < 0)
      ensures strategy.ReplicationActive? && Accepts(strategy.Kind(), args) ==>
        var k := if args.NodeCount? then args.count else 1;
        var r := strategy.r;
        && outcome == (if k < 0 then Fail(NegativeSampleSize(k)) else Pass)
        && FlagsOnly(old(r.replicas), r.replicas) && NoneRevived(old(r.replicas), r.replicas)
        && r.failedNodes == old(r.failedNodes) + WentDown(old(r.replicas), r.replicas)
        && (k >= old(r.HealthyCount()) ==> r.HealthyCount() == 0 && r.base.failed)
        && (0 <= k < old(r.HealthyCount()) ==>
              r.HealthyCount() == old(r.HealthyCount()) - k && r.base.failed == old(r.base.failed))
      ensures strategy.HybridActive? ==> outcome.Pass? || outcome == Fail(UnexpectedArgument)
      ensures strategy.HybridActive? && Accepts(strategy.Kind(), args) ==>
        var failureType := if args.FailureType? then args.failureType else "partial";
        var h := strategy.h;
        var nodes := NodesToFail(failureType, h.replicationFactor);
        && FlagsOnly(old(h.replication.replicas), h.replication.replicas)
        && NoneRevived(old(h.replication.replicas), h.replication.replicas)
        && (nodes.None? ==>
              && h.replication.replicas == old(h.replication.replicas)
              && h.replication.failedNodes == old(h.replication.failedNodes)
              && h.replication.base.failed == old(h.replication.base.failed))
        && (nodes.Some? ==>
              && h.replication.failedNodes == old(h.replication.failedNodes) + WentDown(old(h.replication.replicas), h.replication.replicas)
              && h.replication.HealthyCount() == (if nodes.value >= old(h.replication.HealthyCount()) then 0
                                                  else old(h.replication.HealthyCount()) - nodes.value)
              && h.replication.base.failed == (old(h.replication.base.failed) || nodes.value >= old(h.replication.HealthyCount())))
        && h.base.failed == (old(h.base.failed) || failureType == "total")
        && h.base.stats == old(h.base.stats).Bump(FailuresSimulated)
    {
      if !Accepts(strategy.Kind(), args) {
        return Fail(UnexpectedArgument);
      }
      match strategy
      case BaselineActive(b) =>
        b.SimulateFailure();
        outcome := Pass;
      case CheckpointingActive(c) =>
        c.SimulateFailure();
        outcome := Pass;
      case ReplicationActive(r) =>
        outcome := r.SimulateFailure(if args.NodeCount? then args.count else 1);
      case HybridActive(h) =>
        h.SimulateFailure(if args.FailureType? then args.failureType else "partial");
        outcome := Pass;
    }

    /** `recover`, delegated (the recovery time it returns is not modelled).
      * `rareEvent` is the strategy's own random draw. Afterwards the
      * unreplicated strategies and hybrid are operational; a recovered
      * baseline is empty, and a recovered checkpointing strategy serves its
      * newest snapshot unless the draw found it corrupted. */
    method Recover(rareEvent: bool)
      requires Valid()
      modifies strategy.Memory()
      ensures Valid()
      ensures strategy.Files() == old(strategy.Files())
      ensures !strategy.ReplicationActive? ==> !strategy.BaseOf().failed
      ensures Unreplicated(strategy) && !old(strategy.BaseOf().failed) ==> strategy.Served() == old(strategy.Served())
      ensures strategy.BaselineActive? && old(strategy.BaseOf().failed) ==> strategy.Served() == map[]
      ensures strategy.CheckpointingActive? && old(strategy.BaseOf().failed) ==>
        strategy.Served() == if rareEvent then map[] else strategy.OnDisk()
      ensures strategy.ReplicationActive? ==>
        var r := strategy.r;
        && r.replicas == Recovered(old(r.replicas), old(r.failedNodes), rareEvent)
        && r.failedNodes == FailedAfterRecovery(old(r.replicas), old(r.failedNodes), rareEvent)
        && match PathOf(old(r.replicas), old(r.failedNodes), rareEvent)
           case NothingFailed | Cascaded(_) => r.base.failed == old(r.base.failed)
           case _ => !r.base.failed && r.HealthyCount() == |r.replicas|
      ensures strategy.HybridActive? ==>
        var h := strategy.h;
        var start := Reloaded(old(h.replication.replicas), h.dir.files);
        && h.replication.replicas == Recovered(start, old(h.replication.failedNodes), rareEvent)
        && h.replication.failedNodes == FailedAfterRecovery(start, old(h.replication.failedNodes), rareEvent)
        && match PathOf(start, old(h.replication.failedNodes), rareEvent)
           case NothingFailed | Cascaded(_) => h.replication.base.failed == old(h.replication.base.failed)
           case _ => !h.replication.base.failed && h.replication.HealthyCount() == |h.replication.replicas|
      ensures !rareEvent && strategy.ReplicationActive? ==>
        strategy.r.failedNodes == {} && strategy.r.HealthyCount() == |strategy.r.replicas|
      ensures !rareEvent && strategy.HybridActive? ==>
        strategy.h.replication.failedNodes == {} && strategy.h.replication.HealthyCount() == |strategy.h.replication.replicas|
    {
      match strategy
      case BaselineActive(b) => b.Recover();
      case CheckpointingActive(c) => c.Recover(rareEvent);
      case ReplicationActive(r) => r.Recover(rareEvent);
      case HybridActive(h) => h.Recover(rareEvent);
    }

    /** `is_healthy`, delegated. */
    method IsHealthy() returns (healthy: bool)
      ensures healthy <==> !strategy.BaseOf().failed
    {
      healthy := strategy.BaseOf().IsHealthy();
    }

    /** `get_stats`, delegated. */
    method GetStats() returns (report: StatsReport)
      requires Valid()
      ensures Valid()
      ensures report == StatsReport(strategy.BaseOf().stats, strategy.FullName(), strategy.BaseOf().failed)
    {
      report := strategy.BaseOf().GetStats(strategy.FullName());
    }

    /** The first loop of `run_experiment`: item i is stored under
      * ExperimentKey(i), its fields drawn by `draw(i)`. A strategy that
      * accepts writes exactly when it serves reads then holds every item. */
    method Populate(dataItems: int, draw: nat -> RandomDraw) returns (keys: seq<Key>)
      requires Valid()
      modifies strategy.Memory()
      ensures Valid()
      ensures keys == ExperimentKeys(dataItems)
      ensures strategy.BaseOf().failed == old(strategy.BaseOf().failed)
      ensures strategy.Files() == old(strategy.Files())
      ensures Unreplicated(strategy) && strategy.Serving() ==> AllPresent(keys, strategy.Served())
    {
      var n := if dataItems < 0 then 0 else dataItems;
      keys := [];
      for i := 0 to n
        invariant Valid()
        invariant keys == ExperimentKeys(i)
        invariant strategy.BaseOf().failed == old(strategy.BaseOf().failed)
        invariant strategy.Files() == old(strategy.Files())
        invariant Unreplicated(strategy) && strategy.Serving() ==> AllPresent(keys, strategy.Served())
      {
        var key := ExperimentKey(i);
        var value := ExperimentValue(i, draw(i));
        var _ := Store(key, value);
        ExperimentKeysSnoc(i);
        keys := keys + [key];
      }
    }

    /** The verification loop of `run_experiment`: the number of keys some
      * retrieve returns a value for. */
    method CountRecovered(keys: seq<Key>) returns (r: Result<nat>)
      requires Valid()
      modifies strategy.Memory()
      ensures Valid()
      ensures r.Ok? ==> r.value == CountPresent(keys, old(strategy.Served()))
      ensures r.Err? ==> strategy.ReplicationActive? && r.error == EmptyChoice && keys != []
      ensures strategy.Served() == old(strategy.Served())
      ensures strategy.BaseOf().failed == old(strategy.BaseOf().failed)
      ensures strategy.Files() == old(strategy.Files())
    {
      var count := 0;
      for i := 0 to |keys|
        invariant Valid()
        invariant count == CountPresent(keys[..i], old(strategy.Served()))
        invariant strategy.Served() == old(strategy.Served())
        invariant strategy.BaseOf().failed == old(strategy.BaseOf().failed)
        invariant strategy.Files() == old(strategy.Files())
      {
        var got := Retrieve(keys[i]);
        if got.Err? {
          return Err(got.error);
        }
        assert keys[..i + 1][..i] == keys[..i];
        if got.value.Some? {
          count := count + 1;
        }
      }
      assert keys[..|keys|] == keys;
      r := Ok(count);
    }

    /** The middle of `run_experiment`: a forced checkpoint when asked and the
      * strategy has `force_checkpoint`, then the default failure, then the
      * recovery, with `now` the checkpoint's wall-clock second and
      * `rareEvent` the recovery's draw. The baseline comes back empty. A
      * checkpointing strategy that kept its forced checkpoint and whose
      * recovery was not hit by corruption comes back serving exactly what it
      * served before. */
    method FailAndRecover(triggerCheckpoint: bool, now: nat, rareEvent: bool)
      requires Valid()
      modifies strategy.Footprint()
      ensures Valid()
      ensures !(triggerCheckpoint && old(strategy).CheckpointingActive?) ==> strategy.Files() == old(strategy.Files())
      ensures strategy.BaselineActive? ==> strategy.Served() == map[]
      ensures !rareEvent && strategy.ReplicationActive? ==>
        strategy.r.failedNodes == {} && strategy.r.HealthyCount() == |strategy.r.replicas|
      ensures !rareEvent && strategy.HybridActive? ==>
        strategy.h.replication.failedNodes == {} && strategy.h.replication.HealthyCount() == |strategy.h.replication.replicas|
      ensures old(KeepsForcedCheckpoint(strategy, triggerCheckpoint)) && !rareEvent ==>
        strategy.Served() == old(strategy.Served())
    {
      if triggerCheckpoint && strategy.CheckpointingActive? {
        var _ := strategy.c.ForceCheckpoint(now);
      }
      var _ := SimulateFailure(NoArguments);
      Recover(rareEvent);
    }

    /** `run_experiment` (timings not modelled): store the items, fail and
      * recover, and count the items that come back. The failure_type
      * argument is not passed on. Zero items raises on the rate's division.
      * The baseline never recovers anything; a checkpointing strategy that
      * kept its forced checkpoint, and whose recovery was not hit by
      * corruption, recovers every item. */
    method RunExperiment(dataItems: int, failureType: string, triggerCheckpoint: bool,
                         now: nat, rareEvent: bool, draw: nat -> RandomDraw)
      returns (r: Result<ExperimentResult>)
      requires Valid()
      modifies strategy.Footprint()
      ensures Valid()
      ensures dataItems == 0 ==> r == Err(DivisionByZero)
      ensures r.Err? ==> r.error == DivisionByZero || (strategy.ReplicationActive? && r.error == EmptyChoice)
      ensures Unreplicated(strategy) ==> (r.Err? <==> dataItems == 0)
      ensures r.Ok? ==>
        && r.value.strategy == strategyName && r.value.strategyFullName == strategy.FullName()
        && r.value.dataItems == dataItems
        && r.value.itemsRecovered <= (if dataItems < 0 then 0 else dataItems)
        && r.value.recoveryRatePercent == RecoveryRate(r.value.itemsRecovered, dataItems)
        && r.value.itemsRecovered == CountPresent(ExperimentKeys(dataItems), strategy.Served())
      ensures strategy.BaselineActive? && r.Ok? ==> r.value.itemsRecovered == 0
      ensures old(KeepsForcedCheckpoint(strategy, triggerCheckpoint)) && !rareEvent && dataItems > 0 ==>
        r.Ok? && r.value.itemsRecovered == dataItems && r.value.recoveryRatePercent == 100.0
    {
      ghost var kept := KeepsForcedCheckpoint(strategy, triggerCheckpoint);
      ghost var active := strategy;
      var keys := Populate(dataItems, draw);
      assert strategy == active;
      FailAndRecover(triggerCheckpoint, now, rareEvent);
      assert strategy == active;
      ghost var served := strategy.Served();
      if strategy.BaselineActive? {
        CountPresentNone(keys);
      }
      if kept && !rareEvent {
        CountPresentAll(keys, served);
      }
      var counted := CountRecovered(keys);
      assert strategy == active;
      if counted.Err? {
        return Err(counted.error);
      }
      if dataItems == 0 {
        return Err(DivisionByZero);
      }
      var items := counted.value;
      assert items == CountPresent(keys, served) && served == strategy.Served();
      var stats := GetStats();
      r := Ok(ExperimentResult(strategyName, strategy.FullName(), dataItems, items,
                               RecoveryRate(items, dataItems), stats));
    }
  }

  // ---------------------------------------------------------------------
  // The process-wide instance (`get_manager`).

  class ManagerRegistry {
    const fs: FileSystem
    var instance: Option<FaultToleranceManager>

    constructor (files: FileSystem)
      ensures fs == files && instance == None
    {
      fs := files;
      instance := None;
    }

    /** `get_manager`: the existing instance unless there is none or a new
      * one is forced; a creation that raises leaves the old instance. */
    method GetManager(name: string, config: Config, forceNew: bool) returns (r: Result<FaultToleranceManager>)
      requires fs.Valid()
      modifies this, fs
      ensures old(instance).Some? && !forceNew ==> r == Ok(old(instance).value) && instance == old(instance)
      ensures old(instance).None? || forceNew ==>
        && (r.Err? <==> KindOf(name).None?)
        && (r.Err? ==> r.error == UnknownStrategy(name) && instance == old(instance))
        && (r.Ok? ==> fresh(r.value) && r.value.Valid() && instance == Some(r.value)
                      && r.value.strategyName == name && r.value.strategy.Kind() == KindOf(name).value)
    {
      if instance.Some? && !forceNew {
        return Ok(instance.value);
      }
      r := FaultToleranceManager.Create(name, config, fs);
      if r.Ok? {
        instance := Some(r.value);
      }
    }
  }
}
