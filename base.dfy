/**
 * The strategy contract shared by the four techniques
 * (BaseFaultToleranceStrategy): a failed flag, the operation counters, and
 * the configuration dictionary every strategy reads its settings from.
 */
module Base {
  import opened Common

  /** The counters `_record_operation` is called with. */
  datatype Op = Writes | Reads | FailuresSimulated | Recoveries

  /** The `stats` dictionary (its `last_operation` timestamp is not modelled). */
  datatype Stats = Stats(writes: nat, readsDone: nat, failuresSimulated: nat, recoveries: nat) {
    function Get(op: Op): nat {
      match op
      case Writes => writes
      case Reads => readsDone
      case FailuresSimulated => failuresSimulated
      case Recoveries => recoveries
    }

    /** `stats[op] += 1`: exactly one counter moves, by exactly one. */
    function Bump(op: Op): (s: Stats)
      ensures s.Get(op) == Get(op) + 1
      ensures forall o :: o != op ==> s.Get(o) == Get(o)
    {
      match op
      case Writes => this.(writes := writes + 1)
      case Reads => this.(readsDone := readsDone + 1)
      case FailuresSimulated => this.(failuresSimulated := failuresSimulated + 1)
      case Recoveries => this.(recoveries := recoveries + 1)
    }
  }

  const NoStats := Stats(0, 0, 0, 0)

  /** What `get_stats` reports: the counters, the strategy's display name and
    * the failed flag. */
  datatype StatsReport = StatsReport(counters: Stats, strategy: string, isFailed: bool)

  /** The configuration dictionary; an absent entry means "use the default". */
  datatype Config = Config(
    checkpointInterval: Option<nat>,
    checkpointDir: Option<string>,
    maxCheckpoints: Option<int>,
    replicationFactor: Option<nat>,
    writeQuorum: Option<int>,
    readQuorum: Option<int>)

  const EmptyConfig := Config(None, None, None, None, None, None)

  /** The state every strategy inherits from BaseFaultToleranceStrategy. */
  class StrategyBase {
    var failed: bool
    var stats: Stats

    constructor ()
      ensures !failed
      ensures stats == NoStats
      ensures forall op :: stats.Get(op) == 0
    {
      failed := false;
      stats := NoStats;
    }

    /** `_record_operation(op)`. */
    method RecordOperation(op: Op)
      modifies this
      ensures stats == old(stats).Bump(op)
      ensures failed == old(failed)
    {
      stats := stats.Bump(op);
    }

    /** `is_healthy()`: the negation of the failed flag; changes nothing. */
    method IsHealthy() returns (healthy: bool)
      ensures healthy <==> !failed
    {
      healthy := !failed;
    }

    /** `get_stats()`: the current counters and flag; changes nothing. */
    method GetStats(strategyName: string) returns (report: StatsReport)
      ensures report.counters == stats
      ensures report.isFailed == failed
      ensures report.strategy == strategyName
    {
      report := StatsReport(stats, strategyName, failed);
    }
  }
}
