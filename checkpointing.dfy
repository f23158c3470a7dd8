/**
 * CheckpointingStrategy: an in-memory store with a write-ahead log of the
 * writes since the last snapshot, and snapshots written to a checkpoint
 * directory that survives simulated failures. Recovery reloads the snapshot
 * with the newest modification time.
 */
module Checkpointing {
  import opened Common
  import opened Base
  import opened Storage

  const DefaultCheckpointInterval: nat := 30
  const DefaultCheckpointDir := "/tmp/gitforge_checkpoints"
  const DefaultMaxCheckpoints: int := 5
  const CheckpointPrefix := "checkpoint_"

  /** One `_wal` record: a store of `value` under `key` (its timestamp is not
    * modelled). */
  datatype WalEntry = WalEntry(key: Key, value: Value)

  /** The store obtained by applying the logged writes, oldest first, to a
    * snapshot. */
  function Replay(snapshot: map<Key, Value>, wal: seq<WalEntry>): map<Key, Value>
    decreases |wal|
  {
    if wal == [] then snapshot
    else Replay(snapshot, wal[..|wal| - 1])[wal[|wal| - 1].key := wal[|wal| - 1].value]
  }

  /** The value of the newest logged write to `key`, if any. */
  function LastWrite(wal: seq<WalEntry>, key: Key): Option<Value>
    decreases |wal|
  {
    if wal == [] then None
    else if wal[|wal| - 1].key == key then Some(wal[|wal| - 1].value)
    else LastWrite(wal[..|wal| - 1], key)
  }

  /** Replaying the log gives, for every key, its newest logged value, and
    * the snapshot's value for keys the log does not mention. */
  lemma {:induction false} ReplayLookup(snapshot: map<Key, Value>, wal: seq<WalEntry>, key: Key)
    ensures Lookup(Replay(snapshot, wal), key) ==
      match LastWrite(wal, key)
      case Some(v) => Some(v)
      case None => Lookup(snapshot, key)
    decreases |wal|
  {
    if wal != [] {
      ReplayLookup(snapshot, wal[..|wal| - 1], key);
    }
  }

  /** The store `_load_latest_checkpoint` leaves: the latest checkpoint's
    * data, or the current store when there is no checkpoint file. */
  ghost function LoadedData(files: map<string, CheckpointFile>, current: map<Key, Value>): map<Key, Value> {
    match Latest(files, CheckpointPrefix)
    case Some(n) => files[n].data
    case None => current
  }

  /** The checkpoint count `_load_latest_checkpoint` leaves. */
  ghost function LoadedCount(files: map<string, CheckpointFile>, current: nat): nat {
    match Latest(files, CheckpointPrefix)
    case Some(n) => files[n].id
    case None => current
  }

  /** The dictionary `get_checkpoint_info` returns (without the time of the
    * last checkpoint). */
  datatype CheckpointInfo = CheckpointInfo(checkpointCount: nat, walEntries: nat, checkpointInterval: nat,
                                           checkpointDir: string, dataCount: nat)

  class CheckpointingStrategy {
    const base: StrategyBase
    const checkpointInterval: nat
    const checkpointDir: string
    const maxCheckpoints: int
    const dir: Directory
    var dataStore: map<Key, Value>
    var wal: seq<WalEntry>
    var checkpointCount: nat
    /** The store as of the last snapshot taken or loaded. */
    ghost var snapshot: map<Key, Value>

    /** The store is the last snapshot with the log replayed on top. */
    ghost predicate Logged()
      reads this, dir
    {
      dir.Valid() && dataStore == Replay(snapshot, wal)
    }

    /** ... and a failed strategy has lost its memory. */
    ghost predicate Valid()
      reads this, base, dir
    {
      Logged() && (base.failed ==> dataStore == map[] && wal == [])
    }

    /** What a retrieve can currently return for each key. */
    ghost function View(): map<Key, Value>
      reads this, base
    {
      if base.failed then map[] else dataStore
    }

    /** `__init__`: create the directory if needed, then load the latest
      * checkpoint found there. */
    constructor (config: Config, fs: FileSystem)
      requires fs.Valid()
      modifies fs
      ensures Valid() && fs.Valid() && fresh(base)
      ensures checkpointInterval == config.checkpointInterval.GetOr(DefaultCheckpointInterval)
      ensures checkpointDir == config.checkpointDir.GetOr(DefaultCheckpointDir)
      ensures maxCheckpoints == config.maxCheckpoints.GetOr(DefaultMaxCheckpoints)
      ensures checkpointDir in fs.dirs && dir == fs.dirs[checkpointDir]
      ensures checkpointDir in old(fs.dirs) ==>
        fs.dirs == old(fs.dirs) && dir.files == old(fs.dirs[config.checkpointDir.GetOr(DefaultCheckpointDir)].files)
      ensures checkpointDir !in old(fs.dirs) ==> fresh(dir) && dir.files == map[]
      ensures dataStore == LoadedData(dir.files, map[])
      ensures checkpointCount == LoadedCount(dir.files, 0)
      ensures wal == [] && !base.failed && base.stats == NoStats
    {
      var path := config.checkpointDir.GetOr(DefaultCheckpointDir);
      var d := fs.MakeDirs(path);
      base := new StrategyBase();
      checkpointInterval := config.checkpointInterval.GetOr(DefaultCheckpointInterval);
      checkpointDir := path;
      maxCheckpoints := config.maxCheckpoints.GetOr(DefaultMaxCheckpoints);
      dir := d;
      dataStore := map[];
      wal := [];
      checkpointCount := 0;
      snapshot := map[];
      new;
      var _ := LoadLatestCheckpoint();
    }

    function StrategyName(): string {
      "Checkpointing (Interval: " + NatToString(checkpointInterval) + "s)"
    }

    /** `store`: refused while failed; otherwise the write goes to memory and
      * to the log. */
    method Store(key: Key, value: Value) returns (ok: bool)
      requires Valid()
      modifies this, base
      ensures Valid()
      ensures ok <==> !old(base.failed)
      ensures dataStore == if ok then old(dataStore)[key := value] else old(dataStore)
      ensures wal == if ok then old(wal) + [WalEntry(key, value)] else old(wal)
      ensures checkpointCount == old(checkpointCount) && base.failed == old(base.failed)
      ensures base.stats == if ok then old(base.stats).Bump(Writes) else old(base.stats)
    {
      if base.failed {
        return false;
      }
      dataStore := dataStore[key := value];
      wal := wal + [WalEntry(key, value)];
      assert wal[..|wal| - 1] == old(wal);
      base.RecordOperation(Writes);
      ok := true;
    }

    /** `retrieve`: absent while failed; otherwise the stored value, if any. */
    method Retrieve(key: Key) returns (r: Option<Value>)
      requires Valid()
      modifies base
      ensures Valid()
      ensures r == if old(base.failed) then None else Lookup(dataStore, key)
      ensures base.stats == if old(base.failed) then old(base.stats) else old(base.stats).Bump(Reads)
      ensures base.failed == old(base.failed)
    {
      if base.failed {
        return None;
      }
      base.RecordOperation(Reads);
      r := Lookup(dataStore, key);
    }

    /** `simulate_failure`: memory and the log are lost; the checkpoint
      * files, which this method cannot modify, survive. */
    method SimulateFailure()
      requires Valid()
      modifies this, base
      ensures Valid()
      ensures base.failed && dataStore == map[] && wal == []
      ensures checkpointCount == old(checkpointCount)
      ensures base.stats == old(base.stats).Bump(FailuresSimulated)
    {
      dataStore := map[];
      wal := [];
      snapshot := map[];
      base.failed := true;
      base.RecordOperation(FailuresSimulated);
    }

    /** `_load_latest_checkpoint`: memory becomes the snapshot of the file
      * with the newest modification time, and the count that file's id. */
    method LoadLatestCheckpoint() returns (loaded: bool)
      requires Logged() && wal == []
      modifies this
      ensures Logged() && wal == []
      ensures loaded <==> Latest(dir.files, CheckpointPrefix).Some?
      ensures dataStore == LoadedData(dir.files, old(dataStore))
      ensures checkpointCount == LoadedCount(dir.files, old(checkpointCount))
    {
      var latest := dir.FindLatest(CheckpointPrefix);
      if latest.None? {
        return false;
      }
      var file := dir.files[latest.value];
      dataStore := file.data;
      checkpointCount := file.id;
      snapshot := file.data;
      loaded := true;
    }

    /** `recover`, with `rareEvent` standing for the 2% draw that finds the
      * checkpoint corrupted. Nothing happens unless failed; a corrupted
      * checkpoint brings the strategy back empty without counting a recovery;
      * otherwise memory is reloaded from the latest checkpoint (empty when
      * there is none) and one recovery is counted. */
    method Recover(rareEvent: bool)
      requires Valid()
      modifies this, base
      ensures Valid()
      ensures !base.failed
      ensures !old(base.failed) ==>
        dataStore == old(dataStore) && wal == old(wal) && checkpointCount == old(checkpointCount)
        && base.stats == old(base.stats)
      ensures old(base.failed) && rareEvent ==>
        dataStore == map[] && checkpointCount == old(checkpointCount) && base.stats == old(base.stats)
      ensures old(base.failed) && !rareEvent ==>
        && dataStore == LoadedData(dir.files, map[])
        && checkpointCount == LoadedCount(dir.files, old(checkpointCount))
        && base.stats == old(base.stats).Bump(Recoveries)
    {
      if !base.failed {
        return;
      }
      if rareEvent {
        base.failed := false;
        return;
      }
      var _ := LoadLatestCheckpoint();
      base.failed := false;
      base.RecordOperation(Recoveries);
    }

    /** `create_checkpoint` at wall-clock second `now`: refused while failed;
      * otherwise the store is written to a new file named after the next
      * checkpoint id, the log is cleared, the count advances, and the
      * oldest checkpoint files beyond the retention limit are removed
      * (eviction by age, the corrected form of the name order the cleanup
      * sorts by). The new file is kept whenever the limit is at least one;
      * it is then the one a recovery loads, and it holds exactly the current
      * store. */
    method CreateCheckpoint(now: nat) returns (ok: bool)
      requires Valid()
      modifies this, dir
      ensures Valid()
      ensures ok <==> !base.failed
      ensures !ok ==> wal == old(wal) && checkpointCount == old(checkpointCount) && dir.files == old(dir.files)
      ensures dataStore == old(dataStore)
      ensures ok ==>
        var name := FileName(CheckpointPrefix, old(checkpointCount) + 1, now);
        var written := old(dir.files)[name := CheckpointFile(old(checkpointCount) + 1, old(dataStore), old(dir.clock))];
        && wal == [] && checkpointCount == old(checkpointCount) + 1
        && dir.clock == old(dir.clock) + 1
        && PrunedByAge(written, dir.files, CheckpointPrefix, maxCheckpoints)
        && (name in dir.files <==> maxCheckpoints >= 1)
        && (name in dir.files ==>
              && Latest(dir.files, CheckpointPrefix) == Some(name)
              && dir.files[name] == written[name]
              && LoadedData(dir.files, map[]) == dataStore
              && LoadedCount(dir.files, 0) == checkpointCount)
    {
      if base.failed {
        return false;
      }
      var id := checkpointCount + 1;
      var name := FileName(CheckpointPrefix, id, now);
      dir.SaveCheckpoint(CheckpointPrefix, maxCheckpoints, name, id, dataStore);
      wal := [];
      checkpointCount := id;
      snapshot := dataStore;
      ok := true;
    }

    /** `force_checkpoint`: a checkpoint on demand. */
    method ForceCheckpoint(now: nat) returns (ok: bool)
      requires Valid()
      modifies this, dir
      ensures Valid()
      ensures ok <==> !base.failed
      ensures dataStore == old(dataStore)
      ensures ok ==> wal == [] && checkpointCount == old(checkpointCount) + 1
      ensures ok && maxCheckpoints >= 1 ==>
        LoadedData(dir.files, map[]) == dataStore && LoadedCount(dir.files, 0) == checkpointCount
    {
      ok := CreateCheckpoint(now);
    }

    /** `get_checkpoint_info`. A failed strategy reports no log entries and
      * no data. */
    function CheckpointInfoReport(): (info: CheckpointInfo)
      requires Valid()
      reads this, base, dir
      ensures info.walEntries == |wal| && info.dataCount == |dataStore|
      ensures info.checkpointCount == checkpointCount
      ensures base.failed ==> info.walEntries == 0 && info.dataCount == 0
    {
      CheckpointInfo(checkpointCount, |wal|, checkpointInterval, checkpointDir, |dataStore|)
    }
  }
}
