/**
 * BaselineStrategy: the control group. A plain in-memory map; a simulated
 * failure wipes it and recovery only clears the failed flag.
 */
module Baseline {
  import opened Common
  import opened Base

  class BaselineStrategy {
    const base: StrategyBase
    var dataStore: map<Key, Value>

    /** What a retrieve can currently return for each key. */
    ghost function View(): map<Key, Value>
      reads this, base
    {
      if base.failed then map[] else dataStore
    }

    constructor ()
      ensures fresh(base)
      ensures !base.failed && base.stats == NoStats
      ensures dataStore == map[]
    {
      base := new StrategyBase();
      dataStore := map[];
    }

    function StrategyName(): string {
      "Baseline (No Fault Tolerance)"
    }

    /** `store`: refused while failed; otherwise the key now maps to the value. */
    method Store(key: Key, value: Value) returns (ok: bool)
      modifies this, base
      ensures ok <==> !old(base.failed)
      ensures dataStore == if ok then old(dataStore)[key := value] else old(dataStore)
      ensures base.stats == if ok then old(base.stats).Bump(Writes) else old(base.stats)
      ensures base.failed == old(base.failed)
    {
      if base.failed {
        return false;
      }
      dataStore := dataStore[key := value];
      base.RecordOperation(Writes);
      ok := true;
    }

    /** `retrieve`: absent while failed; otherwise the stored value, if any. */
    method Retrieve(key: Key) returns (r: Option<Value>)
      modifies base
      ensures r == if old(base.failed) then None else Lookup(dataStore, key)
      ensures base.stats == if old(base.failed) then old(base.stats) else old(base.stats).Bump(Reads)
      ensures base.failed == old(base.failed)
    {
      if base.failed {
        return None;
      }
      base.RecordOperation(Reads);
      r := Lookup(dataStore, key);
    }

    /** `simulate_failure`: from any state, all data is lost and the strategy fails. */
    method SimulateFailure()
      modifies this, base
      ensures dataStore == map[]
      ensures base.failed
      ensures base.stats == old(base.stats).Bump(FailuresSimulated)
    {
      dataStore := map[];
      base.failed := true;
      base.RecordOperation(FailuresSimulated);
    }

    /** `recover`: a no-op when healthy; otherwise back online with an empty store. */
    method Recover()
      modifies this, base
      ensures !base.failed
      ensures old(base.failed) ==> dataStore == map[] && base.stats == old(base.stats).Bump(Recoveries)
      ensures !old(base.failed) ==> dataStore == old(dataStore) && base.stats == old(base.stats)
    {
      if !base.failed {
        return;
      }
      base.failed := false;
      dataStore := map[];
      base.RecordOperation(Recoveries);
    }

    /** `get_data_count`. */
    method GetDataCount() returns (n: nat)
      ensures n == |dataStore|
    {
      n := |dataStore|;
    }

    /** `list_keys`: every stored key, each once. */
    method ListKeys() returns (keys: seq<Key>)
      ensures forall k :: k in keys <==> k in dataStore
      ensures forall i, j :: 0 <= i < j < |keys| ==> keys[i] != keys[j]
      ensures |keys| == |dataStore|
    {
      keys := [];
      var rest := dataStore.Keys;
      while rest != {}
        invariant rest <= dataStore.Keys
        invariant forall k :: k in keys <==> k in dataStore.Keys - rest
        invariant forall i, j :: 0 <= i < j < |keys| ==> keys[i] != keys[j]
        invariant |keys| + |rest| == |dataStore.Keys|
        decreases rest
      {
        var k :| k in rest;
        assert k !in keys;
        keys := keys + [k];
        rest := rest - {k};
      }
    }
  }
}
