/**
  The `store` crate: an earlier key-value store in which `add` both
  inserts and overwrites. Every accepted `add` writes a new Value with
  the next version, even when the value is the one already stored; an
  empty value is refused. The wall clock is the explicit parameter `now`.
 */
module StoreCrate {
  import opened Wrappers

  /** A stored string with its metadata; `version` is unsigned. */
  datatype Value = Value(timestamp: int, version: nat, value: string)
  {
    /** The successor of this value: next version, new contents, new stamp. */
    function Update(v: string, now: int): (r: Value)
      ensures r.version == version + 1
      ensures r.value == v && r.timestamp == now
    {
      Value(now, version + 1, v)
    }
  }

  /** The default Value: starting version 1 and an empty string. */
  function DefaultValue(now: int): (d: Value)
    ensures d.version == 1 && d.value == "" && d.timestamp == now
  {
    Value(now, 1, "")
  }

  datatype Metrics = Metrics(lastUpdate: int, lastWrite: int, size: nat, writeError: string)

  /** The zeroed metrics of a new store. */
  const EmptyMetrics := Metrics(0, 0, 0, "")

  class Store {
    var path: string
    var metrics: Metrics
    var values: map<string, Value>

    /** `size` counts the keys, and no stored value is below version 1. */
    ghost predicate Valid()
      reads this
    {
      && metrics.size == |values|
      && forall k :: k in values ==> values[k].version >= 1
    }

    /** No stored value was written later than `lastUpdate` says. */
    ghost predicate Stamped()
      reads this
    {
      forall k :: k in values ==> values[k].timestamp <= metrics.lastUpdate
    }

    /** A new, empty store with zeroed metrics and no path. */
    constructor ()
      ensures Valid() && Stamped()
      ensures path == "" && values == map[] && metrics == EmptyMetrics
    {
      path := "";
      metrics := EmptyMetrics;
      values := map[];
    }

    /**
      Writes `vs` under `key`: an empty value is refused and changes
      nothing; otherwise the key gets version 1 when new and the next
      version when present, whatever its current value, and the metrics
      record the write.
     */
    method Add(key: string, vs: string, now: int) returns (ok: bool)
      requires Valid()
      modifies this`values, this`metrics
      ensures Valid()
      ensures ok <==> vs != ""
      ensures !ok ==> values == old(values) && metrics == old(metrics)
      ensures ok ==> key in values && values == old(values)[key := values[key]]
      ensures ok ==>
        values[key] == Value(now, if key in old(values) then old(values)[key].version + 1 else 1, vs)
      ensures ok ==> metrics == old(metrics).(lastUpdate := values[key].timestamp, size := |values|)
      ensures old(Stamped()) && old(metrics.lastUpdate) <= now ==> Stamped()
    {
      if |vs| == 0 {
        return false;
      }

      var ts := now;
      var v := DefaultValue(now);
      if key in values {
        v := values[key].Update(vs, now);
        v := v.(timestamp := ts);
      } else {
        v := v.(value := vs);
        v := v.(timestamp := ts);
      }

      if v.version == 1 {
        values := values - {key};
      }

      values := values[key := v];
      metrics := metrics.(lastUpdate := ts);
      metrics := metrics.(size := |values|);
      return true;
    }

    /** A copy of the Value stored under `key`, if any. */
    method Get(key: string) returns (r: Option<Value>)
      ensures r.Some? <==> key in values
      ensures r.Some? ==> r.value == values[key]
    {
      if key in values {
        var kval := values[key];
        r := Some(Value(kval.timestamp, kval.version, kval.value));
      } else {
        r := None;
      }
    }

    /**
      Removes `key`: false and no change when it is absent; otherwise the
      other keys keep their values and the metrics record the removal.
     */
    method Delete(key: string, now: int) returns (ok: bool)
      requires Valid()
      modifies this`values, this`metrics
      ensures Valid()
      ensures ok <==> key in old(values)
      ensures !ok ==> values == old(values) && metrics == old(metrics)
      ensures ok ==> values == old(values) - {key}
      ensures ok ==> metrics == old(metrics).(lastUpdate := now, size := |values|)
      ensures ok ==> metrics.size == old(metrics.size) - 1
      ensures old(Stamped()) && old(metrics.lastUpdate) <= now ==> Stamped()
    {
      if key !in values {
        return false;
      }

      values := values - {key};
      metrics := metrics.(lastUpdate := now);
      metrics := metrics.(size := |values|);
      return true;
    }

    /** The time of the last write, which no stored value postdates. */
    function LastUpdated(): (t: int)
      reads this
      ensures t == metrics.lastUpdate
      ensures Stamped() ==> forall k :: k in values ==> values[k].timestamp <= t
    {
      metrics.lastUpdate
    }
  }

  /**
    The crate's tests, replayed with a clock that moves forward between
    writes: a second `add` moves to version 2 with a later stamp, and an
    empty value is refused.
   */
  method Walkthrough()
  {
    var store := new Store();
    assert store.LastUpdated() == 0;
    var ok := store.Add("a", "b", 10);
    assert ok && store.LastUpdated() == 10;

    ok := store.Add("a", "c", 12);
    var v := store.Get("a");
    assert ok && v.Some? && v.value.version == 2 && v.value.timestamp > 10;

    ok := store.Add("c", "d", 14);
    v := store.Get("a");
    assert v.Some? && store.LastUpdated() != v.value.timestamp;
    v := store.Get("c");
    assert v.Some? && store.LastUpdated() == v.value.timestamp;
    assert store.metrics.size == 2;

    ok := store.Add("c", "d", 15);
    assert ok && store.values["c"].version == 2;

    ok := store.Add("e", "", 16);
    assert !ok && store.metrics.size == 2;
  }

  /** The crate's delete test: only a present key is removed, and only once. */
  method WalkthroughDelete()
  {
    var store := new Store();
    var ok := store.Add("a", "b", 10);
    ok := store.Delete("b", 11);
    assert !ok && store.metrics.size == 1;
    ok := store.Delete("a", 12);
    assert ok && store.metrics.size == 0;
    ok := store.Delete("a", 13);
    assert !ok;
  }
}
