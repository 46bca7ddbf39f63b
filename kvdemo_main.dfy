/**
  The Rust key-value demo's store: a map from keys to Value records, the
  path of the store file and a metrics record. `Add` writes a value
  through a copy of the key's record; `Get` hands out a copy.
 */
module Kvdemo {
  import opened Wrappers

  /** A stored string with its stamp and version. */
  datatype Value = Value(timestamp: int, version: nat, value: string)

  datatype Metrics = Metrics(lastUpdate: int, lastWrite: int, size: nat, writeError: string)

  class Store {
    var path: string
    var metrics: Metrics
    var values: map<string, Value>

    /** Every stored record has been written at least once. */
    ghost predicate Valid()
      reads this
    {
      forall k :: k in values ==> values[k].version >= 1
    }

    /**
      The store as the program's entry point sets it up: an empty map and
      the file path. The metrics are never set there, so they are whatever
      the caller supplies.
     */
    constructor (path: string, metrics: Metrics)
      ensures Valid()
      ensures values == map[] && this.path == path && this.metrics == metrics
    {
      this.path := path;
      this.metrics := metrics;
      values := map[];
    }

    /**
      Stores `vs` under `key` at time `now`. An empty string, or the value
      the key already holds, is refused and nothing changes. Otherwise the
      key's record, or `init` for an absent key (the program leaves that
      record uninitialised), is stamped, its version bumped and its value
      replaced. No other key, the path and the metrics are never touched.
     */
    method Add(key: string, vs: string, now: int, init: Value) returns (ok: bool)
      modifies this`values
      ensures ok <==> vs != "" && (key in old(values) ==> old(values)[key].value != vs)
      ensures !ok ==> values == old(values)
      ensures ok ==> key in values && values == old(values)[key := values[key]]
      ensures ok && key in old(values) ==>
        values[key] == Value(now, old(values)[key].version + 1, vs)
      ensures ok && key !in old(values) ==>
        values[key] == Value(now, init.version + 1, vs)
      ensures old(Valid()) ==> Valid()
    {
      var v: Value := init;

      if vs == "" {
        return false;
      }

      if key in values {
        if values[key].value == vs {
          return false;
        }
        v := values[key];
      }

      v := v.(timestamp := now);
      v := v.(version := v.version + 1);
      v := v.(value := vs);

      values := values[key := v];
      return true;
    }

    /** A copy of the record under `key`, or nothing when the key is absent. */
    method Get(key: string) returns (r: Option<Value>)
      ensures r.Some? <==> key in values
      ensures r.Some? ==> r.value == values[key]
    {
      if key in values {
        return Some(values[key]);
      }
      return None;
    }
  }

  /**
    A client run: the first write of a key yields version 1, writing the
    same string again is refused, an empty string is refused, and a new
    string yields version 2 and leaves other keys alone.
   */
  method Walkthrough() {
    var store := new Store("store.json", Metrics(0, 0, 0, ""));
    var ok := store.Add("test key", "test value", 10, Value(0, 0, ""));
    assert ok;
    var r := store.Get("test key");
    assert r == Some(Value(10, 1, "test value"));

    ok := store.Add("test key", "test value", 11, Value(0, 0, ""));
    assert !ok;
    ok := store.Add("other", "", 12, Value(0, 0, ""));
    assert !ok;
    r := store.Get("other");
    assert r == None;

    ok := store.Add("test key", "new value", 13, Value(0, 0, ""));
    assert ok;
    r := store.Get("test key");
    assert r == Some(Value(13, 2, "new value"));
    assert store.Valid() && store.path == "store.json";
  }
}
