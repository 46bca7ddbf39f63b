/**
  The Go key-value demo's store: a map from keys to pointers to Value
  records, the path of the store file and a metrics record. A Value is
  changed in place, and only when the new string differs. The mutex
  that serialises access is not modelled (the store is used by one
  thread); the clock and the outcomes of file operations are parameters.
 */
module KvdemoGo {
  import opened Wrappers

  /** A copy of a Value record, as `getValue` hands it out. */
  datatype ValueData = ValueData(updated: int, version: int, value: string)

  /** The zero Value record. */
  const ZeroData := ValueData(0, 0, "")

  /** The record under `key` in `m`, or the zero record, as a Go map lookup gives it. */
  function Prior(m: map<string, ValueData>, key: string): (d: ValueData) {
    if key in m then m[key] else ZeroData
  }

  /** A stored record, updated in place through pointers. */
  class Value {
    var updated: int
    var version: int
    var value: string

    /** The zero record `Value{}`. */
    constructor ()
      ensures Data() == ZeroData
    {
      updated, version, value := 0, 0, "";
    }

    /** The record's fields as a value. */
    function Data(): (d: ValueData)
      reads this
    {
      ValueData(updated, version, value)
    }

    /**
      Replaces the value with `s` when it differs, bumping the version and
      stamping `now`; reports whether anything changed.
     */
    method Update(s: string, now: int) returns (changed: bool)
      modifies this
      ensures changed <==> s != old(value)
      ensures changed ==> Data() == ValueData(now, old(version) + 1, s)
      ensures !changed ==> Data() == old(Data())
      ensures value == s
    {
      if s != value {
        updated := now;
        version := version + 1;
        value := s;
        return true;
      }
      return false;
    }
  }

  /** The record `r` currently holds `d`. */
  ghost predicate Mirrors(r: Value, d: ValueData)
    reads r
  {
    r.Data() == d
  }

  datatype Metrics = Metrics(size: nat, lastWrite: int, lastUpdate: int, writeError: string)

  /** What looking up the store file reports. */
  datatype StatResult = ModTime(time: int) | NotExist | StatError(message: string)

  class Store {
    var values: map<string, Value>
    var file: string
    var metrics: Metrics
    /** Each record the map points to, with the one key that points to it. */
    ghost var Owner: map<Value, string>
    /** The records as values: what a reader of the map sees. */
    ghost var Contents: map<string, ValueData>

    /**
      Key `k` owns the record it points to, `Contents` mirrors that record,
      and the record has been written at least once.
     */
    ghost predicate Intact(k: string)
      reads this, Owner.Keys
    {
      && k in values && k in Contents
      && values[k] in Owner && Owner[values[k]] == k
      && Mirrors(values[k], Contents[k]) && Contents[k].version >= 1
    }

    /** Every key but possibly `key` is intact. */
    ghost predicate ValidExcept(key: string)
      reads this, Owner.Keys
    {
      && values.Keys == Contents.Keys
      && forall k :: k in values && k != key ==> Intact(k)
    }

    /**
      Every key is intact: no record is shared between keys, so an in-place
      update of one key never shows through another.
     */
    ghost predicate Valid()
      reads this, Owner.Keys
    {
      && values.Keys == Contents.Keys
      && forall k :: k in values ==> Intact(k)
    }

    /** The store as it is declared: an empty map and zero metrics. */
    constructor (file: string)
      ensures Valid() && Contents == map[] && Owner == map[]
      ensures values == map[] && this.file == file && metrics == Metrics(0, 0, 0, "")
    {
      values := map[];
      Owner := map[];
      Contents := map[];
      this.file := file;
      metrics := Metrics(0, 0, 0, "");
    }

    /**
      The largest of `from` and the stamps of every stored record, found by
      visiting the keys in no particular order.
     */
    method FoldLastUpdate(from: int) returns (last: int)
      ensures last >= from
      ensures forall k :: k in values ==> values[k].updated <= last
      ensures last == from || exists k :: k in values && values[k].updated == last
    {
      last := from;
      var rest := values.Keys;
      while rest != {}
        invariant rest <= values.Keys
        invariant last >= from
        invariant forall k :: k in values && k !in rest ==> values[k].updated <= last
        invariant last == from || exists k :: k in values && values[k].updated == last
        decreases rest
      {
        var k :| k in rest;
        if values[k].updated > last {
          last := values[k].updated;
        }
        rest := rest - {k};
      }
    }

    /**
      Fills in the metrics after the store file was loaded: the key count,
      the latest update over all records, and from `stat` the file's
      modification time or, for an error other than a missing file, the
      error message.
     */
    method SetupMetrics(stat: StatResult)
      modifies this`metrics
      ensures metrics.size == |values|
      ensures metrics.lastUpdate >= old(metrics.lastUpdate)
      ensures forall k :: k in values ==> values[k].updated <= metrics.lastUpdate
      ensures metrics.lastUpdate == old(metrics.lastUpdate) ||
              exists k :: k in values && values[k].updated == metrics.lastUpdate
      ensures metrics.lastWrite == if stat.ModTime? then stat.time else old(metrics.lastWrite)
      ensures metrics.writeError == if stat.StatError? then stat.message else old(metrics.writeError)
    {
      metrics := metrics.(size := |values|);
      var last := FoldLastUpdate(metrics.lastUpdate);
      metrics := metrics.(lastUpdate := last);

      match stat {
        case StatError(e) => metrics := metrics.(writeError := e);
        case NotExist =>
        case ModTime(t) => metrics := metrics.(lastWrite := t);
      }
    }

    /**
      The record `key` points to, or a fresh zero record when there is
      none: in either case one that no other key reaches.
     */
    method RecordFor(key: string) returns (v: Value)
      requires Valid()
      ensures v.Data() == if key in Contents then Contents[key] else ZeroData
      ensures key in values ==> v == values[key]
      ensures key !in values ==> fresh(v)
      ensures v in Owner ==> Owner[v] == key
    {
      if key in values {
        v := values[key];
      } else {
        v := new Value();
      }
    }

    /**
      Writes `value` under `key` through the key's record, or through a
      fresh zero record when the key is absent. Only a real change is
      stored and counted; the result says whether there was one.
     */
    method SetValue(key: string, value: string, now: int) returns (changed: bool)
      requires Valid()
      modifies this, Owner.Keys
      ensures Valid() && file == old(file)
      ensures fresh(Owner.Keys - old(Owner.Keys))
      ensures changed <==> value != Prior(old(Contents), key).value
      ensures changed ==> Contents == old(Contents)[key := ValueData(now, Prior(old(Contents), key).version + 1, value)]
      ensures changed ==> metrics == old(metrics).(lastUpdate := now, size := |values|)
      ensures !changed ==> values == old(values) && Contents == old(Contents) && metrics == old(metrics)
    {
      ghost var next := ValueData(now, Prior(Contents, key).version + 1, value);
      var v := RecordFor(key);
      assert forall k :: k in values && k != key ==> values[k] != v;
      changed := v.Update(value, now);
      if changed {
        assert ValidExcept(key);
        Commit(key, v, next, now);
      }
    }

    /**
      Stores the just-written record `v`, which holds `d`, under `key` and
      refreshes the metrics.
     */
    method Commit(key: string, v: Value, ghost d: ValueData, now: int)
      requires ValidExcept(key)
      requires v in Owner ==> Owner[v] == key
      requires Mirrors(v, d) && d.version >= 1
      modifies this
      ensures Valid() && file == old(file)
      ensures values == old(values)[key := v] && Contents == old(Contents)[key := d]
      ensures Owner == old(Owner)[v := key]
      ensures metrics == old(metrics).(lastUpdate := now, size := |values|)
    {
      var written := values[key := v];
      values, Owner := written, Owner[v := key];
      Contents := Contents[key := d];
      metrics := metrics.(lastUpdate := now, size := |written|);
      forall k | k in values
        ensures Intact(k)
      {
        if k != key {
          assert values[k] == old(values[k]) && Owner[values[k]] == old(Owner[values[k]]);
        }
      }
    }

    /**
      The metrics part of writing the store file. `marshalError` and
      `writeError` are the outcomes of encoding the map and of writing the
      file; the first failure is recorded and returned, and only a success
      moves `lastWrite` and clears the recorded error.
     */
    method WriteStore(marshalError: Option<string>, writeError: Option<string>, now: int)
      returns (err: Option<string>)
      modifies this`metrics
      ensures err == if marshalError.Some? then marshalError else writeError
      ensures err.None? ==> metrics == old(metrics).(lastWrite := now, writeError := "")
      ensures err.Some? ==> metrics == old(metrics).(writeError := err.value)
    {
      if marshalError.Some? {
        metrics := metrics.(writeError := marshalError.value);
        return marshalError;
      }

      if writeError.Some? {
        metrics := metrics.(writeError := writeError.value);
        return writeError;
      }

      metrics := metrics.(lastWrite := now);
      metrics := metrics.(writeError := "");
      return None;
    }

    /** A copy of the record under `key` and true, or the zero record and false. */
    method GetValue(key: string) returns (v: ValueData, ok: bool)
      ensures ok <==> key in values
      ensures ok ==> v == values[key].Data()
      ensures !ok ==> v == ZeroData
      ensures Valid() ==> v == Prior(Contents, key)
    {
      if key in values {
        return values[key].Data(), true;
      }
      return ZeroData, false;
    }
  }

  /**
    A client run against a new store: the first write of a key stores
    version 1, writing the same string again changes nothing, and a new
    string gives version 2.
   */
  method Walkthrough() {
    var s := new Store("store.json");
    var changed := s.SetValue("a", "x", 5);
    assert changed && s.metrics.lastUpdate == 5 && s.metrics.size == 1;
    changed := s.SetValue("a", "x", 6);
    assert !changed && s.metrics.lastUpdate == 5;
    changed := s.SetValue("a", "z", 9);
    assert changed && s.metrics.lastUpdate == 9 && s.metrics.size == 1;

    var v, ok := s.GetValue("a");
    assert ok && v == ValueData(9, 2, "z");
  }

  /**
    Two keys written in turn keep their own records.
   */
  method WalkthroughKeys() {
    var s := new Store("store.json");
    var changed := s.SetValue("a", "x", 5);
    changed := s.SetValue("b", "y", 7);
    assert changed && s.metrics.size == 2;

    var v, ok := s.GetValue("a");
    assert ok && v == ValueData(5, 1, "x");
    v, ok := s.GetValue("b");
    assert ok && v == ValueData(7, 1, "y");
  }

  /** A key never written reads as the zero record. */
  method WalkthroughAbsent() {
    var s := new Store("store.json");
    var changed := s.SetValue("a", "x", 5);
    var v, ok := s.GetValue("absent");
    assert !ok && v == ZeroData;
  }
}
