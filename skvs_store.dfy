/**
  The simple key-value store (skvs): a map from keys to versioned
  entries, a metrics record and a snapshot path. Writes return an
  outcome tag; every successful write refreshes the metrics so that
  `size` is the number of keys. Serialisation to and from the snapshot
  file is not modelled: `Flush` takes the outcome of the file write as a
  parameter.
 */
module SkvsStore {
  import opened Wrappers
  import opened SkvsEntry

  /** Outcome of a write; none of them is an error. */
  datatype WriteResult = AlreadyExists | Inserted | Updated | DoesNotExist

  datatype Metrics = Metrics(lastUpdate: int, lastWrite: int, size: nat)

  /** The zeroed metrics of a store that was never written nor flushed. */
  const EmptyMetrics := Metrics(0, 0, 0)

  datatype FlushResult = Ok | IoError(message: string)

  class Store {
    var path: string
    var metrics: Metrics
    var values: map<string, Entry>

    /** `size` counts the keys, and every entry has a version of at least 1. */
    ghost predicate Valid()
      reads this
    {
      && metrics.size == |values|
      && forall k :: k in values ==> ValidEntry(values[k])
    }

    /** An empty store that will be flushed to `storePath`. */
    constructor (storePath: string)
      ensures Valid()
      ensures path == storePath && values == map[] && metrics == EmptyMetrics
      ensures Len() == 0 && metrics.size == Len()
    {
      path := storePath;
      metrics := EmptyMetrics;
      values := map[];
    }

    /** The number of keys held, which the metrics mirror. */
    function Len(): (n: nat)
      reads this
      ensures Valid() ==> n == metrics.size
    {
      |values|
    }

    /**
      Refreshes the metrics: a write stamps `lastUpdate` and recounts the
      keys, a persist stamps `lastWrite`. Nothing else changes.
     */
    method UpdateMetrics(write: bool, persist: bool, now: int)
      modifies this`metrics
      ensures metrics.lastUpdate == if write then now else old(metrics.lastUpdate)
      ensures metrics.size == if write then |values| else old(metrics.size)
      ensures metrics.lastWrite == if persist then now else old(metrics.lastWrite)
    {
      var m := metrics;
      if write {
        m := m.(lastUpdate := now, size := Len());
      }
      if persist {
        m := m.(lastWrite := now);
      }
      metrics := m;
    }

    /** Adds `k` only when it is absent; an existing key is left alone. */
    method Insert(k: string, v: string, now: int) returns (r: WriteResult)
      requires Valid()
      modifies this
      ensures Valid() && path == old(path)
      ensures r == AlreadyExists || r == Inserted
      ensures r == AlreadyExists <==> k in old(values)
      ensures r == AlreadyExists ==> values == old(values) && metrics == old(metrics)
      ensures r == Inserted ==>
        && values == old(values)[k := FromString(v, now)]
        && values[k].version == 1 && values[k].value == v
        && metrics == old(metrics).(lastUpdate := now, size := |values|)
        && metrics.size == old(metrics.size) + 1
      ensures old(metrics.lastUpdate) <= now ==> old(metrics.lastUpdate) <= metrics.lastUpdate
    {
      if k in values {
        r := AlreadyExists;
      } else {
        values := values[k := FromString(v, now)];
        UpdateMetrics(true, false, now);
        r := Inserted;
      }
    }

    /**
      Upsert: an absent key gets a fresh entry (`Inserted`), a present one
      the entry `UpdateFromString` gives (`Updated`, also when the value
      is unchanged and the entry therefore stays as it was). The metrics
      are refreshed in both cases.
     */
    method Update(k: string, v: string, now: int) returns (r: WriteResult)
      requires Valid()
      modifies this
      ensures Valid() && path == old(path)
      ensures r == Inserted || r == Updated
      ensures r == Updated <==> k in old(values)
      ensures r == Inserted ==> values == old(values)[k := FromString(v, now)]
      ensures r == Updated ==> values == old(values)[k := UpdateFromString(old(values)[k], v, now)]
      ensures r == Updated && v == old(values)[k].value ==> values == old(values)
      ensures values[k].value == v
      ensures metrics == old(metrics).(lastUpdate := now, size := |values|)
      ensures old(metrics.lastUpdate) <= now ==> old(metrics.lastUpdate) <= metrics.lastUpdate
    {
      var prev: Option<Entry>;
      if k in values {
        prev := Some(values[k]);
        r := Updated;
      } else {
        prev := None;
        r := Inserted;
      }
      match prev {
        case Some(ent) =>
          values := values[k := UpdateFromString(ent, v, now)];
        case None =>
          values := values[k := FromString(v, now)];
      }
      UpdateMetrics(true, false, now);
    }

    /** The value stored under `k`, if any; the store is not changed. */
    method Get(k: string) returns (r: Option<string>)
      ensures r.Some? <==> k in values
      ensures r.Some? ==> r.value == values[k].value
    {
      if k in values {
        r := Some(values[k].value);
      } else {
        r := None;
      }
    }

    /** Removes `k` when present (`Updated`); an absent key changes nothing. */
    method Delete(k: string, now: int) returns (r: WriteResult)
      requires Valid()
      modifies this
      ensures Valid() && path == old(path)
      ensures r == Updated || r == DoesNotExist
      ensures r == Updated <==> k in old(values)
      ensures r == DoesNotExist ==> values == old(values) && metrics == old(metrics)
      ensures r == Updated ==>
        && values == old(values) - {k}
        && metrics == old(metrics).(lastUpdate := now, size := |values|)
        && metrics.size == old(metrics.size) - 1
      ensures k !in values
      ensures old(metrics.lastUpdate) <= now ==> old(metrics.lastUpdate) <= metrics.lastUpdate
    {
      if k in values {
        values := values - {k};
        UpdateMetrics(true, false, now);
        r := Updated;
      } else {
        r := DoesNotExist;
      }
    }

    /**
      The metrics part of persisting the store. With no path, nothing
      happens and the flush succeeds. Otherwise `lastWrite` is stamped
      first and the outcome of creating and writing the file, given as
      `ioError`, decides the result; the stamp stays even when the write
      fails.
     */
    method Flush(now: int, ioError: Option<string>) returns (r: FlushResult)
      requires Valid()
      modifies this
      ensures Valid() && path == old(path) && values == old(values)
      ensures path == "" ==> r == Ok && metrics == old(metrics)
      ensures path != "" ==> metrics == old(metrics).(lastWrite := now)
      ensures r == Ok <==> path == "" || ioError.None?
      ensures r.IoError? ==> ioError == Some(r.message)
    {
      if path == "" {
        return Ok;
      }
      UpdateMetrics(false, true, now);
      match ioError {
        case None => r := Ok;
        case Some(e) => r := IoError(e);
      }
    }
  }

  /**
    The walk-through the store's own test performs, with a clock that
    ticks once per write: what a caller can conclude from the contracts.
   */
  method Walkthrough()
  {
    var kvs := new Store("/tmp/kvs.json");
    assert kvs.Len() == 0 && kvs.metrics.lastUpdate == 0;

    var wr := kvs.Insert("X-Pro2", "Fujifilm", 100);
    assert wr == Inserted && kvs.Len() == 1 && kvs.metrics.lastUpdate != 0;
    wr := kvs.Insert("D800", "Canon", 101);
    assert wr == Inserted && kvs.Len() == 2;
    var lastup := kvs.metrics.lastUpdate;

    wr := kvs.Insert("D800", "Nikon", 102);
    assert wr == AlreadyExists && kvs.Len() == 2 && kvs.metrics.lastUpdate == lastup;

    wr := kvs.Update("D800", "Nikon", 103);
    assert wr == Updated && kvs.Len() == 2 && kvs.metrics.lastUpdate >= lastup;
    assert kvs.values["D800"].version == 2;

    var v := kvs.Get("D800");
    assert v == Some("Nikon");
    v := kvs.Get("X-Pro2");
    assert v == Some("Fujifilm");
    v := kvs.Get("EOS 5D Mark II");
    assert v == None;

    wr := kvs.Insert("EOS 5D Mark II", "Canon", 104);
    assert wr == Inserted && kvs.metrics.size == 3;
    wr := kvs.Delete("EOS 5D Mark II", 105);
    assert wr == Updated && kvs.metrics.size == 2;
    wr := kvs.Delete("EOS 5D Mark II", 106);
    assert wr == DoesNotExist && kvs.metrics.size == 2 && kvs.metrics.lastUpdate == 105;

    var f := kvs.Flush(107, None);
    assert f == Ok && kvs.metrics.lastWrite == 107;
  }
}
