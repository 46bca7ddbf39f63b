# Versioned key-value stores, modelled in Dafny

The repository holds four small, independent key-value stores. Each maps
string keys to a record holding a string value, a version counter and a
timestamp, and each keeps a metrics record: the time of the last update,
the time of the last write to disk and the key count. They are:

- **skvs**, in Rust. It has an immutable `Entry` (`time`, `version`,
  `value`) and a `Store` whose `insert`, `update` and `delete` answer with a
  `WriteResult` tag (`AlreadyExists`, `Inserted`, `Updated`,
  `DoesNotExist`). `flush` refreshes `last_write` before it writes the file.
  The model is in `skvs_entry.dfy` (module `SkvsEntry`) and `skvs_store.dfy`
  (module `SkvsStore`).
- **the `store` crate**, in Rust. `add` both inserts and overwrites, and
  every accepted `add` bumps the version. `delete` reports whether the key
  was there. The model is in `store_lib.dfy` (module `StoreCrate`).
- **the Go kvdemo**. Its global store maps keys to *pointers* to `Value`
  records, and `update` changes a record in place only when the string
  differs. `setupMetrics` folds the latest stamp over all records, and
  `writeStore` records the outcome of writing the file. The model is in
  `kvdemo_go_store.dfy` (module `KvdemoGo`).
- **the Rust kvdemo**, with `add` and `get`. `add` refuses an empty or
  unchanged value. The model is in `kvdemo_main.dfy` (module `Kvdemo`).

`wrappers.dfy` holds the shared `Option` type.

The wall clock becomes an explicit `now: int` parameter. The outcome of
each file-system call (a stat, a write, a failed encoding) becomes a
parameter too.

Each store is a class:
- its `values` map and metrics record are fields;
- the mutating operations are methods with `modifies` clauses;
- a `Valid()` predicate holds the invariant the operations keep.

The invariant differs from store to store:
- **skvs and the `store` crate:** `size` equals the key count and every
  stored version is at least 1. The crate also has `Stamped()`: no stored
  stamp is later than `last_update`.
- **the Rust kvdemo:** every stored version is at least 1. There is no size
  clause, because `add` never touches the metrics.
- **the Go kvdemo:** every key is `Intact`, meaning:
  - it owns the record it points to;
  - the ghost `Contents` map mirrors that record;
  - the record's version is at least 1.

A method's postconditions give:
- the tag it returns, as an if-and-only-if over the old map;
- the exact new map;
- the exact new metrics;
- "nothing changes" on every refusal.

In the Go model:
- a ghost `Owner` map records which key owns each `Value` object;
- `Valid()` requires that no record is shared between keys, so an in-place
  update through one key cannot show through another;
- a ghost `Contents` map gives the records as plain values, and
  `SetValue` is stated against it.

## Model

| member | source | states |
|---|---|---|
| SkvsEntry.FromString | skvs/src/store/entry.rs:56-62 | a new entry has version 1, holds exactly the given string and carries the current time; it satisfies the version ≥ 1 invariant |
| SkvsEntry.New | skvs/src/store/entry.rs:50-52 | the borrowed-string constructor gives exactly the entry `FromString` gives |
| SkvsEntry.Update | skvs/src/store/entry.rs:67-83 | the result always holds the new value; an unchanged value returns the old entry itself (same time and version); the version stays the same exactly when the value is unchanged, and otherwise goes up by one with the current time; under a non-decreasing clock the time never goes back; version ≥ 1 is preserved |
| SkvsEntry.UpdateFromString | skvs/src/store/entry.rs:87-101 | the same guarantees as `Update` for the owned-string variant |
| SkvsEntry.UpdateVariantsAgree | skvs/src/store/entry.rs:67-101 | `update` and `update_from_string` give the same entry on every input |
| SkvsEntry.UpdateIdempotent | skvs/src/store/entry.rs:70-82 | writing the same value twice, at any two times, gives what writing it once gives |
| SkvsEntry.UpdateChain | skvs/src/store/entry.rs:112-136 | two successive changes of value starting from a fresh entry give version 3, the last value and times that never go back under a non-decreasing clock |
| SkvsStore.Store.constructor | skvs/src/store/mod.rs:83-89 | a new store has the given path, an empty map and zeroed metrics, so size and `Len()` are both 0 |
| SkvsStore.Store.Len | skvs/src/store/mod.rs:135-137 | the key count, equal to the metrics size while the store is valid |
| SkvsStore.Store.UpdateMetrics | skvs/src/store/mod.rs:119-132 | a write sets `last_update` to now and `size` to the key count; a persist sets `last_write` to now; every other field is kept |
| SkvsStore.Store.Insert | skvs/src/store/mod.rs:142-150 | `AlreadyExists` exactly when the key is present, in which case map and metrics are unchanged; otherwise the key maps to a version-1 entry of the value, no other key changes, `last_update` is now, size grows by one and equals the key count |
| SkvsStore.Store.Update | skvs/src/store/mod.rs:157-188 | `Updated` exactly when the key was present, with the entry replaced by `update_from_string` of the old one, which is no change at all when the value is equal; otherwise `Inserted` with a fresh version-1 entry; no other key changes; metrics are refreshed in both cases |
| SkvsStore.Store.Get | skvs/src/store/mod.rs:191-196 | some value exactly when the key is present, and then the stored entry's value |
| SkvsStore.Store.Delete | skvs/src/store/mod.rs:199-208 | `Updated` exactly when the key was present, which is then removed with no other key changed and the metrics refreshed (size one less); otherwise `DoesNotExist` and nothing changes |
| SkvsStore.Store.Flush | skvs/src/store/mod.rs:101-112 | an empty path succeeds and changes nothing; otherwise `last_write` becomes now before the file is written, whatever the outcome, and the result is an error exactly when the write failed |
| StoreCrate.Value.Update | store/src/lib.rs:80-86 | the successor record has the next version, the new string and the current time |
| StoreCrate.DefaultValue | store/src/lib.rs:69-76 | the default record has version 1 and an empty string |
| StoreCrate.Store.constructor | store/src/lib.rs:137-143 | a new store has an empty path, an empty map and zeroed metrics, and is valid |
| StoreCrate.Store.Add | store/src/lib.rs:149-175 | refused, with nothing changed, exactly when the value is empty; otherwise the key maps to a record with the new value and the current time, at version 1 when new and the old version plus one when present; no other key changes; `last_update` and `size` are refreshed; validity is kept, and so is "no stamp after `last_update`" under a non-decreasing clock |
| StoreCrate.Store.Get | store/src/lib.rs:179-193 | a copy of the stored record exactly when the key is present |
| StoreCrate.Store.Delete | store/src/lib.rs:196-205 | true exactly when the key was present, which is then removed with the metrics refreshed; otherwise nothing changes; validity is kept |
| StoreCrate.Store.LastUpdated | store/src/lib.rs:209-211 | the recorded `last_update`, which bounds every stored stamp while the store is stamped |
| KvdemoGo.Value.constructor | kvdemo.go/store.go:104 | a fresh record is the zero record |
| KvdemoGo.Value.Update | kvdemo.go/store.go:23-31 | reports a change exactly when the string differs; on a change the record is stamped now, one version up and holds the string; otherwise it is untouched |
| KvdemoGo.Store.constructor | kvdemo.go/store.go:50-66 | the global store starts with an empty map, zero metrics, no records owned and empty `Contents`, and is valid |
| KvdemoGo.Store.FoldLastUpdate | kvdemo.go/store.go:80-84 | the loop over the records yields the largest of the starting value and every record's stamp: at least each of them and equal to one of them |
| KvdemoGo.Store.SetupMetrics | kvdemo.go/store.go:77-94 | size becomes the key count and `last_update` the fold of the stamps; a found file sets `last_write` to its modification time, a stat error other than a missing file is recorded, and a missing file changes neither |
| KvdemoGo.Store.RecordFor | kvdemo.go/store.go:102-105 | the key's own record, or a fresh zero record when the key is absent; either way no other key reaches it |
| KvdemoGo.Store.SetValue | kvdemo.go/store.go:98-115 | reports a change exactly when the value differs from the key's current one (or from the empty string for a new key); on a change the key holds the next version of its record stamped now, no other key's record changes, and `last_update` and `size` are refreshed; otherwise nothing changes; no record is ever shared between keys, and the only record that may join the owned ones is newly allocated, so writes can be chained |
| KvdemoGo.Store.Commit | kvdemo.go/store.go:108-110 | stores the written record under its key, keeping every other key's record; `Contents` takes the record's new value, the record becomes owned by its key, and `last_update` and `size` are refreshed |
| KvdemoGo.Store.WriteStore | kvdemo.go/store.go:119-135 | the encoding error, else the write error, else success is returned; a failure only records its message; success sets `last_write` to now and clears the recorded error |
| KvdemoGo.Store.GetValue | kvdemo.go/store.go:139-149 | a copy of the key's record and true, or the zero record and false exactly when the key is absent; in a valid store the copy is the key's entry in `Contents` |
| Kvdemo.Store.constructor | kvdemo/src/main.rs:77-79 | the store the entry point builds: an empty map and the given path |
| Kvdemo.Store.Add | kvdemo/src/main.rs:42-66 | refused, with nothing changed, exactly when the value is empty or equal to the stored one; otherwise the key holds the new value stamped now at one version above the old record, no other key changes, path and metrics are never touched, and every stored version stays at least 1 |
| Kvdemo.Store.Get | kvdemo/src/main.rs:68-73 | the stored record exactly when the key is present |

## Left out

- File and serialisation I/O are not modelled. This covers skvs `load`, the file creation and JSON encoding in `flush`, `json.Marshal`, `ioutil.WriteFile` and `os.Stat` in the Go kvdemo. Only their effect on the metrics is modelled, with the outcome of each call as a parameter. So the flush-then-load round trip, which rests on the JSON library, is not stated.
- The Go kvdemo's HTTP handlers (`kvdemo.go/main.go`) and the command-line parsing and printing in `kvdemo/src/main.rs:76-119` are not part of this model.
- The Go kvdemo's mutex is not modelled. The store is treated as used by one thread at a time, and its global `store` variable becomes one `Store` object.
- The wall clock is the parameter `now`. Some operations read the clock twice: Go `setValue` reads it once inside `update` and again for `LastUpdate`, and skvs `insert`/`update` read it once for the entry and again in `update_metrics`. The model uses one `now` per operation, so the record's stamp and `last_update` always agree in the model.
- Integer widths are not modelled. Stamps (`i64`), versions (`i64` in the skvs `Entry`, `u64` in the two Rust stores, `int` in Go) and sizes (`usize`, Go `int`) are unbounded integers, so a version counter overflowing is not modelled.
- `WriteResult::to_string` and the text of the write-error fields are not modelled. They are display strings. Error messages are carried as opaque strings.
- SkvsStore.Store.Flush: the code refreshes `last_write` before creating the file. A failed write therefore still moves `last_write`, and the model follows the code.
- SkvsStore.Store.Insert and SkvsStore.Store.Update accept an empty value. The code has no empty-value check, so the model adds none.
- Kvdemo.Store.Add: when the key is absent, the code builds the record from an uninitialised variable. The model takes that record's contents as the parameter `init`, and for that path claims only what follows from any `init`: new value, stamp now, version one above `init`'s. The code also moves a record out of a shared borrow, which the model reads as a copy.
- KvdemoGo: a store file that decodes to a `null` record, or to a record at version 0, is outside the model. `Valid()` assumes every record in the map was written by `setValue`.
