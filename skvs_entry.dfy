/**
  The versioned record of the simple key-value store (skvs): an
  immutable `{time, version, value}` value. Every operation builds a
  fresh Entry; none edits one in place. The wall clock is the explicit
  parameter `now`.
 */
module SkvsEntry {

  datatype Entry = Entry(time: int, version: int, value: string)

  /** The invariant every Entry built by this module keeps. */
  predicate ValidEntry(e: Entry) {
    e.version >= 1
  }

  /** A fresh entry for `s`, stamped with `now`, at the starting version 1. */
  function FromString(s: string, now: int): (e: Entry)
    ensures e.version == 1 && e.value == s && e.time == now
    ensures ValidEntry(e)
  {
    Entry(now, 1, s)
  }

  /** The borrowed-string constructor; the same entry as `FromString`. */
  function New(value: string, now: int): (e: Entry)
    ensures e == FromString(value, now)
  {
    FromString(value, now)
  }

  /**
    The entry that replaces `prev` when `nval` is written: `prev` itself
    when the value is unchanged, otherwise the next version, restamped.
   */
  function Update(prev: Entry, nval: string, now: int): (e: Entry)
    ensures e.value == nval
    ensures nval == prev.value ==> e == prev
    ensures e.version == prev.version <==> nval == prev.value
    ensures e.version != prev.version ==> e.version == prev.version + 1 && e.time == now
    ensures prev.time <= now ==> prev.time <= e.time
    ensures ValidEntry(prev) ==> ValidEntry(e)
  {
    if prev.value == nval then
      Entry(prev.time, prev.version, prev.value)
    else
      Entry(now, prev.version + 1, nval)
  }

  /** The owned-string variant of `Update`, written out separately in the source. */
  function UpdateFromString(prev: Entry, s: string, now: int): (e: Entry)
    ensures e.value == s
    ensures s == prev.value ==> e == prev
    ensures e.version == prev.version <==> s == prev.value
    ensures e.version != prev.version ==> e.version == prev.version + 1 && e.time == now
    ensures prev.time <= now ==> prev.time <= e.time
    ensures ValidEntry(prev) ==> ValidEntry(e)
  {
    if prev.value == s then
      Entry(prev.time, prev.version, prev.value)
    else
      Entry(now, prev.version + 1, s)
  }

  /** The two update variants compute the same entry on every input. */
  lemma UpdateVariantsAgree(prev: Entry, s: string, now: int)
    ensures Update(prev, s, now) == UpdateFromString(prev, s, now)
  {
  }

  /**
    Writing the same value twice is the same as writing it once, whatever
    the clock says at the second write.
   */
  lemma UpdateIdempotent(prev: Entry, v: string, now1: int, now2: int)
    ensures Update(Update(prev, v, now1), v, now2) == Update(prev, v, now1)
    ensures UpdateFromString(UpdateFromString(prev, v, now1), v, now2) == UpdateFromString(prev, v, now1)
  {
  }

  /**
    Two successive changes from a fresh entry reach version 3, and a
    non-decreasing clock gives non-decreasing timestamps along the way.
   */
  lemma UpdateChain(s0: string, s1: string, s2: string, t0: int, t1: int, t2: int)
    requires s0 != s1 && s1 != s2
    requires t0 <= t1 <= t2
    ensures var e0 := New(s0, t0);
            var e1 := Update(e0, s1, t1);
            var e2 := Update(e1, s2, t2);
            e2.version == 3 && e2.value == s2 && e0.time <= e1.time <= e2.time
  {
  }
}
