/** The in-memory cache provider: entries with an expiry stamp, deleted only when a read finds them expired. */
module CacheProvider {
  import opened Transactions

  datatype CacheEntry = CacheEntry(value: string, expiresAt: Option<int>)

  /** An entry is expired from the very instant of its stamp. */
  predicate IsExpired(e: CacheEntry, now: int) {
    e.expiresAt.Some? && e.expiresAt.value <= now
  }

  type Items = map<string, CacheEntry>

  class InMemoryCacheProvider {
    var items: Items

    constructor ()
      ensures items == map[]
    {
      items := map[];
    }

    method SetAsync(key: string, value: string, expiry: Option<int>, now: int)
      modifies this
      ensures items == Ran(old(items), Set(key, value, expiry, now)).0
      ensures items == old(items)[key := CacheEntry(value, if expiry.Some? then Some(now + expiry.value) else None)]
    {
      var expiresAt := if expiry.Some? then Some(now + expiry.value) else None;
      items := items[key := CacheEntry(value, expiresAt)];
    }

    method GetAsync(key: string, now: int) returns (value: Option<string>)
      modifies this
      ensures (items, value) == Ran(old(items), Get(key, now))
      ensures value.Some? <==>
                key in old(items) && (old(items)[key].expiresAt.Some? ==> now < old(items)[key].expiresAt.value)
      ensures value.Some? ==> value.value == old(items)[key].value && items == old(items)
      ensures value.None? ==> items == old(items) - {key}
    {
      if key in items {
        var entry := items[key];
        if IsExpired(entry, now) {
          items := items - {key};
          return None;
        }
        return Some(entry.value);
      }
      return None;
    }

    method RemoveAsync(key: string)
      modifies this
      ensures items == Ran(old(items), Delete(key)).0 == old(items) - {key}
    {
      items := items - {key};
    }
  }

  datatype Op =
    | Set(key: string, value: string, expiry: Option<int>, now: int)
    | Get(key: string, now: int)
    | Delete(key: string)

  ghost function Stamped(op: Op): CacheEntry
    requires op.Set?
  {
    CacheEntry(op.value, if op.expiry.None? then None else Some(op.now + op.expiry.value))
  }

  /** What one operation does to the entries, and what it answers. */
  ghost function Ran(items: Items, op: Op): (Items, Option<string>) {
    match op
    case Set(key, _, _, _) => (items[key := Stamped(op)], None)
    case Delete(key) => (items - {key}, None)
    case Get(key, now) =>
      if key !in items then (items, None)
      else if IsExpired(items[key], now) then (items - {key}, None)
      else (items, Some(items[key].value))
  }

  ghost function After(ops: seq<Op>): Items {
    if ops == [] then map[] else Ran(After(ops[..|ops| - 1]), ops[|ops| - 1]).0
  }

  // ----- The reference: a log that is never cleaned up

  /** The latest write of a key, unless a removal followed it. Reads play no part. */
  ghost function LatestWrite(ops: seq<Op>, key: string): Option<CacheEntry> {
    if ops == [] then None else
      var op := ops[|ops| - 1];
      if op.Set? && op.key == key then Some(Stamped(op))
      else if op.Delete? && op.key == key then None
      else LatestWrite(ops[..|ops| - 1], key)
  }

  /** The value a timed map that never deletes anything shows at `now`. */
  ghost function Shown(ops: seq<Op>, key: string, now: int): Option<string> {
    match LatestWrite(ops, key)
    case None => None
    case Some(e) => if IsExpired(e, now) then None else Some(e.value)
  }

  /** Since the latest write or removal of the key, a read found that write expired, and so deleted it. */
  ghost predicate FoundExpired(ops: seq<Op>, key: string) {
    ops != [] && (
      var op, rest := ops[|ops| - 1], ops[..|ops| - 1];
      && (op.Get? || op.key != key)
      && (|| FoundExpired(rest, key)
          || (op.Get? && op.key == key && LatestWrite(rest, key).Some? && IsExpired(LatestWrite(rest, key).value, op.now))))
  }

  /** The entries exactly, whatever the clock does: a key is as last written until a read finds that write expired. */
  lemma {:induction false} EntriesAreExactly(ops: seq<Op>, key: string)
    ensures var written := LatestWrite(ops, key);
            && (key in After(ops) <==> written.Some? && !FoundExpired(ops, key))
            && (key in After(ops) ==> written == Some(After(ops)[key]))
  {
    if ops != [] {
      EntriesAreExactly(ops[..|ops| - 1], key);
    }
  }

  /**
   * When lazy deletion cannot be observed, exactly: whatever the clock does, a read answers what the log of writes
   * shows at that moment, unless the latest write is live then although an earlier read has found it expired.
   */
  lemma {:induction false} LazyDeletionShowsExactlyWhen(ops: seq<Op>, key: string, now: int)
    ensures Ran(After(ops), Get(key, now)).1 == Shown(ops, key, now) <==>
            !(FoundExpired(ops, key) && LatestWrite(ops, key).Some? && !IsExpired(LatestWrite(ops, key).value, now))
  {
    EntriesAreExactly(ops, key);
  }

  /** No operation of the trace happens after `now`, and the trace itself never goes back in time. */
  ghost predicate ClockUpTo(ops: seq<Op>, now: int) {
    ops == [] || (
      var op, rest := ops[|ops| - 1], ops[..|ops| - 1];
      if op.Delete? then ClockUpTo(rest, now) else op.now <= now && ClockUpTo(rest, op.now))
  }

  lemma {:induction false} ExpiredForGood(ops: seq<Op>, key: string, now: int)
    requires ClockUpTo(ops, now) && FoundExpired(ops, key)
    ensures LatestWrite(ops, key).Some? ==> IsExpired(LatestWrite(ops, key).value, now)
  {
    var op, rest := ops[|ops| - 1], ops[..|ops| - 1];
    if FoundExpired(rest, key) {
      ExpiredForGood(rest, key, if op.Delete? then now else op.now);
    }
  }

  /** In particular it cannot be observed on any trace whose clock never goes back. */
  lemma {:induction false} LazyDeletionIsInvisible(ops: seq<Op>, key: string, now: int)
    requires ClockUpTo(ops, now)
    ensures Ran(After(ops), Get(key, now)).1 == Shown(ops, key, now)
  {
    LazyDeletionShowsExactlyWhen(ops, key, now);
    if FoundExpired(ops, key) {
      ExpiredForGood(ops, key, now);
    }
  }

  /** With a clock that does go back it can: a read made too late takes an entry away from an earlier one. */
  lemma ClockGoingBackIsVisible(key: string, value: string)
    ensures var ops := [Set(key, value, Some(10), 0), Get(key, 10)];
            Ran(After(ops), Get(key, 5)).1 == None && Shown(ops, key, 5) == Some(value)
  {
    var set1, get1 := Set(key, value, Some(10), 0), Get(key, 10);
    var ops := [set1, get1];
    assert ops[..1] == [set1] && [set1][..0] == [];
    assert After([set1]) == map[key := CacheEntry(value, Some(10))];
    assert LatestWrite([set1], key) == Some(CacheEntry(value, Some(10)));
  }
}
