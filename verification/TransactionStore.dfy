/** The in-memory store as one thread uses it. */
module TransactionStore {
  import opened Transactions
  import opened StableSort
  import opened RecentWindow

  class InMemoryTransactionStore {
    var items: Contents

    constructor ()
      ensures items == map[]
    {
      items := map[];
    }

    /** Add or replace under the transaction's id, then trim. */
    method AddAsync(transaction: Transaction)
      modifies this
      ensures NewestOf(old(items)[transaction.id := transaction], items, MAX_TRANSACTIONS)
      ensures var grown := old(items)[transaction.id := transaction];
              && |items| == (if |grown| <= 200 then |grown| else 200)
              && (forall k <- items :: k in grown && items[k] == grown[k])
              && forall k, d | k in items && d in grown && d !in items :: grown[d].timestamp <= items[k].timestamp
    {
      items := items[transaction.id := transaction];
      TrimIfNeeded();
    }

    /** Evicts an oldest entry while over the limit; the scan visits the entries in any order. */
    method TrimIfNeeded()
      modifies this
      ensures NewestOf(old(items), items, MAX_TRANSACTIONS)
      ensures |items| == if |old(items)| <= 200 then |old(items)| else 200
    {
      while |items| > MAX_TRANSACTIONS
        invariant Submap(items, old(items)) && NoDropIsNewer(old(items), items)
        invariant |items| >= MAX_TRANSACTIONS || items == old(items)
        decreases |items|
      {
        var oldest: Option<string> := None;
        var unvisited := items.Keys;
        while unvisited != {}
          invariant unvisited <= items.Keys
          invariant oldest.None? ==> unvisited == items.Keys
          invariant oldest.Some? ==> oldest.value in items && oldest.value !in unvisited
          invariant oldest.Some? ==> forall k <- items :: k in unvisited || items[oldest.value].timestamp <= items[k].timestamp
          decreases unvisited
        {
          var k :| k in unvisited;
          unvisited := unvisited - {k};
          if oldest.None? || items[k].timestamp < items[oldest.value].timestamp {
            oldest := Some(k);
          }
        }
        if oldest.None? {
          return;
        }
        EvictOldest(old(items), items, oldest.value);
        items := items - {oldest.value};
      }
    }

    /** A snapshot of the values, in whatever order the dictionary enumerates them. */
    method GetAllAsync() returns (snapshot: seq<Transaction>)
      ensures Enumerates(snapshot, items)
      ensures multiset(snapshot) == multiset(items.Values)
    {
      snapshot := [];
      var unvisited: Contents := items;
      while |unvisited| > 0
        invariant Submap(unvisited, items)
        invariant multiset(snapshot) + multiset(unvisited.Values) == multiset(items.Values)
        decreases |unvisited|
      {
        var k :| k in unvisited;
        RemoveOne(unvisited, k);
        snapshot := snapshot + [unvisited[k]];
        unvisited := unvisited - {k};
      }
      assert unvisited == map[];
    }

    /** The `count` newest entries, newest first. */
    method GetLatestAsync(count: int) returns (latest: seq<Transaction>)
      ensures IsLatest(latest, items, count) && LatestInPlainTerms(latest, items, count)
    {
      var values := GetAllAsync();
      latest := TakeAtMost(SortNewestFirst(values), count);
      LatestIsPlain(latest, items, count);
    }

    method GetByIdAsync(transactionId: string) returns (found: Option<Transaction>)
      ensures found.Some? <==> transactionId in items
      ensures found.Some? ==> found.value == items[transactionId] && found.value.id == transactionId
    {
      found := if transactionId in items then Some(items[transactionId]) else None;
    }
  }

  lemma EvictOldest(all: Contents, kept: Contents, oldest: string)
    requires Submap(kept, all) && NoDropIsNewer(all, kept)
    requires oldest in kept && forall k <- kept :: kept[oldest].timestamp <= kept[k].timestamp
    ensures Submap(Without(kept, oldest), all) && NoDropIsNewer(all, Without(kept, oldest))
    ensures |Without(kept, oldest)| == |kept| - 1
  {
    RemoveOne(kept, oldest);
  }
}
