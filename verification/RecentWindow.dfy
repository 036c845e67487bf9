/** What "the latest N" means, and when a store that only ever evicts its oldest entry still holds it. */
module RecentWindow {
  import opened Transactions
  import opened StableSort

  const MAX_TRANSACTIONS: nat := 200

  ghost predicate Submap(m: Contents, n: Contents) {
    forall k <- m :: k in n && n[k] == m[k]
  }

  ghost predicate NoDropIsNewer(all: Contents, kept: Contents) {
    forall k, d | k in kept && d in all && d !in kept :: all[d].timestamp <= kept[k].timestamp
  }

  /** `kept` is a newest-`cap` window of `all`: as full as it may be, and nothing left out is newer. */
  ghost predicate NewestOf(all: Contents, kept: Contents, cap: nat) {
    && Submap(kept, all)
    && |kept| == (if |all| <= cap then |all| else cap)
    && NoDropIsNewer(all, kept)
  }

  /** Some order in which a dictionary may hand out its values. */
  ghost predicate Enumerates(s: seq<Transaction>, m: Contents) {
    multiset(s) == multiset(m.Values)
  }

  /** A possible answer of "the latest `count`": which of two equally old entries comes first is open. */
  ghost predicate IsLatest(r: seq<Transaction>, m: Contents, count: int) {
    exists s :: Enumerates(s, m) && r == TakeAtMost(SortNewestFirst(s), count)
  }

  lemma SubmapSize(m: Contents, n: Contents)
    requires Submap(m, n)
    ensures |m| <= |n|
    ensures |m| == |n| ==> m == n
  {
    assert m.Keys <= n.Keys;
    var rest := n.Keys - m.Keys;
    assert n.Keys == m.Keys + rest && m.Keys !! rest;
    assert |n.Keys| == |m.Keys| + |rest|;
    if |m| == |n| {
      assert rest == {};
      assert m.Keys == n.Keys;
    }
  }

  ghost function Without(m: Contents, k: string): Contents {
    m - {k}
  }

  lemma RemoveOne(m: Contents, k: string)
    requires k in m
    ensures |Without(m, k)| == |m| - 1
    ensures m.Values == Without(m, k).Values + {m[k]} && m[k] !in Without(m, k).Values
  {
    var rest := Without(m, k);
    assert m.Keys == rest.Keys + {k};
    forall x ensures x in m.Values <==> x in rest.Values + {m[k]} {
      if x in m.Values {
        assert x.id in m && m[x.id] == x;
        assert x.id == k || x.id in rest;
      }
      if x in rest.Values {
        assert x.id in rest && rest[x.id] == x;
      }
    }
  }

  lemma {:induction false} DistinctValues(m: Contents)
    ensures |m.Values| == |m|
    decreases |m|
  {
    if m != map[] {
      var k :| k in m;
      RemoveOne(m, k);
      DistinctValues(Without(m, k));
    }
  }

  lemma EnumerationSize(s: seq<Transaction>, m: Contents)
    requires Enumerates(s, m)
    ensures |s| == |m|
    ensures forall x :: x in s <==> x.id in m && m[x.id] == x
  {
    DistinctValues(m);
    assert |s| == |multiset(s)|;
    forall x ensures x in s <==> x.id in m && m[x.id] == x {
      assert x in s <==> x in multiset(s);
    }
  }

  lemma SameListingSameContents(s: seq<Transaction>, m: Contents, n: Contents)
    requires Enumerates(s, m) && Enumerates(s, n)
    ensures m == n
  {
    EnumerationSize(s, m);
    EnumerationSize(s, n);
    forall k | k in m ensures k in n && n[k] == m[k] {
      assert m[k].id == k && m[k] in s;
    }
    forall k | k in n ensures k in m {
      assert n[k].id == k && n[k] in s;
    }
  }

  /** The stored transactions of the unbounded history: the last one added under each id. */
  ghost function History(adds: seq<Transaction>): Contents {
    if adds == [] then map[] else
      var last := adds[|adds| - 1];
      History(adds[..|adds| - 1])[last.id := last]
  }

  /** The condition under which an add keeps the window: an id that is stored must not fall behind an evicted entry. */
  ghost predicate Admits(all: Contents, kept: Contents, tx: Transaction) {
    tx.id in kept ==> forall d | d in all && d !in kept :: all[d].timestamp <= tx.timestamp
  }

  lemma NewerVersionIsAdmitted(all: Contents, kept: Contents, tx: Transaction)
    requires NewestOf(all, kept, MAX_TRANSACTIONS)
    requires tx.id in kept ==> kept[tx.id].timestamp <= tx.timestamp
    ensures Admits(all, kept, tx)
  {
  }

  lemma AddOfStoredId(all: Contents, kept: Contents, tx: Transaction)
    requires NewestOf(all, kept, MAX_TRANSACTIONS)
    requires tx.id in kept
    ensures NewestOf(all[tx.id := tx], kept[tx.id := tx], MAX_TRANSACTIONS) <==> Admits(all, kept, tx)
  {
    var all': Contents, kept': Contents := all[tx.id := tx], kept[tx.id := tx];
    assert kept'.Keys == kept.Keys && all'.Keys == all.Keys;
    assert Submap(kept', all') && |kept'| == |kept| && |all'| == |all|;
    if NoDropIsNewer(all', kept') {
      forall d | d in all && d !in kept ensures all[d].timestamp <= tx.timestamp {
        assert all'[d].timestamp <= kept'[tx.id].timestamp;
      }
    } else {
      var k, d :| k in kept' && d in all' && d !in kept' && all'[d].timestamp > kept'[k].timestamp;
      assert k == tx.id;
    }
  }

  lemma TrimOfStoredId(kept: Contents, tx: Transaction, kept': Contents)
    requires |kept| <= MAX_TRANSACTIONS && tx.id in kept
    requires NewestOf(kept[tx.id := tx], kept', MAX_TRANSACTIONS)
    ensures kept' == kept[tx.id := tx]
  {
    assert kept[tx.id := tx].Keys == kept.Keys;
    SubmapSize(kept', kept[tx.id := tx]);
  }

  lemma AddThatEvicts(all: Contents, kept: Contents, tx: Transaction, kept': Contents, e: string)
    requires Submap(kept, all) && NoDropIsNewer(all, kept) && tx.id !in kept
    requires Submap(kept', kept[tx.id := tx]) && NoDropIsNewer(kept[tx.id := tx], kept')
    requires e in kept && e !in kept'
    ensures NoDropIsNewer(all[tx.id := tx], kept')
  {
    var grown: Contents, all': Contents := kept[tx.id := tx], all[tx.id := tx];
    assert e in grown;
    forall k, d | k in kept' && d in all' && d !in kept' ensures all'[d].timestamp <= kept'[k].timestamp {
      if d in grown {
        assert grown[d].timestamp <= kept'[k].timestamp;
      } else {
        assert all[d].timestamp <= kept[e].timestamp == grown[e].timestamp <= kept'[k].timestamp;
      }
    }
  }

  lemma AddThatIsDropped(all: Contents, kept: Contents, tx: Transaction)
    requires NoDropIsNewer(all, kept) && tx.id !in kept
    requires NoDropIsNewer(kept[tx.id := tx], kept)
    ensures NoDropIsNewer(all[tx.id := tx], kept)
  {
    var grown: Contents := kept[tx.id := tx];
    forall k | k in kept ensures tx.timestamp <= kept[k].timestamp {
      assert grown[tx.id].timestamp <= kept[k].timestamp;
    }
  }

  lemma GrownSize(m: Contents, tx: Transaction)
    ensures |m[tx.id := tx]| == if tx.id in m then |m| else |m| + 1
  {
    assert m[tx.id := tx].Keys == m.Keys + {tx.id};
  }

  lemma SubmapGrows(m: Contents, n: Contents, tx: Transaction)
    requires Submap(m, n)
    ensures Submap(m[tx.id := tx], n[tx.id := tx])
  {
  }

  lemma SubmapChain(l: Contents, m: Contents, n: Contents)
    requires Submap(l, m) && Submap(m, n)
    ensures Submap(l, n)
  {
    forall k | k in l ensures k in n && n[k] == l[k] {
      assert k in m;
    }
  }

  lemma AddThatFits(all: Contents, kept: Contents, tx: Transaction)
    requires NewestOf(all, kept, MAX_TRANSACTIONS)
    requires tx.id !in kept && |kept| < MAX_TRANSACTIONS
    ensures NewestOf(all[tx.id := tx], kept[tx.id := tx], MAX_TRANSACTIONS)
  {
    SubmapSize(kept, all);
    GrownSize(kept, tx);
  }

  lemma AddToFullWindow(all: Contents, kept: Contents, tx: Transaction, kept': Contents)
    requires NewestOf(all, kept, MAX_TRANSACTIONS)
    requires tx.id !in kept && |kept| == MAX_TRANSACTIONS == |kept'|
    requires NewestOf(kept[tx.id := tx], kept', MAX_TRANSACTIONS)
    ensures NoDropIsNewer(all[tx.id := tx], kept')
  {
    if tx.id !in kept' {
      SubmapSize(kept', kept);
      AddThatIsDropped(all, kept, tx);
    } else if forall e <- kept :: e in kept' {
      GrownSize(kept, tx);
      SubmapSize(kept[tx.id := tx], kept');
    } else {
      var e :| e in kept && e !in kept';
      AddThatEvicts(all, kept, tx, kept', e);
    }
  }

  lemma AddOfNewId(all: Contents, kept: Contents, tx: Transaction, kept': Contents)
    requires NewestOf(all, kept, MAX_TRANSACTIONS)
    requires tx.id !in kept
    requires NewestOf(kept[tx.id := tx], kept', MAX_TRANSACTIONS)
    ensures NewestOf(all[tx.id := tx], kept', MAX_TRANSACTIONS)
  {
    GrownSize(kept, tx);
    if |kept| < MAX_TRANSACTIONS {
      SubmapSize(kept', kept[tx.id := tx]);
      AddThatFits(all, kept, tx);
    } else {
      AddToFullWindow(all, kept, tx, kept');
      SubmapGrows(kept, all, tx);
      SubmapChain(kept', kept[tx.id := tx], all[tx.id := tx]);
      SubmapSize(kept', all[tx.id := tx]);
    }
  }

  /** One add, exactly: the window survives if and only if the add is admitted. */
  lemma AddKeepsWindow(all: Contents, kept: Contents, tx: Transaction, kept': Contents)
    requires NewestOf(all, kept, MAX_TRANSACTIONS)
    requires NewestOf(kept[tx.id := tx], kept', MAX_TRANSACTIONS)
    ensures NewestOf(all[tx.id := tx], kept', MAX_TRANSACTIONS) <==> Admits(all, kept, tx)
  {
    if tx.id in kept {
      TrimOfStoredId(kept, tx, kept');
      AddOfStoredId(all, kept, tx);
    } else {
      AddOfNewId(all, kept, tx, kept');
    }
  }

  /** A sequential run of `AddAsync` from the empty store; `states[i]` is the store before `adds[i]`. */
  ghost predicate AddRun(adds: seq<Transaction>, states: seq<Contents>) {
    && |states| == |adds| + 1
    && states[0] == map[]
    && forall i | 0 <= i < |adds| :: NewestOf(states[i][adds[i].id := adds[i]], states[i + 1], MAX_TRANSACTIONS)
  }

  ghost predicate WindowUpTo(adds: seq<Transaction>, states: seq<Contents>, n: nat)
    requires n <= |adds| < |states|
  {
    forall i | 0 <= i <= n :: NewestOf(History(adds[..i]), states[i], 200)
  }

  lemma {:induction false} RunPrefix(adds: seq<Transaction>, states: seq<Contents>, n: nat)
    requires AddRun(adds, states) && n <= |adds|
    ensures WindowUpTo(adds, states, n) <==>
            forall i | 0 <= i < n :: Admits(History(adds[..i]), states[i], adds[i])
    decreases n
  {
    if n == 0 {
      assert History(adds[..0]) == map[];
    } else {
      RunPrefix(adds, states, n - 1);
      var m := n - 1;
      assert adds[..n][..m] == adds[..m];
      assert History(adds[..n]) == History(adds[..m])[adds[m].id := adds[m]];
      if NewestOf(History(adds[..m]), states[m], MAX_TRANSACTIONS) {
        AddKeepsWindow(History(adds[..m]), states[m], adds[m], states[n]);
      }
      assert WindowUpTo(adds, states, n) <==>
             WindowUpTo(adds, states, m) && NewestOf(History(adds[..n]), states[n], MAX_TRANSACTIONS);
    }
  }

  /** The store is the newest-200 window of its history all along a run if and only if every add is admitted. */
  lemma StreamingWindow(adds: seq<Transaction>, states: seq<Contents>)
    requires AddRun(adds, states)
    ensures WindowUpTo(adds, states, |adds|) <==>
            forall i | 0 <= i < |adds| :: Admits(History(adds[..i]), states[i], adds[i])
  {
    RunPrefix(adds, states, |adds|);
  }

  /** In particular it is when a stored id is only ever replaced by an equally new or newer version. */
  lemma {:induction false} StreamingWindowOfNewerVersions(adds: seq<Transaction>, states: seq<Contents>, n: nat)
    requires AddRun(adds, states) && n <= |adds|
    requires forall i | 0 <= i < n && adds[i].id in states[i] ::
               states[i][adds[i].id].timestamp <= adds[i].timestamp
    ensures NewestOf(History(adds[..n]), states[n], 200)
    decreases n
  {
    if n == 0 {
      assert History(adds[..0]) == map[];
    } else {
      var m := n - 1;
      StreamingWindowOfNewerVersions(adds, states, m);
      NewerVersionIsAdmitted(History(adds[..m]), states[m], adds[m]);
      AddKeepsWindow(History(adds[..m]), states[m], adds[m], states[n]);
      assert adds[..n][..m] == adds[..m];
    }
  }

  lemma SplitValues(all: Contents, kept: Contents, dropped: Contents)
    requires Submap(kept, all) && dropped == all - kept.Keys
    ensures multiset(all.Values) == multiset(kept.Values) + multiset(dropped.Values)
  {
    forall x ensures x in all.Values <==> x in kept.Values || x in dropped.Values {
      if x in all.Values {
        assert x.id in all && all[x.id] == x;
        assert x.id in kept || x.id in dropped;
      }
    }
    assert kept.Values !! dropped.Values;
  }

  /**
   * Reading the latest `n` from the window shows the timestamps that reading the unbounded history would show,
   * for every `n` up to the window's size, whatever order either dictionary enumerates in.
   */
  lemma LatestOfWindow(all: Contents, kept: Contents, n: int, r: seq<Transaction>, reference: seq<Transaction>)
    requires NewestOf(all, kept, MAX_TRANSACTIONS)
    requires n <= 200
    requires IsLatest(r, kept, n) && IsLatest(reference, all, n)
    ensures Timestamps(r) == Timestamps(reference)
  {
    var s :| Enumerates(s, kept) && r == TakeAtMost(SortNewestFirst(s), n);
    var h :| Enumerates(h, all) && reference == TakeAtMost(SortNewestFirst(h), n);
    if |all| <= MAX_TRANSACTIONS {
      SubmapSize(kept, all);
      SameLatest(s, h, n);
    } else {
      LatestOfFullWindow(all, kept, n, s, h);
    }
  }

  lemma LatestOfFullWindow(all: Contents, kept: Contents, n: int, s: seq<Transaction>, h: seq<Transaction>)
    requires Submap(kept, all) && NoDropIsNewer(all, kept) && n <= |kept|
    requires Enumerates(s, kept) && Enumerates(h, all)
    ensures Timestamps(TakeAtMost(SortNewestFirst(s), n)) == Timestamps(TakeAtMost(SortNewestFirst(h), n))
  {
    var dropped: Contents := all - kept.Keys;
    SplitValues(all, kept, dropped);
    var older := Listing(dropped);
    EnumerationSize(s, kept);
    EnumerationSize(older, dropped);
    forall k, d | k in s && d in older ensures k.timestamp >= d.timestamp {
      assert k.id in kept && d.id in all && d.id !in kept;
    }
    OlderEntriesStayBehind(s, older, h, n);
  }

  lemma SameLatest(a: seq<Transaction>, b: seq<Transaction>, n: int)
    requires multiset(a) == multiset(b)
    ensures Timestamps(TakeAtMost(SortNewestFirst(a), n)) == Timestamps(TakeAtMost(SortNewestFirst(b), n))
  {
    SortedTimestampsIgnoreOrder(a, b);
    TakeTimestamps(SortNewestFirst(a), n);
    TakeTimestamps(SortNewestFirst(b), n);
  }

  ghost function Listing(m: Contents): (s: seq<Transaction>)
    ensures Enumerates(s, m)
    decreases |m|
  {
    if m == map[] then [] else
      var k :| k in m;
      RemoveOne(m, k);
      [m[k]] + Listing(Without(m, k))
  }

  /** What any answer to "the latest `count`" is like, in plain terms. */
  ghost predicate LatestInPlainTerms(r: seq<Transaction>, m: Contents, count: int) {
    && |r| == (if count <= 0 then 0 else if |m| <= count then |m| else count)
    && (forall i, j | 0 <= i < j < |r| :: r[i].timestamp >= r[j].timestamp && r[i] != r[j])
    && (forall x <- r :: x.id in m && m[x.id] == x)
    && forall k <- m :: m[k] in r || forall x <- r :: m[k].timestamp <= x.timestamp
  }

  lemma NoRepeatsInListing(s: seq<Transaction>, m: Contents, i: nat, j: nat)
    requires Enumerates(s, m) && i < j < |s|
    ensures s[i] != s[j]
  {
    assert multiset(s)[s[i]] <= 1;
    if s[i] == s[j] {
      CountedTwice(s, i, j);
    }
  }

  lemma {:induction false} LatestIsPlain(r: seq<Transaction>, m: Contents, count: int)
    requires IsLatest(r, m, count)
    ensures LatestInPlainTerms(r, m, count)
  {
    var values :| Enumerates(values, m) && r == TakeAtMost(SortNewestFirst(values), count);
    LatestOfListing(SortNewestFirst(values), m, count);
  }

  lemma {:induction false} LeftOutIsOlder(sorted: seq<Transaction>, n: int, x: Transaction)
    requires NewestFirst(sorted) && x in sorted
    ensures x in TakeAtMost(sorted, n) || forall y <- TakeAtMost(sorted, n) :: x.timestamp <= y.timestamp
  {
    var r := TakeAtMost(sorted, n);
    var j :| 0 <= j < |sorted| && sorted[j] == x;
    if j < |r| {
      assert r[j] == x;
    } else {
      forall y | y in r ensures x.timestamp <= y.timestamp {
        var i :| 0 <= i < |r| && r[i] == y;
        assert sorted[i] == y;
      }
    }
  }

  lemma {:induction false} LatestOfListing(sorted: seq<Transaction>, m: Contents, count: int)
    requires Enumerates(sorted, m) && NewestFirst(sorted)
    ensures LatestInPlainTerms(TakeAtMost(sorted, count), m, count)
  {
    hide Enumerates, NewestFirst;
    var r := TakeAtMost(sorted, count);
    EnumerationSize(sorted, m);
    forall i, j | 0 <= i < j < |r| ensures r[i].timestamp >= r[j].timestamp && r[i] != r[j] {
      NoRepeatsInListing(sorted, m, i, j);
      OrderOf(sorted, i, j);
    }
    forall k | k in m ensures m[k] in r || forall x <- r :: m[k].timestamp <= x.timestamp {
      LeftOutIsOlder(sorted, count, m[k]);
    }
  }

  lemma {:induction false} OrderOf(sorted: seq<Transaction>, i: nat, j: nat)
    requires NewestFirst(sorted) && i < j < |sorted|
    ensures sorted[i].timestamp >= sorted[j].timestamp
  {
  }

  /** Two readings of the same contents agree in their timestamps. */
  lemma LatestIsDetermined(m: Contents, n: int, r: seq<Transaction>, r': seq<Transaction>)
    requires IsLatest(r, m, n) && IsLatest(r', m, n)
    ensures Timestamps(r) == Timestamps(r')
  {
    var a :| Enumerates(a, m) && r == TakeAtMost(SortNewestFirst(a), n);
    var b :| Enumerates(b, m) && r' == TakeAtMost(SortNewestFirst(b), n);
    SameLatest(a, b, n);
  }

  // A concrete run that leaves the window: 201 transactions, then the newest one again with an old timestamp.

  function Numbered(i: nat, timestamp: int): Transaction
    requires i < 1000
  {
    Transaction(seq(36, p => if p == 0 then i as char else '0'), 1.0, "USD", Completed, timestamp)
  }

  lemma NumberedIsInjective(i: nat, t: int, j: nat, u: int)
    requires i < 1000 && j < 1000 && i != j
    ensures Numbered(i, t).id != Numbered(j, u).id
  {
    assert Numbered(i, t).id[0] == i as char && Numbered(j, u).id[0] == j as char;
  }

  lemma SameNumberSameId(i: nat, t: int, u: int)
    requires i < 1000
    ensures Numbered(i, t).id == Numbered(i, u).id && Numbered(i, u).timestamp == u
  {
  }

  /** The history of adding the transactions 0 to n - 1, transaction i with timestamp i. */
  ghost function Ascending(n: nat): Contents
    requires n < 1000
  {
    if n == 0 then map[] else Ascending(n - 1)[Numbered(n - 1, n - 1).id := Numbered(n - 1, n - 1)]
  }

  lemma {:induction false} NotYet(n: nat, i: nat)
    requires n <= i < 1000
    ensures Numbered(i, i).id !in Ascending(n)
  {
    if n > 0 {
      hide Numbered;
      NotYet(n - 1, i);
      NumberedIsInjective(n - 1, n - 1, i, i);
    }
  }

  lemma {:induction false} AscendingFacts(n: nat)
    requires 0 < n < 1000
    ensures |Ascending(n)| == n
    ensures Numbered(0, 0).id in Ascending(n) && Ascending(n)[Numbered(0, 0).id] == Numbered(0, 0)
    ensures Numbered(n - 1, n - 1).id in Ascending(n)
    ensures forall k <- Ascending(n) :: Ascending(n)[k].timestamp >= 0
  {
    NotYet(n - 1, n - 1);
    GrownSize(Ascending(n - 1), Numbered(n - 1, n - 1));
    if n > 1 {
      AscendingFacts(n - 1);
    }
  }

  lemma OldReplacementLosesWindow(all: Contents, first: string, late: Transaction)
    requires |all| == MAX_TRANSACTIONS + 1 && first in all && late.id in all && late.id != first
    requires (forall k <- all :: all[first].timestamp <= all[k].timestamp) && late.timestamp < all[first].timestamp
    ensures var kept := Without(all, first);
            && NewestOf(all, kept, MAX_TRANSACTIONS) && late.id in kept
            && !NewestOf(all[late.id := late], kept[late.id := late], MAX_TRANSACTIONS)
  {
    RemoveOne(all, first);
    AddOfStoredId(all, Without(all, first), late);
  }

  /**
   * Replacing a stored id by an older version really can lose the window: with 201 transactions added and the
   * first evicted, giving the newest one a timestamp before all others keeps it and leaves a newer one out.
   */
  lemma OlderVersionLosesWindow(n: nat, first: Transaction, kept: Contents, late: Transaction)
    requires n == MAX_TRANSACTIONS && first == Numbered(0, 0) && late == Numbered(n, -1)
    requires kept == Without(Ascending(n + 1), first.id)
    ensures NewestOf(Ascending(n + 1), kept, MAX_TRANSACTIONS) && late.id in kept
    ensures |kept[late.id := late]| <= MAX_TRANSACTIONS
    ensures !NewestOf(Ascending(n + 1)[late.id := late], kept[late.id := late], MAX_TRANSACTIONS)
  {
    hide Numbered, Ascending;
    AscendingFacts(n + 1);
    SameNumberSameId(0, 0, 0);
    SameNumberSameId(n, n, -1);
    NumberedIsInjective(0, 0, n, -1);
    OldReplacementLosesWindow(Ascending(n + 1), first.id, late);
    GrownSize(kept, late);
  }
}
