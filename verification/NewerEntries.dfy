/** How many entries are at least as new as a given time, and what that says about "the latest n". */
module NewerEntries {
  import opened Transactions
  import opened StableSort
  import opened RecentWindow

  ghost function AtLeastAsNew(m: Contents, t: int): Contents {
    map k | k in m && m[k].timestamp >= t :: m[k]
  }

  ghost function CountNewer(s: seq<Transaction>, t: int): (n: nat)
    ensures n <= |s|
  {
    if s == [] then 0 else CountNewer(s[1..], t) + if s[0].timestamp >= t then 1 else 0
  }

  lemma NewerKeys(m: Contents, t: int)
    ensures |AtLeastAsNew(m, t)| == |set k | k in m && m[k].timestamp >= t|
  {
    assert AtLeastAsNew(m, t).Keys == set k | k in m && m[k].timestamp >= t;
  }

  ghost function NewerAt(s: seq<Transaction>, t: int): set<nat> {
    set i: nat | i < |s| && s[i].timestamp >= t
  }

  lemma {:induction false} NewerAtGrows(front: seq<Transaction>, x: Transaction, t: int)
    ensures |NewerAt(front + [x], t)| == |NewerAt(front, t)| + if x.timestamp >= t then 1 else 0
  {
    var n := |front|;
    assert NewerAt(front + [x], t) == NewerAt(front, t) + if x.timestamp >= t then {n} else {};
    assert n !in NewerAt(front, t);
  }

  /** `CountNewer` counts positions, so repeated entries count as often as they occur. */
  lemma {:induction false} CountIsOfPositions(s: seq<Transaction>, t: int)
    ensures CountNewer(s, t) == |NewerAt(s, t)|
  {
    if s == [] {
      assert NewerAt(s, t) == {};
    } else {
      hide NewerAt;
      var n, front := |s| - 1, s[..|s| - 1];
      CountIsOfPositions(front, t);
      CountOfParts(front, [s[n]], t);
      assert s == front + [s[n]];
      NewerAtGrows(front, s[n], t);
    }
  }

  lemma NewerAfterRemove(m: Contents, k: string, t: int)
    ensures |AtLeastAsNew(m, t)| ==
            |AtLeastAsNew(m - {k}, t)| + if k in m && m[k].timestamp >= t then 1 else 0
  {
    var newer := AtLeastAsNew(m, t);
    if k in newer {
      assert AtLeastAsNew(m - {k}, t) == Without(newer, k);
      RemoveOne(newer, k);
    } else {
      assert AtLeastAsNew(m - {k}, t) == newer;
    }
  }

  lemma NewerAfterWrite(m: Contents, tx: Transaction, t: int)
    requires tx.id !in m
    ensures |AtLeastAsNew(m, t)| <= |AtLeastAsNew(m[tx.id := tx], t)|
  {
    assert Submap(AtLeastAsNew(m, t), AtLeastAsNew(m[tx.id := tx], t));
    SubmapSize(AtLeastAsNew(m, t), AtLeastAsNew(m[tx.id := tx], t));
  }

  lemma {:induction false} CountOfParts(a: seq<Transaction>, b: seq<Transaction>, t: int)
    ensures CountNewer(a + b, t) == CountNewer(a, t) + CountNewer(b, t)
  {
    if a == [] {
      assert a + b == b;
    } else {
      CountOfParts(a[1..], b, t);
      assert (a + b)[1..] == a[1..] + b;
    }
  }

  lemma {:induction false} CountIgnoresOrder(a: seq<Transaction>, b: seq<Transaction>, t: int)
    requires multiset(a) == multiset(b)
    ensures CountNewer(a, t) == CountNewer(b, t)
  {
    SameBagSameLength(a, b);
    if a != [] {
      var i := CutFromBag(b, a[0]);
      assert a == [a[0]] + a[1..];
      CountIgnoresOrder(a[1..], b[..i] + b[i + 1..], t);
      CountOfParts(b[..i], b[i + 1..], t);
      CountOfParts(b[..i] + [a[0]], b[i + 1..], t);
      CountOfParts(b[..i], [a[0]], t);
    }
  }

  lemma {:induction false} CountAll(s: seq<Transaction>, t: int)
    requires forall x <- s :: x.timestamp >= t
    ensures CountNewer(s, t) == |s|
  {
    if s != [] {
      CountAll(s[1..], t);
    }
  }

  lemma {:induction false} CountNone(s: seq<Transaction>, t: int)
    requires forall x <- s :: x.timestamp < t
    ensures CountNewer(s, t) == 0
  {
    if s != [] {
      CountNone(s[1..], t);
    }
  }

  lemma CountBeforeOld(s: seq<Transaction>, t: int, i: nat)
    requires NewestFirst(s) && i < |s| && s[i].timestamp < t
    ensures CountNewer(s, t) <= i
  {
    var front, back := s[..i], s[i..];
    assert s == front + back;
    forall x | x in back ensures x.timestamp < t {
      var j :| 0 <= j < |back| && back[j] == x;
      assert back[j] == s[i + j];
    }
    CountOfParts(front, back, t);
    CountNone(back, t);
  }

  /** In descending order the newer entries come first. */
  lemma NewerComeFirst(s: seq<Transaction>, t: int, n: nat)
    requires NewestFirst(s) && n <= CountNewer(s, t)
    ensures forall x <- s[..n] :: x.timestamp >= t
  {
    hide NewestFirst;
    forall i | 0 <= i < n ensures s[i].timestamp >= t {
      if s[i].timestamp < t {
        CountBeforeOld(s, t, i);
      }
    }
  }

  lemma CountOfCut(s: seq<Transaction>, t: int, n: nat)
    ensures CountNewer(TakeAtMost(SortNewestFirst(s), n), t) == if CountNewer(s, t) <= n then CountNewer(s, t) else n
  {
    var sorted, c := SortNewestFirst(s), CountNewer(s, t);
    CountIgnoresOrder(sorted, s, t);
    if c <= n {
      CutKeepsNewer(sorted, t, n);
    } else {
      NewerComeFirst(sorted, t, n);
      CountAll(sorted[..n], t);
    }
  }

  lemma CutKeepsNewer(sorted: seq<Transaction>, t: int, n: nat)
    requires NewestFirst(sorted) && CountNewer(sorted, t) <= n
    ensures CountNewer(TakeAtMost(sorted, n), t) == CountNewer(sorted, t)
  {
    if n < |sorted| {
      var front, back := sorted[..n], sorted[n..];
      assert sorted == front + back;
      CountOfParts(front, back, t);
      if back[0].timestamp >= t {
        CountAll(front, t);
      } else {
        CountNone(back, t);
      }
    }
  }

  lemma BagOfOneMore<T>(a: set<T>, b: set<T>, x: T)
    requires a == b + {x} && x !in b
    ensures multiset(a) - multiset{x} == multiset(b)
  {
  }

  lemma RestOfListing(s: seq<Transaction>, m: Contents)
    requires Enumerates(s, m) && s != []
    ensures s[0].id in m && m[s[0].id] == s[0] && Enumerates(s[1..], Without(m, s[0].id))
  {
    EnumerationSize(s, m);
    assert s[0] in s;
    hide Without;
    RemoveOne(m, s[0].id);
    BagOfOneMore(m.Values, Without(m, s[0].id).Values, s[0]);
    TailOfBag(s);
  }

  lemma {:induction false} NewerOfListing(s: seq<Transaction>, m: Contents, t: int)
    requires Enumerates(s, m)
    ensures CountNewer(s, t) == |AtLeastAsNew(m, t)|
  {
    hide Enumerates, AtLeastAsNew;
    if s == [] {
      NothingListed(m, t);
    } else {
      RestOfListing(s, m);
      NewerOfListing(s[1..], Without(m, s[0].id), t);
      NewerAfterRemove(m, s[0].id, t);
    }
  }

  lemma NothingListed(m: Contents, t: int)
    requires Enumerates([], m)
    ensures |AtLeastAsNew(m, t)| == 0
  {
    EnumerationSize([], m);
    assert AtLeastAsNew(m, t) == map[];
  }

  /** Everything left out is outnumbered by at least `n` kept entries that are at least as new. */
  ghost predicate Outnumbers(all: Contents, kept: Contents, n: int) {
    && Submap(kept, all)
    && forall d <- all :: d in kept || |AtLeastAsNew(kept, all[d].timestamp)| >= n
  }

  lemma NewerAreKept(kept: Contents, t: int)
    ensures |AtLeastAsNew(kept, t)| <= |kept|
  {
    SubmapSize(AtLeastAsNew(kept, t), kept);
  }

  lemma AllKeptOrEnough(all: Contents, kept: Contents, n: nat)
    requires Outnumbers(all, kept, n)
    ensures kept == all || n <= |kept|
  {
    if kept != all {
      SubmapSize(kept, all);
      assert exists d :: d in all && d !in kept by {
        if forall d <- all :: d in kept { SubmapSize(all, kept); }
      }
      var d :| d in all && d !in kept;
      NewerAreKept(kept, all[d].timestamp);
    }
  }

  /** Then the latest `n` of what is kept have the timestamps of the latest `n` of everything. */
  lemma LatestOfOutnumbering(all: Contents, kept: Contents, n: nat, r: seq<Transaction>, reference: seq<Transaction>)
    requires Outnumbers(all, kept, n)
    requires IsLatest(r, kept, n) && IsLatest(reference, all, n)
    ensures Timestamps(r) == Timestamps(reference)
  {
    hide Outnumbers, SortNewestFirst, TakeAtMost, Enumerates;
    var s :| Enumerates(s, kept) && r == TakeAtMost(SortNewestFirst(s), n);
    var h :| Enumerates(h, all) && reference == TakeAtMost(SortNewestFirst(h), n);
    AllKeptOrEnough(all, kept, n);
    if kept == all {
      SameListings(s, h, all, n);
    } else {
      SortedListing(s, kept);
      LatestOfFullFront(all, kept, n, SortNewestFirst(s), h);
    }
  }

  lemma SameListings(s: seq<Transaction>, h: seq<Transaction>, m: Contents, n: nat)
    requires Enumerates(s, m) && Enumerates(h, m)
    ensures Timestamps(TakeAtMost(SortNewestFirst(s), n)) == Timestamps(TakeAtMost(SortNewestFirst(h), n))
  {
    SameLatest(s, h, n);
  }

  lemma SortedListing(s: seq<Transaction>, m: Contents)
    requires Enumerates(s, m)
    ensures Enumerates(SortNewestFirst(s), m) && |SortNewestFirst(s)| == |m|
  {
    EnumerationSize(SortNewestFirst(s), m);
  }

  lemma LatestOfFullFront(all: Contents, kept: Contents, n: nat, sorted: seq<Transaction>, h: seq<Transaction>)
    requires Outnumbers(all, kept, n) && n <= |sorted|
    requires NewestFirst(sorted) && Enumerates(sorted, kept) && Enumerates(h, all)
    ensures Timestamps(TakeAtMost(sorted, n)) == Timestamps(TakeAtMost(SortNewestFirst(h), n))
  {
    hide SortNewestFirst, AtLeastAsNew, Enumerates, NewestFirst;
    var front, back := sorted[..n], sorted[n..];
    assert sorted == front + back;
    var gone: Contents := all - kept.Keys;
    BagOfAll(all, kept, sorted, h, gone);
    forall k, d | k in front && d in back + Listing(gone) ensures k.timestamp >= d.timestamp {
      if d in back {
        LaterIsOlder(sorted, n, k, d);
      } else {
        FrontIsNewest(all, kept, n, sorted, k, d);
      }
    }
    OlderEntriesStayBehind(front, back + Listing(gone), h, n);
    FrontIsSorted(sorted, n);
  }

  lemma FrontIsSorted(sorted: seq<Transaction>, n: nat)
    requires NewestFirst(sorted) && n <= |sorted|
    ensures TakeAtMost(SortNewestFirst(sorted[..n]), n) == TakeAtMost(sorted, n)
  {
    SortedIsFixed(sorted[..n]);
  }

  lemma LaterIsOlder(sorted: seq<Transaction>, n: nat, k: Transaction, d: Transaction)
    requires NewestFirst(sorted) && n <= |sorted| && k in sorted[..n] && d in sorted[n..]
    ensures k.timestamp >= d.timestamp
  {
  }

  lemma BagOfAll(all: Contents, kept: Contents, s: seq<Transaction>, h: seq<Transaction>, gone: Contents)
    requires Submap(kept, all)
    requires Enumerates(s, kept) && Enumerates(h, all) && gone == all - kept.Keys
    ensures multiset(h) == multiset(s) + multiset(Listing(gone))
  {
    SplitValues(all, kept, gone);
  }

  lemma FrontIsNewest(all: Contents, kept: Contents, n: nat, sorted: seq<Transaction>, k: Transaction, d: Transaction)
    requires Outnumbers(all, kept, n) && n <= |sorted| && NewestFirst(sorted) && Enumerates(sorted, kept)
    requires k in sorted[..n] && d in Listing(all - kept.Keys)
    ensures k.timestamp >= d.timestamp
  {
    hide NewestFirst, AtLeastAsNew;
    GoneEntry(all, kept, d);
    NewerOfListing(sorted, kept, d.timestamp);
    NewerComeFirst(sorted, d.timestamp, n);
  }

  lemma GoneEntry(all: Contents, kept: Contents, d: Transaction)
    requires d in Listing(all - kept.Keys)
    ensures d.id in all && d.id !in kept && all[d.id] == d
  {
    EnumerationSize(Listing(all - kept.Keys), all - kept.Keys);
  }
}
