/** The one ordering the system uses: newest first, equal timestamps in their original order. */
module StableSort {
  import opened Transactions

  predicate NewestFirst(s: seq<Transaction>) {
    forall i, j | 0 <= i < j < |s| :: s[i].timestamp >= s[j].timestamp
  }

  /** Puts `x` in front of everything that is not newer. */
  function Insert(x: Transaction, s: seq<Transaction>): (r: seq<Transaction>)
    ensures multiset(r) == multiset{x} + multiset(s)
  {
    if s == [] || x.timestamp >= s[0].timestamp then
      [x] + s
    else
      assert s == [s[0]] + s[1..];
      [s[0]] + Insert(x, s[1..])
  }

  lemma InsertMembers(x: Transaction, s: seq<Transaction>)
    ensures forall y :: y in Insert(x, s) ==> y == x || y in s
  {
    forall y | y in Insert(x, s) ensures y == x || y in s {
      assert y in multiset(Insert(x, s));
    }
  }

  lemma {:induction false} InsertKeepsOrder(x: Transaction, s: seq<Transaction>)
    requires NewestFirst(s)
    ensures NewestFirst(Insert(x, s))
  {
    if s != [] && x.timestamp < s[0].timestamp {
      InsertKeepsOrder(x, s[1..]);
      InsertMembers(x, s[1..]);
      assert forall y <- s[1..] :: s[0].timestamp >= y.timestamp;
    }
  }

  /** A stable sort by descending timestamp. */
  function SortNewestFirst(s: seq<Transaction>): (r: seq<Transaction>)
    ensures multiset(r) == multiset(s)
    ensures NewestFirst(r)
  {
    if s == [] then
      []
    else
      assert s == [s[0]] + s[1..];
      InsertKeepsOrder(s[0], SortNewestFirst(s[1..]));
      Insert(s[0], SortNewestFirst(s[1..]))
  }

  lemma SameBagSameLength<T>(a: seq<T>, b: seq<T>)
    requires multiset(a) == multiset(b)
    ensures |a| == |b|
    ensures forall x :: x in a <==> x in b
  {
    assert |a| == |multiset(a)| && |b| == |multiset(b)|;
    forall x ensures x in a <==> x in b {
      assert x in a <==> x in multiset(a);
      assert x in b <==> x in multiset(b);
    }
  }

  lemma CountedTwice<T>(s: seq<T>, i: nat, j: nat)
    requires i < j < |s| && s[i] == s[j]
    ensures multiset(s)[s[i]] >= 2
  {
    assert s == s[..j] + s[j..];
    assert s[..j][i] in multiset(s[..j]) && s[j..][0] in multiset(s[j..]);
  }

  /** The members of `s` with timestamp `t`, in the order they have in `s`. */
  function At(s: seq<Transaction>, t: int): (r: seq<Transaction>)
    ensures forall x :: x in r <==> x in s && x.timestamp == t
  {
    if s == [] then []
    else if s[0].timestamp == t then [s[0]] + At(s[1..], t)
    else At(s[1..], t)
  }

  lemma {:induction false} InsertKeepsGroups(x: Transaction, s: seq<Transaction>, t: int)
    requires NewestFirst(s)
    ensures At(Insert(x, s), t) == At([x] + s, t)
  {
    var r := Insert(x, s);
    if s == [] || x.timestamp >= s[0].timestamp {
    } else {
      InsertKeepsGroups(x, s[1..], t);
      assert r == [s[0]] + Insert(x, s[1..]);
      assert ([x] + s)[1..] == s && ([x] + s[1..])[1..] == s[1..] && r[1..] == Insert(x, s[1..]);
    }
  }

  /** Stability: sorting never reorders transactions of equal timestamp. */
  lemma {:induction false} SortIsStable(s: seq<Transaction>, t: int)
    ensures At(SortNewestFirst(s), t) == At(s, t)
  {
    if s != [] {
      var rest := SortNewestFirst(s[1..]);
      SortIsStable(s[1..], t);
      InsertKeepsGroups(s[0], rest, t);
      assert ([s[0]] + rest)[1..] == rest;
    }
  }

  ghost predicate SameGroups(a: seq<Transaction>, b: seq<Transaction>) {
    forall t :: At(a, t) == At(b, t)
  }

  lemma SameGroupsSameHead(a: seq<Transaction>, b: seq<Transaction>)
    requires NewestFirst(a) && NewestFirst(b) && SameGroups(a, b) && a != []
    ensures b != [] && a[0] == b[0]
  {
    var t := a[0].timestamp;
    assert a[0] in At(a, t) && At(a, t) == At(b, t);
    assert a[0] in b;
    assert b[0] in At(b, b[0].timestamp) && At(a, b[0].timestamp) == At(b, b[0].timestamp);
    assert b[0] in a;
    assert b[0].timestamp == t;
    assert At(a, t)[0] == a[0] && At(b, t)[0] == b[0];
  }

  lemma SameGroupsOfTails(a: seq<Transaction>, b: seq<Transaction>)
    requires SameGroups(a, b) && a != [] && b != [] && a[0] == b[0]
    ensures SameGroups(a[1..], b[1..])
  {
    forall t ensures At(a[1..], t) == At(b[1..], t) {
      assert At(a, t) == At(b, t);
      if t == a[0].timestamp {
        assert At(a[1..], t) == At(a, t)[1..];
        assert At(b[1..], t) == At(b, t)[1..];
      }
    }
  }

  /** A descending sequence is determined by its groups, so the stable sort is the only one there is. */
  lemma {:induction false} GroupsDetermine(a: seq<Transaction>, b: seq<Transaction>)
    requires NewestFirst(a) && NewestFirst(b) && SameGroups(a, b)
    ensures a == b
  {
    if a != [] {
      SameGroupsSameHead(a, b);
      SameGroupsOfTails(a, b);
      GroupsDetermine(a[1..], b[1..]);
      assert a == [a[0]] + a[1..] && b == [b[0]] + b[1..];
    } else if b != [] {
      SameGroupsSameHead(b, a);
    }
  }

  /** The stable sort is characterised by its order and its stability, whatever algorithm computes it. */
  lemma StableSortIsUnique(s: seq<Transaction>, r: seq<Transaction>)
    requires NewestFirst(r) && SameGroups(r, s)
    ensures r == SortNewestFirst(s)
  {
    forall t ensures At(r, t) == At(SortNewestFirst(s), t) {
      SortIsStable(s, t);
    }
    GroupsDetermine(r, SortNewestFirst(s));
  }

  /** Sorting an already sorted list changes nothing, ties included. */
  lemma SortedIsFixed(s: seq<Transaction>)
    requires NewestFirst(s)
    ensures SortNewestFirst(s) == s
  {
    StableSortIsUnique(s, s);
  }

  ghost predicate Descending(s: seq<int>) {
    forall i, j | 0 <= i < j < |s| :: s[i] >= s[j]
  }

  lemma TailOfBag<T>(s: seq<T>)
    requires s != []
    ensures multiset(s[1..]) == multiset(s) - multiset{s[0]}
  {
    assert s == [s[0]] + s[1..];
  }

  lemma {:induction false} DescendingIsUnique(a: seq<int>, b: seq<int>)
    requires Descending(a) && Descending(b)
    requires multiset(a) == multiset(b)
    ensures a == b
  {
    SameBagSameLength(a, b);
    if a != [] {
      assert a[0] in b && b[0] in a;
      assert a[0] == b[0];
      TailOfBag(a);
      TailOfBag(b);
      DescendingIsUnique(a[1..], b[1..]);
      assert a == [a[0]] + a[1..] && b == [b[0]] + b[1..];
    }
  }

  lemma {:induction false} CutFromBag<T>(a: seq<T>, x: T) returns (i: nat)
    requires x in a
    ensures i < |a| && a[i] == x
    ensures a == a[..i] + [x] + a[i+1..]
    ensures multiset(a[..i] + a[i+1..]) == multiset(a) - multiset{x}
  {
    i :| 0 <= i < |a| && a[i] == x;
    assert a == a[..i] + [x] + a[i+1..];
  }

  lemma TimestampsOfConcat(a: seq<Transaction>, b: seq<Transaction>)
    ensures Timestamps(a + b) == Timestamps(a) + Timestamps(b)
  {
  }

  lemma {:induction false} TimestampsOfPermutation(a: seq<Transaction>, b: seq<Transaction>)
    requires multiset(a) == multiset(b)
    ensures multiset(Timestamps(a)) == multiset(Timestamps(b))
  {
    SameBagSameLength(a, b);
    if a != [] {
      var i := CutFromBag(b, a[0]);
      var front, back := b[..i], b[i+1..];
      assert a == [a[0]] + a[1..];
      TimestampsOfPermutation(a[1..], front + back);
      TimestampsOfConcat([a[0]], a[1..]);
      TimestampsOfConcat(front, back);
      TimestampsOfConcat(front, [a[0]]);
      TimestampsOfConcat(front + [a[0]], back);
    }
  }

  /** Which entry wins a tie depends on the input order; the timestamps that come out do not. */
  lemma SortedTimestampsIgnoreOrder(a: seq<Transaction>, b: seq<Transaction>)
    requires multiset(a) == multiset(b)
    ensures Timestamps(SortNewestFirst(a)) == Timestamps(SortNewestFirst(b))
  {
    TimestampsOfPermutation(SortNewestFirst(a), SortNewestFirst(b));
    DescendingIsUnique(Timestamps(SortNewestFirst(a)), Timestamps(SortNewestFirst(b)));
  }

  lemma JoinKeepsOrder(a: seq<Transaction>, b: seq<Transaction>)
    requires NewestFirst(a) && NewestFirst(b)
    requires forall x, y | x in a && y in b :: x.timestamp >= y.timestamp
    ensures NewestFirst(a + b)
  {
  }

  lemma TakeTimestamps(s: seq<Transaction>, n: int)
    ensures Timestamps(TakeAtMost(s, n)) == TakeAtMost(Timestamps(s), n)
  {
  }

  lemma TakeFromFront<T>(front: seq<T>, back: seq<T>, n: int)
    requires n <= |front|
    ensures TakeAtMost(front + back, n) == TakeAtMost(front, n)
  {
    if 0 < n {
      assert (front + back)[..n] == front[..n];
    }
  }

  lemma SortOfParts(kept: seq<Transaction>, older: seq<Transaction>, all: seq<Transaction>)
    requires multiset(all) == multiset(kept) + multiset(older)
    requires forall k, d | k in kept && d in older :: k.timestamp >= d.timestamp
    ensures Timestamps(SortNewestFirst(kept) + SortNewestFirst(older)) == Timestamps(SortNewestFirst(all))
  {
    var front, back := SortNewestFirst(kept), SortNewestFirst(older);
    SameBagSameLength(front, kept);
    SameBagSameLength(back, older);
    JoinKeepsOrder(front, back);
    SortedIsFixed(front + back);
    SortedTimestampsIgnoreOrder(front + back, all);
  }

  /** The first `n` of a descending list do not change when older entries are put behind it. */
  lemma OlderEntriesStayBehind(kept: seq<Transaction>, older: seq<Transaction>, all: seq<Transaction>, n: int)
    requires multiset(all) == multiset(kept) + multiset(older)
    requires forall k, d | k in kept && d in older :: k.timestamp >= d.timestamp
    requires n <= |kept|
    ensures Timestamps(TakeAtMost(SortNewestFirst(kept), n)) == Timestamps(TakeAtMost(SortNewestFirst(all), n))
  {
    var front, back := SortNewestFirst(kept), SortNewestFirst(older);
    SortOfParts(kept, older, all);
    SameBagSameLength(front, kept);
    TakeFromFront(front, back, n);
    TakeTimestamps(front + back, n);
    TakeTimestamps(SortNewestFirst(all), n);
  }
}
