/**
 * The list cache shared by several pods, step by step. A write changes its pod's store and later invalidates the
 * list; a reader that misses reads its pod's store and later writes the list; either cache operation may be
 * dropped (not connected, or failed and swallowed), keys may vanish, and everything interleaves.
 */
module CacheProtocol {
  import opened Transactions
  import opened StableSort
  import opened RecentWindow

  /** A fill in flight: the list that `reader` took from `pod` in step `readAt`. */
  datatype Fill = Fill(reader: nat, pod: nat, list: seq<Transaction>, readAt: nat)

  /** What the list key holds, and which steps brought it there. */
  datatype Entry = Entry(fill: Fill, writtenAt: nat, expiresAt: Option<int>)

  datatype State = State(now: int, stores: seq<Contents>, unsettled: set<nat>, fills: map<nat, Fill>, slot: Option<Entry>)

  datatype Step =
    | Tick(later: int)
    | ChangeStore(w: nat, pod: nat, after: Contents)           // ProcessAsync w has (partly) persisted
    | Invalidate(w: nat, landed: bool)                         // ProcessAsync w asks for the list to be removed
    | ReadStore(r: nat, pod: nat, list: seq<Transaction>)      // GetAllAsync r missed and takes a snapshot
    | WriteSlot(r: nat, landed: bool)                          // GetAllAsync r populates the cache
    | Lose                                                     // the key expires, is evicted, or Redis restarts

  ghost predicate Enabled(s: State, e: Step) {
    match e
    case Tick(later) => s.now <= later
    case ChangeStore(_, pod, _) => pod < |s.stores|
    case Invalidate(w, _) => w in s.unsettled
    case ReadStore(_, pod, list) => pod < |s.stores| && Enumerates(list, s.stores[pod])
    case WriteSlot(r, _) => r in s.fills
    case Lose => true
  }

  /** Step number `n` of a run; `ttl` is the time to live of the list key, if it has one. */
  ghost function Apply(s: State, e: Step, n: nat, ttl: Option<int>): State
    requires Enabled(s, e)
  {
    match e
    case Tick(later) => s.(now := later)
    case ChangeStore(w, pod, after) => s.(stores := s.stores[pod := after], unsettled := s.unsettled + {w})
    case Invalidate(w, landed) => s.(unsettled := s.unsettled - {w}, slot := if landed then None else s.slot)
    case ReadStore(r, pod, list) => s.(fills := s.fills[r := Fill(r, pod, list, n)])
    case WriteSlot(r, landed) =>
      var expiresAt := if ttl.Some? then Some(s.now + ttl.value) else None;
      s.(fills := s.fills - {r}, slot := if landed then Some(Entry(s.fills[r], n, expiresAt)) else s.slot)
    case Lose => s.(slot := None)
  }

  ghost predicate Run(states: seq<State>, steps: seq<Step>, ttl: Option<int>) {
    && |states| == |steps| + 1
    && states[0].unsettled == {} && states[0].fills == map[] && states[0].slot == None
    && forall i | 0 <= i < |steps| ::
         Enabled(states[i], steps[i]) && states[i + 1] == Apply(states[i], steps[i], i, ttl)
  }

  /** The list a connected reader is served from the cache in state `s`. */
  ghost predicate Serves(s: State, list: seq<Transaction>) {
    && s.slot.Some?
    && (s.slot.value.expiresAt.Some? ==> s.now < s.slot.value.expiresAt.value)
    && list == s.slot.value.fill.list
  }

  // ----- Where lists come from

  /** The fill took exactly what its pod's store held when it read, and time has not gone back since. */
  ghost predicate Genuine(states: seq<State>, steps: seq<Step>, f: Fill, n: nat) {
    && f.readAt < n <= |steps| < |states|
    && steps[f.readAt] == ReadStore(f.reader, f.pod, f.list)
    && f.pod < |states[f.readAt].stores|
    && Enumerates(f.list, states[f.readAt].stores[f.pod])
    && states[f.readAt].now <= states[n].now
  }

  /** The step takes away whatever the list key holds, or puts something else there. */
  ghost predicate Replaces(e: Step) {
    e.Lose? || ((e.Invalidate? || e.WriteSlot?) && e.landed)
  }

  /** The entry was brought by its own reader's write, which landed, and nothing has touched the key since. */
  ghost predicate GenuineEntry(states: seq<State>, steps: seq<Step>, e: Entry, ttl: Option<int>, n: nat) {
    && e.writtenAt < n <= |steps| < |states|
    && steps[e.writtenAt] == WriteSlot(e.fill.reader, true)
    && Genuine(states, steps, e.fill, e.writtenAt)
    && e.expiresAt == (if ttl.Some? then Some(states[e.writtenAt].now + ttl.value) else None)
    && forall i | e.writtenAt < i < n :: !Replaces(steps[i])
  }

  ghost predicate AllGenuine(states: seq<State>, steps: seq<Step>, ttl: Option<int>, n: nat)
    requires n < |states|
  {
    && (forall r <- states[n].fills :: states[n].fills[r].reader == r && Genuine(states, steps, states[n].fills[r], n))
    && (states[n].slot.Some? ==> GenuineEntry(states, steps, states[n].slot.value, ttl, n))
  }

  lemma {:induction false} TimeGoesOn(states: seq<State>, steps: seq<Step>, ttl: Option<int>, n: nat)
    requires Run(states, steps, ttl) && n < |steps|
    ensures states[n].now <= states[n + 1].now
    ensures forall f :: Genuine(states, steps, f, n) ==> Genuine(states, steps, f, n + 1)
  {
    assert Enabled(states[n], steps[n]) && states[n + 1] == Apply(states[n], steps[n], n, ttl);
  }

  lemma {:induction false} StepKeepsFill(states: seq<State>, steps: seq<Step>, ttl: Option<int>, n: nat, r: nat)
    requires Run(states, steps, ttl) && n < |steps| && AllGenuine(states, steps, ttl, n)
    requires r in states[n + 1].fills
    ensures states[n + 1].fills[r].reader == r && Genuine(states, steps, states[n + 1].fills[r], n + 1)
  {
    var s, e := states[n], steps[n];
    assert Enabled(s, e) && states[n + 1] == Apply(s, e, n, ttl);
    if !(e.ReadStore? && e.r == r) {
      assert r in s.fills && states[n + 1].fills[r] == s.fills[r];
      TimeGoesOn(states, steps, ttl, n);
    }
  }

  lemma {:induction false} EntryIsWritten(states: seq<State>, steps: seq<Step>, ttl: Option<int>, n: nat)
    requires Run(states, steps, ttl) && n < |steps| && AllGenuine(states, steps, ttl, n)
    requires steps[n].WriteSlot? && steps[n].landed
    ensures states[n + 1].slot.Some? && GenuineEntry(states, steps, states[n + 1].slot.value, ttl, n + 1)
  {
    hide Genuine, Enumerates;
    var s, e := states[n], steps[n];
    assert Enabled(s, e) && states[n + 1] == Apply(s, e, n, ttl);
    assert s.fills[e.r].reader == e.r && Genuine(states, steps, s.fills[e.r], n);
  }

  lemma {:induction false} EntryIsKept(states: seq<State>, steps: seq<Step>, ttl: Option<int>, n: nat)
    requires Run(states, steps, ttl) && n < |steps| && !Replaces(steps[n])
    ensures states[n + 1].slot == states[n].slot
    ensures forall e :: GenuineEntry(states, steps, e, ttl, n) ==> GenuineEntry(states, steps, e, ttl, n + 1)
  {
    hide Genuine, Enumerates;
    assert Enabled(states[n], steps[n]) && states[n + 1] == Apply(states[n], steps[n], n, ttl);
  }

  lemma {:induction false} StepKeepsEntry(states: seq<State>, steps: seq<Step>, ttl: Option<int>, n: nat)
    requires Run(states, steps, ttl) && n < |steps| && AllGenuine(states, steps, ttl, n)
    ensures states[n + 1].slot.Some? ==> GenuineEntry(states, steps, states[n + 1].slot.value, ttl, n + 1)
  {
    hide Genuine, GenuineEntry, Enumerates;
    if steps[n].WriteSlot? && steps[n].landed {
      EntryIsWritten(states, steps, ttl, n);
    } else if !Replaces(steps[n]) {
      EntryIsKept(states, steps, ttl, n);
    } else {
      assert Enabled(states[n], steps[n]) && states[n + 1] == Apply(states[n], steps[n], n, ttl);
    }
  }

  lemma {:induction false} StepKeepsGenuine(states: seq<State>, steps: seq<Step>, ttl: Option<int>, n: nat)
    requires Run(states, steps, ttl) && n < |steps|
    requires AllGenuine(states, steps, ttl, n)
    ensures AllGenuine(states, steps, ttl, n + 1)
  {
    hide Genuine, GenuineEntry, Enumerates;
    var s' := states[n + 1];
    forall r | r in s'.fills ensures s'.fills[r].reader == r && Genuine(states, steps, s'.fills[r], n + 1) {
      StepKeepsFill(states, steps, ttl, n, r);
    }
    StepKeepsEntry(states, steps, ttl, n);
  }

  lemma {:induction false} ListsAreGenuine(states: seq<State>, steps: seq<Step>, ttl: Option<int>, n: nat)
    requires Run(states, steps, ttl) && n <= |steps|
    ensures AllGenuine(states, steps, ttl, n)
    decreases n
  {
    if n > 0 {
      ListsAreGenuine(states, steps, ttl, n - 1);
      StepKeepsGenuine(states, steps, ttl, n - 1);
    }
  }

  /**
   * Bounded staleness. In every run the list served at time t is the one that the fill now in the cache read and
   * wrote, exactly what that reader's pod stored when it read, later than t - TTL - (that fill's read-to-write
   * delay); and nothing has touched the key since it was written. The same goes for the slices of the list.
   */
  lemma {:induction false} StalenessIsBounded(states: seq<State>, steps: seq<Step>, ttl: int, n: nat, list: seq<Transaction>)
    requires Run(states, steps, Some(ttl)) && n <= |steps|
    requires Serves(states[n], list)
    ensures var f, written := states[n].slot.value.fill, states[n].slot.value.writtenAt;
            && f.readAt < written < n
            && steps[f.readAt] == ReadStore(f.reader, f.pod, list) && steps[written] == WriteSlot(f.reader, true)
            && (forall i | written < i < n :: !Replaces(steps[i]))
            && f.pod < |states[f.readAt].stores|
            && Enumerates(list, states[f.readAt].stores[f.pod])
            && (forall count :: IsLatest(TakeAtMost(SortNewestFirst(list), count), states[f.readAt].stores[f.pod], count))
            && states[f.readAt].now > states[n].now - ttl - (states[written].now - states[f.readAt].now)
  {
    ListsAreGenuine(states, steps, Some(ttl), n);
    var f := states[n].slot.value.fill;
    forall count ensures IsLatest(TakeAtMost(SortNewestFirst(list), count), states[f.readAt].stores[f.pod], count) {
      assert Enumerates(list, states[f.readAt].stores[f.pod]);
    }
  }

  // ----- Why a list can be stale at all

  lemma {:induction false} PodsRemain(states: seq<State>, steps: seq<Step>, ttl: Option<int>, n: nat)
    requires Run(states, steps, ttl) && n <= |steps|
    ensures |states[n].stores| == |states[0].stores|
    decreases n
  {
    if n > 0 {
      PodsRemain(states, steps, ttl, n - 1);
      assert Enabled(states[n - 1], steps[n - 1]) && states[n] == Apply(states[n - 1], steps[n - 1], n - 1, ttl);
    }
  }

  /** The step that gave `pod` the contents `after`. */
  ghost predicate Gave(e: Step, pod: nat, after: Contents) {
    e.ChangeStore? && e.pod == pod && e.after == after
  }

  /** If a pod's store differs between two moments, some step in between gave it what it has now. */
  lemma {:induction false} ChangeIsNamed(states: seq<State>, steps: seq<Step>, ttl: Option<int>, m: nat, n: nat, pod: nat)
      returns (i: nat)
    requires Run(states, steps, ttl) && m <= n <= |steps|
    requires pod < |states[m].stores| == |states[n].stores| && states[m].stores[pod] != states[n].stores[pod]
    ensures m <= i < n && Gave(steps[i], pod, states[n].stores[pod])
    decreases n
  {
    var l := n - 1;
    assert Enabled(states[l], steps[l]) && states[l + 1] == Apply(states[l], steps[l], l, ttl);
    if Gave(steps[l], pod, states[n].stores[pod]) {
      i := l;
    } else {
      i := ChangeIsNamed(states, steps, ttl, m, l, pod);
    }
  }

  /** `w` asked for the list to be removed, strictly between steps `from` and `to`. */
  ghost predicate InvalidatedBetween(steps: seq<Step>, w: nat, from: nat, to: nat) {
    exists j | from < j < to && j < |steps| :: steps[j].Invalidate? && steps[j].w == w
  }

  lemma {:induction false} ChangesSettle(states: seq<State>, steps: seq<Step>, ttl: Option<int>, i: nat, n: nat)
    requires Run(states, steps, ttl) && i < n <= |steps| && steps[i].ChangeStore?
    ensures steps[i].w in states[n].unsettled || InvalidatedBetween(steps, steps[i].w, i, n)
    decreases n
  {
    var l := n - 1;
    assert Enabled(states[l], steps[l]) && states[l + 1] == Apply(states[l], steps[l], l, ttl);
    if i < l {
      ChangesSettle(states, steps, ttl, i, l);
      if steps[i].w !in states[l].unsettled {
        var j :| i < j < l && steps[j].Invalidate? && steps[j].w == steps[i].w;
        assert InvalidatedBetween(steps, steps[i].w, i, n);
      } else if steps[l].Invalidate? && steps[l].w == steps[i].w {
        assert InvalidatedBetween(steps, steps[i].w, i, n);
      }
    }
  }

  /** A served list is stale if and only if its pod's store has changed since the fill in the cache read it. */
  lemma {:induction false} StaleExactlyWhenChanged(states: seq<State>, steps: seq<Step>, ttl: Option<int>, n: nat, list: seq<Transaction>)
    requires Run(states, steps, ttl) && n <= |steps|
    requires Serves(states[n], list)
    ensures var f := states[n].slot.value.fill;
            && f.readAt < n && f.pod < |states[n].stores| == |states[f.readAt].stores|
            && (!Enumerates(list, states[n].stores[f.pod]) <==>
                states[n].stores[f.pod] != states[f.readAt].stores[f.pod])
  {
    ListsAreGenuine(states, steps, ttl, n);
    var f := states[n].slot.value.fill;
    PodsRemain(states, steps, ttl, n);
    PodsRemain(states, steps, ttl, f.readAt);
    if Enumerates(list, states[n].stores[f.pod]) {
      SameListingSameContents(list, states[n].stores[f.pod], states[f.readAt].stores[f.pod]);
    }
  }

  ghost predicate ReliableSinglePod(states: seq<State>, steps: seq<Step>) {
    && |states| > 0 && |states[0].stores| == 1
    && forall e <- steps :: e.Invalidate? ==> e.landed
  }

  /** Step `i` changed the store after entry `e` was read, and has either not invalidated yet or did so too early. */
  ghost predicate Causes(steps: seq<Step>, i: nat, e: Entry, s: State)
    requires |s.stores| == 1
  {
    && e.fill.readAt < i < |steps|
    && Gave(steps[i], 0, s.stores[0])
    && (steps[i].w in s.unsettled || InvalidatedBetween(steps, steps[i].w, i, e.writtenAt))
  }

  /**
   * The cause of staleness. On one pod whose invalidations always land, a served list is stale if and only if the
   * store has changed since the fill now in the cache read it; and the `ProcessAsync` whose change gave the store
   * its present contents has then not invalidated yet, or did so before that same fill wrote the list.
   */
  lemma {:induction false} StalenessHasACause(states: seq<State>, steps: seq<Step>, ttl: Option<int>, n: nat, list: seq<Transaction>)
    requires Run(states, steps, ttl) && ReliableSinglePod(states, steps) && n <= |steps|
    requires Serves(states[n], list)
    ensures var e := states[n].slot.value;
            && e.fill.readAt < n && e.fill.pod == 0 && |states[n].stores| == |states[e.fill.readAt].stores| == 1
            && (!Enumerates(list, states[n].stores[0]) <==> states[n].stores[0] != states[e.fill.readAt].stores[0])
            && (!Enumerates(list, states[n].stores[0]) ==> exists i | 0 <= i < n :: Causes(steps, i, e, states[n]))
  {
    var e := states[n].slot.value;
    ListsAreGenuine(states, steps, ttl, n);
    PodsRemain(states, steps, ttl, n);
    StaleExactlyWhenChanged(states, steps, ttl, n, list);
    if states[n].stores[0] != states[e.fill.readAt].stores[0] {
      var i := ChangeIsNamed(states, steps, ttl, e.fill.readAt, n, 0);
      ChangesSettle(states, steps, ttl, i, n);
      if steps[i].w !in states[n].unsettled {
        SettledBeforeWrite(states, steps, ttl, n, i);
      }
      assert Causes(steps, i, e, states[n]);
    }
  }

  /** An invalidation that landed after the list was written would have taken it away. */
  lemma {:induction false} SettledBeforeWrite(states: seq<State>, steps: seq<Step>, ttl: Option<int>, n: nat, i: nat)
    requires Run(states, steps, ttl) && ReliableSinglePod(states, steps) && n <= |steps|
    requires states[n].slot.Some? && GenuineEntry(states, steps, states[n].slot.value, ttl, n)
    requires i < n && steps[i].ChangeStore? && InvalidatedBetween(steps, steps[i].w, i, n)
    ensures InvalidatedBetween(steps, steps[i].w, i, states[n].slot.value.writtenAt)
  {
    var written := states[n].slot.value.writtenAt;
    var j :| i < j < n && steps[j].Invalidate? && steps[j].w == steps[i].w;
    assert steps[j] in steps && Replaces(steps[j]);
    assert j < written;
  }

  // ----- Both causes are real

  /** The contents with one transaction, and the empty contents, are told apart by every listing. */
  lemma {:induction false} EmptyListingIsStale(tx: Transaction)
    ensures Enumerates([], map[])
    ensures !Enumerates([], map[tx.id := tx])
  {
    var one: Contents := map[tx.id := tx];
    assert tx.id in one && tx in one.Values;
    assert multiset(one.Values)[tx] == 1;
  }

  /** Nothing is under way, yet the list that is served is not what the only pod stores. */
  ghost predicate QuietlyStale(s: State, list: seq<Transaction>) {
    s.unsettled == {} && Serves(s, list) && |s.stores| == 1 && !Enumerates(list, s.stores[0])
  }

  ghost predicate Leads(s: State, e: Step, n: nat, ttl: Option<int>, s': State) {
    Enabled(s, e) && s' == Apply(s, e, n, ttl)
  }

  lemma {:induction false} RunOfFour(s0: State, s1: State, s2: State, s3: State, s4: State,
                  e0: Step, e1: Step, e2: Step, e3: Step, ttl: Option<int>)
    requires s0.unsettled == {} && s0.fills == map[] && s0.slot == None
    requires Leads(s0, e0, 0, ttl, s1) && Leads(s1, e1, 1, ttl, s2)
    requires Leads(s2, e2, 2, ttl, s3) && Leads(s3, e3, 3, ttl, s4)
    ensures Run([s0, s1, s2, s3, s4], [e0, e1, e2, e3], ttl)
  {
  }

  const EMPTY_POD: State := State(0, [map[]], {}, map[], None)

  lemma {:induction false} ShownStale(s: State, f: Fill, tx: Transaction)
    requires s.unsettled == {} && s.stores == [map[tx.id := tx]] && f.list == []
    requires s.slot.Some? && s.slot.value.fill == f
    requires s.slot.value.expiresAt.Some? && s.now < s.slot.value.expiresAt.value
    ensures QuietlyStale(s, [])
  {
    EmptyListingIsStale(tx);
  }

  /** A fill that straddles an invalidation leaves a stale list behind although every operation landed. */
  lemma {:induction false} StraddlingFillIsStale(tx: Transaction, ttl: int)
    requires ttl > 0
    ensures exists states: seq<State>, steps: seq<Step> ::
              Run(states, steps, Some(ttl)) && ReliableSinglePod(states, steps) && QuietlyStale(states[|steps|], [])
  {
    hide Run, QuietlyStale, Enumerates;
    EmptyListingIsStale(tx);
    var one: Contents := map[tx.id := tx];
    var f := Fill(1, 0, [], 0);
    var s1 := EMPTY_POD.(fills := map[1 := f]);
    var s2 := s1.(stores := [one], unsettled := {2});
    var s3 := s1.(stores := [one]);
    var s4 := State(0, [one], {}, map[], Some(Entry(f, 3, Some(ttl))));
    var steps := [ReadStore(1, 0, []), ChangeStore(2, 0, one), Invalidate(2, true), WriteSlot(1, true)];
    var states := [EMPTY_POD, s1, s2, s3, s4];
    RunOfFour(EMPTY_POD, s1, s2, s3, s4, steps[0], steps[1], steps[2], steps[3], Some(ttl));
    assert steps == [steps[0], steps[1], steps[2], steps[3]];
    ShownStale(s4, f, tx);
    assert ReliableSinglePod(states, steps);
    assert states[|steps|] == s4;
  }

  /** So does an invalidation that is dropped, although nothing overlaps. */
  lemma {:induction false} DroppedInvalidationIsStale(tx: Transaction, ttl: int)
    requires ttl > 0
    ensures exists states: seq<State>, steps: seq<Step> ::
              && Run(states, steps, Some(ttl)) && QuietlyStale(states[|steps|], [])
              && forall n | 0 <= n < |states| :: states[n].unsettled == {} || states[n].fills == map[]
  {
    hide Run, QuietlyStale, Enumerates;
    EmptyListingIsStale(tx);
    var one: Contents := map[tx.id := tx];
    var f := Fill(1, 0, [], 0);
    var s1 := EMPTY_POD.(fills := map[1 := f]);
    var s2 := EMPTY_POD.(slot := Some(Entry(f, 1, Some(ttl))));
    var s3 := s2.(stores := [one], unsettled := {2});
    var s4 := s2.(stores := [one]);
    var steps := [ReadStore(1, 0, []), WriteSlot(1, true), ChangeStore(2, 0, one), Invalidate(2, false)];
    var states := [EMPTY_POD, s1, s2, s3, s4];
    RunOfFour(EMPTY_POD, s1, s2, s3, s4, steps[0], steps[1], steps[2], steps[3], Some(ttl));
    assert steps == [steps[0], steps[1], steps[2], steps[3]];
    ShownStale(s4, f, tx);
    assert states[|steps|] == s4;
  }
}
