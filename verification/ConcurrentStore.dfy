/**
 * The store under concurrent writers. Each `AddAsync` is four kinds of atomic step on the shared dictionary:
 * the indexer write, the `Count` check, the scan for the oldest entry, and `TryRemove`. Nothing else is locked.
 */
module ConcurrentStore {
  import opened Transactions
  import opened RecentWindow

  datatype Phase =
    | Ready                   // not inside AddAsync
    | Checking                // about to read Count
    | Scanning                // Count was over the limit
    | Removing(victim: string)

  datatype Writer = Writer(calls: seq<Transaction>, phase: Phase)

  datatype State = State(store: Contents, writers: seq<Writer>)

  datatype Step =
    | Write(w: nat)
    | Check(w: nat)
    | Scan(w: nat, oldest: Option<string>)
    | Remove(w: nat)

  ghost predicate IsOldest(k: string, m: Contents) {
    k in m && forall j <- m :: m[k].timestamp <= m[j].timestamp
  }

  ghost predicate Enabled(s: State, e: Step) {
    && e.w < |s.writers|
    && var writer := s.writers[e.w];
       match e
       case Write(_) => writer.phase == Ready && writer.calls != []
       case Check(_) => writer.phase == Checking
       case Scan(_, oldest) =>
         writer.phase == Scanning && (if oldest.None? then s.store == map[] else IsOldest(oldest.value, s.store))
       case Remove(_) => writer.phase.Removing?
  }

  ghost function Moved(s: State, w: nat, phase: Phase): State
    requires w < |s.writers|
  {
    s.(writers := s.writers[w := s.writers[w].(phase := phase)])
  }

  ghost function Apply(s: State, e: Step): State
    requires Enabled(s, e)
  {
    var writer := s.writers[e.w];
    match e
    case Write(w) =>
      var tx := writer.calls[0];
      State(s.store[tx.id := tx], s.writers[w := Writer(writer.calls[1..], Checking)])
    case Check(w) => Moved(s, w, if |s.store| > MAX_TRANSACTIONS then Scanning else Ready)
    case Scan(w, oldest) => Moved(s, w, if oldest.None? then Ready else Removing(oldest.value))
    case Remove(w) => Moved(s.(store := s.store - {writer.phase.victim}), w, Checking)
  }

  /** `states` is a run under some schedule: consecutive states are one step of one writer apart. */
  ghost predicate Run(states: seq<State>, steps: seq<Step>) {
    && |states| == |steps| + 1
    && forall i | 0 <= i < |steps| :: Enabled(states[i], steps[i]) && states[i + 1] == Apply(states[i], steps[i])
  }

  ghost predicate AtRest(s: State) {
    forall w <- s.writers :: w.phase == Ready
  }

  ghost predicate Done(s: State) {
    forall w <- s.writers :: w.phase == Ready && w.calls == []
  }

  // ----- Counting writers

  /** How many writers satisfy `p`, weighted. */
  ghost function Sum(writers: seq<Writer>, weight: Writer -> nat): nat {
    if writers == [] then 0 else weight(writers[0]) + Sum(writers[1..], weight)
  }

  lemma {:induction false} SumUpdate(writers: seq<Writer>, weight: Writer -> nat, w: nat, x: Writer)
    requires w < |writers|
    ensures Sum(writers[w := x], weight) + weight(writers[w]) == Sum(writers, weight) + weight(x)
  {
    if w == 0 {
      assert writers[w := x][1..] == writers[1..];
    } else {
      SumUpdate(writers[1..], weight, w - 1, x);
      assert writers[w := x][1..] == writers[1..][w - 1 := x];
    }
  }

  lemma {:induction false} SumAtMostOneEach(writers: seq<Writer>, weight: Writer -> nat)
    requires forall w <- writers :: weight(w) <= 1
    ensures Sum(writers, weight) <= |writers|
  {
    if writers != [] {
      SumAtMostOneEach(writers[1..], weight);
    }
  }

  lemma {:induction false} SumZero(writers: seq<Writer>, weight: Writer -> nat)
    requires forall w <- writers :: weight(w) == 0
    ensures Sum(writers, weight) == 0
  {
    if writers != [] {
      SumZero(writers[1..], weight);
    }
  }

  lemma {:induction false} SumKept(writers: seq<Writer>, f: Writer -> nat, g: Writer -> nat)
    requires forall w <- writers :: g(w) <= f(w)
    ensures Sum(writers, g) <= Sum(writers, f)
  {
    if writers != [] {
      SumKept(writers[1..], f, g);
    }
  }

  lemma {:induction false} SumRaised(writers: seq<Writer>, f: Writer -> nat, g: Writer -> nat)
    requires forall w <- writers :: g(w) <= f(w) + 3
    ensures Sum(writers, g) <= Sum(writers, f) + 3 * |writers|
  {
    if writers != [] {
      SumRaised(writers[1..], f, g);
    }
  }

  ghost function Active(w: Writer): nat {
    if w.phase == Ready then 0 else 1
  }

  ghost function PastCheck(w: Writer): nat {
    if w.phase.Scanning? || w.phase.Removing? then 1 else 0
  }

  /** Writers that have written but not yet left the trim. */
  ghost function ActiveWriters(s: State): nat { Sum(s.writers, Active) }

  /** Writers between a `Count` check that found too many and their `TryRemove`. */
  ghost function Trimmers(s: State): nat { Sum(s.writers, PastCheck) }

  lemma {:induction false} StoreStepSize(s: State, e: Step)
    requires Enabled(s, e)
    ensures |Apply(s, e).store| <= |s.store| + (if e.Write? then 1 else 0)
    ensures |s.store| <= |Apply(s, e).store| + (if e.Remove? then 1 else 0)
  {
    match e
    case Write(w) => GrownSize(s.store, s.writers[w].calls[0]);
    case Remove(w) =>
      var victim := s.writers[w].phase.victim;
      if victim in s.store {
        RemoveOne(s.store, victim);
      } else {
        assert s.store - {victim} == s.store;
      }
    case _ =>
  }

  // ----- The two-sided bound

  ghost predicate Upper(s: State) {
    |s.store| <= MAX_TRANSACTIONS + ActiveWriters(s)
  }

  ghost predicate Lower(s: State) {
    |s.store| + |s.writers| >= MAX_TRANSACTIONS + 1 + Trimmers(s)
  }

  lemma {:induction false} StepCounts(s: State, e: Step)
    requires Enabled(s, e)
    ensures var s' := Apply(s, e); var x, y := s.writers[e.w], s'.writers[e.w];
            && ActiveWriters(s') + Active(x) == ActiveWriters(s) + Active(y)
            && Trimmers(s') + PastCheck(x) == Trimmers(s) + PastCheck(y)
            && Trimmers(s') <= |s'.writers| == |s.writers|
  {
    var s' := Apply(s, e);
    assert s'.writers == s.writers[e.w := s'.writers[e.w]];
    SumUpdate(s.writers, Active, e.w, s'.writers[e.w]);
    SumUpdate(s.writers, PastCheck, e.w, s'.writers[e.w]);
    SumAtMostOneEach(s'.writers, PastCheck);
  }

  lemma {:induction false} StepKeepsBounds(s: State, e: Step)
    requires Enabled(s, e)
    ensures Upper(s) ==> Upper(Apply(s, e))
    ensures Lower(s) ==> Lower(Apply(s, e))
    ensures e.Check? && |s.store| > MAX_TRANSACTIONS ==> Lower(Apply(s, e))
  {
    StoreStepSize(s, e);
    StepCounts(s, e);
    if e.Scan? && e.oldest.None? {
      assert |s.store| == 0;
    }
  }

  /** Some writer has found the store over its limit. */
  ghost predicate OverLimitSeen(states: seq<State>, steps: seq<Step>, n: nat)
    requires n <= |steps| < |states|
  {
    exists i | 0 <= i < n :: steps[i].Check? && |states[i].store| > 200
  }

  /** Both bounds hold in every reachable state of every schedule. */
  lemma {:induction false} BoundsHold(states: seq<State>, steps: seq<Step>, n: nat)
    requires Run(states, steps) && n <= |steps|
    requires |states[0].store| <= 200
    ensures |states[n].writers| == |states[0].writers|
    ensures |states[n].store| <= 200 + ActiveWriters(states[n])
    ensures OverLimitSeen(states, steps, n) ==>
              |states[n].store| >= 201 - |states[n].writers| + Trimmers(states[n])
    decreases n
  {
    if n > 0 {
      BoundsHold(states, steps, n - 1);
      StepKeepsBounds(states[n - 1], steps[n - 1]);
    }
  }

  /** When everybody has left, the store has settled: at most the limit, short of it by fewer entries than writers. */
  lemma {:induction false} SettledSize(states: seq<State>, steps: seq<Step>)
    requires Run(states, steps)
    requires |states[0].store| <= 200
    requires AtRest(states[|steps|])
    ensures |states[|steps|].store| <= 200
    ensures OverLimitSeen(states, steps, |steps|) ==>
              |states[|steps|].store| >= 201 - |states[0].writers|
    ensures OverLimitSeen(states, steps, |steps|) && |states[0].writers| == 1 ==>
              |states[|steps|].store| == 200
  {
    BoundsHold(states, steps, |steps|);
    SumZero(states[|steps|].writers, Active);
  }

  // ----- Termination

  /** What a writer still has to do in its loop; a victim somebody else removed costs one futile round more. */
  ghost function Cost(store: Contents): Writer -> nat {
    (w: Writer) =>
      match w.phase
      case Ready => 0
      case Checking => 3
      case Scanning => 2
      case Removing(victim) => if victim in store then 1 else 4
  }

  ghost function CallsLeft(w: Writer): nat { |w.calls| }

  ghost function Measure(s: State): nat {
    var n := |s.writers|;
    (3 * n + 4) * Sum(s.writers, CallsLeft) + 3 * n * |s.store| + Sum(s.writers, Cost(s.store))
  }

  lemma {:induction false} StepCosts(s: State, e: Step)
    requires Enabled(s, e)
    ensures var s' := Apply(s, e); var x, y := s.writers[e.w], s'.writers[e.w];
            && |s'.writers| == |s.writers|
            && Sum(s'.writers, CallsLeft) + |x.calls| == Sum(s.writers, CallsLeft) + |y.calls|
            && Sum(s'.writers, Cost(s'.store)) + Cost(s'.store)(x) == Sum(s.writers, Cost(s'.store)) + Cost(s'.store)(y)
  {
    var s' := Apply(s, e);
    assert s'.writers == s.writers[e.w := s'.writers[e.w]];
    SumUpdate(s.writers, CallsLeft, e.w, s'.writers[e.w]);
    SumUpdate(s.writers, Cost(s'.store), e.w, s'.writers[e.w]);
  }

  /** A write, an eviction, or a step that only brings its writer on. */
  ghost predicate Progress(n: nat, calls: nat, size: nat, cost: nat, calls': nat, size': nat, cost': nat) {
    || (calls' == calls && size' == size && cost' < cost)
    || (calls' == calls && size' == size - 1 && cost' < cost + 3 * n)
    || (calls' == calls - 1 && size' <= size + 1 && cost' <= cost + 3)
  }

  lemma {:induction false} WritePays(m: nat, calls: nat, size: nat, calls': nat, size': nat)
    requires calls' == calls - 1 && size' <= size + 1
    ensures (m + 4) * calls' + m * size' <= (m + 4) * calls + m * size - 4
  {
    assert (m + 4) * calls' == (m + 4) * calls - (m + 4);
    assert m * size' <= m * (size + 1) == m * size + m;
  }

  lemma {:induction false} EvictionPays(m: nat, size: nat, size': nat)
    requires size' == size - 1
    ensures m * size' == m * size - m
  {
  }

  lemma {:induction false} ProgressPays(n: nat, calls: nat, size: nat, cost: nat, calls': nat, size': nat, cost': nat)
    requires Progress(n, calls, size, cost, calls', size', cost')
    ensures (3 * n + 4) * calls' + 3 * n * size' + cost' < (3 * n + 4) * calls + 3 * n * size + cost
  {
    if calls' == calls - 1 {
      WritePays(3 * n, calls, size, calls', size');
    } else if size' == size - 1 {
      EvictionPays(3 * n, size, size');
    }
  }

  ghost predicate Evicts(s: State, e: Step)
    requires Enabled(s, e)
  {
    e.Remove? && s.writers[e.w].phase.victim in s.store
  }

  lemma {:induction false} OthersCosts(s: State, e: Step)
    requires Enabled(s, e)
    ensures Evicts(s, e) ==> Sum(s.writers, Cost(Apply(s, e).store)) <= Sum(s.writers, Cost(s.store)) + 3 * |s.writers|
    ensures !Evicts(s, e) ==> Sum(s.writers, Cost(Apply(s, e).store)) <= Sum(s.writers, Cost(s.store))
  {
    var store' := Apply(s, e).store;
    if Evicts(s, e) {
      SumRaised(s.writers, Cost(s.store), Cost(store'));
    } else {
      if e.Remove? {
        assert store' == s.store;
      }
      SumKept(s.writers, Cost(s.store), Cost(store'));
    }
  }

  lemma {:induction false} StepSizes(s: State, e: Step)
    requires Enabled(s, e)
    ensures |Apply(s, e).store| <= |s.store| + (if e.Write? then 1 else 0)
    ensures !e.Write? ==> |Apply(s, e).store| == |s.store| - if Evicts(s, e) then 1 else 0
  {
    StoreStepSize(s, e);
    if Evicts(s, e) {
      RemoveOne(s.store, s.writers[e.w].phase.victim);
    } else if e.Remove? {
      assert Apply(s, e).store == s.store;
    }
  }

  lemma {:induction false} OwnCosts(s: State, e: Step)
    requires Enabled(s, e)
    ensures var s' := Apply(s, e); var x, y := s.writers[e.w], s'.writers[e.w];
            && (e.Write? ==> |y.calls| == |x.calls| - 1 && Cost(s'.store)(y) == 3 && Cost(s'.store)(x) == 0)
            && (!e.Write? ==> y.calls == x.calls && Cost(s'.store)(y) < Cost(s'.store)(x))
  {
  }

  /** Every step of every writer makes progress, a lost `TryRemove` race included. */
  lemma {:induction false} StepDecreasesMeasure(s: State, e: Step)
    requires Enabled(s, e)
    ensures Measure(Apply(s, e)) < Measure(s)
  {
    hide Enabled, Apply, Sum, Cost;
    var s' := Apply(s, e);
    StepCosts(s, e);
    OthersCosts(s, e);
    StepSizes(s, e);
    OwnCosts(s, e);
    ProgressPays(|s.writers|,
      Sum(s.writers, CallsLeft), |s.store|, Sum(s.writers, Cost(s.store)),
      Sum(s'.writers, CallsLeft), |s'.store|, Sum(s'.writers, Cost(s'.store)));
  }

  lemma {:induction false} RunIsShort(states: seq<State>, steps: seq<Step>, n: nat)
    requires Run(states, steps) && n <= |steps|
    ensures Measure(states[n]) + n <= Measure(states[0])
    decreases n
  {
    if n > 0 {
      RunIsShort(states, steps, n - 1);
      StepDecreasesMeasure(states[n - 1], steps[n - 1]);
    }
  }

  /**
   * No schedule can make a finite set of calls run forever: with N writers, C calls and S entries at the start,
   * every run has at most (3N + 4) C + 3N S steps.
   */
  lemma {:induction false} CallsFinish(states: seq<State>, steps: seq<Step>)
    requires Run(states, steps) && AtRest(states[0])
    ensures var n := |states[0].writers|;
            |steps| <= (3 * n + 4) * Sum(states[0].writers, CallsLeft) + 3 * n * |states[0].store|
  {
    RunIsShort(states, steps, |steps|);
    SumZero(states[0].writers, Cost(states[0].store));
  }

  lemma {:induction false} OnlyOne(m: Contents, k: string)
    requires k in m && Without(m, k) == map[]
    ensures IsOldest(k, m)
  {
    forall i | i in m ensures i == k {
      assert i != k ==> i in Without(m, k);
    }
  }

  lemma {:induction false} OlderOfTwo(m: Contents, k: string, j: string)
    requires k in m && IsOldest(j, Without(m, k))
    ensures j in m && if m[j].timestamp < m[k].timestamp then IsOldest(j, m) else IsOldest(k, m)
  {
    forall i | i in m ensures i == k || m[j].timestamp <= m[i].timestamp {
      assert i != k ==> i in Without(m, k);
    }
  }

  lemma {:induction false} HasOldest(m: Contents) returns (k: string)
    requires m != map[]
    ensures IsOldest(k, m)
    decreases |m|
  {
    k :| k in m;
    RemoveOne(m, k);
    if Without(m, k) != map[] {
      var j := HasOldest(Without(m, k));
      OlderOfTwo(m, k, j);
      if m[j].timestamp < m[k].timestamp {
        k := j;
      }
    } else {
      OnlyOne(m, k);
    }
  }

  /** And no run gets stuck: while a call is unfinished some step is enabled. */
  lemma {:induction false} NeverStuck(s: State)
    requires !Done(s)
    ensures exists e :: Enabled(s, e)
  {
    var w :| 0 <= w < |s.writers| && (s.writers[w].phase != Ready || s.writers[w].calls != []);
    match s.writers[w].phase
    case Ready => assert Enabled(s, Write(w));
    case Checking => assert Enabled(s, Check(w));
    case Removing(_) => assert Enabled(s, Remove(w));
    case Scanning =>
      if s.store == map[] {
        assert Enabled(s, Scan(w, None));
      } else {
        var k := HasOldest(s.store);
        assert Enabled(s, Scan(w, Some(k)));
      }
  }

  // ----- What is kept when transactions arrive in time order

  /** Everything written in the first `n` steps, on top of what was known before. */
  ghost function Written(before: Contents, states: seq<State>, steps: seq<Step>, n: nat): Contents
    requires Run(states, steps) && n <= |steps|
  {
    if n == 0 then before else
      var known := Written(before, states, steps, n - 1);
      if steps[n - 1].Write? then
        var tx := states[n - 1].writers[steps[n - 1].w].calls[0];
        known[tx.id := tx]
      else known
  }

  /** Each write brings a new id, no older than anything written before it. */
  ghost predicate InTimeOrder(before: Contents, states: seq<State>, steps: seq<Step>)
    requires Run(states, steps)
  {
    forall i | 0 <= i < |steps| && steps[i].Write? ::
      var tx := states[i].writers[steps[i].w].calls[0];
      var known := Written(before, states, steps, i);
      tx.id !in known && forall k <- known :: known[k].timestamp <= tx.timestamp
  }

  /** A pending victim was written once, and if it is still there it is still an oldest entry. */
  ghost predicate VictimIsOldest(known: Contents, store: Contents, w: Writer) {
    w.phase.Removing? ==>
      w.phase.victim in known && (w.phase.victim in store ==> IsOldest(w.phase.victim, store))
  }

  ghost predicate Recent(known: Contents, s: State) {
    && Submap(s.store, known)
    && NoDropIsNewer(known, s.store)
    && forall w <- s.writers :: VictimIsOldest(known, s.store, w)
  }

  lemma {:induction false} RecentAfterWrite(known: Contents, s: State, tx: Transaction, x: Writer)
    requires Recent(known, s)
    requires tx.id !in known && forall k <- known :: known[k].timestamp <= tx.timestamp
    ensures Submap(s.store[tx.id := tx], known[tx.id := tx])
    ensures NoDropIsNewer(known[tx.id := tx], s.store[tx.id := tx])
    ensures x in s.writers ==> VictimIsOldest(known[tx.id := tx], s.store[tx.id := tx], x)
  {
    SubmapGrows(s.store, known, tx);
    if x in s.writers && x.phase.Removing? && x.phase.victim in s.store {
      assert IsOldest(x.phase.victim, s.store);
    }
  }

  lemma {:induction false} RecentAfterRemove(known: Contents, s: State, w: nat)
    requires Recent(known, s) && Enabled(s, Remove(w))
    ensures Recent(known, Apply(s, Remove(w)))
  {
    var s', victim := Apply(s, Remove(w)), s.writers[w].phase.victim;
    assert VictimIsOldest(known, s.store, s.writers[w]);
    forall x | x in s'.writers ensures VictimIsOldest(known, s'.store, x) {
      assert x == s'.writers[w] || x in s.writers;
    }
  }

  /**
   * `TryRemove` goes by key alone: it may hit a transaction that was written after the scan. Without the time
   * order an eviction leaves the newest entries in place if and only if its victim is still an oldest entry.
   */
  lemma {:induction false} EvictionIsRightExactlyWhen(known: Contents, s: State, w: nat)
    requires Submap(s.store, known) && NoDropIsNewer(known, s.store)
    requires Enabled(s, Remove(w))
    ensures var victim := s.writers[w].phase.victim;
            NoDropIsNewer(known, Apply(s, Remove(w)).store) <==> (victim in s.store ==> IsOldest(victim, s.store))
  {
    var s', victim := Apply(s, Remove(w)), s.writers[w].phase.victim;
    if victim in s.store && NoDropIsNewer(known, s'.store) {
      forall j | j in s.store ensures s.store[victim].timestamp <= s.store[j].timestamp {
        assert j == victim || j in s'.store;
      }
    }
  }

  /** Nothing left out of the store is newer than anything in it, at every moment up to step `n`. */
  ghost predicate NewestAllAlong(before: Contents, states: seq<State>, steps: seq<Step>, n: nat)
    requires Run(states, steps) && n <= |steps|
  {
    forall i | 0 <= i <= n :: NoDropIsNewer(Written(before, states, steps, i), states[i].store)
  }

  /** An eviction that hits an oldest entry or nothing, or a write that does not fall behind an evicted entry. */
  ghost predicate Harmless(known: Contents, s: State, e: Step)
    requires Enabled(s, e)
  {
    match e
    case Write(w) =>
      var tx := s.writers[w].calls[0];
      forall d | d in known && d !in s.store && d != tx.id :: known[d].timestamp <= tx.timestamp
    case Remove(w) => var victim := s.writers[w].phase.victim; victim in s.store ==> IsOldest(victim, s.store)
    case _ => true
  }

  lemma {:induction false} WriteIsRightExactlyWhen(known: Contents, s: State, w: nat)
    requires Submap(s.store, known) && NoDropIsNewer(known, s.store)
    requires Enabled(s, Write(w))
    ensures var tx := s.writers[w].calls[0];
            && Submap(s.store[tx.id := tx], known[tx.id := tx])
            && (NoDropIsNewer(known[tx.id := tx], s.store[tx.id := tx]) <==> Harmless(known, s, Write(w)))
  {
    var tx := s.writers[w].calls[0];
    var known': Contents, store': Contents := known[tx.id := tx], s.store[tx.id := tx];
    SubmapGrows(s.store, known, tx);
    if NoDropIsNewer(known', store') {
      forall d | d in known && d !in s.store && d != tx.id ensures known[d].timestamp <= tx.timestamp {
        assert known'[d].timestamp <= store'[tx.id].timestamp;
      }
    }
  }

  lemma {:induction false} StepIsRightExactlyWhen(known: Contents, s: State, e: Step)
    requires Submap(s.store, known) && NoDropIsNewer(known, s.store) && Enabled(s, e)
    ensures var known' := if e.Write? then var tx := s.writers[e.w].calls[0]; known[tx.id := tx] else known;
            && Submap(Apply(s, e).store, known')
            && (NoDropIsNewer(known', Apply(s, e).store) <==> Harmless(known, s, e))
  {
    match e
    case Write(w) => WriteIsRightExactlyWhen(known, s, w);
    case Remove(w) => EvictionIsRightExactlyWhen(known, s, w);
    case _ =>
  }

  lemma {:induction false} WrittenStep(before: Contents, states: seq<State>, steps: seq<Step>, n: nat)
    requires Run(states, steps) && n < |steps|
    ensures Written(before, states, steps, n + 1) ==
            if steps[n].Write? then var tx := states[n].writers[steps[n].w].calls[0]; Written(before, states, steps, n)[tx.id := tx]
            else Written(before, states, steps, n)
  {
  }

  /**
   * Over whole runs, with ids and timestamps in any order: the store holds a newest-n window of everything written at
   * every moment if and only if every eviction hits an oldest entry or nothing, and no write falls behind an evicted
   * entry.
   */
  lemma {:induction false} NewestAllAlongExactlyWhen(before: Contents, states: seq<State>, steps: seq<Step>, n: nat)
    requires Run(states, steps) && n <= |steps|
    requires Submap(states[0].store, before) && NoDropIsNewer(before, states[0].store)
    ensures NewestAllAlong(before, states, steps, n) <==>
            forall i | 0 <= i < n :: Harmless(Written(before, states, steps, i), states[i], steps[i])
    ensures NewestAllAlong(before, states, steps, n) ==> Submap(states[n].store, Written(before, states, steps, n))
    decreases n
  {
    if n > 0 {
      hide Submap, NoDropIsNewer, Harmless, Enabled, Apply, Written;
      var m := n - 1;
      NewestAllAlongExactlyWhen(before, states, steps, m);
      WrittenStep(before, states, steps, m);
      if NewestAllAlong(before, states, steps, m) {
        StepIsRightExactlyWhen(Written(before, states, steps, m), states[m], steps[m]);
      }
      assert NewestAllAlong(before, states, steps, n) <==>
             NewestAllAlong(before, states, steps, m) && NoDropIsNewer(Written(before, states, steps, n), states[n].store);
    } else {
      assert Written(before, states, steps, 0) == before;
    }
  }

  lemma {:induction false} StepKeepsRecent(known: Contents, s: State, e: Step)
    requires Recent(known, s) && Enabled(s, e)
    requires e.Write? ==> var tx := s.writers[e.w].calls[0];
                          tx.id !in known && forall k <- known :: known[k].timestamp <= tx.timestamp
    ensures Recent(if e.Write? then var tx := s.writers[e.w].calls[0]; known[tx.id := tx] else known, Apply(s, e))
  {
    var s' := Apply(s, e);
    match e
    case Write(w) =>
      var tx := s.writers[w].calls[0];
      RecentAfterWrite(known, s, tx, s.writers[w]);
      forall x | x in s'.writers ensures VictimIsOldest(known[tx.id := tx], s'.store, x) {
        assert x == s'.writers[w] || x in s.writers;
        RecentAfterWrite(known, s, tx, x);
      }
    case Remove(w) => RecentAfterRemove(known, s, w);
    case _ =>
      forall x | x in s'.writers ensures VictimIsOldest(known, s'.store, x) {
        assert x == s'.writers[e.w] || x in s.writers;
      }
  }

  lemma {:induction false} RecentOverRun(before: Contents, states: seq<State>, steps: seq<Step>, n: nat)
    requires Run(states, steps) && n <= |steps|
    requires InTimeOrder(before, states, steps)
    requires AtRest(states[0]) && Submap(states[0].store, before) && NoDropIsNewer(before, states[0].store)
    ensures Recent(Written(before, states, steps, n), states[n])
    decreases n
  {
    if n > 0 {
      RecentOverRun(before, states, steps, n - 1);
      StepKeepsRecent(Written(before, states, steps, n - 1), states[n - 1], steps[n - 1]);
    }
  }

  /**
   * If transactions arrive in time order then, whatever the schedule, the store settles on a newest-n window of
   * everything ever written, where n is between 201 - N and 200 once the limit has been exceeded.
   */
  lemma {:induction false} SettlesOnNewest(before: Contents, states: seq<State>, steps: seq<Step>)
    requires Run(states, steps) && InTimeOrder(before, states, steps)
    requires NewestOf(before, states[0].store, MAX_TRANSACTIONS)
    requires AtRest(states[0]) && AtRest(states[|steps|])
    ensures exists n: nat :: NewestOf(Written(before, states, steps, |steps|), states[|steps|].store, n)
              && n <= 200
              && (OverLimitSeen(states, steps, |steps|) ==> n >= 201 - |states[0].writers|)
  {
    var known, last := Written(before, states, steps, |steps|), states[|steps|].store;
    RecentOverRun(before, states, steps, |steps|);
    SettledSize(states, steps);
    SubmapSize(last, known);
    assert NewestOf(known, last, |last|);
  }

  // ----- The lower bound is reached

  ghost predicate RunBetween(s: State, t: State, states: seq<State>, steps: seq<Step>) {
    Run(states, steps) && states[0] == s && states[|steps|] == t
  }

  ghost predicate Reaches(s: State, t: State) {
    exists states, steps :: RunBetween(s, t, states, steps)
  }

  lemma {:induction false} ReachesItself(s: State)
    ensures Reaches(s, s)
  {
    assert RunBetween(s, s, [s], []);
  }

  lemma {:induction false} ReachesOneMore(s: State, t: State, e: Step)
    requires Reaches(s, t) && Enabled(t, e)
    ensures Reaches(s, Apply(t, e))
  {
    hide Enabled, Apply;
    var states, steps :| RunBetween(s, t, states, steps);
    assert RunBetween(s, Apply(t, e), states + [Apply(t, e)], steps + [e]);
  }

  /** The first `i` of `n` writers are in phase `p`, the others in phase `q`, and no call is left. */
  ghost function Row(n: nat, i: nat, p: Phase, q: Phase): seq<Writer> {
    seq(n, j => Writer([], if j < i then p else q))
  }

  /** One call per writer; the first `i` have made theirs. */
  ghost function Lineup(txs: seq<Transaction>, i: nat): seq<Writer> {
    seq(|txs|, j requires 0 <= j < |txs| => if j < i then Writer([], Checking) else Writer([txs[j]], Ready))
  }

  ghost function Grown(base: Contents, txs: seq<Transaction>): Contents {
    if txs == [] then base else
      var last := txs[|txs| - 1];
      Grown(base, txs[..|txs| - 1])[last.id := last]
  }

  ghost predicate Fresh(base: Contents, txs: seq<Transaction>) {
    && (forall i | 0 <= i < |txs| :: txs[i].id !in base)
    && (forall i, j | 0 <= i < j < |txs| :: txs[i].id != txs[j].id)
  }

  lemma {:induction false} GrownFresh(base: Contents, txs: seq<Transaction>)
    requires Fresh(base, txs)
    ensures |Grown(base, txs)| == |base| + |txs|
    ensures forall k :: k in Grown(base, txs) <==> k in base || exists i | 0 <= i < |txs| :: txs[i].id == k
  {
    if txs != [] {
      var rest, last := txs[..|txs| - 1], txs[|txs| - 1];
      GrownFresh(base, rest);
      GrownSize(Grown(base, rest), last);
      assert forall i | 0 <= i < |txs| - 1 :: txs[i] == rest[i];
    }
  }

  lemma {:induction false} AllWrite(s: State, base: Contents, txs: seq<Transaction>, i: nat)
    requires s == State(base, Lineup(txs, 0)) && i <= |txs|
    ensures Reaches(s, State(Grown(base, txs[..i]), Lineup(txs, i)))
  {
    if i == 0 {
      ReachesItself(s);
    } else {
      AllWrite(s, base, txs, i - 1);
      var t := State(Grown(base, txs[..i - 1]), Lineup(txs, i - 1));
      ReachesOneMore(s, t, Write(i - 1));
      assert txs[..i][..i - 1] == txs[..i - 1];
      assert [txs[i - 1]][1..] == [];
      assert Apply(t, Write(i - 1)).writers == Lineup(txs, i);
    }
  }

  lemma {:induction false} AllCheck(s: State, store: Contents, n: nat, i: nat, p: Phase)
    requires Reaches(s, State(store, Row(n, 0, p, Checking))) && i <= n
    requires p == if |store| > MAX_TRANSACTIONS then Scanning else Ready
    ensures Reaches(s, State(store, Row(n, i, p, Checking)))
  {
    if i > 0 {
      AllCheck(s, store, n, i - 1, p);
      var t := State(store, Row(n, i - 1, p, Checking));
      ReachesOneMore(s, t, Check(i - 1));
      assert Apply(t, Check(i - 1)).writers == Row(n, i, p, Checking);
    }
  }

  lemma {:induction false} OneEvicts(s: State, store: Contents, n: nat, i: nat, k: string)
    requires Reaches(s, State(store, Row(n, i, Checking, Scanning))) && i < n
    requires IsOldest(k, store)
    ensures Reaches(s, State(store - {k}, Row(n, i + 1, Checking, Scanning)))
  {
    var t := State(store, Row(n, i, Checking, Scanning));
    ReachesOneMore(s, t, Scan(i, Some(k)));
    var u := Apply(t, Scan(i, Some(k)));
    ReachesOneMore(s, u, Remove(i));
    assert Apply(u, Remove(i)).writers == Row(n, i + 1, Checking, Scanning);
  }

  /** What evicting oldest entries one after another has left. */
  ghost predicate OldestGone(full: Contents, left: Contents, gone: nat) {
    Submap(left, full) && NoDropIsNewer(full, left) && |left| + gone == |full|
  }

  lemma {:induction false} OneMoreGone(full: Contents, left: Contents, gone: nat, k: string)
    requires OldestGone(full, left, gone) && IsOldest(k, left)
    ensures OldestGone(full, left - {k}, gone + 1)
  {
    RemoveOne(left, k);
  }

  lemma {:induction false} AllEvict(s: State, store: Contents, n: nat, i: nat) returns (left: Contents)
    requires Reaches(s, State(store, Row(n, 0, Checking, Scanning))) && i <= n <= |store|
    ensures OldestGone(store, left, i)
    ensures Reaches(s, State(left, Row(n, i, Checking, Scanning)))
  {
    left := store;
    if i > 0 {
      var before := AllEvict(s, store, n, i - 1);
      var k := HasOldest(before);
      OneEvicts(s, before, n, i - 1, k);
      OneMoreGone(store, before, i - 1, k);
      left := before - {k};
    }
  }

  /**
   * The lower bound cannot be improved: N writers that together bring the store to 201 distinct entries can all
   * pass the check before any of them evicts, and then leave 201 - N, the N oldest being gone.
   */
  lemma {:induction false} LowerBoundIsReached(base: Contents, txs: seq<Transaction>) returns (t: State)
    requires Fresh(base, txs) && txs != [] && |base| + |txs| == 201
    ensures Reaches(State(base, Lineup(txs, 0)), t) && Done(t) && |t.store| == 201 - |txs|
    ensures OldestGone(Grown(base, txs), t.store, |txs|) && |t.writers| == |txs|
  {
    hide Enabled, Apply, Reaches, Grown, NoDropIsNewer, Submap;
    var s, n, full := State(base, Lineup(txs, 0)), |txs|, Grown(base, txs);
    GrownFresh(base, txs);
    AllWrite(s, base, txs, n);
    assert txs[..n] == txs;
    RowsMeet(txs);
    AllCheck(s, full, n, n, Scanning);
    var left := AllEvict(s, full, n, n);
    AllCheck(s, left, n, n, Ready);
    t := State(left, Row(n, n, Ready, Checking));
  }

  lemma {:induction false} RowsMeet(txs: seq<Transaction>)
    ensures Lineup(txs, |txs|) == Row(|txs|, 0, Scanning, Checking)
    ensures Row(|txs|, |txs|, Scanning, Checking) == Row(|txs|, 0, Checking, Scanning)
    ensures Row(|txs|, |txs|, Checking, Scanning) == Row(|txs|, 0, Ready, Checking)
  {
  }
}
