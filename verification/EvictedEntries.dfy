/**
 * What concurrent trimming can lose. Writers may evict entries that are not the oldest any more, in any order of
 * timestamps; yet with distinct ids whatever is missing from the store is outnumbered by newer entries in it.
 */
module EvictedEntries {
  import opened Transactions
  import opened StableSort
  import opened RecentWindow
  import opened NewerEntries
  import opened ConcurrentStore

  lemma {:induction false} AllNewer(m: Contents, k: string, t: int)
    requires IsOldest(k, m) && m[k].timestamp >= t
    ensures AtLeastAsNew(m, t) == m
  {
  }

  /** The writer is about to remove an entry at least as new as `t`, or tries to. */
  ghost function Threatens(known: Contents, t: int): Writer -> nat {
    (w: Writer) => if w.phase.Removing? && w.phase.victim in known && known[w.phase.victim].timestamp >= t then 1 else 0
  }

  ghost predicate IsVictim(s: State, k: string) {
    exists w :: w in s.writers && w.phase == Removing(k)
  }

  ghost predicate Gone(s: State, k: string) {
    k !in s.store || IsVictim(s, k)
  }

  /** At least 201 - N entries at least as new as `t`, beyond those that are about to be removed. */
  ghost predicate Outnumbered(known: Contents, s: State, t: int) {
    |AtLeastAsNew(s.store, t)| + |s.writers| >= MAX_TRANSACTIONS + 1 + Sum(s.writers, Threatens(known, t))
  }

  ghost predicate GoneAreOutnumbered(known: Contents, s: State) {
    && Submap(s.store, known)
    && (forall w <- s.writers :: w.phase.Removing? ==> w.phase.victim in known)
    && (Lower(s) || (Trimmers(s) == 0 && s.store == known))
    && forall d <- known :: Gone(s, d) ==> Outnumbered(known, s, known[d].timestamp)
  }

  // ----- Every step keeps it

  lemma {:induction false} OneThreat(known: Contents, s: State, e: Step, t: int)
    requires Enabled(s, e)
    ensures var x, y := s.writers[e.w], Apply(s, e).writers[e.w];
            && |Apply(s, e).writers| == |s.writers|
            && Sum(Apply(s, e).writers, Threatens(known, t)) + Threatens(known, t)(x)
               == Sum(s.writers, Threatens(known, t)) + Threatens(known, t)(y)
  {
    var s' := Apply(s, e);
    assert s'.writers == s.writers[e.w := s'.writers[e.w]];
    SumUpdate(s.writers, Threatens(known, t), e.w, s'.writers[e.w]);
  }

  lemma {:induction false} ThreatsAreTrimmers(known: Contents, s: State, t: int)
    ensures Sum(s.writers, Threatens(known, t)) <= Trimmers(s)
  {
    SumKept(s.writers, PastCheck, Threatens(known, t));
  }

  lemma {:induction false} SameThreats(known: Contents, known': Contents, writers: seq<Writer>, t: int)
    requires Submap(known, known')
    requires forall w <- writers :: w.phase.Removing? ==> w.phase.victim in known
    ensures Sum(writers, Threatens(known', t)) == Sum(writers, Threatens(known, t))
  {
    if writers != [] {
      SameThreats(known, known', writers[1..], t);
      assert writers[0] in writers;
    }
  }

  lemma {:induction false} NoNewVictims(s: State, e: Step, d: string)
    requires Enabled(s, e) && IsVictim(Apply(s, e), d)
    ensures IsVictim(s, d) || (e.Scan? && e.oldest == Some(d))
  {
    var s' := Apply(s, e);
    var x :| x in s'.writers && x.phase == Removing(d);
    assert x == s'.writers[e.w] || x in s.writers;
  }

  lemma {:induction false} GoneBeforeWrite(known: Contents, s: State, w: nat, d: string)
    requires GoneAreOutnumbered(known, s) && Enabled(s, Write(w)) && s.writers[w].calls[0].id !in known
    requires Gone(Apply(s, Write(w)), d)
    ensures d != s.writers[w].calls[0].id && Gone(s, d)
  {
    hide Enabled, Lower, Outnumbered;
    WriteFacts(s, w);
    if IsVictim(Apply(s, Write(w)), d) { NoNewVictims(s, Write(w), d); }
  }

  lemma {:induction false} ThreatsAfterWrite(known: Contents, s: State, w: nat, tx: Transaction, t: int)
    requires GoneAreOutnumbered(known, s) && Enabled(s, Write(w)) && tx == s.writers[w].calls[0] && tx.id !in known
    ensures Sum(Apply(s, Write(w)).writers, Threatens(known[tx.id := tx], t)) == Sum(s.writers, Threatens(known, t))
    ensures |Apply(s, Write(w)).writers| == |s.writers|
  {
    hide Lower, Outnumbered, Threatens, Apply, Enabled;
    WriteFacts(s, w);
    OneThreat(known, s, Write(w), t);
    WriterStaysHarmless(known, s, w, t);
    SameThreats(known, known[tx.id := tx], Apply(s, Write(w)).writers, t);
  }

  lemma {:induction false} AfterWrite(known: Contents, s: State, w: nat, tx: Transaction, d: string)
    requires GoneAreOutnumbered(known, s) && Enabled(s, Write(w)) && tx == s.writers[w].calls[0]
    requires tx.id !in known && d in known[tx.id := tx] && Gone(Apply(s, Write(w)), d)
    ensures Outnumbered(known[tx.id := tx], Apply(s, Write(w)), known[tx.id := tx][d].timestamp)
  {
    hide Enabled, Apply, Lower, Threatens, AtLeastAsNew, Gone;
    WriteFacts(s, w);
    GoneBeforeWrite(known, s, w, d);
    assert Outnumbered(known, s, known[d].timestamp);
    ThreatsAfterWrite(known, s, w, tx, known[d].timestamp);
    assert tx.id !in s.store;
    NewerAfterWrite(s.store, tx, known[d].timestamp);
  }

  lemma {:induction false} WriterStaysHarmless(known: Contents, s: State, w: nat, t: int)
    requires Enabled(s, Write(w))
    ensures Threatens(known, t)(s.writers[w]) == 0 == Threatens(known, t)(Apply(s, Write(w)).writers[w])
  {
  }

  lemma {:induction false} WriteFacts(s: State, w: nat)
    requires Enabled(s, Write(w))
    ensures var tx := s.writers[w].calls[0]; Apply(s, Write(w)).store == s.store[tx.id := tx]
    ensures forall x <- Apply(s, Write(w)).writers :: x.phase == Checking || x in s.writers
    ensures s.writers[w] in s.writers
  {
  }

  lemma {:induction false} AfterScan(known: Contents, s: State, e: Step, d: string)
    requires GoneAreOutnumbered(known, s) && Enabled(s, e) && e.Scan?
    requires d in known && Gone(Apply(s, e), d)
    ensures Outnumbered(known, Apply(s, e), known[d].timestamp)
  {
    hide Lower, AtLeastAsNew;
    var s', t := Apply(s, e), known[d].timestamp;
    if IsVictim(Apply(s, e), d) { NoNewVictims(s, e, d); }
    OneThreat(known, s, e, t);
    if e.oldest.Some? && s.store[e.oldest.value].timestamp >= t {
      AllNewer(s.store, e.oldest.value, t);
      ScannerSeesMany(known, s, e);
      ThreatsAreTrimmers(known, s', t);
    } else if e.oldest.Some? {
      assert known[e.oldest.value].timestamp < t;
    }
  }

  lemma {:induction false} ScannerSeesMany(known: Contents, s: State, e: Step)
    requires GoneAreOutnumbered(known, s) && Enabled(s, e) && e.Scan? && e.oldest.Some?
    ensures |s.store| + |s.writers| >= MAX_TRANSACTIONS + 1 + Trimmers(Apply(s, e))
    ensures Apply(s, e).store == s.store && |Apply(s, e).writers| == |s.writers|
  {
    var s' := Apply(s, e);
    StepCounts(s, e);
    OneTrims(s, e.w);
  }

  lemma {:induction false} OneTrims(s: State, w: nat)
    requires w < |s.writers| && PastCheck(s.writers[w]) == 1
    ensures Trimmers(s) > 0
  {
    SumUpdate(s.writers, PastCheck, w, Writer([], Ready));
  }

  lemma {:induction false} AfterRemove(known: Contents, s: State, w: nat, d: string)
    requires GoneAreOutnumbered(known, s) && Enabled(s, Remove(w))
    requires d in known && Gone(Apply(s, Remove(w)), d)
    ensures Outnumbered(known, Apply(s, Remove(w)), known[d].timestamp)
  {
    hide Lower, AtLeastAsNew;
    var victim, t := s.writers[w].phase.victim, known[d].timestamp;
    if IsVictim(Apply(s, Remove(w)), d) { NoNewVictims(s, Remove(w), d); }
    OneThreat(known, s, Remove(w), t);
    assert s.writers[w] in s.writers;
    assert d == victim ==> IsVictim(s, d);
    NewerAfterRemove(s.store, victim, t);
  }

  lemma {:induction false} AfterCheck(known: Contents, s: State, w: nat, d: string)
    requires GoneAreOutnumbered(known, s) && Enabled(s, Check(w))
    requires d in known && Gone(Apply(s, Check(w)), d)
    ensures Outnumbered(known, Apply(s, Check(w)), known[d].timestamp)
  {
    hide Lower, AtLeastAsNew;
    if IsVictim(Apply(s, Check(w)), d) { NoNewVictims(s, Check(w), d); }
    OneThreat(known, s, Check(w), known[d].timestamp);
  }

  /** What is known after a step: a write adds its transaction. */
  ghost function Learnt(known: Contents, s: State, e: Step): Contents
    requires Enabled(s, e)
  {
    if e.Write? then var tx := s.writers[e.w].calls[0]; known[tx.id := tx] else known
  }

  ghost predicate BringsNewId(known: Contents, s: State, e: Step)
    requires Enabled(s, e)
  {
    e.Write? ==> s.writers[e.w].calls[0].id !in known
  }

  lemma {:induction false} StepKeepsGone(known: Contents, s: State, e: Step, d: string)
    requires GoneAreOutnumbered(known, s) && Enabled(s, e) && BringsNewId(known, s, e)
    requires d in Learnt(known, s, e) && Gone(Apply(s, e), d)
    ensures Outnumbered(Learnt(known, s, e), Apply(s, e), Learnt(known, s, e)[d].timestamp)
  {
    hide Outnumbered, GoneAreOutnumbered, Gone;
    match e
    case Write(w) => AfterWrite(known, s, w, s.writers[w].calls[0], d);
    case Check(w) => AfterCheck(known, s, w, d);
    case Scan(_, _) => AfterScan(known, s, e, d);
    case Remove(w) => AfterRemove(known, s, w, d);
  }

  lemma {:induction false} StepKeepsFloor(known: Contents, s: State, e: Step)
    requires GoneAreOutnumbered(known, s) && Enabled(s, e) && BringsNewId(known, s, e)
    ensures var known', s' := Learnt(known, s, e), Apply(s, e);
            Lower(s') || (Trimmers(s') == 0 && s'.store == known')
  {
    hide Lower;
    StepKeepsBounds(s, e);
    if !Lower(s) {
      StepCounts(s, e);
      if PastCheck(s.writers[e.w]) == 1 {
        OneTrims(s, e.w);
      }
    }
  }

  lemma {:induction false} StepKeepsKnown(known: Contents, s: State, e: Step)
    requires GoneAreOutnumbered(known, s) && Enabled(s, e) && BringsNewId(known, s, e)
    ensures Submap(Apply(s, e).store, Learnt(known, s, e))
    ensures forall w <- Apply(s, e).writers :: w.phase.Removing? ==> w.phase.victim in Learnt(known, s, e)
  {
    hide Outnumbered, Lower;
    var s' := Apply(s, e);
    forall x | x in s'.writers && x.phase.Removing? ensures x.phase.victim in Learnt(known, s, e) {
      assert x == s'.writers[e.w] || x in s.writers;
    }
  }

  lemma {:induction false} StepKeepsOutnumbered(known: Contents, s: State, e: Step)
    requires GoneAreOutnumbered(known, s) && Enabled(s, e) && BringsNewId(known, s, e)
    ensures GoneAreOutnumbered(Learnt(known, s, e), Apply(s, e))
  {
    StepKeepsKnown(known, s, e);
    StepKeepsFloor(known, s, e);
    forall d | d in Learnt(known, s, e) && Gone(Apply(s, e), d)
      ensures Outnumbered(Learnt(known, s, e), Apply(s, e), Learnt(known, s, e)[d].timestamp)
    {
      StepKeepsGone(known, s, e, d);
    }
  }

  // ----- Over whole runs

  /** Each write brings an id that is not known yet; timestamps may come in any order. */
  ghost predicate FreshIds(before: Contents, states: seq<State>, steps: seq<Step>)
    requires Run(states, steps)
  {
    forall i | 0 <= i < |steps| :: BringsNewId(Written(before, states, steps, i), states[i], steps[i])
  }

  lemma {:induction false} NothingGoneYet(s: State)
    requires AtRest(s)
    ensures GoneAreOutnumbered(s.store, s)
  {
    SumZero(s.writers, PastCheck);
  }

  lemma {:induction false} OutnumberedOverRun(before: Contents, states: seq<State>, steps: seq<Step>, n: nat)
    requires Run(states, steps) && n <= |steps| && FreshIds(before, states, steps)
    requires AtRest(states[0]) && states[0].store == before
    ensures GoneAreOutnumbered(Written(before, states, steps, n), states[n])
    decreases n
  {
    hide GoneAreOutnumbered, Enabled, Apply;
    if n == 0 {
      NothingGoneYet(states[0]);
    } else {
      OutnumberedOverRun(before, states, steps, n - 1);
      assert BringsNewId(Written(before, states, steps, n - 1), states[n - 1], steps[n - 1]);
      StepKeepsOutnumbered(Written(before, states, steps, n - 1), states[n - 1], steps[n - 1]);
    }
  }

  /**
   * In every reachable state of every schedule, with distinct ids but timestamps in any order, a transaction that was
   * written is in the store, or the store has at least 201 - N entries at least as new; 200 for a single writer.
   */
  lemma {:induction false} MissingAreOutnumbered(before: Contents, states: seq<State>, steps: seq<Step>, n: nat, d: string)
    requires Run(states, steps) && n <= |steps| && FreshIds(before, states, steps)
    requires AtRest(states[0]) && states[0].store == before
    requires d in Written(before, states, steps, n)
    ensures var known, s := Written(before, states, steps, n), states[n];
            if d in s.store then s.store[d] == known[d]
            else |set k | k in s.store && s.store[k].timestamp >= known[d].timestamp| >= 201 - |s.writers|
  {
    OutnumberedOverRun(before, states, steps, n);
    NewerKeys(states[n].store, Written(before, states, steps, n)[d].timestamp);
  }

  lemma {:induction false} KnownAreOutnumbered(known: Contents, s: State)
    requires GoneAreOutnumbered(known, s)
    ensures Outnumbers(known, s.store, MAX_TRANSACTIONS + 1 - |s.writers|)
  {
    forall d | d in known && d !in s.store
      ensures |AtLeastAsNew(s.store, known[d].timestamp)| >= MAX_TRANSACTIONS + 1 - |s.writers|
    {
      assert Outnumbered(known, s, known[d].timestamp);
    }
  }

  /**
   * So in every reachable state, even in the middle of a trim, the latest n of the store have the timestamps of the
   * latest n of everything written, for n up to 201 - N: up to 200 for a single writer.
   */
  lemma {:induction false} LatestUnderConcurrency(before: Contents, states: seq<State>, steps: seq<Step>, i: nat,
                               n: nat, r: seq<Transaction>, reference: seq<Transaction>)
    requires Run(states, steps) && i <= |steps| && FreshIds(before, states, steps)
    requires AtRest(states[0]) && states[0].store == before
    requires n <= 201 - |states[i].writers|
    requires IsLatest(r, states[i].store, n) && IsLatest(reference, Written(before, states, steps, i), n)
    ensures Timestamps(r) == Timestamps(reference)
  {
    hide IsLatest, GoneAreOutnumbered;
    OutnumberedOverRun(before, states, steps, i);
    KnownAreOutnumbered(Written(before, states, steps, i), states[i]);
    LatestOfOutnumbering(Written(before, states, steps, i), states[i].store, n, r, reference);
  }
}
