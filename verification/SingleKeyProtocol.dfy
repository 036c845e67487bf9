/**
 * One transaction's own cache key under concurrency. Two kinds of callers set it: a `ProcessAsync` after it has put
 * its version into the store, and a `GetByIdAsync` that missed and has read the store. Neither step is tied to the
 * other by a lock, the key has no time to live, and nothing ever invalidates it.
 */
module SingleKeyProtocol {
  import opened Transactions

  /** A version on its way from the store to the key: put there in step `source`, picked up in step `takenAt`. */
  datatype Carrier = Carrier(tx: Transaction, source: nat, takenAt: nat)

  datatype Entry = Entry(carrier: Carrier, setAt: nat)

  /** `last` is the step that put the last version into the store; `stored` is that version until it is evicted. */
  datatype State = State(stored: Option<Transaction>, last: Option<nat>,
                         puts: map<nat, Carrier>, fills: map<nat, Carrier>, slot: Option<Entry>)

  datatype Step =
    | Put(w: nat, tx: Transaction)     // ProcessAsync w persists its version
    | Refresh(w: nat, landed: bool)    // ProcessAsync w sets the key
    | ReadStore(r: nat)                // GetByIdAsync r missed and finds the version in the store
    | Fill(r: nat, landed: bool)       // GetByIdAsync r sets the key
    | Evict                            // the store drops the entry
    | Lose                             // Redis evicts the key or restarts
    | Hit                              // any read that is answered from the key, or passes by

  ghost predicate Enabled(s: State, e: Step) {
    match e
    case Put(w, _) => w !in s.puts
    case Refresh(w, _) => w in s.puts
    case ReadStore(_) => s.stored.Some? && s.last.Some?
    case Fill(r, _) => r in s.fills
    case _ => true
  }

  ghost predicate Sets(e: Step) {
    (e.Refresh? || e.Fill?) && e.landed
  }

  /** What the caller who is about to set the key has picked up. */
  ghost function Carried(s: State, e: Step): Carrier
    requires Enabled(s, e) && Sets(e)
  {
    if e.Refresh? then s.puts[e.w] else s.fills[e.r]
  }

  ghost function Apply(s: State, e: Step, n: nat): State
    requires Enabled(s, e)
  {
    var slot := if Sets(e) then Some(Entry(Carried(s, e), n)) else if e.Lose? then None else s.slot;
    match e
    case Put(w, tx) => s.(stored := Some(tx), last := Some(n), puts := s.puts[w := Carrier(tx, n, n)])
    case Refresh(w, _) => s.(puts := s.puts - {w}, slot := slot)
    case ReadStore(r) => s.(fills := s.fills[r := Carrier(s.stored.value, s.last.value, n)])
    case Fill(r, _) => s.(fills := s.fills - {r}, slot := slot)
    case Evict => s.(stored := None)
    case Lose => s.(slot := slot)
    case Hit => s
  }

  ghost predicate Run(states: seq<State>, steps: seq<Step>) {
    && |states| == |steps| + 1
    && states[0] == State(None, None, map[], map[], None)
    && forall i | 0 <= i < |steps| :: Enabled(states[i], steps[i]) && states[i + 1] == Apply(states[i], steps[i], i)
  }

  ghost predicate Replaces(e: Step) {
    Sets(e) || e.Lose?
  }

  ghost predicate Puts(e: Step, tx: Transaction) {
    e.Put? && e.tx == tx
  }

  ghost predicate PutBetween(steps: seq<Step>, from: nat, to: nat) {
    exists p | from < p < to && p < |steps| :: steps[p].Put?
  }

  // ----- Where versions come from

  /** The last put is the last put. */
  ghost predicate LastIsLast(steps: seq<Step>, s: State, n: nat)
    requires n <= |steps|
  {
    && (s.last.None? ==> s.stored.None? && forall p | 0 <= p < n :: !steps[p].Put?)
    && (s.last.Some? ==> s.last.value < n && steps[s.last.value].Put? && !PutBetween(steps, s.last.value, n))
    && (s.stored.Some? ==> s.last.Some? && Puts(steps[s.last.value], s.stored.value))
  }

  lemma {:induction false} LastStaysLast(states: seq<State>, steps: seq<Step>, n: nat)
    requires Run(states, steps) && n <= |steps|
    ensures LastIsLast(steps, states[n], n)
    decreases n
  {
    if n > 0 {
      LastStaysLast(states, steps, n - 1);
      assert Enabled(states[n - 1], steps[n - 1]) && states[n] == Apply(states[n - 1], steps[n - 1], n - 1);
    }
  }

  /** What is carried is the version put in step `source`, which was the last one when it was picked up. */
  ghost predicate Genuine(steps: seq<Step>, c: Carrier, n: nat) {
    && c.source <= c.takenAt < n <= |steps|
    && Puts(steps[c.source], c.tx)
    && !PutBetween(steps, c.source, c.takenAt)
    && (c.source < c.takenAt ==> !steps[c.takenAt].Put?)
  }

  ghost predicate CarriersGenuine(steps: seq<Step>, s: State, n: nat) {
    && (forall w <- s.puts :: Genuine(steps, s.puts[w], n))
    && (forall r <- s.fills :: Genuine(steps, s.fills[r], n))
  }

  lemma {:induction false} CarriersStayGenuine(states: seq<State>, steps: seq<Step>, n: nat)
    requires Run(states, steps) && n <= |steps|
    ensures CarriersGenuine(steps, states[n], n)
    decreases n
  {
    if n > 0 {
      CarriersStayGenuine(states, steps, n - 1);
      LastStaysLast(states, steps, n - 1);
      assert Enabled(states[n - 1], steps[n - 1]) && states[n] == Apply(states[n - 1], steps[n - 1], n - 1);
    }
  }

  /** The entry is what one caller carried when his operation landed, and nothing has touched the key since. */
  ghost predicate EntryGenuine(states: seq<State>, steps: seq<Step>, e: Entry, n: nat) {
    && e.setAt < n <= |steps| < |states|
    && Sets(steps[e.setAt]) && Enabled(states[e.setAt], steps[e.setAt])
    && e.carrier == Carried(states[e.setAt], steps[e.setAt])
    && forall i | e.setAt < i < n :: !Replaces(steps[i])
  }

  lemma {:induction false} EntryStaysGenuine(states: seq<State>, steps: seq<Step>, n: nat)
    requires Run(states, steps) && n <= |steps|
    ensures states[n].slot.Some? ==> EntryGenuine(states, steps, states[n].slot.value, n)
    decreases n
  {
    if n > 0 {
      EntryStaysGenuine(states, steps, n - 1);
      assert Enabled(states[n - 1], steps[n - 1]) && states[n] == Apply(states[n - 1], steps[n - 1], n - 1);
    }
  }

  lemma {:induction false} EntryIsGenuine(states: seq<State>, steps: seq<Step>, n: nat)
    requires Run(states, steps) && n <= |steps| && states[n].slot.Some?
    ensures var e := states[n].slot.value;
            EntryGenuine(states, steps, e, n) && Genuine(steps, e.carrier, e.setAt)
  {
    EntryStaysGenuine(states, steps, n);
    CarriersStayGenuine(states, steps, states[n].slot.value.setAt);
  }

  // ----- When the key is current

  /** The key holds the version that was put last, which it is even after the store has evicted it. */
  ghost predicate Current(s: State) {
    s.slot.Some? && s.last == Some(s.slot.value.carrier.source)
  }

  /** The last put of all, and it came after the one who set the key had picked his version up. */
  ghost predicate PutSince(steps: seq<Step>, takenAt: nat, p: nat, n: nat) {
    takenAt < p < n <= |steps| && steps[p].Put? && !PutBetween(steps, p, n)
  }

  /**
   * When the key is current, exactly: over every run, dropped operations, evictions and losses included, it holds the
   * version put last if and only if no version was put after the one who set it had picked his up. As a value it is
   * right just if any such last put, a retry say, put an equal transaction.
   */
  lemma {:induction false} CurrentExactlyWhen(states: seq<State>, steps: seq<Step>, n: nat)
    requires Run(states, steps) && n <= |steps| && states[n].slot.Some?
    ensures var e := states[n].slot.value;
            && e.carrier.source <= e.carrier.takenAt < e.setAt < n
            && Puts(steps[e.carrier.source], e.carrier.tx)
            && (Current(states[n]) <==> !PutBetween(steps, e.carrier.takenAt, n))
            && states[n].last.Some? && states[n].last.value < n && steps[states[n].last.value].Put?
            && (e.carrier.tx == steps[states[n].last.value].tx <==>
                forall p: nat | PutSince(steps, e.carrier.takenAt, p, n) :: steps[p].tx == e.carrier.tx)
  {
    EntryIsGenuine(states, steps, n);
    LastStaysLast(states, steps, n);
    ValueOfLast(states, steps, n);
  }

  lemma {:induction false} LastPutIsUnique(steps: seq<Step>, p: nat, q: nat, n: nat)
    requires p < n <= |steps| && steps[p].Put? && !PutBetween(steps, p, n)
    requires q < n && steps[q].Put? && !PutBetween(steps, q, n)
    ensures p == q
  {
    assert p < q ==> PutBetween(steps, p, n);
    assert q < p ==> PutBetween(steps, q, n);
  }

  lemma {:induction false} ValueOfLast(states: seq<State>, steps: seq<Step>, n: nat)
    requires Run(states, steps) && n <= |steps| && states[n].slot.Some?
    requires EntryGenuine(states, steps, states[n].slot.value, n)
    requires Genuine(steps, states[n].slot.value.carrier, states[n].slot.value.setAt)
    requires LastIsLast(steps, states[n], n)
    requires Current(states[n]) <==> !PutBetween(steps, states[n].slot.value.carrier.takenAt, n)
    ensures var c := states[n].slot.value.carrier;
            && states[n].last.Some?
            && (c.tx == steps[states[n].last.value].tx <==>
                forall p: nat | PutSince(steps, c.takenAt, p, n) :: steps[p].tx == c.tx)
  {
    var c, last := states[n].slot.value.carrier, states[n].last;
    assert steps[c.source].Put? && c.source < n;
    if PutBetween(steps, c.takenAt, n) {
      var q :| c.takenAt < q < n && steps[q].Put?;
      assert last.value < q ==> PutBetween(steps, last.value, n);
      assert PutSince(steps, c.takenAt, last.value, n);
      forall p: nat | PutSince(steps, c.takenAt, p, n) ensures p == last.value {
        LastPutIsUnique(steps, p, last.value, n);
      }
    }
  }

  /** The put of step `p` is still to be followed by its own refresh of the key. */
  ghost predicate Unrefreshed(s: State, w: nat, p: nat) {
    w in s.puts && s.puts[w].takenAt == p
  }

  ghost predicate RefreshedBetween(states: seq<State>, steps: seq<Step>, w: nat, p: nat, to: nat) {
    exists q | p < q < to && q < |steps| && q < |states| :: steps[q].Refresh? && steps[q].w == w && Unrefreshed(states[q], w, p)
  }

  lemma {:induction false} PutsSettle(states: seq<State>, steps: seq<Step>, p: nat, n: nat)
    requires Run(states, steps) && p < n <= |steps| && steps[p].Put?
    ensures Unrefreshed(states[n], steps[p].w, p) || RefreshedBetween(states, steps, steps[p].w, p, n)
    decreases n
  {
    var l, w := n - 1, steps[p].w;
    assert Enabled(states[l], steps[l]) && states[l + 1] == Apply(states[l], steps[l], l);
    if p < l {
      PutsSettle(states, steps, p, l);
      if RefreshedBetween(states, steps, w, p, l) {
        var q :| p < q < l && steps[q].Refresh? && steps[q].w == w && Unrefreshed(states[q], w, p);
        assert RefreshedBetween(states, steps, w, p, n);
      } else if steps[l].Refresh? && steps[l].w == w {
        assert RefreshedBetween(states, steps, w, p, n);
      }
    }
  }

  /**
   * The cause. When every refresh lands and the key is not current, the last put has its own refresh still to come,
   * or was refreshed before the caller who set the key landed, who had picked up his version before that put.
   */
  lemma {:induction false} StaleKeyHasACause(states: seq<State>, steps: seq<Step>, n: nat)
    requires Run(states, steps) && n <= |steps| && states[n].slot.Some? && !Current(states[n])
    requires forall e <- steps :: e.Refresh? ==> e.landed
    ensures var e, last := states[n].slot.value, states[n].last;
            && last.Some? && e.carrier.takenAt < last.value < n && steps[last.value].Put?
            && (|| Unrefreshed(states[n], steps[last.value].w, last.value)
                || RefreshedBetween(states, steps, steps[last.value].w, last.value, e.setAt))
  {
    var e, last := states[n].slot.value, states[n].last;
    EntryIsGenuine(states, steps, n);
    CurrentExactlyWhen(states, steps, n);
    LastStaysLast(states, steps, n);
    var p :| e.carrier.takenAt < p < n && steps[p].Put?;
    assert last.value < p ==> PutBetween(steps, last.value, n);
    PutsSettle(states, steps, last.value, n);
    if !Unrefreshed(states[n], steps[last.value].w, last.value) {
      OvertakenByEntry(states, steps, n, last.value);
    }
  }

  lemma {:induction false} OvertakenByEntry(states: seq<State>, steps: seq<Step>, n: nat, p: nat)
    requires Run(states, steps) && n <= |steps| && states[n].slot.Some?
    requires EntryGenuine(states, steps, states[n].slot.value, n) && states[n].slot.value.carrier.takenAt < p
    requires forall e <- steps :: e.Refresh? ==> e.landed
    requires p < n && steps[p].Put? && RefreshedBetween(states, steps, steps[p].w, p, n)
    ensures RefreshedBetween(states, steps, steps[p].w, p, states[n].slot.value.setAt)
  {
    var w, setAt := steps[p].w, states[n].slot.value.setAt;
    var q :| p < q < n && steps[q].Refresh? && steps[q].w == w && Unrefreshed(states[q], w, p);
    assert steps[q] in steps && Replaces(steps[q]);
    assert q != setAt;
    assert q < setAt;
  }

  /** Nothing but another set or a loss of the key ends it: without a time to live an old version stays for good. */
  lemma {:induction false} EntryStays(states: seq<State>, steps: seq<Step>, m: nat, n: nat)
    requires Run(states, steps) && m <= n <= |steps|
    requires forall i | m <= i < n :: !Replaces(steps[i])
    ensures states[n].slot == states[m].slot
    decreases n
  {
    if m < n {
      EntryStays(states, steps, m, n - 1);
      assert Enabled(states[n - 1], steps[n - 1]) && states[n] == Apply(states[n - 1], steps[n - 1], n - 1);
    }
  }

  // ----- Both ways to an old version are real

  /** Nothing is under way, the store holds one version, and the key serves another. */
  ghost predicate QuietlyStale(s: State, stored: Transaction, served: Transaction) {
    && s.puts == map[] && s.fills == map[] && s.stored == Some(stored)
    && s.slot.Some? && s.slot.value.carrier.tx == served
    && served.id == stored.id && served != stored && !Current(s)
  }

  /** Two writes of one id: the first to put is the last to set the key. */
  lemma {:induction false} OvertakenRefreshIsStale(first: Transaction, second: Transaction)
    requires first.id == second.id && first != second
    ensures exists states: seq<State>, steps: seq<Step> ::
              && Run(states, steps) && QuietlyStale(states[|steps|], second, first)
              && forall e <- steps :: e.Refresh? ==> e.landed
  {
    var a, b := Carrier(first, 0, 0), Carrier(second, 1, 1);
    var steps := [Put(1, first), Put(2, second), Refresh(2, true), Refresh(1, true)];
    var states := [
      State(None, None, map[], map[], None),
      State(Some(first), Some(0), map[1 := a], map[], None),
      State(Some(second), Some(1), map[1 := a, 2 := b], map[], None),
      State(Some(second), Some(1), map[1 := a], map[], Some(Entry(b, 2))),
      State(Some(second), Some(1), map[], map[], Some(Entry(a, 3)))];
    assert states[1] == Apply(states[0], steps[0], 0);
    assert states[2] == Apply(states[1], steps[1], 1);
    assert states[3] == Apply(states[2], steps[2], 2);
    assert states[4] == Apply(states[3], steps[3], 3);
    assert Run(states, steps);
  }

  /** A read by id that misses, and sets the key only after a whole write has gone by. */
  lemma {:induction false} StraddlingFillIsStale(first: Transaction, second: Transaction)
    requires first.id == second.id && first != second
    ensures exists states: seq<State>, steps: seq<Step> ::
              && Run(states, steps) && QuietlyStale(states[|steps|], second, first)
              && forall e <- steps :: e.Refresh? ==> e.landed
  {
    var a, b, c := Carrier(first, 0, 0), Carrier(second, 3, 3), Carrier(first, 0, 1);
    var steps := [Put(1, first), ReadStore(3), Refresh(1, true), Put(2, second), Refresh(2, true), Fill(3, true)];
    var states := [
      State(None, None, map[], map[], None),
      State(Some(first), Some(0), map[1 := a], map[], None),
      State(Some(first), Some(0), map[1 := a], map[3 := c], None),
      State(Some(first), Some(0), map[], map[3 := c], Some(Entry(a, 2))),
      State(Some(second), Some(3), map[2 := b], map[3 := c], Some(Entry(a, 2))),
      State(Some(second), Some(3), map[], map[3 := c], Some(Entry(b, 4))),
      State(Some(second), Some(3), map[], map[], Some(Entry(c, 5)))];
    StepsOfStraddle(states, steps, a, b, c);
    assert Run(states, steps);
  }

  lemma {:induction false} StepsOfStraddle(states: seq<State>, steps: seq<Step>, a: Carrier, b: Carrier, c: Carrier)
    requires a.source == a.takenAt == 0 && b.source == b.takenAt == 3 && c == Carrier(a.tx, 0, 1)
    requires steps == [Put(1, a.tx), ReadStore(3), Refresh(1, true), Put(2, b.tx), Refresh(2, true), Fill(3, true)]
    requires states == [
      State(None, None, map[], map[], None),
      State(Some(a.tx), Some(0), map[1 := a], map[], None),
      State(Some(a.tx), Some(0), map[1 := a], map[3 := c], None),
      State(Some(a.tx), Some(0), map[], map[3 := c], Some(Entry(a, 2))),
      State(Some(b.tx), Some(3), map[2 := b], map[3 := c], Some(Entry(a, 2))),
      State(Some(b.tx), Some(3), map[], map[3 := c], Some(Entry(b, 4))),
      State(Some(b.tx), Some(3), map[], map[], Some(Entry(c, 5)))]
    ensures forall i | 0 <= i < 6 :: Enabled(states[i], steps[i]) && states[i + 1] == Apply(states[i], steps[i], i)
  {
    assert Apply(states[0], steps[0], 0) == states[1];
    assert Apply(states[1], steps[1], 1) == states[2];
    assert Apply(states[2], steps[2], 2) == states[3];
    assert Apply(states[3], steps[3], 3) == states[4];
    assert Apply(states[4], steps[4], 4) == states[5];
    assert Apply(states[5], steps[5], 5) == states[6];
  }
}
