/** The in-memory cache provider under concurrent callers: a read is up to three atomic steps. */
module ConcurrentCacheProvider {
  import opened Transactions
  import opened CacheProvider

  datatype Reader =
    | Holding(key: string, entry: CacheEntry, at: nat)             // TryGetValue succeeded; expiry not looked at
    | Cleaning(key: string, entry: CacheEntry, at: nat, checked: int) // found expired; about to TryRemove
    | Answered(key: string, at: nat, checked: int, answer: Option<string>)

  /** `log` lists the writes and removals as they took effect; a reader's `at` is the length it had at his lookup. */
  datatype State = State(items: Items, now: int, readers: map<nat, Reader>, log: seq<Op>)

  datatype Step =
    | Tick(later: int)
    | Write(key: string, value: string, expiry: Option<int>, stamped: int)
    | Erase(key: string)
    | TryGet(r: nat, key: string)
    | CheckExpiry(r: nat)
    | TryRemove(r: nat)

  ghost predicate Enabled(s: State, e: Step) {
    match e
    case Tick(later) => s.now <= later
    case Write(_, _, _, stamped) => stamped <= s.now
    case Erase(_) => true
    case TryGet(r, _) => true
    case CheckExpiry(r) => r in s.readers && s.readers[r].Holding?
    case TryRemove(r) => r in s.readers && s.readers[r].Cleaning?
  }

  ghost function Apply(s: State, e: Step): State
    requires Enabled(s, e)
  {
    match e
    case Tick(later) => s.(now := later)
    case Write(key, value, expiry, stamped) =>
      var op := Set(key, value, expiry, stamped);
      s.(items := s.items[key := Stamped(op)], log := s.log + [op])
    case Erase(key) =>
      s.(items := s.items - {key}, log := s.log + [Delete(key)])
    case TryGet(r, key) =>
      s.(readers := s.readers[r :=
        if key in s.items then Holding(key, s.items[key], |s.log|) else Answered(key, |s.log|, s.now, None)])
    case CheckExpiry(r) =>
      var h := s.readers[r];
      s.(readers := s.readers[r :=
        if IsExpired(h.entry, s.now) then Cleaning(h.key, h.entry, h.at, s.now)
        else Answered(h.key, h.at, s.now, Some(h.entry.value))])
    case TryRemove(r) =>
      var c := s.readers[r];
      s.(items := s.items - {c.key},
         readers := s.readers[r := Answered(c.key, c.at, c.checked, None)])
  }

  ghost predicate Run(states: seq<State>, steps: seq<Step>) {
    && |states| == |steps| + 1
    && (exists now :: states[0] == State(map[], now, map[], []))
    && forall i | 0 <= i < |steps| :: Enabled(states[i], steps[i]) && states[i + 1] == Apply(states[i], steps[i])
  }

  // ----- Writes and removals of a key

  ghost predicate Touches(e: Step, key: string) {
    (e.Write? || e.Erase?) && e.key == key
  }

  ghost predicate UntouchedBetween(steps: seq<Step>, key: string, from: nat, to: nat) {
    forall i | from < i < to && i < |steps| :: !Touches(steps[i], key)
  }

  lemma {:induction false} StepFacts(states: seq<State>, steps: seq<Step>, n: nat)
    requires Run(states, steps) && n < |steps|
    ensures Enabled(states[n], steps[n]) && states[n + 1] == Apply(states[n], steps[n])
    ensures states[n].now <= states[n + 1].now
    ensures |states[n].log| <= |states[n + 1].log| && states[n + 1].log[..|states[n].log|] == states[n].log
  {
  }

  lemma {:induction false} LaterStates(states: seq<State>, steps: seq<Step>, m: nat, n: nat)
    requires Run(states, steps) && m <= n <= |steps|
    ensures states[m].now <= states[n].now
    ensures |states[m].log| <= |states[n].log| && states[n].log[..|states[m].log|] == states[m].log
    decreases n
  {
    if m < n {
      hide Enabled, Apply;
      LaterStates(states, steps, m, n - 1);
      StepFacts(states, steps, n - 1);
      var k := |states[m].log|;
      assert states[n].log[..|states[n - 1].log|][..k] == states[n].log[..k];
    }
  }

  lemma {:induction false} StepOfLatest(states: seq<State>, steps: seq<Step>, n: nat, key: string)
    requires Run(states, steps) && n < |steps|
    ensures !Touches(steps[n], key) ==> LatestWrite(states[n + 1].log, key) == LatestWrite(states[n].log, key)
    ensures Touches(steps[n], key) ==> (LatestWrite(states[n + 1].log, key).Some? <==> steps[n].Write?)
  {
    assert Enabled(states[n], steps[n]) && states[n + 1] == Apply(states[n], steps[n]);
    if steps[n].Write? || steps[n].Erase? {
      assert states[n + 1].log[..|states[n + 1].log| - 1] == states[n].log;
    }
  }

  /** A key that is not touched keeps its latest write. */
  lemma {:induction false} LatestStays(states: seq<State>, steps: seq<Step>, key: string, m: nat, n: nat)
    requires Run(states, steps) && m <= n <= |steps|
    requires forall i | m <= i < n :: !Touches(steps[i], key)
    ensures LatestWrite(states[n].log, key) == LatestWrite(states[m].log, key)
    decreases n
  {
    if m < n {
      LatestStays(states, steps, key, m, n - 1);
      StepOfLatest(states, steps, n - 1, key);
    }
  }

  lemma {:induction false} LastTouch(states: seq<State>, steps: seq<Step>, key: string, m: nat, n: nat) returns (j: nat)
    requires Run(states, steps) && m <= n <= |steps|
    requires exists i :: m <= i < n && Touches(steps[i], key)
    ensures m <= j < n && Touches(steps[j], key) && UntouchedBetween(steps, key, j, n)
    decreases n
  {
    if Touches(steps[n - 1], key) {
      j := n - 1;
    } else {
      j := LastTouch(states, steps, key, m, n - 1);
    }
  }

  // ----- What is in the dictionary

  ghost predicate Removes(s: State, e: Step, key: string) {
    e.TryRemove? && Enabled(s, e) && s.readers[e.r].key == key
  }

  /** Some reader's clean-up has gone through since the key was last written or removed. */
  ghost predicate CleanedUp(states: seq<State>, steps: seq<Step>, n: nat, key: string)
    requires n <= |steps| < |states|
  {
    exists i | 0 <= i < n :: Removes(states[i], steps[i], key) && UntouchedBetween(steps, key, i, n)
  }

  lemma {:induction false} CleanedUpStep(states: seq<State>, steps: seq<Step>, n: nat, key: string)
    requires n < |steps| < |states|
    ensures CleanedUp(states, steps, n + 1, key) <==>
            !Touches(steps[n], key) && (CleanedUp(states, steps, n, key) || Removes(states[n], steps[n], key))
  {
    if CleanedUp(states, steps, n + 1, key) {
      var i :| 0 <= i < n + 1 && Removes(states[i], steps[i], key) && UntouchedBetween(steps, key, i, n + 1);
      assert i < n ==> UntouchedBetween(steps, key, i, n);
    }
    if CleanedUp(states, steps, n, key) && !Touches(steps[n], key) {
      var i :| 0 <= i < n && Removes(states[i], steps[i], key) && UntouchedBetween(steps, key, i, n);
      assert UntouchedBetween(steps, key, i, n + 1);
    }
    if Removes(states[n], steps[n], key) {
      assert UntouchedBetween(steps, key, n, n + 1);
    }
  }

  lemma {:induction false} StepOfItems(s: State, e: Step, key: string)
    requires Enabled(s, e) && (key in s.items ==> LatestWrite(s.log, key) == Some(s.items[key]))
    ensures var s' := Apply(s, e);
            && (key in s'.items <==> (if Touches(e, key) then e.Write? else key in s.items && !Removes(s, e, key)))
            && (key in s'.items ==> LatestWrite(s'.log, key) == Some(s'.items[key]))
  {
    var s' := Apply(s, e);
    if e.Write? || e.Erase? {
      assert s'.log[..|s.log|] == s.log;
    }
  }

  /** In every run: a key is there exactly from its latest write until a clean-up of that key, whomever it was meant for. */
  lemma {:induction false} ItemsAreExactly(states: seq<State>, steps: seq<Step>, n: nat, key: string)
    requires Run(states, steps) && n <= |steps|
    ensures key in states[n].items <==>
            LatestWrite(states[n].log, key).Some? && !CleanedUp(states, steps, n, key)
    ensures key in states[n].items ==> LatestWrite(states[n].log, key) == Some(states[n].items[key])
    decreases n
  {
    if n > 0 {
      hide Apply, LatestWrite, CleanedUp;
      var m := n - 1;
      ItemsAreExactly(states, steps, m, key);
      StepFacts(states, steps, m);
      StepOfItems(states[m], steps[m], key);
      StepOfLatest(states, steps, m, key);
      CleanedUpStep(states, steps, m, key);
    }
  }

  // ----- What a reader knows

  /** Step `i` is the lookup behind what reader `r` holds before step `n`. */
  ghost predicate LooksUp(states: seq<State>, steps: seq<Step>, r: nat, key: string, i: nat, n: nat)
    requires n <= |steps| < |states|
  {
    && i < n && steps[i] == TryGet(r, key)
    && forall k | i < k < n :: !(steps[k].TryGet? && steps[k].r == r)
  }

  ghost predicate ReaderFrom(reader: Reader, looked: State, now: int) {
    && reader.at == |looked.log|
    && (reader.Holding? ==> reader.key in looked.items && reader.entry == looked.items[reader.key])
    && (reader.Cleaning? ==>
          && reader.key in looked.items && reader.entry == looked.items[reader.key]
          && looked.now <= reader.checked <= now && IsExpired(reader.entry, reader.checked))
    && (reader.Answered? ==>
          && looked.now <= reader.checked <= now
          && reader.answer == (if reader.key in looked.items && !IsExpired(looked.items[reader.key], reader.checked)
                               then Some(looked.items[reader.key].value) else None))
  }

  lemma {:induction false} StepOfReader(s: State, e: Step, r: nat, looked: State)
    requires Enabled(s, e) && r in s.readers && ReaderFrom(s.readers[r], looked, s.now)
    requires looked.now <= s.now && !(e.TryGet? && e.r == r)
    ensures r in Apply(s, e).readers && Apply(s, e).readers[r].key == s.readers[r].key
    ensures ReaderFrom(Apply(s, e).readers[r], looked, Apply(s, e).now)
  {
  }

  lemma {:induction false} LookupIsKnown(states: seq<State>, steps: seq<Step>, n: nat, r: nat) returns (i: nat)
    requires Run(states, steps) && n <= |steps| && r in states[n].readers
    ensures LooksUp(states, steps, r, states[n].readers[r].key, i, n)
    ensures ReaderFrom(states[n].readers[r], states[i], states[n].now)
    decreases n
  {
    var m := n - 1;
    StepFacts(states, steps, m);
    if steps[m].TryGet? && steps[m].r == r {
      i := m;
    } else {
      assert r in states[m].readers;
      i := LookupIsKnown(states, steps, m, r);
      LaterStates(states, steps, i, m);
      hide Enabled, Apply, ReaderFrom;
      StepOfReader(states[m], steps[m], r, states[i]);
    }
  }

  // ----- Reads

  /**
   * Whatever the interleaving, a value that a read returns is the one last written to its key when it looked, and
   * that write had not expired when it checked.
   */
  lemma {:induction false} ReadsAreFresh(states: seq<State>, steps: seq<Step>, n: nat, r: nat)
    requires Run(states, steps) && n <= |steps|
    requires r in states[n].readers && states[n].readers[r].Answered? && states[n].readers[r].answer.Some?
    ensures var a := states[n].readers[r];
            && a.at <= |states[n].log|
            && Shown(states[n].log[..a.at], a.key, a.checked) == a.answer
  {
    var i := LookupIsKnown(states, steps, n, r);
    ItemsAreExactly(states, steps, i, states[n].readers[r].key);
    LaterStates(states, steps, i, n);
  }

  /**
   * A clean-up that came too late for the entry it was meant for: a reader looked the key up, then came its latest
   * write or removal, and only then that reader's `TryRemove`.
   */
  ghost predicate RacedAway(states: seq<State>, steps: seq<Step>, n: nat, key: string)
    requires n <= |steps| < |states|
  {
    exists look: nat, touch: nat, remove: nat ::
      && look < touch < remove < n
      && Removes(states[remove], steps[remove], key)
      && LooksUp(states, steps, steps[remove].r, key, look, remove)
      && Touches(steps[touch], key) && UntouchedBetween(steps, key, touch, n)
  }

  lemma {:induction false} RacedIsCleanedUp(states: seq<State>, steps: seq<Step>, n: nat, key: string)
    requires Run(states, steps) && n <= |steps| && RacedAway(states, steps, n, key)
    ensures CleanedUp(states, steps, n, key)
  {
    var look: nat, touch: nat, remove: nat :|
      && look < touch < remove < n
      && Removes(states[remove], steps[remove], key)
      && LooksUp(states, steps, steps[remove].r, key, look, remove)
      && Touches(steps[touch], key) && UntouchedBetween(steps, key, touch, n);
    assert UntouchedBetween(steps, key, remove, n);
  }

  lemma {:induction false} LiveCleanUpRaced(states: seq<State>, steps: seq<Step>, n: nat, key: string)
    requires Run(states, steps) && n <= |steps| && CleanedUp(states, steps, n, key)
    requires Shown(states[n].log, key, states[n].now).Some?
    ensures RacedAway(states, steps, n, key)
  {
    hide Apply, LatestWrite;
    var remove :| 0 <= remove < n && Removes(states[remove], steps[remove], key) && UntouchedBetween(steps, key, remove, n);
    var r := steps[remove].r;
    var look := LookupIsKnown(states, steps, remove, r);
    ItemsAreExactly(states, steps, look, key);
    LaterStates(states, steps, remove, n);
    if forall i | look <= i < n :: !Touches(steps[i], key) {
      LatestStays(states, steps, key, look, n);
      assert false;
    }
    var touch := LastTouch(states, steps, key, look, n);
    assert touch != look && touch != remove;
    assert touch < remove;
  }

  /**
   * The converse exactly. In every run a key whose latest write is live is missing if and only if a clean-up raced it
   * away: one whose reader had looked the key up before that latest write.
   */
  lemma {:induction false} MissesAreExpiredOrRaced(states: seq<State>, steps: seq<Step>, n: nat, key: string)
    requires Run(states, steps) && n <= |steps|
    ensures Shown(states[n].log, key, states[n].now).Some? ==>
              (key !in states[n].items <==> RacedAway(states, steps, n, key))
    ensures key !in states[n].items && !RacedAway(states, steps, n, key) ==>
              Shown(states[n].log, key, states[n].now) == None
  {
    ItemsAreExactly(states, steps, n, key);
    if RacedAway(states, steps, n, key) {
      RacedIsCleanedUp(states, steps, n, key);
    }
    if CleanedUp(states, steps, n, key) && Shown(states[n].log, key, states[n].now).Some? {
      LiveCleanUpRaced(states, steps, n, key);
    }
  }

  /**
   * Every answer, `None` included: a finished read answers what the log of writes showed for its key as of its lookup
   * at the time of its check, if and only if it is not the case that this was live and had been raced away.
   */
  lemma {:induction false} ReadsAreRightExactlyWhen(states: seq<State>, steps: seq<Step>, n: nat, r: nat) returns (look: nat)
    requires Run(states, steps) && n <= |steps|
    requires r in states[n].readers && states[n].readers[r].Answered?
    ensures var a := states[n].readers[r];
            && LooksUp(states, steps, r, a.key, look, n)
            && a.at == |states[look].log| <= |states[n].log| && states[n].log[..a.at] == states[look].log
            && (a.answer == Shown(states[n].log[..a.at], a.key, a.checked) <==>
                !(Shown(states[n].log[..a.at], a.key, a.checked).Some? && RacedAway(states, steps, look, a.key)))
  {
    hide Apply, LatestWrite, RacedAway;
    look := LookupIsKnown(states, steps, n, r);
    var a := states[n].readers[r];
    LaterStates(states, steps, look, n);
    ItemsAreExactly(states, steps, look, a.key);
    MissesAreExpiredOrRaced(states, steps, look, a.key);
  }

  /** The exception is real: a fresh write lands between the expiry check and the removal, and is lost. */
  lemma {:induction false} CleanUpCanLoseAFreshWrite(key: string, stale: string, recent: string)
    ensures exists states: seq<State>, steps: seq<Step> ::
              && Run(states, steps)
              && key !in states[|steps|].items
              && Shown(states[|steps|].log, key, states[|steps|].now) == Some(recent)
  {
    var before, after := CacheEntry(stale, Some(10)), CacheEntry(recent, None);
    var set1, set2 := Set(key, stale, Some(10), 0), Set(key, recent, None, 10);
    var steps := [Write(key, stale, Some(10), 0), TryGet(0, key), CheckExpiry(0), Write(key, recent, None, 10), TryRemove(0)];
    var states := [
      State(map[], 10, map[], []),
      State(map[key := before], 10, map[], [set1]),
      State(map[key := before], 10, map[0 := Holding(key, before, 1)], [set1]),
      State(map[key := before], 10, map[0 := Cleaning(key, before, 1, 10)], [set1]),
      State(map[key := after], 10, map[0 := Cleaning(key, before, 1, 10)], [set1, set2]),
      State(map[], 10, map[0 := Answered(key, 1, 10, None)], [set1, set2])];
    StepsOfLostWrite(steps, states, key, before, after, set1, set2);
    assert Run(states, steps);
  }

  lemma {:induction false} StepsOfLostWrite(steps: seq<Step>, states: seq<State>, key: string,
                         before: CacheEntry, after: CacheEntry, set1: Op, set2: Op)
    requires before.expiresAt == Some(10) && after.expiresAt == None
    requires set1 == Set(key, before.value, Some(10), 0) && set2 == Set(key, after.value, None, 10)
    requires steps == [Write(key, before.value, Some(10), 0), TryGet(0, key), CheckExpiry(0),
                       Write(key, after.value, None, 10), TryRemove(0)]
    requires states == [
      State(map[], 10, map[], []),
      State(map[key := before], 10, map[], [set1]),
      State(map[key := before], 10, map[0 := Holding(key, before, 1)], [set1]),
      State(map[key := before], 10, map[0 := Cleaning(key, before, 1, 10)], [set1]),
      State(map[key := after], 10, map[0 := Cleaning(key, before, 1, 10)], [set1, set2]),
      State(map[], 10, map[0 := Answered(key, 1, 10, None)], [set1, set2])]
    ensures forall i | 0 <= i < 5 :: Enabled(states[i], steps[i]) && states[i + 1] == Apply(states[i], steps[i])
  {
    assert Apply(states[0], steps[0]) == states[1];
    assert Apply(states[1], steps[1]) == states[2];
    assert Apply(states[2], steps[2]) == states[3];
    assert Apply(states[3], steps[3]) == states[4];
    assert Apply(states[4], steps[4]) == states[5];
  }
}
