/**
 * What a freshly connected dashboard sees. Any number of writers go through `ProcessAsync`: each persists its
 * transaction with the steps of the concurrent store, trim included, and then broadcasts it. For a new connection
 * the server takes the newest 200, from the store or from a list that an earlier fill took to the cache, and sends them;
 * the transport is one FIFO queue per client.
 */
module ConnectHandoff {
  import opened Transactions
  import opened StableSort
  import opened RecentWindow
  import opened NewerEntries
  import opened EvictedEntries
  import opened LiveFeed
  import ConcurrentStore

  const LATEST_WINDOW_SIZE: nat := 200

  datatype Phase = Joined | HasRead | Sent

  /**
   * `readAt` and `sentAt` are the lengths of the log when the history was taken from the store and when it was sent;
   * a history served from the cache was taken from the store by the fill that brought the list.
   */
  datatype Client = Client(phase: Phase, history: seq<Transaction>, queue: seq<Message>, feed: seq<Transaction>,
                           readAt: nat, sentAt: nat)

  /** A list on its way to the cache, or in it: some enumeration of the store when the log was `takenAt` long. */
  datatype Snapshot = Snapshot(list: seq<Transaction>, takenAt: nat)

  datatype Event = Wrote(tx: Transaction) | Told(tx: Transaction)

  datatype Step =
    | Store(e: ConcurrentStore.Step)
    | Broadcast(w: nat)
    | Connect(c: nat)
    | ReadHistory(c: nat, history: seq<Transaction>)       // the cache has missed: straight from the store
    | Fill(f: nat, list: seq<Transaction>)                 // GetAllAsync f missed and takes the list to cache
    | ReadCached(c: nat, f: nat)                           // the list of fill f is served instead
    | SendInitial(c: nat)
    | Deliver(c: nat)

  /** `known` is everything ever written; `unannounced` is what each writer has written and not yet broadcast. */
  datatype State = State(server: ConcurrentStore.State, known: Contents, unannounced: map<nat, Transaction>,
                         fills: map<nat, Snapshot>, clients: map<nat, Client>, log: seq<Event>)

  ghost function Persisted(log: seq<Event>): set<Transaction> {
    if log == [] then {} else
      var last, rest := log[|log| - 1], Persisted(log[..|log| - 1]);
      if last.Wrote? then rest + {last.tx} else rest
  }

  ghost function Announced(log: seq<Event>): set<Transaction> {
    if log == [] then {} else
      var last, rest := log[|log| - 1], Announced(log[..|log| - 1]);
      if last.Told? then rest + {last.tx} else rest
  }

  /** Ids are distinct; a writer broadcasts when its trim is over, and only then takes its next transaction. */
  ghost predicate Enabled(s: State, e: Step) {
    match e
    case Store(e) =>
      && ConcurrentStore.Enabled(s.server, e) && BringsNewId(s.known, s.server, e)
      && (e.Write? ==> e.w !in s.unannounced)
    case Broadcast(w) =>
      w in s.unannounced && w < |s.server.writers| && s.server.writers[w].phase == ConcurrentStore.Ready
    case Connect(c) => c !in s.clients
    case ReadHistory(c, history) =>
      c in s.clients && s.clients[c].phase == Joined && IsLatest(history, s.server.store, LATEST_WINDOW_SIZE)
    case Fill(_, list) => Enumerates(list, s.server.store)
    case ReadCached(c, f) => c in s.clients && s.clients[c].phase == Joined && f in s.fills
    case SendInitial(c) => c in s.clients && s.clients[c].phase == HasRead
    case Deliver(c) => c in s.clients && s.clients[c].queue != []
  }

  ghost function ToldTo(client: Client, tx: Transaction): Client {
    client.(queue := client.queue + [TransactionReceived(tx)])
  }

  /** What `GetLatestAsync` makes of a cached list. */
  ghost function LatestOf(snapshot: Snapshot): seq<Transaction> {
    TakeAtMost(SortNewestFirst(snapshot.list), LATEST_WINDOW_SIZE)
  }

  ghost function Stored(s: State, e: ConcurrentStore.Step): State
    requires ConcurrentStore.Enabled(s.server, e)
  {
    var s' := s.(server := ConcurrentStore.Apply(s.server, e), known := Learnt(s.known, s.server, e));
    if e.Write? then
      var tx := s.server.writers[e.w].calls[0];
      s'.(unannounced := s.unannounced[e.w := tx], log := s.log + [Wrote(tx)])
    else s'
  }

  ghost function Apply(s: State, e: Step): State
    requires Enabled(s, e)
  {
    match e
    case Store(e) => Stored(s, e)
    case Broadcast(w) =>
      var tx := s.unannounced[w];
      s.(clients := map c <- s.clients :: ToldTo(s.clients[c], tx), unannounced := s.unannounced - {w},
         log := s.log + [Told(tx)])
    case Connect(c) => s.(clients := s.clients[c := Client(Joined, [], [], [], 0, 0)])
    case ReadHistory(c, history) =>
      s.(clients := s.clients[c := s.clients[c].(phase := HasRead, history := history, readAt := |s.log|)])
    case Fill(f, list) => s.(fills := s.fills[f := Snapshot(list, |s.log|)])
    case ReadCached(c, f) =>
      s.(clients := s.clients[c := s.clients[c].(phase := HasRead, history := LatestOf(s.fills[f]),
                                                 readAt := s.fills[f].takenAt)])
    case SendInitial(c) =>
      var client := s.clients[c];
      var queue := client.queue + [InitialTransactions(client.history)];
      s.(clients := s.clients[c := client.(phase := Sent, queue := queue, sentAt := |s.log|)])
    case Deliver(c) =>
      var client := s.clients[c];
      s.(clients := s.clients[c := client.(feed := Handled(client.feed, client.queue[0]), queue := client.queue[1..])])
  }

  /** Nothing has happened, and there is at least one writer. */
  ghost predicate Start(s: State) {
    && s == State(s.server, map[], map[], map[], map[], []) && s.server.store == map[]
    && s.server.writers != [] && ConcurrentStore.AtRest(s.server)
  }

  ghost predicate Run(states: seq<State>, steps: seq<Step>) {
    && |states| == |steps| + 1
    && Start(states[0])
    && forall i | 0 <= i < |steps| :: Enabled(states[i], steps[i]) && states[i + 1] == Apply(states[i], steps[i])
  }

  // ----- What the log says

  lemma {:induction false} LogFacts(log: seq<Event>, e: Event)
    ensures Persisted(log + [e]) == if e.Wrote? then Persisted(log) + {e.tx} else Persisted(log)
    ensures Announced(log + [e]) == if e.Told? then Announced(log) + {e.tx} else Announced(log)
    ensures forall n | 0 <= n <= |log| :: (log + [e])[..n] == log[..n]
  {
    assert (log + [e])[..|log|] == log;
  }

  lemma {:induction false} AnnouncedPrefix(log: seq<Event>, n: nat)
    requires n <= |log|
    ensures Announced(log[..n]) <= Announced(log)
    decreases |log|
  {
    if n == |log| {
      assert log[..n] == log;
    } else {
      AnnouncedPrefix(log[..|log| - 1], n);
      assert log[..|log| - 1][..n] == log[..n];
    }
  }

  /** The live transactions broadcast since `from`, the latest first. */
  ghost function Live(log: seq<Event>, from: nat): seq<Transaction> {
    if |log| <= from then [] else
      var last, rest := log[|log| - 1], Live(log[..|log| - 1], from);
      if last.Told? then [last.tx] + rest else rest
  }

  lemma {:induction false} LiveGrows(log: seq<Event>, e: Event, from: nat)
    requires from <= |log|
    ensures Live(log + [e], from) == if e.Told? then [e.tx] + Live(log, from) else Live(log, from)
  {
    assert (log + [e])[..|log|] == log;
  }

  /** Nothing is broadcast twice. */
  ghost predicate OnceEach(log: seq<Event>) {
    log == [] || (
      var last, rest := log[|log| - 1], log[..|log| - 1];
      OnceEach(rest) && (last.Told? ==> last.tx !in Announced(rest)))
  }

  /** How often a transaction has been broadcast since `from`: once or not at all. */
  lemma {:induction false} LiveOnce(log: seq<Event>, from: nat, x: Transaction)
    requires OnceEach(log) && from <= |log|
    ensures multiset(Live(log, from))[x] == if x in Announced(log) && x !in Announced(log[..from]) then 1 else 0
    decreases |log|
  {
    if |log| == from {
      assert log[..from] == log;
    } else {
      var last, rest := log[|log| - 1], log[..|log| - 1];
      LiveOnce(rest, from, x);
      AnnouncedPrefix(rest, from);
      assert rest[..from] == log[..from];
      assert multiset([last.tx] + Live(rest, from)) == multiset{last.tx} + multiset(Live(rest, from));
    }
  }

  // ----- The server's side of the invariant

  ghost predicate LogMatches(s: State) {
    && (forall x :: x in Persisted(s.log) <==> x.id in s.known && s.known[x.id] == x)
    && Announced(s.log) <= Persisted(s.log)
    && OnceEach(s.log)
  }

  ghost predicate UnannouncedMatches(s: State) {
    && (forall w <- s.unannounced :: w < |s.server.writers|)
    && (forall w <- s.unannounced :: s.unannounced[w] in Persisted(s.log) - Announced(s.log))
    && (forall v, w | v in s.unannounced && w in s.unannounced :: s.unannounced[v] == s.unannounced[w] ==> v == w)
    && Persisted(s.log) - Announced(s.log) <= s.unannounced.Values
  }

  ghost predicate ServerOk(s: State) {
    s.server.writers != [] && GoneAreOutnumbered(s.known, s.server) && LogMatches(s) && UnannouncedMatches(s)
  }

  lemma {:induction false} StoreKeepsLog(s: State, e: ConcurrentStore.Step)
    requires LogMatches(s) && Enabled(s, Store(e))
    ensures LogMatches(Stored(s, e))
  {
    if e.Write? {
      LogFacts(s.log, Wrote(s.server.writers[e.w].calls[0]));
      var s' := Stored(s, e);
      assert s'.log[..|s'.log| - 1] == s.log;
    }
  }

  lemma {:induction false} WriteKeepsUnannounced(s: State, s': State, w: nat, tx: Transaction)
    requires LogMatches(s) && UnannouncedMatches(s) && tx.id !in s.known && w !in s.unannounced
    requires w < |s.server.writers| == |s'.server.writers|
    requires s'.log == s.log + [Wrote(tx)] && s'.unannounced == s.unannounced[w := tx]
    ensures UnannouncedMatches(s')
  {
    hide OnceEach, Persisted, Announced;
    LogFacts(s.log, Wrote(tx));
    assert tx !in Persisted(s.log);
    ValuesOfOneMore(s.unannounced, w, tx);
  }

  lemma {:induction false} ValuesOfOneMore(m: map<nat, Transaction>, w: nat, tx: Transaction)
    requires w !in m
    ensures m[w := tx].Values == m.Values + {tx}
  {
    var m' := m[w := tx];
    forall x | x in m.Values ensures x in m'.Values {
      var v :| v in m && m[v] == x;
      assert v in m' && m'[v] == x;
    }
    assert w in m' && m'[w] == tx;
  }

  lemma {:induction false} StoreKeepsUnannounced(s: State, e: ConcurrentStore.Step)
    requires LogMatches(s) && UnannouncedMatches(s) && Enabled(s, Store(e))
    ensures UnannouncedMatches(Stored(s, e))
  {
    hide LogMatches, UnannouncedMatches;
    if e.Write? {
      WriteKeepsUnannounced(s, Stored(s, e), e.w, s.server.writers[e.w].calls[0]);
    } else {
      SameUnannounced(s, Stored(s, e));
    }
  }

  lemma {:induction false} SameUnannounced(s: State, s': State)
    requires UnannouncedMatches(s) && s'.log == s.log && s'.unannounced == s.unannounced
    requires |s'.server.writers| == |s.server.writers|
    ensures UnannouncedMatches(s')
  {
  }

  lemma {:induction false} BroadcastKeepsUnannounced(s: State, w: nat)
    requires LogMatches(s) && UnannouncedMatches(s) && Enabled(s, Broadcast(w))
    ensures UnannouncedMatches(Apply(s, Broadcast(w)))
  {
    hide OnceEach, Persisted, Announced;
    var s', tx := Apply(s, Broadcast(w)), s.unannounced[w];
    LogFacts(s.log, Told(tx));
    forall x | x in Persisted(s'.log) - Announced(s'.log) ensures x in s'.unannounced.Values {
      assert x in s.unannounced.Values;
      var v :| v in s.unannounced && s.unannounced[v] == x;
      assert v in s'.unannounced && s'.unannounced[v] == x;
    }
  }

  lemma {:induction false} BroadcastKeepsLog(s: State, w: nat)
    requires LogMatches(s) && UnannouncedMatches(s) && Enabled(s, Broadcast(w))
    ensures LogMatches(Apply(s, Broadcast(w)))
  {
    hide Persisted, Announced;
    var s', tx := Apply(s, Broadcast(w)), s.unannounced[w];
    LogFacts(s.log, Told(tx));
    assert s'.log[..|s'.log| - 1] == s.log;
  }

  lemma {:induction false} StepKeepsServer(s: State, e: Step)
    requires ServerOk(s) && Enabled(s, e)
    ensures ServerOk(Apply(s, e)) && |Apply(s, e).server.writers| == |s.server.writers|
  {
    hide GoneAreOutnumbered, LogMatches, UnannouncedMatches;
    match e
    case Store(e) =>
      StepKeepsOutnumbered(s.known, s.server, e);
      StoreKeepsLog(s, e);
      StoreKeepsUnannounced(s, e);
      OneThreat(s.known, s.server, e, 0);
    case Broadcast(w) =>
      BroadcastKeepsUnannounced(s, w);
      BroadcastKeepsLog(s, w);
    case _ => SameServer(s, Apply(s, e));
  }

  lemma {:induction false} SameServer(s: State, s': State)
    requires ServerOk(s) && s' == s.(clients := s'.clients, fills := s'.fills)
    ensures ServerOk(s')
  {
  }

  /** At most one transaction per writer is persisted and not yet broadcast. */
  lemma {:induction false} FewUnannounced(s: State)
    requires UnannouncedMatches(s)
    ensures |Persisted(s.log) - Announced(s.log)| <= |s.server.writers|
  {
    var open := Persisted(s.log) - Announced(s.log);
    BelowHolds(|s.server.writers|);
    SubsetSize(s.unannounced.Keys, Below(|s.server.writers|));
    SubsetSize(open, s.unannounced.Values);
    FewValues(s.unannounced);
  }

  ghost function Below(n: nat): set<nat> {
    if n == 0 then {} else Below(n - 1) + {n - 1}
  }

  lemma {:induction false} BelowHolds(n: nat)
    ensures |Below(n)| == n && forall w: nat :: w in Below(n) <==> w < n
  {
    if n > 0 {
      BelowHolds(n - 1);
    }
  }

  lemma {:induction false} SubsetSize<T>(a: set<T>, b: set<T>)
    requires a <= b
    ensures |a| <= |b|
  {
    assert b == a + (b - a);
  }

  lemma {:induction false} FewValues<K, V>(m: map<K, V>)
    ensures |m.Values| <= |m.Keys|
    decreases |m.Keys|
  {
    if m.Keys != {} {
      var k :| k in m.Keys;
      var rest := m - {k};
      FewValues(rest);
      assert rest.Keys == m.Keys - {k};
      forall v | v in m.Values ensures v in rest.Values + {m[k]} {
        var j :| j in m && m[j] == v;
        assert j != k ==> j in rest && rest[j] == v;
      }
      SubsetSize(m.Values, rest.Values + {m[k]});
    } else {
      assert m.Values == {};
    }
  }

  // ----- The history that is read

  ghost predicate NoCopies(s: seq<Transaction>) {
    forall x :: multiset(s)[x] <= 1
  }

  /** What a history read from the store is worth against the log at that moment. */
  ghost predicate HistoryOk(past: seq<Event>, history: seq<Transaction>, writers: nat) {
    && |history| <= LATEST_WINDOW_SIZE && NoCopies(history)
    && (forall x <- history :: x in Persisted(past))
    && (forall x <- Persisted(past) ::
          x in history || CountNewer(history, x.timestamp) >= MAX_TRANSACTIONS + 1 - writers)
    && |Persisted(past) - Announced(past)| <= writers
  }

  lemma {:induction false} FrontIsNewer(front: seq<Transaction>, back: seq<Transaction>, x: Transaction)
    requires NewestFirst(front + back) && x in back
    ensures forall y <- front :: y.timestamp >= x.timestamp
  {
    var i :| 0 <= i < |back| && back[i] == x;
    forall y | y in front ensures y.timestamp >= x.timestamp {
      var j :| 0 <= j < |front| && front[j] == y;
      assert (front + back)[j] == y && (front + back)[|front| + i] == x;
    }
  }

  /** In `r` as often as in `all`, or displaced by a full list of entries at least as new. */
  ghost predicate KeptOrDisplaced(all: seq<Transaction>, r: seq<Transaction>, n: nat, x: Transaction) {
    || multiset(r)[x] == multiset(all)[x]
    || (multiset(r)[x] < multiset(all)[x] && |r| == n && forall y <- r :: y.timestamp >= x.timestamp)
  }

  lemma {:induction false} CutOfSortedKeepsCopies(sorted: seq<Transaction>, n: nat, x: Transaction)
    requires NewestFirst(sorted)
    ensures KeptOrDisplaced(sorted, TakeAtMost(sorted, n), n, x)
  {
    if n < |sorted| {
      var front, back := sorted[..n], sorted[n..];
      assert sorted == front + back;
      assert multiset(sorted) == multiset(front) + multiset(back);
      if x in back {
        FrontIsNewer(front, back, x);
      }
    }
  }

  lemma {:induction false} CutKeepsCopies(all: seq<Transaction>, n: nat, x: Transaction)
    ensures KeptOrDisplaced(all, TakeAtMost(SortNewestFirst(all), n), n, x)
  {
    hide TakeAtMost;
    CutOfSortedKeepsCopies(SortNewestFirst(all), n, x);
  }

  lemma {:induction false} ListingHasNoCopies(values: seq<Transaction>, m: Contents)
    requires Enumerates(values, m)
    ensures NoCopies(values)
  {
  }

  lemma {:induction false} HistoryHolds(values: seq<Transaction>, store: Contents, known: Contents, writers: nat, x: Transaction)
    requires Enumerates(values, store) && Outnumbers(known, store, MAX_TRANSACTIONS + 1 - writers) && writers > 0
    requires x.id in known && known[x.id] == x
    ensures var history := TakeAtMost(SortNewestFirst(values), LATEST_WINDOW_SIZE);
            x in history || CountNewer(history, x.timestamp) >= MAX_TRANSACTIONS + 1 - writers
  {
    hide Enumerates, AtLeastAsNew, SortNewestFirst, TakeAtMost;
    var history := TakeAtMost(SortNewestFirst(values), LATEST_WINDOW_SIZE);
    EnumerationSize(values, store);
    if x.id in store {
      CutKeepsCopies(values, LATEST_WINDOW_SIZE, x);
      if x !in history {
        assert multiset(history)[x] == 0 && multiset(values)[x] > 0;
        CountAll(history, x.timestamp);
      }
    } else {
      NewerOfListing(values, store, x.timestamp);
      CountOfCut(values, x.timestamp, LATEST_WINDOW_SIZE);
    }
  }

  lemma {:induction false} CutHasNoNewCopies(values: seq<Transaction>, n: nat, x: Transaction)
    ensures multiset(TakeAtMost(SortNewestFirst(values), n))[x] <= multiset(values)[x]
  {
    CutKeepsCopies(values, n, x);
  }

  lemma {:induction false} HistoryMembers(values: seq<Transaction>, store: Contents, n: nat)
    requires Enumerates(values, store)
    ensures var history := TakeAtMost(SortNewestFirst(values), n);
            |history| <= n && NoCopies(history) && forall x <- history :: x.id in store && store[x.id] == x
  {
    hide Enumerates, SortNewestFirst;
    EnumerationSize(values, store);
    ListingHasNoCopies(values, store);
    var history := TakeAtMost(SortNewestFirst(values), n);
    forall x ensures multiset(history)[x] <= multiset(values)[x] {
      CutHasNoNewCopies(values, n, x);
    }
    forall x | x in history ensures x in values {
      assert multiset(history)[x] > 0;
    }
  }

  lemma {:induction false} ListingCovers(s: State, values: seq<Transaction>, x: Transaction)
    requires ServerOk(s) && Enumerates(values, s.server.store) && x in Persisted(s.log)
    ensures var history := TakeAtMost(SortNewestFirst(values), LATEST_WINDOW_SIZE);
            x in history || CountNewer(history, x.timestamp) >= MAX_TRANSACTIONS + 1 - |s.server.writers|
  {
    hide Enumerates, SortNewestFirst, TakeAtMost, GoneAreOutnumbered, Outnumbers, UnannouncedMatches, OnceEach;
    KnownAreOutnumbered(s.known, s.server);
    HistoryHolds(values, s.server.store, s.known, |s.server.writers|, x);
  }

  lemma {:induction false} ListingIsPersisted(s: State, values: seq<Transaction>, x: Transaction)
    requires ServerOk(s) && Enumerates(values, s.server.store)
    requires x in TakeAtMost(SortNewestFirst(values), LATEST_WINDOW_SIZE)
    ensures x in Persisted(s.log)
  {
    hide Enumerates, SortNewestFirst, TakeAtMost, GoneAreOutnumbered, Outnumbers, UnannouncedMatches, OnceEach;
    HistoryMembers(values, s.server.store, LATEST_WINDOW_SIZE);
    KnownAreOutnumbered(s.known, s.server);
    OutnumbersIsSubmap(s.known, s.server.store, MAX_TRANSACTIONS + 1 - |s.server.writers|);
  }

  /** A history read at any moment, even in the middle of other writers' trims. */
  lemma {:induction false} HistoryCovers(s: State, history: seq<Transaction>)
    requires ServerOk(s) && IsLatest(history, s.server.store, LATEST_WINDOW_SIZE)
    ensures HistoryOk(s.log, history, |s.server.writers|)
  {
    hide Enumerates, SortNewestFirst, TakeAtMost, NoCopies, ServerOk, Persisted, Announced, CountNewer;
    var values :| Enumerates(values, s.server.store) && history == TakeAtMost(SortNewestFirst(values), LATEST_WINDOW_SIZE);
    HistoryMembers(values, s.server.store, LATEST_WINDOW_SIZE);
    forall x | x in history ensures x in Persisted(s.log) {
      ListingIsPersisted(s, values, x);
    }
    forall x | x in Persisted(s.log)
      ensures x in history || CountNewer(history, x.timestamp) >= MAX_TRANSACTIONS + 1 - |s.server.writers|
    {
      ListingCovers(s, values, x);
    }
    ServerHasFewUnannounced(s);
  }

  lemma {:induction false} ServerHasFewUnannounced(s: State)
    requires ServerOk(s)
    ensures |Persisted(s.log) - Announced(s.log)| <= |s.server.writers|
  {
    FewUnannounced(s);
  }

  lemma {:induction false} OutnumbersIsSubmap(all: Contents, kept: Contents, n: int)
    requires Outnumbers(all, kept, n)
    ensures Submap(kept, all)
  {
  }

  ghost predicate FillOk(log: seq<Event>, snapshot: Snapshot, writers: nat) {
    snapshot.takenAt <= |log| && HistoryOk(log[..snapshot.takenAt], LatestOf(snapshot), writers)
  }

  ghost predicate FillsOk(s: State) {
    forall f <- s.fills :: FillOk(s.log, s.fills[f], |s.server.writers|)
  }

  lemma {:induction false} NewFillIsOk(s: State, list: seq<Transaction>)
    requires ServerOk(s) && Enumerates(list, s.server.store)
    ensures FillOk(s.log, Snapshot(list, |s.log|), |s.server.writers|)
  {
    hide ServerOk, HistoryOk, SortNewestFirst, TakeAtMost;
    assert IsLatest(LatestOf(Snapshot(list, |s.log|)), s.server.store, LATEST_WINDOW_SIZE);
    HistoryCovers(s, LatestOf(Snapshot(list, |s.log|)));
    assert s.log[..|s.log|] == s.log;
  }

  lemma {:induction false} LogOnlyGrows(s: State, e: Step, n: nat)
    requires Enabled(s, e) && n <= |s.log|
    ensures |s.log| <= |Apply(s, e).log| && Apply(s, e).log[..n] == s.log[..n]
  {
  }

  lemma {:induction false} StepKeepsFills(s: State, e: Step)
    requires ServerOk(s) && Enabled(s, e) && FillsOk(s)
    requires |Apply(s, e).server.writers| == |s.server.writers|
    ensures FillsOk(Apply(s, e))
  {
    hide ServerOk, HistoryOk, SortNewestFirst, TakeAtMost;
    var s' := Apply(s, e);
    forall f | f in s'.fills ensures FillOk(s'.log, s'.fills[f], |s'.server.writers|) {
      if e.Fill? && e.f == f {
        NewFillIsOk(s, e.list);
      } else {
        assert FillOk(s.log, s.fills[f], |s.server.writers|);
        LogOnlyGrows(s, e, s.fills[f].takenAt);
      }
    }
  }

  // ----- The client's side of the invariant

  /** The feed the client will have when its queue has drained. */
  ghost function Settled(client: Client): seq<Transaction> {
    Drained(client.feed, client.queue)
  }

  /** Everything that has reached the client or will, since its history was sent. */
  ghost function Received(log: seq<Event>, client: Client): seq<Transaction> {
    Live(log, client.sentAt) + client.history
  }

  ghost predicate ClientOk(log: seq<Event>, client: Client, writers: nat) {
    && client.readAt <= |log|
    && (client.phase != Joined ==> HistoryOk(log[..client.readAt], client.history, writers))
    && (client.phase == Sent ==>
          && client.readAt <= client.sentAt <= |log|
          && Settled(client) == TakeAtMost(SortNewestFirst(Received(log, client)), MAX_FEED))
  }

  lemma {:induction false} DrainBack(feed: seq<Transaction>, queue: seq<Message>, m: Message)
    ensures Drained(feed, queue + [m]) == Handled(Drained(feed, queue), m)
  {
    assert (queue + [m])[..|queue|] == queue;
  }

  lemma {:induction false} ToldExtendsFeed(log: seq<Event>, client: Client, tx: Transaction)
    requires client.sentAt <= |log|
    requires Settled(client) == TakeAtMost(SortNewestFirst(Received(log, client)), MAX_FEED)
    ensures var client' := ToldTo(client, tx);
            Settled(client') == TakeAtMost(SortNewestFirst(Received(log + [Told(tx)], client')), MAX_FEED)
  {
    hide Handled, SortNewestFirst, TakeAtMost, Live, Drained;
    DrainBack(client.feed, client.queue, TransactionReceived(tx));
    LiveGrows(log, Told(tx), client.sentAt);
    assert Received(log + [Told(tx)], ToldTo(client, tx)) == [tx] + Received(log, client);
    HandleLive(tx, Settled(client), Received(log, client));
  }

  lemma {:induction false} ToldStaysOk(log: seq<Event>, client: Client, tx: Transaction, writers: nat)
    requires ClientOk(log, client, writers)
    ensures ClientOk(log + [Told(tx)], ToldTo(client, tx), writers)
  {
    hide HistoryOk, Settled, Received, SortNewestFirst, TakeAtMost;
    LogFacts(log, Told(tx));
    if client.phase == Sent {
      ToldExtendsFeed(log, client, tx);
    }
  }

  lemma {:induction false} WroteStaysOk(log: seq<Event>, client: Client, tx: Transaction, writers: nat)
    requires ClientOk(log, client, writers)
    ensures ClientOk(log + [Wrote(tx)], client, writers)
  {
    hide HistoryOk, Handled, SortNewestFirst, TakeAtMost;
    LogFacts(log, Wrote(tx));
    if client.phase == Sent {
      LiveGrows(log, Wrote(tx), client.sentAt);
    }
  }

  lemma {:induction false} SendKeepsClient(s: State, c: nat)
    requires Enabled(s, SendInitial(c)) && ClientOk(s.log, s.clients[c], |s.server.writers|)
    ensures ClientOk(s.log, Apply(s, SendInitial(c)).clients[c], |s.server.writers|)
  {
    hide HistoryOk, SortNewestFirst, TakeAtMost;
    var client, client' := s.clients[c], Apply(s, SendInitial(c)).clients[c];
    DrainBack(client.feed, client.queue, InitialTransactions(client.history));
    assert Live(s.log, client'.sentAt) == [];
    assert Received(s.log, client') == client.history;
  }

  lemma {:induction false} StepKeepsClient(s: State, e: Step, c: nat)
    requires ServerOk(s) && Enabled(s, e)
    requires c in s.clients ==> ClientOk(s.log, s.clients[c], |s.server.writers|)
    requires FillsOk(s) && c in Apply(s, e).clients
    ensures ClientOk(Apply(s, e).log, Apply(s, e).clients[c], |s.server.writers|)
  {
    hide ServerOk, Handled, SortNewestFirst, TakeAtMost;
    match e
    case Broadcast(w) => ToldStaysOk(s.log, s.clients[c], s.unannounced[w], |s.server.writers|);
    case Store(e) =>
      if e.Write? {
        WroteStaysOk(s.log, s.clients[c], s.server.writers[e.w].calls[0], |s.server.writers|);
      }
    case Connect(_) =>
    case Fill(_, _) =>
    case ReadCached(d, f) =>
      if d == c {
        assert FillOk(s.log, s.fills[f], |s.server.writers|);
      }
    case ReadHistory(d, history) =>
      if d == c {
        HistoryCovers(s, history);
        assert s.log[..|s.log|] == s.log;
      }
    case SendInitial(d) => if d == c { SendKeepsClient(s, c); }
    case Deliver(d) => if d == c { DrainFront(s.clients[c].feed, s.clients[c].queue); }
  }

  lemma {:induction false} StartIsOk(s: State)
    requires Start(s)
    ensures ServerOk(s)
  {
    NothingGoneYet(s.server);
  }

  lemma {:induction false} AlwaysOk(states: seq<State>, steps: seq<Step>, n: nat)
    requires Run(states, steps) && n <= |steps|
    ensures ServerOk(states[n]) && FillsOk(states[n]) && |states[n].server.writers| == |states[0].server.writers|
    ensures forall c <- states[n].clients :: ClientOk(states[n].log, states[n].clients[c], |states[n].server.writers|)
    decreases n
  {
    hide ServerOk, ClientOk, FillOk, Enabled, Apply;
    if n == 0 {
      StartIsOk(states[0]);
    } else {
      AlwaysOk(states, steps, n - 1);
      StepKeepsServer(states[n - 1], steps[n - 1]);
      StepKeepsFills(states[n - 1], steps[n - 1]);
      forall c | c in states[n].clients
        ensures ClientOk(states[n].log, states[n].clients[c], |states[n].server.writers|)
      {
        StepKeepsClient(states[n - 1], steps[n - 1], c);
      }
    }
  }

  // ----- What a client that has caught up shows

  ghost predicate CaughtUp(s: State, c: nat) {
    c in s.clients && s.clients[c].phase == Sent && s.clients[c].queue == []
  }

  ghost predicate AnnouncedSince(log: seq<Event>, from: nat, x: Transaction)
    requires from <= |log|
  {
    x in Announced(log) && x !in Announced(log[..from])
  }

  /** One copy from the history, and one from the stream if the broadcast came after the history was sent. */
  ghost function Copies(log: seq<Event>, client: Client, x: Transaction): nat
    requires client.sentAt <= |log|
  {
    (if x in client.history then 1 else 0) + if AnnouncedSince(log, client.sentAt, x) then 1 else 0
  }

  lemma {:induction false} ReceivedCopies(log: seq<Event>, client: Client, x: Transaction)
    requires OnceEach(log) && client.sentAt <= |log| && NoCopies(client.history)
    ensures multiset(Received(log, client))[x] == Copies(log, client, x)
  {
    LiveOnce(log, client.sentAt, x);
    assert multiset(Received(log, client)) == multiset(Live(log, client.sentAt)) + multiset(client.history);
  }

  /**
   * The feed exactly, copies included: over every run, a client that has caught up shows each transaction once for
   * its history and once more if it was broadcast after that history was sent, except where copies are displaced by
   * a full feed of entries at least as new.
   */
  lemma {:induction false} FeedHoldsExactly(states: seq<State>, steps: seq<Step>, n: nat, c: nat, x: Transaction)
    requires Run(states, steps) && n <= |steps| && CaughtUp(states[n], c)
    ensures var s, client := states[n], states[n].clients[c];
            && client.readAt <= client.sentAt <= |s.log|
            && |client.history| <= 200 && |client.feed| <= 200 && NewestFirst(client.feed)
            && (|| multiset(client.feed)[x] == Copies(s.log, client, x)
                || (&& multiset(client.feed)[x] < Copies(s.log, client, x)
                    && |client.feed| == 200 && forall y <- client.feed :: y.timestamp >= x.timestamp))
  {
    hide SortNewestFirst, GoneAreOutnumbered, UnannouncedMatches, Live;
    AlwaysOk(states, steps, n);
    var s, client := states[n], states[n].clients[c];
    var all := Received(s.log, client);
    assert client.feed == Settled(client);
    ReceivedCopies(s.log, client, x);
    CutKeepsCopies(all, MAX_FEED, x);
    CutKeepsOrder(SortNewestFirst(all), MAX_FEED);
  }

  /** Persisted only after the client's history was taken from the store, yet broadcast before that history was sent. */
  ghost predicate InTheGap(log: seq<Event>, client: Client, tx: Transaction)
    requires client.readAt <= |log| && client.sentAt <= |log|
  {
    tx in Announced(log[..client.sentAt]) && tx !in Persisted(log[..client.readAt])
  }

  lemma {:induction false} OutnumberedInFeed(log: seq<Event>, client: Client, writers: nat, tx: Transaction)
    requires ClientOk(log, client, writers) && client.phase == Sent && client.queue == [] && writers > 0
    requires tx in Persisted(log[..client.readAt]) && tx !in client.history
    ensures CountNewer(client.feed, tx.timestamp) >= MAX_TRANSACTIONS + 1 - writers
  {
    hide SortNewestFirst, TakeAtMost, Live;
    var all := Received(log, client);
    assert client.feed == Settled(client);
    CountOfParts(Live(log, client.sentAt), client.history, tx.timestamp);
    CountOfCut(all, tx.timestamp, MAX_FEED);
  }

  /**
   * No other gap. With N writers trimming concurrently, a broadcast transaction is in the feed of a client that has
   * caught up, or outnumbered there by at least 201 - N entries at least as new (a full feed of 200 for one writer),
   * unless it was persisted after the client's history was taken from the store, by the cache's fill if it was served
   * from there, and broadcast before that history was sent; and then it is missing for certain.
   */
  lemma {:induction false} HandoffHasNoOtherGap(states: seq<State>, steps: seq<Step>, n: nat, c: nat, tx: Transaction)
    requires Run(states, steps) && n <= |steps| && CaughtUp(states[n], c)
    requires tx in Announced(states[n].log)
    ensures var s, client := states[n], states[n].clients[c];
            && client.readAt <= client.sentAt <= |s.log|
            && if InTheGap(s.log, client, tx) then tx !in client.feed
               else tx in client.feed || |NewerAt(client.feed, tx.timestamp)| >= 201 - |s.server.writers|
  {
    hide SortNewestFirst, GoneAreOutnumbered, UnannouncedMatches, Settled;
    AlwaysOk(states, steps, n);
    FeedHoldsExactly(states, steps, n, c, tx);
    var s, client := states[n], states[n].clients[c];
    CountIsOfPositions(client.feed, tx.timestamp);
    if InTheGap(s.log, client, tx) {
      assert tx !in client.history;
    } else if tx in client.history || AnnouncedSince(s.log, client.sentAt, tx) {
      if tx !in client.feed {
        assert multiset(client.feed)[tx] == 0;
        CountAll(client.feed, tx.timestamp);
      }
    } else {
      OutnumberedInFeed(s.log, client, |s.server.writers|, tx);
    }
  }

  // ----- Transactions that are shown twice

  /** In the history although not yet broadcast when it was sent. */
  ghost function Doubled(log: seq<Event>, client: Client): set<Transaction>
    requires client.sentAt <= |log|
  {
    set x | x in client.history && AnnouncedSince(log, client.sentAt, x)
  }

  ghost function DistinctNewer(feed: seq<Transaction>, t: int): set<Transaction> {
    set x | x in feed && x.timestamp >= t
  }

  ghost function Twice(s: seq<Transaction>): set<Transaction> {
    set x | x in s && multiset(s)[x] > 1
  }

  lemma {:induction false} CountsOfTail(s: seq<Transaction>)
    requires s != []
    ensures forall y :: multiset(s)[y] == multiset(s[1..])[y] + if y == s[0] then 1 else 0
  {
    assert s == [s[0]] + s[1..];
  }

  lemma {:induction false} TwiceOfTail(s: seq<Transaction>, t: int)
    requires s != [] && forall x :: multiset(s)[x] <= 2
    ensures var x, rest := s[0], s[1..];
            && (forall y :: multiset(rest)[y] <= 2)
            && (if x in rest then DistinctNewer(s, t) == DistinctNewer(rest, t) && Twice(s) == Twice(rest) + {x} && x !in Twice(rest)
                else DistinctNewer(s, t) == DistinctNewer(rest, t) + (if x.timestamp >= t then {x} else {}) && Twice(s) == Twice(rest))
            && (x !in rest ==> x !in DistinctNewer(rest, t))
  {
    CountsOfTail(s);
    assert s[0] in s[1..] <==> multiset(s[1..])[s[0]] > 0;
  }

  lemma {:induction false} FewCopies(s: seq<Transaction>, t: int)
    requires forall x :: multiset(s)[x] <= 2
    ensures CountNewer(s, t) <= |DistinctNewer(s, t)| + |Twice(s)|
  {
    if s != [] {
      hide DistinctNewer, Twice;
      TwiceOfTail(s, t);
      FewCopies(s[1..], t);
    }
  }

  lemma {:induction false} DoubledAreFew(log: seq<Event>, client: Client, writers: nat)
    requires ClientOk(log, client, writers) && client.phase == Sent
    ensures |Doubled(log, client)| <= writers
  {
    hide Settled, SortNewestFirst, NoCopies;
    var past := log[..client.readAt];
    AnnouncedPrefix(log[..client.sentAt], client.readAt);
    assert log[..client.sentAt][..client.readAt] == past;
    assert Doubled(log, client) <= Persisted(past) - Announced(past);
    SubsetSize(Doubled(log, client), Persisted(past) - Announced(past));
  }

  /**
   * A feed shows no transaction more than twice, and twice only those of the history that were broadcast after it was
   * sent: at most one per writer. Counted without copies, at least 201 - N less that number outnumber what is missing.
   */
  lemma {:induction false} CopiesAreFew(states: seq<State>, steps: seq<Step>, n: nat, c: nat, tx: Transaction)
    requires Run(states, steps) && n <= |steps| && CaughtUp(states[n], c)
    ensures var s, client := states[n], states[n].clients[c];
            && client.readAt <= client.sentAt <= |s.log|
            && Twice(client.feed) <= Doubled(s.log, client) && |Doubled(s.log, client)| <= |s.server.writers|
            && multiset(client.feed)[tx] <= 2
            && (tx in Announced(s.log) && !InTheGap(s.log, client, tx) && tx !in client.feed ==>
                  |DistinctNewer(client.feed, tx.timestamp)| >= 201 - |s.server.writers| - |Doubled(s.log, client)|)
  {
    hide ClientOk, ServerOk, DistinctNewer, NewerAt;
    AlwaysOk(states, steps, n);
    var s, client := states[n], states[n].clients[c];
    FeedHoldsExactly(states, steps, n, c, tx);
    DoubledAreFew(s.log, client, |s.server.writers|);
    forall x ensures multiset(client.feed)[x] <= Copies(s.log, client, x) <= 2 {
      FeedHoldsExactly(states, steps, n, c, x);
    }
    assert Twice(client.feed) <= Doubled(s.log, client);
    SubsetSize(Twice(client.feed), Doubled(s.log, client));
    FewCopies(client.feed, tx.timestamp);
    CountIsOfPositions(client.feed, tx.timestamp);
    if tx in Announced(s.log) {
      HandoffHasNoOtherGap(states, steps, n, c, tx);
    }
  }
}
