/** Runs that show that each exception the connect handoff allows for does occur, and that its floor is reached. */
module HandoffWitnesses {
  import opened Transactions
  import opened StableSort
  import opened RecentWindow
  import opened NewerEntries
  import opened EvictedEntries
  import opened LiveFeed
  import opened ConnectHandoff
  import ConcurrentStore

  ghost predicate RunTo(t: State, states: seq<State>, steps: seq<Step>) {
    Run(states, steps) && states[|steps|] == t
  }

  ghost predicate Reachable(t: State, writers: nat) {
    |t.server.writers| == writers && exists states, steps :: RunTo(t, states, steps)
  }

  lemma {:induction false} StartIsReachable(s: State)
    requires Start(s)
    ensures Reachable(s, |s.server.writers|)
  {
    assert RunTo(s, [s], []);
  }

  lemma {:induction false} OneMore(t: State, writers: nat, e: Step)
    requires Reachable(t, writers) && Enabled(t, e)
    ensures Reachable(Apply(t, e), writers)
  {
    hide Enabled, Apply, Start, ServerOk, ClientOk;
    var states, steps :| RunTo(t, states, steps);
    AlwaysOk(states, steps, |steps|);
    StepKeepsServer(t, e);
    assert Run(states + [Apply(t, e)], steps + [e]);
    assert RunTo(Apply(t, e), states + [Apply(t, e)], steps + [e]);
  }

  lemma {:induction false} ReachableIsOk(t: State, writers: nat)
    requires Reachable(t, writers)
    ensures ServerOk(t)
  {
    var states, steps :| RunTo(t, states, steps);
    AlwaysOk(states, steps, |steps|);
  }

  // ----- Two exceptions with one writer and one transaction

  /** One writer with one call; no client yet. */
  ghost function OneCall(tx: Transaction): State {
    State(ConcurrentStore.State(map[], [ConcurrentStore.Writer([tx], ConcurrentStore.Ready)]), map[], map[], map[], map[], [])
  }

  /** The writer has stored the transaction and left the trim. */
  ghost function OneStored(tx: Transaction, clients: map<nat, Client>): State {
    State(ConcurrentStore.State(map[tx.id := tx], [ConcurrentStore.Writer([], ConcurrentStore.Ready)]),
          map[tx.id := tx], map[0 := tx], map[], clients, [Wrote(tx)])
  }

  lemma {:induction false} StoreOne(s: State, tx: Transaction)
    requires s == OneCall(tx).(clients := s.clients) && Reachable(s, 1)
    ensures Reachable(OneStored(tx, s.clients), 1)
  {
    hide Reachable;
    assert [tx][1..] == [];
    OneMore(s, 1, Store(ConcurrentStore.Write(0)));
    var t := Apply(s, Store(ConcurrentStore.Write(0)));
    assert t.server.writers == [ConcurrentStore.Writer([], ConcurrentStore.Checking)];
    OneMore(t, 1, Store(ConcurrentStore.Check(0)));
    assert Apply(t, Store(ConcurrentStore.Check(0))) == OneStored(tx, s.clients);
  }

  lemma {:induction false} OneListing(tx: Transaction)
    ensures IsLatest([tx], map[tx.id := tx], LATEST_WINDOW_SIZE)
    ensures IsLatest([], map[], LATEST_WINDOW_SIZE)
    ensures SortNewestFirst([tx]) == [tx] && SortNewestFirst([]) == []
  {
    var one: Contents := map[tx.id := tx];
    assert one.Values == {tx} by {
      assert tx.id in one && one[tx.id] == tx;
    }
    SortedIsFixed([tx]);
    SortedIsFixed([]);
    assert Enumerates([tx], one) && TakeAtMost(SortNewestFirst([tx]), LATEST_WINDOW_SIZE) == [tx];
    assert Enumerates([], map[]) && TakeAtMost(SortNewestFirst([]), LATEST_WINDOW_SIZE) == [];
  }

  lemma {:induction false} ClientReads(t: State, history: seq<Transaction>) returns (u: State)
    requires Reachable(t, 1) && t.clients == map[] && IsLatest(history, t.server.store, LATEST_WINDOW_SIZE)
    ensures u == t.(clients := map[0 := Client(HasRead, history, [], [], |t.log|, 0)]) && Reachable(u, 1)
  {
    hide Reachable, IsLatest;
    OneMore(t, 1, Connect(0));
    var v := Apply(t, Connect(0));
    OneMore(v, 1, ReadHistory(0, history));
    u := Apply(v, ReadHistory(0, history));
  }

  lemma {:induction false} Sends(t: State, client: Client) returns (u: State)
    requires Reachable(t, 1) && t.clients == map[0 := client] && client.phase == HasRead
    ensures u == t.(clients := map[0 := client.(phase := Sent, sentAt := |t.log|,
                                                queue := client.queue + [InitialTransactions(client.history)])])
    ensures Reachable(u, 1)
  {
    hide Reachable;
    OneMore(t, 1, SendInitial(0));
    u := Apply(t, SendInitial(0));
  }

  lemma {:induction false} Tells(t: State, client: Client, tx: Transaction) returns (u: State)
    requires Reachable(t, 1) && t == OneStored(tx, map[0 := client])
    ensures u == t.(clients := map[0 := ToldTo(client, tx)], unannounced := map[], log := [Wrote(tx), Told(tx)])
    ensures Reachable(u, 1)
  {
    hide Reachable;
    OneMore(t, 1, Broadcast(0));
    u := Apply(t, Broadcast(0));
    assert t.log + [Told(tx)] == [Wrote(tx), Told(tx)];
    assert u.clients == map[0 := ToldTo(client, tx)];
  }

  lemma {:induction false} DeliversTwo(t: State, client: Client, m: Message, m': Message) returns (u: State)
    requires Reachable(t, 1) && t.clients == map[0 := client] && client.queue == [m, m'] && client.feed == []
    ensures u == t.(clients := map[0 := client.(queue := [], feed := Handled(Handled([], m), m'))]) && Reachable(u, 1)
  {
    hide Reachable, Handled;
    OneMore(t, 1, Deliver(0));
    var v := Apply(t, Deliver(0));
    assert client.queue[1..] == [m'];
    OneMore(v, 1, Deliver(0));
    u := Apply(v, Deliver(0));
    assert [m'][1..] == [];
  }

  lemma {:induction false} OneLog(tx: Transaction)
    ensures Announced([Wrote(tx), Told(tx)]) == {tx} && Announced([Wrote(tx)]) == {} && Announced([]) == {}
    ensures Persisted([Wrote(tx)]) == {tx} && Persisted([]) == {}
  {
    LogFacts([], Wrote(tx));
    LogFacts([Wrote(tx)], Told(tx));
    assert [] + [Wrote(tx)] == [Wrote(tx)] && [Wrote(tx)] + [Told(tx)] == [Wrote(tx), Told(tx)];
  }

  /** The gap is real: a transaction persisted and broadcast between a client's history read and its send is lost to it. */
  lemma {:induction false} GapIsReal(tx: Transaction) returns (t: State)
    ensures Reachable(t, 1) && CaughtUp(t, 0) && tx in Announced(t.log)
    ensures t.clients[0].readAt <= t.clients[0].sentAt <= |t.log| && InTheGap(t.log, t.clients[0], tx)
    ensures t.clients[0].feed == []
  {
    hide Reachable, IsLatest, SortNewestFirst;
    OneListing(tx);
    StartIsReachable(OneCall(tx));
    var read := ClientReads(OneCall(tx), []);
    StoreOne(read, tx);
    var told := Tells(OneStored(tx, read.clients), read.clients[0], tx);
    var sent := Sends(told, told.clients[0]);
    t := DeliversTwo(sent, sent.clients[0], TransactionReceived(tx), InitialTransactions([]));
    OneLog(tx);
    assert t.log[..2] == t.log && t.log[..0] == [];
  }

  /** Doubling is real: a transaction in the history that is broadcast after the history was sent is shown twice. */
  lemma {:induction false} DoublingIsReal(tx: Transaction) returns (t: State)
    ensures Reachable(t, 1) && CaughtUp(t, 0)
    ensures t.clients[0].feed == [tx, tx]
  {
    hide Reachable, IsLatest, SortNewestFirst;
    OneListing(tx);
    StartIsReachable(OneCall(tx));
    StoreOne(OneCall(tx), tx);
    var read := ClientReads(OneStored(tx, map[]), [tx]);
    var sent := Sends(read, read.clients[0]);
    var told := Tells(sent, sent.clients[0], tx);
    t := DeliversTwo(told, told.clients[0], InitialTransactions([tx]), TransactionReceived(tx));
    TwoCopies(tx);
  }

  lemma {:induction false} TwoCopies(tx: Transaction)
    ensures Handled(Handled([], InitialTransactions([tx])), TransactionReceived(tx)) == [tx, tx]
  {
    SortedIsFixed([tx]);
    SortedIsFixed([tx, tx]);
    assert [tx] + [tx] == [tx, tx];
  }

  // ----- Concurrent trims

  /** Writer 0 first adds `base` on its own; then every writer makes one call. */
  ghost function BaseThen(base: seq<Transaction>, txs: seq<Transaction>): seq<ConcurrentStore.Writer>
    requires txs != []
  {
    ConcurrentStore.Lineup(txs, 0)[0 := ConcurrentStore.Writer(base + [txs[0]], ConcurrentStore.Ready)]
  }

  ghost predicate Quiet(t: State, base: seq<Transaction>, txs: seq<Transaction>, i: nat)
    requires txs != [] && i <= |base|
  {
    && t.server == ConcurrentStore.State(ConcurrentStore.Grown(map[], base[..i]), BaseThen(base[i..], txs))
    && t.known == t.server.store && t.unannounced == map[] && t.clients == map[]
  }

  lemma {:induction false} WritesOne(t: State, base: seq<Transaction>, txs: seq<Transaction>, i: nat) returns (u: State)
    requires txs != [] && i < |base| && Quiet(t, base, txs, i) && Reachable(t, |txs|)
    requires base[i].id !in t.known
    ensures Reachable(u, |txs|) && u.clients == map[] && u.unannounced == map[0 := base[i]]
    ensures u.known == u.server.store == t.known[base[i].id := base[i]]
    ensures u.server.writers == BaseThen(base[i + 1..], txs)[0 := ConcurrentStore.Writer(base[i + 1..] + [txs[0]], ConcurrentStore.Checking)]
  {
    hide Reachable;
    var e := ConcurrentStore.Write(0);
    var calls := base[i..] + [txs[0]];
    assert t.server.writers[0].calls == calls && calls[0] == base[i] && calls[1..] == base[i + 1..] + [txs[0]];
    OneMore(t, |txs|, Store(e));
    u := Apply(t, Store(e));
  }

  lemma {:induction false} ChecksOne(t: State, ws: seq<ConcurrentStore.Writer>, calls: seq<Transaction>) returns (u: State)
    requires ws != [] && ws[0] == ConcurrentStore.Writer(calls, ConcurrentStore.Ready)
    requires t.server.writers == ws[0 := ConcurrentStore.Writer(calls, ConcurrentStore.Checking)]
    requires |t.server.store| <= MAX_TRANSACTIONS && Reachable(t, |ws|)
    ensures u == t.(server := ConcurrentStore.State(t.server.store, ws)) && Reachable(u, |ws|)
  {
    hide Reachable;
    OneMore(t, |ws|, Store(ConcurrentStore.Check(0)));
    u := Apply(t, Store(ConcurrentStore.Check(0)));
    assert u.server.writers == ws;
  }

  lemma {:induction false} AddsOne(t: State, base: seq<Transaction>, txs: seq<Transaction>, i: nat) returns (u: State)
    requires txs != [] && i < |base| <= MAX_TRANSACTIONS && Quiet(t, base, txs, i) && Reachable(t, |txs|)
    requires ConcurrentStore.Fresh(map[], base)
    ensures Quiet(u, base, txs, i + 1) && Reachable(u, |txs|)
  {
    hide Reachable;
    NewInBase(base, i);
    u := WritesOne(t, base, txs, i);
    BaseSize(base, i + 1);
    assert base[..i + 1][..i] == base[..i];
    u := ChecksOne(u, BaseThen(base[i + 1..], txs), base[i + 1..] + [txs[0]]);
    u := TellsNobody(u, |txs|, base[i]);
  }

  lemma {:induction false} TellsNobody(t: State, writers: nat, tx: Transaction) returns (u: State)
    requires Reachable(t, writers) && t.unannounced == map[0 := tx] && t.clients == map[]
    requires |t.server.writers| == writers > 0 && t.server.writers[0].phase == ConcurrentStore.Ready
    ensures u == t.(unannounced := map[], log := u.log) && Reachable(u, writers)
  {
    hide Reachable;
    OneMore(t, writers, Broadcast(0));
    u := Apply(t, Broadcast(0));
    assert u.clients == map[] && u.unannounced == map[];
  }

  lemma {:induction false} BaseSize(base: seq<Transaction>, i: nat)
    requires i <= |base| && ConcurrentStore.Fresh(map[], base)
    ensures |ConcurrentStore.Grown(map[], base[..i])| == i
  {
    ConcurrentStore.GrownFresh(map[], base[..i]);
  }

  lemma {:induction false} NewInBase(base: seq<Transaction>, i: nat)
    requires i < |base| && ConcurrentStore.Fresh(map[], base)
    ensures base[i].id !in ConcurrentStore.Grown(map[], base[..i])
  {
    ConcurrentStore.GrownFresh(map[], base[..i]);
  }

  lemma {:induction false} AddsBase(base: seq<Transaction>, txs: seq<Transaction>, i: nat) returns (t: State)
    requires txs != [] && i <= |base| <= MAX_TRANSACTIONS && ConcurrentStore.Fresh(map[], base)
    ensures Quiet(t, base, txs, i) && Reachable(t, |txs|)
    decreases i
  {
    if i == 0 {
      t := State(ConcurrentStore.State(map[], BaseThen(base, txs)), map[], map[], map[], map[], []);
      assert base[0..] == base && base[..0] == [];
      StartIsReachable(t);
    } else {
      t := AddsBase(base, txs, i - 1);
      t := AddsOne(t, base, txs, i - 1);
    }
  }

  /** While the lineup runs, a writer still has its call, with an id nobody has written, or has made it. */
  ghost predicate WriterOk(t: State, txs: seq<Transaction>, w: nat)
    requires w < |txs| == |t.server.writers|
  {
    var x := t.server.writers[w];
    if x.calls == [] then w in t.unannounced && t.unannounced[w] == txs[w]
    else x.calls == [txs[w]] && w !in t.unannounced && txs[w].id !in t.known
  }

  ghost predicate LineupOk(t: State, txs: seq<Transaction>) {
    && |txs| == |t.server.writers| && t.clients == map[]
    && forall w | 0 <= w < |txs| :: WriterOk(t, txs, w)
  }

  lemma {:induction false} LiftStep(t: State, txs: seq<Transaction>, e: ConcurrentStore.Step)
    requires LineupOk(t, txs) && ConcurrentStore.Enabled(t.server, e)
    requires forall v, w | 0 <= v < w < |txs| :: txs[v].id != txs[w].id
    ensures Enabled(t, Store(e)) && LineupOk(Apply(t, Store(e)), txs)
    ensures Apply(t, Store(e)).server == ConcurrentStore.Apply(t.server, e)
  {
    assert WriterOk(t, txs, e.w);
    var u := Apply(t, Store(e));
    forall w | 0 <= w < |txs| ensures WriterOk(u, txs, w) {
      assert WriterOk(t, txs, w);
    }
  }

  lemma {:induction false} LiftRun(t: State, txs: seq<Transaction>, states: seq<ConcurrentStore.State>,
                                   steps: seq<ConcurrentStore.Step>, i: nat) returns (u: State)
    requires ConcurrentStore.Run(states, steps) && i <= |steps| && states[0] == t.server
    requires LineupOk(t, txs) && Reachable(t, |txs|)
    requires forall v, w | 0 <= v < w < |txs| :: txs[v].id != txs[w].id
    ensures LineupOk(u, txs) && Reachable(u, |txs|) && u.server == states[i]
    decreases i
  {
    u := t;
    if i > 0 {
      hide LineupOk, Reachable, Enabled, Apply, ConcurrentStore.Apply;
      u := LiftRun(t, txs, states, steps, i - 1);
      LiftStep(u, txs, steps[i - 1]);
      OneMore(u, |txs|, Store(steps[i - 1]));
      u := Apply(u, Store(steps[i - 1]));
    }
  }

  ghost predicate Tellable(t: State, txs: seq<Transaction>, i: nat)
    requires i <= |txs|
  {
    && |txs| == |t.server.writers| && t.clients == map[] && ConcurrentStore.Done(t.server)
    && (forall w | i <= w < |txs| :: w in t.unannounced && t.unannounced[w] == txs[w])
    && forall w | 0 <= w < i :: txs[w] in Announced(t.log)
  }

  lemma {:induction false} TellsOne(t: State, txs: seq<Transaction>, i: nat)
    requires i < |txs| && Tellable(t, txs, i)
    ensures Enabled(t, Broadcast(i)) && Tellable(Apply(t, Broadcast(i)), txs, i + 1)
    ensures Apply(t, Broadcast(i)).server == t.server
  {
    assert t.server.writers[i] in t.server.writers;
    LogFacts(t.log, Told(txs[i]));
  }

  lemma {:induction false} TellsAll(t: State, txs: seq<Transaction>, i: nat) returns (u: State)
    requires i <= |txs| && Tellable(t, txs, 0) && Reachable(t, |txs|)
    ensures Tellable(u, txs, i) && Reachable(u, |txs|) && u.server == t.server
    decreases i
  {
    u := t;
    if i > 0 {
      hide Tellable, Reachable, Enabled, Apply;
      u := TellsAll(t, txs, i - 1);
      TellsOne(u, txs, i - 1);
      OneMore(u, |txs|, Broadcast(i - 1));
      u := Apply(u, Broadcast(i - 1));
    }
  }

  lemma {:induction false} ConnectsAfterwards(t: State, writers: nat, history: seq<Transaction>) returns (u: State)
    requires Reachable(t, writers) && t.clients == map[] && IsLatest(history, t.server.store, LATEST_WINDOW_SIZE)
    ensures Reachable(u, writers) && CaughtUp(u, 0) && u.server == t.server && u.log == t.log
    ensures u.clients[0].feed == Handled([], InitialTransactions(history))
    ensures u.clients[0].readAt == u.clients[0].sentAt == |t.log|
  {
    hide Reachable, IsLatest, Handled;
    OneMore(t, writers, Connect(0));
    u := Apply(t, Connect(0));
    OneMore(u, writers, ReadHistory(0, history));
    u := Apply(u, ReadHistory(0, history));
    OneMore(u, writers, SendInitial(0));
    u := Apply(u, SendInitial(0));
    OneMore(u, writers, Deliver(0));
    u := Apply(u, Deliver(0));
  }

  // ----- What is left

  lemma {:induction false} GrownHolds(base: Contents, txs: seq<Transaction>, k: string)
    requires ConcurrentStore.Fresh(base, txs)
    ensures k in base ==> k in ConcurrentStore.Grown(base, txs) && ConcurrentStore.Grown(base, txs)[k] == base[k]
    ensures k in ConcurrentStore.Grown(base, txs) && k !in base ==>
              exists i | 0 <= i < |txs| :: txs[i].id == k && ConcurrentStore.Grown(base, txs)[k] == txs[i]
  {
    if txs != [] {
      var rest, last := txs[..|txs| - 1], txs[|txs| - 1];
      GrownHolds(base, rest, k);
      assert forall i | 0 <= i < |rest| :: rest[i] == txs[i];
    }
  }

  ghost predicate AllOlder(txs: seq<Transaction>, base: Contents) {
    forall x, k | x in txs && k in base :: x.timestamp < base[k].timestamp
  }

  lemma {:induction false} LeftIsNewer(base: Contents, txs: seq<Transaction>, left: Contents, gone: string)
    requires ConcurrentStore.Fresh(base, txs) && AllOlder(txs, base)
    requires Submap(left, ConcurrentStore.Grown(base, txs)) && NoDropIsNewer(ConcurrentStore.Grown(base, txs), left)
    requires gone in base && gone !in left
    ensures Submap(left, Without(base, gone))
  {
    hide ConcurrentStore.Grown;
    GrownHolds(base, txs, gone);
    forall k | k in left ensures k in base && left[k] == base[k] && k != gone {
      GrownHolds(base, txs, k);
    }
  }

  /** If all of `txs` are older than all of `base`, they are exactly what the trims evict. */
  lemma {:induction false} OldOnesGo(base: Contents, txs: seq<Transaction>, left: Contents)
    requires ConcurrentStore.Fresh(base, txs) && AllOlder(txs, base)
    requires Submap(left, ConcurrentStore.Grown(base, txs)) && NoDropIsNewer(ConcurrentStore.Grown(base, txs), left)
    requires |left| == |base|
    ensures left == base
  {
    hide ConcurrentStore.Grown;
    if gone :| gone in base && gone !in left {
      LeftIsNewer(base, txs, left, gone);
      SubmapSize(left, Without(base, gone));
      RemoveOne(base, gone);
    } else {
      forall k | k in base ensures left[k] == base[k] {
        GrownHolds(base, txs, k);
      }
      SubmapSize(base, left);
    }
  }

  lemma {:induction false} LineupStarts(t: State, base: seq<Transaction>, txs: seq<Transaction>)
    requires txs != [] && Quiet(t, base, txs, |base|)
    requires forall i | 0 <= i < |txs| :: txs[i].id !in t.known
    ensures t.server == ConcurrentStore.State(ConcurrentStore.Grown(map[], base), ConcurrentStore.Lineup(txs, 0))
    ensures LineupOk(t, txs)
  {
    assert base[..|base|] == base && base[|base|..] + [txs[0]] == [txs[0]];
    assert BaseThen(base[|base|..], txs) == ConcurrentStore.Lineup(txs, 0);
  }

  lemma {:induction false} StoredHistory(m: Contents) returns (history: seq<Transaction>)
    requires |m| <= MAX_TRANSACTIONS
    ensures IsLatest(history, m, LATEST_WINDOW_SIZE)
    ensures var feed := Handled([], InitialTransactions(history));
            |feed| == |m| && forall x <- feed :: x.id in m && m[x.id] == x
  {
    var values := Listing(m);
    EnumerationSize(values, m);
    SameBagSameLength(SortNewestFirst(values), values);
    history := SortNewestFirst(values);
    SortedIsFixed(history);
    assert TakeAtMost(history, LATEST_WINDOW_SIZE) == history;
  }

  /**
   * Reached by as many writers as `txs` has members: all of `txs` were persisted and broadcast before client 0 read
   * its history, and the client, which has caught up, shows none of them and only as many entries as the floor.
   */
  ghost predicate LosesAll(u: State, txs: seq<Transaction>) {
    && Reachable(u, |txs|) && CaughtUp(u, 0)
    && u.clients[0].readAt == u.clients[0].sentAt == |u.log|
    && |u.clients[0].feed| == 201 - |txs|
    && forall x <- txs ::
         x in Announced(u.log) && !InTheGap(u.log, u.clients[0], x) && x !in u.clients[0].feed
  }

  /**
   * The floor is reached: N writers that bring the store to 201 entries, with transactions older than all others,
   * can leave 201 - N entries. A client that connects afterwards is shown those and none of the N transactions,
   * although all were persisted and broadcast before it connected.
   */
  lemma {:induction false} ConcurrentTrimsLoseBroadcasts(base: seq<Transaction>, txs: seq<Transaction>)
    requires ConcurrentStore.Fresh(map[], base) && txs != [] && |base| + |txs| == 201
    requires ConcurrentStore.Fresh(ConcurrentStore.Grown(map[], base), txs)
    requires AllOlder(txs, ConcurrentStore.Grown(map[], base))
    ensures exists u :: LosesAll(u, txs)
  {
    hide Reachable, IsLatest, Handled, ConcurrentStore.Grown, AllOlder, ConcurrentStore.Done;
    var n, full := |txs|, ConcurrentStore.Grown(map[], base);
    var t := TrimsLeaveBase(base, txs);
    t := TellsAll(t, txs, n);
    BaseSize(base, |base|);
    assert base[..|base|] == base;
    var history := StoredHistory(t.server.store);
    var u := ConnectsAfterwards(t, n, history);
    AllTold(t, u, txs, full, n);
    assert LosesAll(u, txs);
  }

  /** All have left the trim, and what is left is what was there before they came. */
  lemma {:induction false} TrimsLeaveBase(base: seq<Transaction>, txs: seq<Transaction>) returns (t: State)
    requires ConcurrentStore.Fresh(map[], base) && txs != [] && |base| + |txs| == 201
    requires ConcurrentStore.Fresh(ConcurrentStore.Grown(map[], base), txs)
    requires AllOlder(txs, ConcurrentStore.Grown(map[], base))
    ensures Reachable(t, |txs|) && Tellable(t, txs, 0) && t.server.store == ConcurrentStore.Grown(map[], base)
  {
    hide Reachable, ConcurrentStore.Enabled, ConcurrentStore.Apply, ConcurrentStore.Grown, LineupOk, ConcurrentStore.Lineup, Quiet, Tellable, AllOlder;
    var full := ConcurrentStore.Grown(map[], base);
    t := AddsBase(base, txs, |base|);
    QuietKnown(t, base, txs);
    LineupStarts(t, base, txs);
    BaseSize(base, |base|);
    assert base[..|base|] == base;
    var settled := ConcurrentStore.LowerBoundIsReached(full, txs);
    var states, steps :| ConcurrentStore.RunBetween(t.server, settled, states, steps);
    t := LiftRun(t, txs, states, steps, |steps|);
    OldOnesGo(full, txs, settled.store);
    LineupDone(t, txs);
  }

  lemma {:induction false} QuietKnown(t: State, base: seq<Transaction>, txs: seq<Transaction>)
    requires txs != [] && Quiet(t, base, txs, |base|)
    ensures t.known == ConcurrentStore.Grown(map[], base)
  {
    assert base[..|base|] == base;
  }

  lemma {:induction false} LineupDone(t: State, txs: seq<Transaction>)
    requires LineupOk(t, txs) && ConcurrentStore.Done(t.server)
    ensures Tellable(t, txs, 0)
  {
    forall w | 0 <= w < |txs| ensures w in t.unannounced && t.unannounced[w] == txs[w] {
      assert WriterOk(t, txs, w) && t.server.writers[w] in t.server.writers;
    }
  }

  lemma {:induction false} AllTold(t: State, u: State, txs: seq<Transaction>, base: Contents, writers: nat)
    requires Tellable(t, txs, |txs|) && Reachable(t, writers) && u.log == t.log
    requires CaughtUp(u, 0) && u.clients[0].readAt == u.clients[0].sentAt == |u.log|
    requires ConcurrentStore.Fresh(base, txs) && forall x <- u.clients[0].feed :: x.id in base
    ensures forall x <- txs ::
              x in Announced(u.log) && !InTheGap(u.log, u.clients[0], x) && x !in u.clients[0].feed
  {
    ReachableIsOk(t, writers);
    assert u.log[..|u.log|] == u.log;
  }

  // ----- Two writers, and every other number of them

  ghost function Numbers(from: nat, to: nat, t: int): seq<Transaction>
    requires from <= to <= 1000
  {
    seq(to - from, i requires 0 <= i < to - from => Numbered(from + i, t))
  }

  lemma {:induction false} NumbersAreDistinct(from: nat, to: nat, t: int)
    requires from <= to <= 1000
    ensures ConcurrentStore.Fresh(map[], Numbers(from, to, t))
  {
    forall i, j | 0 <= i < j < to - from ensures Numbers(from, to, t)[i].id != Numbers(from, to, t)[j].id {
      NumberedIsInjective(from + i, t, from + j, t);
    }
  }

  lemma {:induction false} NumbersAreFresh(n: nat, to: nat, i: nat)
    requires i < n <= to <= 1000
    ensures Numbered(i, 0).id !in ConcurrentStore.Grown(map[], Numbers(n, to, 1))
  {
    var base := Numbers(n, to, 1);
    NumbersAreDistinct(n, to, 1);
    GrownHolds(map[], base, Numbered(i, 0).id);
    forall j | 0 <= j < |base| ensures base[j].id != Numbered(i, 0).id {
      NumberedIsInjective(n + j, 1, i, 0);
    }
  }

  lemma {:induction false} NumbersAreNewer(n: nat, to: nat, k: string)
    requires n <= to <= 1000 && k in ConcurrentStore.Grown(map[], Numbers(n, to, 1))
    ensures ConcurrentStore.Grown(map[], Numbers(n, to, 1))[k].timestamp == 1
  {
    var base := Numbers(n, to, 1);
    NumbersAreDistinct(n, to, 1);
    GrownHolds(map[], base, k);
    var i :| 0 <= i < |base| && base[i].id == k && ConcurrentStore.Grown(map[], base)[k] == base[i];
    SameNumberSameId(n + i, 1, 1);
  }

  /**
   * One such run for each number of writers from 1 to 201, two writers included: n transactions of time 0 and
   * 201 - n of time 1, all broadcast, and a client that connects afterwards and is shown only the latter.
   */
  lemma {:induction false} EveryNumberOfWritersLoses(n: nat)
    requires 1 <= n <= 201
    ensures exists u :: LosesAll(u, Numbers(0, n, 0))
  {
    hide LosesAll, Numbered, ConcurrentStore.Grown;
    var base, txs := Numbers(n, MAX_TRANSACTIONS + 1, 1), Numbers(0, n, 0);
    NumbersAreDistinct(n, MAX_TRANSACTIONS + 1, 1);
    NumbersAreDistinct(0, n, 0);
    forall i | 0 <= i < n ensures txs[i].id !in ConcurrentStore.Grown(map[], base) && txs[i].timestamp == 0 {
      NumbersAreFresh(n, MAX_TRANSACTIONS + 1, i);
      SameNumberSameId(i, 0, 0);
    }
    forall k | k in ConcurrentStore.Grown(map[], base) ensures ConcurrentStore.Grown(map[], base)[k].timestamp == 1 {
      NumbersAreNewer(n, MAX_TRANSACTIONS + 1, k);
    }
    ConcurrentTrimsLoseBroadcasts(base, txs);
  }
}
