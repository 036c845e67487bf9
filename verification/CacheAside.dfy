/**
 * The rules of the cache-aside service, as relations between the worlds before and after one operation, and what
 * they promise over whole sequential runs.
 */
module CacheAside {
  import opened Transactions
  import opened StableSort
  import opened RecentWindow

  /** A cached document: one transaction or a list. Reading one as the other fails to decode. */
  datatype Payload = One(tx: Transaction) | Many(list: seq<Transaction>)

  datatype Slot = Slot(payload: Payload, expiresAt: Option<int>)

  datatype World = World(store: Contents, cached: map<string, Slot>, connected: bool)

  const LIST_KEY: string := "t:all"

  function KeyFor(id: string): string {
    "t:" + id
  }

  /** Keys of different ids differ, and the key of a transaction is never the list key. */
  lemma {:induction false} KeysAreApart(a: string, b: string)
    ensures KeyFor(a) == KeyFor(b) ==> a == b
    ensures KeyFor(a) == LIST_KEY <==> a == "all"
    ensures |a| == 36 ==> KeyFor(a) != LIST_KEY
  {
    assert KeyFor(a)[2..] == a && KeyFor(b)[2..] == b;
    assert LIST_KEY[2..] == "all" && LIST_KEY == "t:" + "all";
  }

  // ----- Reading the cache

  ghost function Fetched(w: World, key: string, now: int): Option<Payload> {
    if !w.connected || key !in w.cached then None
    else if w.cached[key].expiresAt.Some? && w.cached[key].expiresAt.value <= now then None
    else Some(w.cached[key].payload)
  }

  ghost function CachedList(w: World, now: int): Option<seq<Transaction>> {
    var p := Fetched(w, LIST_KEY, now);
    if p.Some? && p.value.Many? then Some(p.value.list) else None
  }

  ghost function CachedOne(w: World, id: string, now: int): Option<Transaction> {
    var p := Fetched(w, KeyFor(id), now);
    if p.Some? && p.value.One? then Some(p.value.tx) else None
  }

  ghost function WithOne(w: World, tx: Transaction): World {
    if w.connected then w.(cached := w.cached[KeyFor(tx.id) := Slot(One(tx), None)]) else w
  }

  ghost function WithList(w: World, list: seq<Transaction>, ttl: Option<int>, now: int): World {
    if w.connected then
      w.(cached := w.cached[LIST_KEY := Slot(Many(list), if ttl.None? then None else Some(now + ttl.value))])
    else w
  }

  ghost function WithoutList(w: World): World {
    if w.connected then w.(cached := w.cached - {LIST_KEY}) else w
  }

  // ----- The operations

  /** Persist, refresh the single entry, drop the list. */
  ghost predicate Processed(w: World, tx: Transaction, w': World) {
    && NewestOf(w.store[tx.id := tx], w'.store, MAX_TRANSACTIONS)
    && w' == WithoutList(WithOne(w.(store := w'.store), tx))
  }

  ghost predicate GotAll(w: World, now: int, ttl: Option<int>, r: seq<Transaction>, w': World) {
    if CachedList(w, now).Some? then r == CachedList(w, now).value && w' == w
    else Enumerates(r, w.store) && w' == WithList(w, r, ttl, now)
  }

  ghost predicate GotLatest(w: World, now: int, count: int, r: seq<Transaction>, w': World) {
    && w' == w
    && if CachedList(w, now).Some? then r == TakeAtMost(SortNewestFirst(CachedList(w, now).value), count)
       else IsLatest(r, w.store, count)
  }

  ghost predicate GotById(w: World, now: int, id: string, r: Option<Transaction>, w': World) {
    if CachedOne(w, id, now).Some? then r == CachedOne(w, id, now) && w' == w
    else if id in w.store then r == Some(w.store[id]) && w' == WithOne(w, w.store[id])
    else r == None && w' == w
  }

  // ----- Runs

  datatype Op =
    | Process(tx: Transaction)
    | GetAll(now: int, all: seq<Transaction>)
    | GetLatest(now: int, count: int, latest: seq<Transaction>)
    | GetById(now: int, id: string, found: Option<Transaction>)
    | Lose(keys: set<string>)              // expiry or eviction of any keys
    | Switch(connected: bool)              // the connection comes or goes

  ghost predicate Step(w: World, op: Op, ttl: Option<int>, w': World) {
    match op
    case Process(tx) => Processed(w, tx, w')
    case GetAll(now, all) => GotAll(w, now, ttl, all, w')
    case GetLatest(now, count, latest) => GotLatest(w, now, count, latest, w')
    case GetById(now, id, found) => GotById(w, now, id, found, w')
    case Lose(keys) => w' == w.(cached := w.cached - keys)
    case Switch(connected) => w' == w.(connected := connected)
  }

  ghost predicate Run(worlds: seq<World>, ops: seq<Op>, ttl: Option<int>) {
    && |worlds| == |ops| + 1
    && worlds[0].store == map[] && worlds[0].cached == map[]
    && forall i | 0 <= i < |ops| :: Step(worlds[i], ops[i], ttl, worlds[i + 1])
  }

  // ----- Transparency of the list

  /** The cached list is absent, or it is the store. */
  ghost predicate ListFresh(w: World) {
    LIST_KEY in w.cached ==>
      w.cached[LIST_KEY].payload.Many? && Enumerates(w.cached[LIST_KEY].payload.list, w.store)
  }

  /**
   * A write keeps the list fresh if and only if the cache is connected, or holds no list, or the write leaves the
   * store as it was.
   */
  lemma {:induction false} ProcessKeepsListFreshExactlyWhen(w: World, tx: Transaction, w': World)
    requires ListFresh(w) && Processed(w, tx, w')
    ensures ListFresh(w') <==> w.connected || LIST_KEY !in w.cached || w'.store == w.store
  {
    if !w.connected && LIST_KEY in w.cached && ListFresh(w') {
      SameListingSameContents(w.cached[LIST_KEY].payload.list, w.store, w'.store);
    }
  }

  lemma {:induction false} StepKeepsListFresh(w: World, op: Op, ttl: Option<int>, w': World)
    requires ListFresh(w) && Step(w, op, ttl, w')
    requires op.Process? ==> w.connected
    ensures ListFresh(w')
  {
    match op
    case GetById(now, id, found) =>
      if id in w.store {
        KeysAreApart(id, id);
        assert w.store[id].id == id;
      }
    case _ =>
  }

  ghost predicate FreshAllAlong(worlds: seq<World>, n: nat)
    requires n < |worlds|
  {
    forall i | 0 <= i <= n :: ListFresh(worlds[i])
  }

  /** The cache can be told about the write, or holds no list, or the write leaves the store as it was. */
  ghost predicate HarmlessToList(w: World, w': World) {
    w.connected || LIST_KEY !in w.cached || w'.store == w.store
  }

  /** Over whole runs, whatever the connection does: the list is fresh at every moment if and only if every write is harmless. */
  lemma {:induction false} ListFreshExactlyWhen(worlds: seq<World>, ops: seq<Op>, ttl: Option<int>, n: nat)
    requires Run(worlds, ops, ttl) && n <= |ops|
    ensures FreshAllAlong(worlds, n) <==>
            forall i | 0 <= i < n && ops[i].Process? :: HarmlessToList(worlds[i], worlds[i + 1])
    decreases n
  {
    if n > 0 {
      hide ListFresh, HarmlessToList, Processed;
      var m := n - 1;
      ListFreshExactlyWhen(worlds, ops, ttl, m);
      StepMeansProcess(worlds[m], ops[m], ttl, worlds[n]);
      if FreshAllAlong(worlds, m) {
        if ops[m].Process? {
          HarmlessExactlyWhen(worlds[m], ops[m].tx, worlds[n]);
        } else {
          StepKeepsListFresh(worlds[m], ops[m], ttl, worlds[n]);
        }
      }
      assert FreshAllAlong(worlds, n) <==> FreshAllAlong(worlds, m) && ListFresh(worlds[n]);
    }
  }

  lemma {:induction false} HarmlessExactlyWhen(w: World, tx: Transaction, w': World)
    requires ListFresh(w) && Processed(w, tx, w')
    ensures ListFresh(w') <==> HarmlessToList(w, w')
  {
    ProcessKeepsListFreshExactlyWhen(w, tx, w');
  }

  lemma {:induction false} ListStaysFresh(worlds: seq<World>, ops: seq<Op>, ttl: Option<int>, n: nat)
    requires Run(worlds, ops, ttl) && n <= |ops|
    requires forall i | 0 <= i < n && ops[i].Process? :: worlds[i].connected
    ensures ListFresh(worlds[n])
  {
    ListFreshExactlyWhen(worlds, ops, ttl, n);
    assert FreshAllAlong(worlds, n);
  }

  /** Without a connection no operation touches the cache, whatever it holds, and every read answers from the store. */
  lemma {:induction false} DisconnectedStepsUseStore(w: World, op: Op, ttl: Option<int>, w': World)
    requires Step(w, op, ttl, w') && !w.connected
    ensures !op.Lose? ==> w'.cached == w.cached
    ensures !op.Process? ==> w'.store == w.store
    ensures op.GetAll? ==> Enumerates(op.all, w.store)
    ensures op.GetLatest? ==> IsLatest(op.latest, w.store, op.count)
    ensures op.GetById? ==> op.found == if op.id in w.store then Some(w.store[op.id]) else None
  {
  }

  ghost predicate ConstantConnection(worlds: seq<World>) {
    forall i | 0 <= i < |worlds| :: worlds[i].connected == worlds[0].connected
  }

  /**
   * The cache is invisible. Over any sequential run with constant connectivity and arbitrary loss of keys,
   * `GetAllAsync` lists exactly the store and `GetLatestAsync` answers what the store itself could have answered,
   * hence with the same timestamps, on a hit as on a miss.
   */
  lemma {:induction false} CacheIsTransparent(worlds: seq<World>, ops: seq<Op>, ttl: Option<int>, n: nat)
    requires Run(worlds, ops, ttl) && n < |ops| && ConstantConnection(worlds)
    ensures ops[n].GetAll? ==> Enumerates(ops[n].all, worlds[n].store)
    ensures ops[n].GetLatest? ==> IsLatest(ops[n].latest, worlds[n].store, ops[n].count)
    ensures ops[n].GetLatest? ==> forall own | IsLatest(own, worlds[n].store, ops[n].count) ::
              Timestamps(ops[n].latest) == Timestamps(own)
  {
    var w, op := worlds[n], ops[n];
    assert Step(w, op, ttl, worlds[n + 1]);
    if w.connected {
      ListStaysFresh(worlds, ops, ttl, n);
    }
    if op.GetLatest? {
      if CachedList(w, op.now).Some? {
        assert Enumerates(CachedList(w, op.now).value, w.store);
      }
      forall own | IsLatest(own, w.store, op.count) ensures Timestamps(op.latest) == Timestamps(own) {
        LatestIsDetermined(w.store, op.count, op.latest, own);
      }
    }
  }

  // ----- How old a cached list can get

  /** What read number `i` has put under the list key: the store as it was, until `ttl` after that read. */
  ghost predicate LeftBy(slot: Slot, worlds: seq<World>, ops: seq<Op>, i: nat, ttl: Option<int>)
    requires i < |ops| < |worlds|
  {
    && ops[i].GetAll? && Enumerates(ops[i].all, worlds[i].store)
    && slot == Slot(Many(ops[i].all), if ttl.Some? then Some(ops[i].now + ttl.value) else None)
  }

  lemma {:induction false} StepLeavesList(worlds: seq<World>, ops: seq<Op>, ttl: Option<int>, n: nat)
    requires Run(worlds, ops, ttl) && n < |ops| && ListIsList(worlds[n])
    requires "t:all" in worlds[n + 1].cached
    ensures LeftBy(worlds[n + 1].cached["t:all"], worlds, ops, n, ttl) ||
            ("t:all" in worlds[n].cached && worlds[n + 1].cached["t:all"] == worlds[n].cached["t:all"])
  {
    var w, op := worlds[n], ops[n];
    assert Step(w, op, ttl, worlds[n + 1]);
    if op.Process? {
      KeysAreApart(op.tx.id, op.tx.id);
    } else if op.GetById? && op.id in w.store {
      assert w.store[op.id].id == op.id;
      KeysAreApart(op.id, op.id);
    }
  }

  /** Over every sequential run, a cached list was left there by one `GetAllAsync`, to expire `ttl` after it. */
  lemma {:induction false} ListIsLeftByARead(worlds: seq<World>, ops: seq<Op>, ttl: Option<int>, n: nat) returns (i: nat)
    requires Run(worlds, ops, ttl) && n <= |ops| && "t:all" in worlds[n].cached
    ensures i < n && LeftBy(worlds[n].cached["t:all"], worlds, ops, i, ttl)
    decreases n
  {
    hide Step, LeftBy;
    ListKindAlways(worlds, ops, ttl, n - 1);
    StepLeavesList(worlds, ops, ttl, n - 1);
    if LeftBy(worlds[n].cached["t:all"], worlds, ops, n - 1, ttl) {
      i := n - 1;
    } else {
      i := ListIsLeftByARead(worlds, ops, ttl, n - 1);
    }
  }

  /**
   * Even when writes find the cache disconnected and their invalidations are skipped: a list that is served, whole to
   * `GetAllAsync` or in part to `GetLatestAsync`, is what the store held at a `GetAllAsync` less than `ttl` earlier.
   */
  lemma {:induction false} ServedListIsYoung(worlds: seq<World>, ops: seq<Op>, ttl: int, n: nat, now: int) returns (i: nat)
    requires Run(worlds, ops, Some(ttl)) && n <= |ops| && CachedList(worlds[n], now).Some?
    ensures i < n && ops[i].GetAll? && CachedList(worlds[n], now).value == ops[i].all
    ensures multiset(ops[i].all) == multiset(worlds[i].store.Values) && ops[i].now > now - ttl
    ensures n < |ops| && ops[n].GetAll? && ops[n].now == now ==> ops[n].all == ops[i].all
    ensures n < |ops| && ops[n].GetLatest? && ops[n].now == now ==>
              ops[n].latest == TakeAtMost(SortNewestFirst(ops[i].all), ops[n].count)
  {
    i := ListIsLeftByARead(worlds, ops, Some(ttl), n);
    assert n < |ops| ==> Step(worlds[n], ops[n], Some(ttl), worlds[n + 1]);
  }

  // ----- Reads by id

  /** The last processed version of every id. */
  ghost function Versions(ops: seq<Op>): Contents {
    if ops == [] then map[] else
      var last, rest := ops[|ops| - 1], Versions(ops[..|ops| - 1]);
      if last.Process? then rest[last.tx.id := last.tx] else rest
  }

  /** No cached single entry, and no stored one, is anything but the last processed version. */
  ghost predicate SinglesCurrent(w: World, versions: Contents) {
    && Submap(w.store, versions)
    && forall id: string | KeyFor(id) in w.cached && id != "all" ::
         id in versions && w.cached[KeyFor(id)] == Slot(One(versions[id]), None)
  }

  ghost predicate ListIsList(w: World) {
    LIST_KEY in w.cached ==> w.cached[LIST_KEY].payload.Many?
  }

  lemma {:induction false} ConnectedProcessKeepsSingles(w: World, versions: Contents, tx: Transaction, w': World, id: string)
    requires SinglesCurrent(w, versions) && Processed(w, tx, w') && w.connected
    requires KeyFor(id) in w'.cached && id != "all"
    ensures id in versions[tx.id := tx] && w'.cached[KeyFor(id)] == Slot(One(versions[tx.id := tx][id]), None)
  {
    KeysAreApart(id, tx.id);
  }

  lemma {:induction false} DisconnectedProcessAndSingles(w: World, versions: Contents, tx: Transaction, cached: map<string, Slot>)
    requires SinglesCurrent(w, versions) && cached == w.cached && tx.id != "all"
    ensures (forall id: string | KeyFor(id) in cached && id != "all" ::
               id in versions[tx.id := tx] && cached[KeyFor(id)] == Slot(One(versions[tx.id := tx][id]), None))
            <==> (KeyFor(tx.id) !in cached || versions[tx.id := tx] == versions)
  {
    if KeyFor(tx.id) in cached {
      assert tx.id in versions && cached[KeyFor(tx.id)] == Slot(One(versions[tx.id]), None);
      assert versions[tx.id] == tx <==> versions[tx.id := tx] == versions;
    }
  }

  lemma {:induction false} StoreStaysKnown(w: World, versions: Contents, tx: Transaction, w': World)
    requires Submap(w.store, versions) && Processed(w, tx, w')
    ensures Submap(w'.store, versions[tx.id := tx])
  {
    SubmapGrows(w.store, versions, tx);
    SubmapChain(w'.store, w.store[tx.id := tx], versions[tx.id := tx]);
  }

  /**
   * A write keeps every single entry current if and only if the cache is connected, or holds no entry under that
   * id, or already holds this very version.
   */
  lemma {:induction false} ProcessKeepsSinglesExactlyWhen(w: World, versions: Contents, tx: Transaction, w': World)
    requires SinglesCurrent(w, versions) && Processed(w, tx, w')
    ensures SinglesCurrent(w', versions[tx.id := tx]) <==>
            w.connected || KeyFor(tx.id) !in w.cached || versions[tx.id := tx] == versions
  {
    StoreStaysKnown(w, versions, tx, w');
    assert |tx.id| == 36;
    if w.connected {
      forall id: string | KeyFor(id) in w'.cached && id != "all"
        ensures id in versions[tx.id := tx] && w'.cached[KeyFor(id)] == Slot(One(versions[tx.id := tx][id]), None)
      {
        ConnectedProcessKeepsSingles(w, versions, tx, w', id);
      }
    } else {
      DisconnectedProcessAndSingles(w, versions, tx, w'.cached);
    }
  }

  lemma {:induction false} ReadKeepsSingles(w: World, versions: Contents, op: Op, ttl: Option<int>, w': World)
    requires SinglesCurrent(w, versions) && ListIsList(w)
    requires Step(w, op, ttl, w') && !op.Process?
    ensures SinglesCurrent(w', versions)
  {
    forall id: string | KeyFor(id) in w'.cached && id != "all"
      ensures id in versions && w'.cached[KeyFor(id)] == Slot(One(versions[id]), None)
    {
      KeysAreApart(id, "all");
      if op.GetById? {
        KeysAreApart(id, op.id);
      }
    }
  }

  lemma {:induction false} StepKeepsListKind(w: World, op: Op, ttl: Option<int>, w': World)
    requires ListIsList(w) && Step(w, op, ttl, w')
    ensures ListIsList(w')
  {
    if op.Process? {
      KeysAreApart(op.tx.id, op.tx.id);
    } else if op.GetById? && op.id in w.store {
      KeysAreApart(op.id, op.id);
      assert w.store[op.id].id == op.id;
    }
  }

  lemma {:induction false} StepMeansProcess(w: World, op: Op, ttl: Option<int>, w': World)
    requires Step(w, op, ttl, w')
    ensures op.Process? ==> Processed(w, op.tx, w')
  {
  }

  ghost predicate CurrentAllAlong(worlds: seq<World>, ops: seq<Op>, n: nat)
    requires n <= |ops| < |worlds|
  {
    forall i | 0 <= i <= n :: SinglesCurrent(worlds[i], Versions(ops[..i]))
  }

  /** The cache can be told about the write, or holds no entry of its id, or the write brings nothing new. */
  ghost predicate HarmlessToSingles(w: World, versions: Contents, tx: Transaction) {
    w.connected || KeyFor(tx.id) !in w.cached || versions[tx.id := tx] == versions
  }

  lemma {:induction false} ListKindAlways(worlds: seq<World>, ops: seq<Op>, ttl: Option<int>, n: nat)
    requires Run(worlds, ops, ttl) && n <= |ops|
    ensures ListIsList(worlds[n])
    decreases n
  {
    if n > 0 {
      hide ListIsList, Step;
      ListKindAlways(worlds, ops, ttl, n - 1);
      StepKeepsListKind(worlds[n - 1], ops[n - 1], ttl, worlds[n]);
    } else {
      assert worlds[0].cached == map[];
    }
  }

  lemma {:induction false} SinglesStepExactly(w: World, versions: Contents, op: Op, ttl: Option<int>, w': World)
    requires SinglesCurrent(w, versions) && ListIsList(w) && Step(w, op, ttl, w')
    ensures SinglesCurrent(w', if op.Process? then versions[op.tx.id := op.tx] else versions) <==>
            (op.Process? ==> HarmlessToSingles(w, versions, op.tx))
  {
    hide SinglesCurrent, ListIsList, Step;
    StepMeansProcess(w, op, ttl, w');
    if op.Process? {
      ProcessKeepsSinglesExactlyWhen(w, versions, op.tx, w');
    } else {
      ReadKeepsSingles(w, versions, op, ttl, w');
    }
  }

  lemma {:induction false} VersionsStep(ops: seq<Op>, n: nat)
    requires n < |ops|
    ensures Versions(ops[..n + 1]) ==
            if ops[n].Process? then Versions(ops[..n])[ops[n].tx.id := ops[n].tx] else Versions(ops[..n])
  {
    assert ops[..n + 1][..n] == ops[..n];
  }

  lemma {:induction false} OneMoreCurrent(worlds: seq<World>, ops: seq<Op>, ttl: Option<int>, m: nat)
    requires Run(worlds, ops, ttl) && m < |ops| && CurrentAllAlong(worlds, ops, m)
    ensures CurrentAllAlong(worlds, ops, m + 1) <==>
            (ops[m].Process? ==> HarmlessToSingles(worlds[m], Versions(ops[..m]), ops[m].tx))
  {
    hide SinglesCurrent, HarmlessToSingles, Step, Versions, ListIsList;
    ListKindAlways(worlds, ops, ttl, m);
    VersionsStep(ops, m);
    assert SinglesCurrent(worlds[m], Versions(ops[..m]));
    SinglesStepExactly(worlds[m], Versions(ops[..m]), ops[m], ttl, worlds[m + 1]);
  }

  lemma {:induction false} FewerCurrent(worlds: seq<World>, ops: seq<Op>, m: nat)
    requires m < |ops| < |worlds| && CurrentAllAlong(worlds, ops, m + 1)
    ensures CurrentAllAlong(worlds, ops, m)
  {
    hide SinglesCurrent, Versions;
  }

  ghost predicate WritesHarmless(worlds: seq<World>, ops: seq<Op>, n: nat)
    requires n <= |ops| < |worlds|
  {
    forall i | 0 <= i < n && ops[i].Process? :: HarmlessToSingles(worlds[i], Versions(ops[..i]), ops[i].tx)
  }

  lemma {:induction false} OneMoreHarmless(worlds: seq<World>, ops: seq<Op>, m: nat)
    requires m < |ops| < |worlds|
    ensures WritesHarmless(worlds, ops, m + 1) <==>
            && WritesHarmless(worlds, ops, m)
            && (ops[m].Process? ==> HarmlessToSingles(worlds[m], Versions(ops[..m]), ops[m].tx))
  {
    hide HarmlessToSingles, Versions;
  }

  lemma {:induction false} NothingCachedYet(worlds: seq<World>, ops: seq<Op>, ttl: Option<int>)
    requires Run(worlds, ops, ttl)
    ensures CurrentAllAlong(worlds, ops, 0)
  {
    assert Versions(ops[..0]) == map[];
    assert worlds[0].cached == map[];
  }

  /** Over whole runs: all single entries are current at every moment if and only if every write is harmless to them. */
  lemma {:induction false} SinglesCurrentExactlyWhen(worlds: seq<World>, ops: seq<Op>, ttl: Option<int>, n: nat)
    requires Run(worlds, ops, ttl) && n <= |ops|
    ensures CurrentAllAlong(worlds, ops, n) <==> WritesHarmless(worlds, ops, n)
    decreases n
  {
    hide CurrentAllAlong, HarmlessToSingles, Step, Versions, WritesHarmless;
    if n == 0 {
      NothingCachedYet(worlds, ops, ttl);
      NoWritesYet(worlds, ops);
    } else {
      SinglesCurrentExactlyWhen(worlds, ops, ttl, n - 1);
      OneMoreHarmless(worlds, ops, n - 1);
      if CurrentAllAlong(worlds, ops, n - 1) {
        OneMoreCurrent(worlds, ops, ttl, n - 1);
      } else if CurrentAllAlong(worlds, ops, n) {
        FewerCurrent(worlds, ops, n - 1);
      }
    }
  }

  lemma {:induction false} NoWritesYet(worlds: seq<World>, ops: seq<Op>)
    requires |ops| < |worlds|
    ensures WritesHarmless(worlds, ops, 0)
  {
  }

  lemma {:induction false} SinglesStayCurrent(worlds: seq<World>, ops: seq<Op>, ttl: Option<int>, n: nat)
    requires Run(worlds, ops, ttl) && n <= |ops|
    requires forall i | 0 <= i < n && ops[i].Process? :: worlds[i].connected
    ensures SinglesCurrent(worlds[n], Versions(ops[..n])) && ListIsList(worlds[n])
  {
    SinglesCurrentExactlyWhen(worlds, ops, ttl, n);
    assert CurrentAllAlong(worlds, ops, n);
    ListKindAlways(worlds, ops, ttl, n);
  }

  /**
   * Reads by id never go back in time. While writes find the cache connected, `GetByIdAsync` answers the last
   * processed version, even of an id the store has evicted, or nothing; and nothing only if both the store and the
   * cache lack it. Keys may be lost at any moment, and the id may be any text, that of the list key included.
   */
  lemma {:induction false} ReadsByIdNeverGoBack(worlds: seq<World>, ops: seq<Op>, ttl: Option<int>, n: nat)
    requires Run(worlds, ops, ttl) && n < |ops| && ops[n].GetById?
    requires forall i | 0 <= i < n && ops[i].Process? :: worlds[i].connected
    ensures ops[n].found.Some? ==>
              ops[n].id in Versions(ops[..n]) && ops[n].found.value == Versions(ops[..n])[ops[n].id]
    ensures ops[n].found.None? ==>
              && ops[n].id !in worlds[n].store
              && (worlds[n].connected && ops[n].id != "all" ==> KeyFor(ops[n].id) !in worlds[n].cached)
  {
    var w, op := worlds[n], ops[n];
    SinglesStayCurrent(worlds, ops, ttl, n);
    assert Step(w, op, ttl, worlds[n + 1]);
    KeysAreApart(op.id, op.id);
  }

  lemma {:induction false} SinglesStayComplete(worlds: seq<World>, ops: seq<Op>, ttl: Option<int>, n: nat)
    requires Run(worlds, ops, ttl) && n <= |ops|
    requires forall i | 0 <= i < n && ops[i].Process? :: worlds[i].connected
    requires forall i | 0 <= i < n && ops[i].Lose? :: ops[i].keys <= {LIST_KEY}
    ensures forall id <- Versions(ops[..n]) :: KeyFor(id) in worlds[n].cached
    decreases n
  {
    if n > 0 {
      var m := n - 1;
      SinglesStayComplete(worlds, ops, ttl, m);
      assert ops[..n][..m] == ops[..m];
      assert Step(worlds[m], ops[m], ttl, worlds[n]);
      forall id | id in Versions(ops[..n]) ensures KeyFor(id) in worlds[n].cached {
        KeysAreApart(Versions(ops[..n])[id].id, id);
      }
    }
  }

  /** As long as only the list key is ever lost, every processed id is found in its last version. */
  lemma {:induction false} ReadsByIdFindEveryVersion(worlds: seq<World>, ops: seq<Op>, ttl: Option<int>, n: nat)
    requires Run(worlds, ops, ttl) && n < |ops| && ops[n].GetById? && worlds[n].connected
    requires forall i | 0 <= i < n && ops[i].Process? :: worlds[i].connected
    requires forall i | 0 <= i < n && ops[i].Lose? :: ops[i].keys <= {LIST_KEY}
    ensures ops[n].found == if ops[n].id in Versions(ops[..n]) then Some(Versions(ops[..n])[ops[n].id]) else None
  {
    ReadsByIdNeverGoBack(worlds, ops, ttl, n);
    SinglesStayComplete(worlds, ops, ttl, n);
    if ops[n].id in Versions(ops[..n]) {
      assert |Versions(ops[..n])[ops[n].id].id| == 36;
    }
  }
}
