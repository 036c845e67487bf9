/** The service as one caller at a time sees it, over the store and a cache whose backend may be away. */
module TransactionService {
  import opened Transactions
  import opened StableSort
  import opened RecentWindow
  import opened TransactionStore
  import opened CacheAside

  /** The cache backend: keyed documents with optional expiry. What it does off the wire is not modelled. */
  class RemoteCache {
    var items: map<string, Slot>
    var connected: bool

    constructor (connected: bool)
      ensures items == map[] && this.connected == connected
    {
      items := map[];
      this.connected := connected;
    }

    method SetAsync(key: string, payload: Payload, expiry: Option<int>, now: int)
      modifies this`items
      ensures items == old(items)[key := Slot(payload, if expiry.None? then None else Some(now + expiry.value))]
    {
      items := items[key := Slot(payload, if expiry.None? then None else Some(now + expiry.value))];
    }

    method GetAsync(key: string, now: int) returns (payload: Option<Payload>)
      ensures payload.Some? <==> key in items && (items[key].expiresAt.Some? ==> now < items[key].expiresAt.value)
      ensures payload.Some? ==> payload.value == items[key].payload
    {
      if key !in items || (items[key].expiresAt.Some? && items[key].expiresAt.value <= now) {
        return None;
      }
      payload := Some(items[key].payload);
    }

    method RemoveAsync(key: string)
      modifies this`items
      ensures items == old(items) - {key}
    {
      items := items - {key};
    }
  }

  class TransactionCache {
    const inner: RemoteCache
    const listTtl: Option<int>

    constructor (inner: RemoteCache, listTtl: Option<int>)
      ensures this.inner == inner && this.listTtl == listTtl
    {
      this.inner := inner;
      this.listTtl := listTtl;
    }

    ghost function View(store: Contents): World
      reads inner
    {
      World(store, inner.items, inner.connected)
    }

    method GetCachedAsync(transactionId: string, now: int) returns (found: Option<Transaction>)
      ensures forall store :: found == CachedOne(View(store), transactionId, now)
      ensures found.Some? <==>
                && inner.connected && "t:" + transactionId in inner.items
                && var slot := inner.items["t:" + transactionId];
                   slot.payload.One? && (slot.expiresAt.Some? ==> now < slot.expiresAt.value)
      ensures found.Some? ==> inner.items["t:" + transactionId].payload == One(found.value)
    {
      if !inner.connected { return None; }
      var raw := inner.GetAsync(KeyFor(transactionId), now);
      found := if raw.Some? && raw.value.One? then Some(raw.value.tx) else None;
    }

    method SetCachedAsync(transaction: Transaction, now: int)
      modifies inner`items
      ensures forall store :: View(store) == WithOne(old(View(store)), transaction)
      ensures inner.items == if !inner.connected then old(inner.items)
                             else old(inner.items)["t:" + transaction.id := Slot(One(transaction), None)]
    {
      if !inner.connected { return; }
      inner.SetAsync(KeyFor(transaction.id), One(transaction), None, now);
    }

    method GetCachedListAsync(now: int) returns (list: Option<seq<Transaction>>)
      ensures forall store :: list == CachedList(View(store), now)
      ensures list.Some? <==>
                && inner.connected && "t:all" in inner.items
                && var slot := inner.items["t:all"];
                   slot.payload.Many? && (slot.expiresAt.Some? ==> now < slot.expiresAt.value)
      ensures list.Some? ==> inner.items["t:all"].payload == Many(list.value)
    {
      if !inner.connected { return None; }
      var raw := inner.GetAsync(LIST_KEY, now);
      list := if raw.Some? && raw.value.Many? then Some(raw.value.list) else None;
    }

    method SetCachedListAsync(transactions: seq<Transaction>, now: int)
      modifies inner`items
      ensures forall store :: View(store) == WithList(old(View(store)), transactions, listTtl, now)
      ensures inner.items ==
                if !inner.connected then old(inner.items)
                else old(inner.items)["t:all" := Slot(Many(transactions),
                                                      if listTtl.Some? then Some(now + listTtl.value) else None)]
    {
      if !inner.connected { return; }
      inner.SetAsync(LIST_KEY, Many(transactions), listTtl, now);
    }

    method InvalidateListAsync()
      modifies inner`items
      ensures forall store :: View(store) == WithoutList(old(View(store)))
      ensures inner.items == if inner.connected then old(inner.items) - {"t:all"} else old(inner.items)
    {
      if !inner.connected { return; }
      inner.RemoveAsync(LIST_KEY);
    }
  }

  // ----- Validation. The server counts time in ticks of 100 nanoseconds from the default timestamp.

  const DEFAULT_TIMESTAMP: int := 0
  const FIVE_MINUTES: int := 3_000_000_000

  datatype Rejection = EmptyId | NegativeAmount | BadCurrency | FutureTimestamp

  datatype ProcessResult =
    | Success(transaction: Transaction)
    | Failure(error: Rejection)
    | Thrown                              // the Transaction constructor refuses the default timestamp

  predicate IsWhiteSpace(c: char) {
    || '\U{09}' <= c <= '\U{0D}' || c == ' ' || c == '\U{85}' || c == '\U{A0}' || c == '\U{1680}'
    || '\U{2000}' <= c <= '\U{200A}' || c == '\U{2028}' || c == '\U{2029}' || c == '\U{202F}'
    || c == '\U{205F}' || c == '\U{3000}'
  }

  predicate IsBlank(s: string) {
    forall c <- s :: IsWhiteSpace(c)
  }

  /** The 25 characters that count as white space, by their code points. */
  lemma WhiteSpaceIs(c: char)
    ensures IsWhiteSpace(c) <==>
            c as int in {9, 10, 11, 12, 13, 32, 133, 160, 5760, 8192, 8193, 8194, 8195, 8196, 8197, 8198, 8199, 8200, 8201,
                         8202, 8232, 8233, 8239, 8287, 12288}
  {
  }

  /** The rules in the order in which they are tried; the first one broken is reported. */
  function Validate(id: Id, amount: real, currency: string, timestamp: int, now: int): (r: Option<Rejection>)
    ensures r.None? <==>
              && id != "00000000-0000-0000-0000-000000000000" && amount >= 0.0
              && |currency| == 3 && (exists c :: c in currency && !IsWhiteSpace(c))
              && timestamp <= now + 5 * 60 * 10_000_000
    ensures r == Some(EmptyId) <==> id == "00000000-0000-0000-0000-000000000000"
    ensures r == Some(NegativeAmount) <==> id != EMPTY_GUID && amount < 0.0
    ensures r == Some(BadCurrency) <==>
              id != EMPTY_GUID && amount >= 0.0 && (|currency| != 3 || forall c <- currency :: IsWhiteSpace(c))
    ensures r == Some(FutureTimestamp) ==> timestamp > now + 5 * 60 * 10_000_000
  {
    if id == EMPTY_GUID then Some(EmptyId)
    else if amount < 0.0 then Some(NegativeAmount)
    else if IsBlank(currency) || |currency| != 3 then Some(BadCurrency)
    else if timestamp > now + FIVE_MINUTES then Some(FutureTimestamp)
    else None
  }

  /** The key can be read: connected, there, and not expired. */
  ghost predicate Live(items: map<string, Slot>, connected: bool, key: string, now: int) {
    connected && key in items && (items[key].expiresAt.Some? ==> now < items[key].expiresAt.value)
  }

  class TransactionService {
    const store: InMemoryTransactionStore
    const cache: TransactionCache

    constructor (store: InMemoryTransactionStore, cache: TransactionCache)
      ensures this.store == store && this.cache == cache
    {
      this.store := store;
      this.cache := cache;
    }

    ghost function World(): World
      reads store, cache.inner
    {
      cache.View(store.items)
    }

    /** `announced` is what is handed to the broadcaster, after everything else. */
    method ProcessAsync(id: Id, amount: real, currency: string, status: Status, timestamp: int, now: int)
      returns (result: ProcessResult, announced: Option<Transaction>)
      modifies store, cache.inner`items
      ensures result.Failure? <==> Validate(id, amount, currency, timestamp, now).Some?
      ensures result.Failure? ==> result.error == Validate(id, amount, currency, timestamp, now).value
      ensures result.Thrown? <==> !result.Failure? && timestamp == 0
      ensures !result.Success? ==> World() == old(World()) && announced == None
      ensures result.Success? ==>
                && result.transaction == Transaction(id, amount, currency, status, timestamp)
                && Processed(old(World()), result.transaction, World())
                && announced == Some(result.transaction)
      ensures result.Success? ==>
                && |store.items| == (if |old(store.items)[id := result.transaction]| <= 200
                                     then |old(store.items)[id := result.transaction]| else 200)
                && cache.inner.items == if !cache.inner.connected then old(cache.inner.items)
                     else old(cache.inner.items)["t:" + id := Slot(One(result.transaction), None)] - {"t:all"}
    {
      announced := None;
      var validationError := Validate(id, amount, currency, timestamp, now);
      if validationError.Some? {
        return Failure(validationError.value), None;
      }
      if timestamp == DEFAULT_TIMESTAMP {
        return Thrown, None;
      }
      var transaction := Transaction(id, amount, currency, status, timestamp);
      store.AddAsync(transaction);
      ghost var persisted := World();
      cache.SetCachedAsync(transaction, now);
      assert World() == WithOne(persisted, transaction);
      cache.InvalidateListAsync();
      announced := Some(transaction);
      result := Success(transaction);
    }

    method GetAllAsync(now: int) returns (all: seq<Transaction>)
      modifies cache.inner`items
      ensures GotAll(old(World()), now, cache.listTtl, all, World())
      ensures if Live(old(cache.inner.items), cache.inner.connected, "t:all", now) && old(cache.inner.items)["t:all"].payload.Many?
              then old(cache.inner.items)["t:all"].payload == Many(all) && cache.inner.items == old(cache.inner.items)
              else && multiset(all) == multiset(store.items.Values)
                   && cache.inner.items ==
                        if !cache.inner.connected then old(cache.inner.items)
                        else old(cache.inner.items)["t:all" := Slot(Many(all), if cache.listTtl.Some? then Some(now + cache.listTtl.value) else None)]
    {
      if cache.inner.connected {
        var cached := cache.GetCachedListAsync(now);
        assert cached == CachedList(World(), now);
        if cached.Some? {
          return cached.value;
        }
      }
      all := store.GetAllAsync();
      cache.SetCachedListAsync(all, now);
      assert World() == WithList(old(World()), all, cache.listTtl, now);
    }

    method GetLatestAsync(count: int, now: int) returns (latest: seq<Transaction>)
      ensures GotLatest(World(), now, count, latest, World())
      ensures if Live(cache.inner.items, cache.inner.connected, "t:all", now) && cache.inner.items["t:all"].payload.Many?
              then latest == TakeAtMost(SortNewestFirst(cache.inner.items["t:all"].payload.list), count)
              else LatestInPlainTerms(latest, store.items, count)
      ensures forall i, j | 0 <= i < j < |latest| :: latest[i].timestamp >= latest[j].timestamp
      ensures |latest| <= if count <= 0 then 0 else count
    {
      if cache.inner.connected {
        var cached := cache.GetCachedListAsync(now);
        assert cached == CachedList(World(), now);
        if cached.Some? {
          return TakeAtMost(SortNewestFirst(cached.value), count);
        }
      }
      latest := store.GetLatestAsync(count);
    }

    method GetByIdAsync(transactionId: string, now: int) returns (found: Option<Transaction>)
      modifies cache.inner`items
      ensures GotById(old(World()), now, transactionId, found, World())
      ensures var key := "t:" + transactionId;
              if Live(old(cache.inner.items), cache.inner.connected, key, now) && old(cache.inner.items)[key].payload.One?
              then found == Some(old(cache.inner.items)[key].payload.tx) && cache.inner.items == old(cache.inner.items)
              else && found == (if transactionId in store.items then Some(store.items[transactionId]) else None)
                   && cache.inner.items ==
                        if found.None? || !cache.inner.connected then old(cache.inner.items)
                        else old(cache.inner.items)[key := Slot(One(found.value), None)]
    {
      if cache.inner.connected {
        var cached := cache.GetCachedAsync(transactionId, now);
        assert cached == CachedOne(World(), transactionId, now);
        if cached.Some? {
          return cached;
        }
      }
      found := store.GetByIdAsync(transactionId);
      if found.Some? {
        cache.SetCachedAsync(found.value, now);
        assert World() == WithOne(old(World()), found.value);
      }
    }
  }
}
