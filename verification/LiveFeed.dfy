/** The dashboard's feed: two message handlers, one capped list. */
module LiveFeed {
  import opened Transactions
  import opened StableSort
  import opened RecentWindow

  const MAX_FEED: nat := 200

  datatype Message = InitialTransactions(history: seq<Transaction>) | TransactionReceived(tx: Transaction)

  datatype ConnectionState = Connecting | Connected | Broken

  datatype FeedFilter = All | FailedOnly

  /** What a handler makes of the list it finds. */
  function Handled(list: seq<Transaction>, m: Message): seq<Transaction> {
    match m
    case InitialTransactions(history) => TakeAtMost(SortNewestFirst(history), MAX_FEED)
    case TransactionReceived(tx) => TakeAtMost(SortNewestFirst([tx] + list), MAX_FEED)
  }

  function ApplyStatusFilter(list: seq<Transaction>, filter: FeedFilter): seq<Transaction> {
    if filter == All || list == [] then list
    else if list[0].status == Failed then [list[0]] + ApplyStatusFilter(list[1..], filter)
    else ApplyStatusFilter(list[1..], filter)
  }

  /** The newest 200 of a history, newest first. */
  ghost predicate NewestOfHistory(history: seq<Transaction>, list: seq<Transaction>) {
    && |list| == (if |history| <= 200 then |history| else 200)
    && (forall i, j | 0 <= i < j < |list| :: list[i].timestamp >= list[j].timestamp)
    && (forall x <- list :: x in history)
    && forall x <- history :: x in list || forall y <- list :: y.timestamp >= x.timestamp
  }

  /** `tx` is put in front of everything that is not newer, and the list is cut to 200. */
  ghost predicate PutInPlace(tx: Transaction, list: seq<Transaction>, result: seq<Transaction>) {
    exists i | 0 <= i <= |list| ::
      && (forall j | 0 <= j < i :: list[j].timestamp > tx.timestamp)
      && (forall j | i <= j < |list| :: list[j].timestamp <= tx.timestamp)
      && result == (if |list| < 200 then list[..i] + [tx] + list[i..] else (list[..i] + [tx] + list[i..])[..200])
  }

  /** The page's state; `received` are the messages the handlers have let through. */
  class LiveTransactions {
    var fullList: seq<Transaction>
    var filter: FeedFilter
    var connectionState: ConnectionState
    var disposed: bool
    ghost var received: seq<Message>

    ghost predicate Valid()
      reads this
    {
      fullList == Drained([], received)
    }

    constructor ()
      ensures Valid() && received == [] && filter == All && connectionState == Connecting && !disposed
    {
      fullList, filter, connectionState, disposed, received := [], All, Connecting, false, [];
    }

    method OnInitialTransactions(history: seq<Transaction>)
      requires Valid()
      modifies this`fullList, this`connectionState, this`received
      ensures Valid()
      ensures received == if disposed then old(received) else old(received) + [InitialTransactions(history)]
      ensures fullList == if disposed then old(fullList) else Handled(old(fullList), InitialTransactions(history))
      ensures connectionState == if disposed then old(connectionState) else Connected
      ensures !disposed ==> NewestOfHistory(history, fullList)
    {
      hide NewestOfHistory;
      if disposed { return; }
      fullList := TakeAtMost(SortNewestFirst(history), MAX_FEED);
      received := received + [InitialTransactions(history)];
      assert received[..|received| - 1] == old(received);
      connectionState := Connected;
      HistoryInPlainTerms(history);
    }

    method OnTransactionReceived(tx: Transaction) returns (notified: Option<Transaction>)
      requires Valid()
      modifies this`fullList, this`received
      ensures Valid()
      ensures received == if disposed then old(received) else old(received) + [TransactionReceived(tx)]
      ensures fullList == if disposed then old(fullList) else Handled(old(fullList), TransactionReceived(tx))
      ensures notified == if disposed then None else Some(tx)
      ensures !disposed ==> PutInPlace(tx, old(fullList), fullList)
    {
      hide PutInPlace;
      if disposed { return None; }
      fullList := TakeAtMost(SortNewestFirst([tx] + fullList), MAX_FEED);
      received := received + [TransactionReceived(tx)];
      assert received[..|received| - 1] == old(received);
      notified := Some(tx);
      LiveInPlainTerms(tx, old(fullList), old(received));
    }

    /** The connection could not be started. */
    method OnStartFailed()
      modifies this`connectionState
      ensures connectionState == if disposed then old(connectionState) else Broken
    {
      if !disposed { connectionState := Broken; }
    }

    method ToggleFailedOnly()
      modifies this`filter
      ensures filter == if old(filter) == FailedOnly then All else FailedOnly
    {
      filter := if filter == FailedOnly then All else FailedOnly;
    }

    method Dispose()
      modifies this`disposed
      ensures disposed
    {
      disposed := true;
    }

    /** What the page shows: the filtered batch of everything let through so far, with its counter. */
    method Visible() returns (visible: seq<Transaction>, totalCount: nat)
      requires Valid()
      ensures visible == ApplyStatusFilter(Batch(received), filter)
      ensures |visible| <= 200 && forall i, j | 0 <= i < j < |visible| :: visible[i].timestamp >= visible[j].timestamp
      ensures totalCount == |visible|
      ensures forall x :: x in visible <==> x in fullList && (filter == FailedOnly ==> x.status == Failed)
      ensures NewestFirst(visible)
    {
      hide Batch, Drained, Handled;
      FeedIsBatch(received);
      BatchIsSorted(received);
      visible := ApplyStatusFilter(fullList, filter);
      totalCount := |visible|;
      FilterMembers(fullList, filter);
      FilterKeepsOrder(fullList, filter);
      FeedIsShort(received);
      FilterShortens(fullList, filter);
    }
  }

  lemma {:induction false} FilterShortens(list: seq<Transaction>, filter: FeedFilter)
    ensures |ApplyStatusFilter(list, filter)| <= |list|
  {
    if list != [] {
      FilterShortens(list[1..], filter);
    }
  }

  /** The list after a whole sequence of messages. */
  ghost function Drained(list: seq<Transaction>, messages: seq<Message>): seq<Transaction> {
    if messages == [] then list
    else Handled(Drained(list, messages[..|messages| - 1]), messages[|messages| - 1])
  }

  /** Delivering from the front of a queue is the same as handling it from the back. */
  lemma {:induction false} DrainFront(list: seq<Transaction>, messages: seq<Message>)
    requires messages != []
    ensures Drained(list, messages) == Drained(Handled(list, messages[0]), messages[1..])
  {
    hide Handled;
    var front, m := messages[..|messages| - 1], messages[|messages| - 1];
    if front == [] {
      assert messages[1..] == [];
    } else {
      DrainFront(list, front);
      assert messages[1..][..|messages| - 2] == front[1..];
    }
  }

  // ----- The batch computation

  /** Live transactions since the last history, the latest arrival first. */
  ghost function Arrivals(messages: seq<Message>): seq<Transaction> {
    if messages == [] || messages[|messages| - 1].InitialTransactions? then []
    else [messages[|messages| - 1].tx] + Arrivals(messages[..|messages| - 1])
  }

  /** The last history received. */
  ghost function LastHistory(messages: seq<Message>): seq<Transaction> {
    if messages == [] then []
    else if messages[|messages| - 1].InitialTransactions? then messages[|messages| - 1].history
    else LastHistory(messages[..|messages| - 1])
  }

  lemma TakeCons<T>(x: T, s: seq<T>, n: nat)
    requires n > 0
    ensures TakeAtMost([x] + s, n) == [x] + TakeAtMost(s, n - 1)
  {
  }

  lemma TakeTwice<T>(s: seq<T>, m: nat, n: nat)
    requires m <= n
    ensures TakeAtMost(TakeAtMost(s, n), m) == TakeAtMost(s, m)
  {
  }

  /** Cutting before an insertion loses nothing that the cut after it would have kept. */
  lemma {:induction false} CutBeforeInsert(x: Transaction, s: seq<Transaction>, n: nat)
    ensures TakeAtMost(Insert(x, TakeAtMost(s, n)), n) == TakeAtMost(Insert(x, s), n)
  {
    if n > 0 && s != [] {
      var cut := TakeAtMost(s, n);
      assert s == [s[0]] + s[1..];
      TakeCons(s[0], s[1..], n);
      assert cut[1..] == TakeAtMost(s[1..], n - 1);
      if x.timestamp >= s[0].timestamp {
        TakeCons(x, s, n);
        TakeCons(x, cut, n);
        TakeTwice(s, n - 1, n);
      } else {
        CutBeforeInsert(x, s[1..], n - 1);
        TakeCons(s[0], Insert(x, cut[1..]), n);
        TakeCons(s[0], Insert(x, s[1..]), n);
      }
    }
  }

  lemma CutKeepsOrder(s: seq<Transaction>, n: int)
    requires NewestFirst(s)
    ensures NewestFirst(TakeAtMost(s, n))
  {
  }

  lemma HandleLive(tx: Transaction, list: seq<Transaction>, all: seq<Transaction>)
    requires list == TakeAtMost(SortNewestFirst(all), MAX_FEED)
    ensures Handled(list, TransactionReceived(tx)) == TakeAtMost(SortNewestFirst([tx] + all), MAX_FEED)
  {
    var sorted := SortNewestFirst(all);
    CutKeepsOrder(sorted, MAX_FEED);
    SortedIsFixed(list);
    assert ([tx] + list)[1..] == list && ([tx] + all)[1..] == all;
    CutBeforeInsert(tx, sorted, MAX_FEED);
  }

  /** The batch computation over a log of messages. */
  ghost function Batch(messages: seq<Message>): seq<Transaction> {
    TakeAtMost(SortNewestFirst(Arrivals(messages) + LastHistory(messages)), MAX_FEED)
  }

  lemma {:induction false} BatchIsSorted(messages: seq<Message>)
    ensures NewestFirst(Batch(messages))
  {
    CutKeepsOrder(SortNewestFirst(Arrivals(messages) + LastHistory(messages)), MAX_FEED);
  }

  lemma BatchOfHistory(messages: seq<Message>)
    requires messages != [] && messages[|messages| - 1].InitialTransactions?
    ensures Batch(messages) == Handled([], messages[|messages| - 1])
  {
    hide SortNewestFirst, TakeAtMost;
    assert Arrivals(messages) == [];
    assert Arrivals(messages) + LastHistory(messages) == messages[|messages| - 1].history;
  }

  lemma BatchOfArrival(messages: seq<Message>)
    requires messages != [] && messages[|messages| - 1].TransactionReceived?
    ensures var front, m := messages[..|messages| - 1], messages[|messages| - 1];
            Batch(messages) == Handled(Batch(front), m)
  {
    hide SortNewestFirst, TakeAtMost;
    var front, m := messages[..|messages| - 1], messages[|messages| - 1];
    assert Arrivals(messages) + LastHistory(messages) == [m.tx] + (Arrivals(front) + LastHistory(front));
    HandleLive(m.tx, Batch(front), Arrivals(front) + LastHistory(front));
  }

  /**
   * However many messages have been folded in one by one, the feed is the first 200 of a single stable sort of
   * everything received since the last history, latest arrival first, followed by that history.
   */
  lemma {:induction false} FeedIsBatch(messages: seq<Message>)
    ensures Drained([], messages) == Batch(messages)
  {
    hide SortNewestFirst, Arrivals, LastHistory;
    if messages == [] {
      NothingYet();
    } else {
      FeedIsBatch(messages[..|messages| - 1]);
      if messages[|messages| - 1].InitialTransactions? {
        BatchOfHistory(messages);
      } else {
        BatchOfArrival(messages);
      }
    }
  }

  lemma NothingYet()
    ensures Batch([]) == []
  {
  }

  // ----- The handlers in plain terms

  lemma HistoryInPlainTerms(history: seq<Transaction>)
    ensures NewestOfHistory(history, Handled([], InitialTransactions(history)))
  {
    var sorted := SortNewestFirst(history);
    SameBagSameLength(sorted, history);
    var list := Handled([], InitialTransactions(history));
    forall x | x in history ensures x in list || forall y <- list :: y.timestamp >= x.timestamp {
      LeftOutIsOlder(sorted, MAX_FEED, x);
    }
  }

  lemma Regroup(x: Transaction, s: seq<Transaction>, k: nat)
    requires s != [] && k < |s|
    ensures [s[0]] + (s[1..][..k] + [x] + s[1..][k..]) == s[..k + 1] + [x] + s[k + 1..]
  {
    assert s[..k + 1] == [s[0]] + s[1..][..k];
    assert s[k + 1..] == s[1..][k..];
  }

  lemma {:induction false} InsertInPlace(x: Transaction, s: seq<Transaction>) returns (i: nat)
    ensures i <= |s| && Insert(x, s) == s[..i] + [x] + s[i..]
    ensures i < |s| ==> s[i].timestamp <= x.timestamp
    ensures forall y <- s[..i] :: y.timestamp > x.timestamp
  {
    if s == [] || x.timestamp >= s[0].timestamp {
      i := 0;
    } else {
      var k := InsertInPlace(x, s[1..]);
      i := k + 1;
      Regroup(x, s, k);
      assert s[..i] == [s[0]] + s[1..][..k];
    }
  }

  lemma OlderFromThere(x: Transaction, s: seq<Transaction>, i: nat)
    requires NewestFirst(s) && (i < |s| ==> s[i].timestamp <= x.timestamp)
    ensures forall j | i <= j < |s| :: s[j].timestamp <= x.timestamp
  {
  }

  lemma LiveInPlainTerms(tx: Transaction, list: seq<Transaction>, messages: seq<Message>)
    requires list == Drained([], messages)
    ensures PutInPlace(tx, list, Handled(list, TransactionReceived(tx)))
  {
    hide Batch, Drained, Insert;
    FeedIsBatch(messages);
    BatchIsSorted(messages);
    FeedIsShort(messages);
    LiveOfSorted(tx, list);
  }

  lemma FeedIsShort(messages: seq<Message>)
    ensures |Drained([], messages)| <= 200
  {
  }

  lemma LiveOfSorted(tx: Transaction, list: seq<Transaction>)
    requires NewestFirst(list) && |list| <= 200
    ensures PutInPlace(tx, list, Handled(list, TransactionReceived(tx)))
  {
    hide Insert;
    var i := InsertInPlace(tx, list);
    OlderFromThere(tx, list, i);
    forall j | 0 <= j < i ensures list[j].timestamp > tx.timestamp {
      assert list[j] in list[..i];
    }
    SortedIsFixed(list);
    SortOfOneMore(tx, list);
    assert |list[..i] + [tx] + list[i..]| == |list| + 1;
  }

  lemma SortOfOneMore(tx: Transaction, list: seq<Transaction>)
    ensures SortNewestFirst([tx] + list) == Insert(tx, SortNewestFirst(list))
  {
    assert ([tx] + list)[1..] == list;
  }

  // ----- Filtering

  lemma {:induction false} FilterMembers(list: seq<Transaction>, filter: FeedFilter)
    ensures forall x :: x in ApplyStatusFilter(list, filter) <==> x in list && (filter == FailedOnly ==> x.status == Failed)
  {
    if list != [] {
      FilterMembers(list[1..], filter);
      assert list == [list[0]] + list[1..];
    }
  }

  lemma {:induction false} FilterKeepsOrder(list: seq<Transaction>, filter: FeedFilter)
    requires NewestFirst(list)
    ensures NewestFirst(ApplyStatusFilter(list, filter))
  {
    if list != [] {
      FilterKeepsOrder(list[1..], filter);
      FilterMembers(list[1..], filter);
    }
  }

  lemma {:induction false} FilterOfGroup(list: seq<Transaction>, filter: FeedFilter, t: int)
    ensures At(ApplyStatusFilter(list, filter), t) == ApplyStatusFilter(At(list, t), filter)
  {
    if list != [] && filter == FailedOnly {
      FilterOfGroup(list[1..], filter, t);
      var rest := ApplyStatusFilter(list[1..], filter);
      assert ([list[0]] + rest)[1..] == rest;
      assert ([list[0]] + At(list[1..], t))[1..] == At(list[1..], t);
    }
  }

  /** The failed-only view keeps the feed's order, ties included: filter and sort commute. */
  lemma FilterCommutesWithSort(list: seq<Transaction>, filter: FeedFilter)
    ensures ApplyStatusFilter(SortNewestFirst(list), filter) == SortNewestFirst(ApplyStatusFilter(list, filter))
  {
    var r := ApplyStatusFilter(SortNewestFirst(list), filter);
    FilterKeepsOrder(SortNewestFirst(list), filter);
    forall t ensures At(r, t) == At(ApplyStatusFilter(list, filter), t) {
      FilterOfGroup(SortNewestFirst(list), filter, t);
      FilterOfGroup(list, filter, t);
      SortIsStable(list, t);
    }
    StableSortIsUnique(ApplyStatusFilter(list, filter), r);
  }
}
