/** The dashboard's other aggregations: key figures, status counts, and the currency by status table. */
module Aggregations {
  import opened Transactions
  import opened StableSort

  datatype KpiSnapshot = KpiSnapshot(
    total: nat, completed: nat, pending: nat, failed: nat,
    completedRevenue: map<string, real>, successRate: real)

  datatype StatusCounts = StatusCounts(completed: nat, pending: nat, failed: nat)

  datatype CurrencyStatusRow = CurrencyStatusRow(currency: string, completed: real, pending: real, failed: real)

  // ----- What is counted and summed

  ghost function Count(transactions: seq<Transaction>, status: Status): nat {
    if transactions == [] then 0 else
      var last, rest := transactions[|transactions| - 1], Count(transactions[..|transactions| - 1], status);
      if last.status == status then rest + 1 else rest
  }

  ghost function Sum(transactions: seq<Transaction>, currency: string, status: Status): real {
    if transactions == [] then 0.0 else
      var last, rest := transactions[|transactions| - 1], Sum(transactions[..|transactions| - 1], currency, status);
      if last.currency == currency && last.status == status then rest + last.amount else rest
  }

  ghost predicate Appears(transactions: seq<Transaction>, currency: string) {
    exists x :: x in transactions && x.currency == currency
  }

  ghost predicate HasCompleted(transactions: seq<Transaction>, currency: string) {
    exists x :: x in transactions && x.currency == currency && x.status == Completed
  }

  /** A part of a whole in percent. */
  function Share(part: nat, whole: nat): (r: real)
    requires part <= whole && whole > 0
    ensures r * whole as real == part as real * 100.0
    ensures 0.0 <= r <= 100.0
  {
    var q := part as real / whole as real;
    assert q * whole as real == part as real;
    assert 0.0 <= q <= 1.0;
    q * 100.0
  }

  ghost predicate IsKpis(transactions: seq<Transaction>, k: KpiSnapshot) {
    && k.total == |transactions|
    && k.completed == Count(transactions, Completed)
    && k.pending == Count(transactions, Pending)
    && k.failed == Count(transactions, Failed)
    && IsRevenue(transactions, k.completedRevenue)
    && (var decided := k.completed + k.failed;
        if decided == 0 then k.successRate == 0.0
        else k.successRate == Share(k.completed, decided))
  }

  ghost predicate IsStatusCounts(transactions: seq<Transaction>, c: StatusCounts) {
    && c.completed == Count(transactions, Completed)
    && c.pending == Count(transactions, Pending)
    && c.failed == Count(transactions, Failed)
  }

  /** `localeCompare` as a parameter: any total preorder on strings. */
  ghost predicate IsCollation(leq: (string, string) -> bool) {
    && (forall a, b :: leq(a, b) || leq(b, a))
    && forall a, b, c :: leq(a, b) && leq(b, c) ==> leq(a, c)
  }

  ghost predicate IsRow(transactions: seq<Transaction>, r: CurrencyStatusRow) {
    && Appears(transactions, r.currency)
    && r.completed == Sum(transactions, r.currency, Completed)
    && r.pending == Sum(transactions, r.currency, Pending)
    && r.failed == Sum(transactions, r.currency, Failed)
  }

  ghost predicate AreRows(transactions: seq<Transaction>, rows: seq<CurrencyStatusRow>) {
    && (forall r <- rows :: IsRow(transactions, r))
    && (forall x <- transactions :: exists r :: r in rows && r.currency == x.currency)
    && forall i, j | 0 <= i < j < |rows| :: rows[i].currency != rows[j].currency
  }

  ghost predicate InCurrencyOrder(rows: seq<CurrencyStatusRow>, leq: (string, string) -> bool) {
    forall i, j | 0 <= i < j < |rows| :: leq(rows[i].currency, rows[j].currency)
  }

  // ----- The aggregations

  lemma OneMoreCounted(transactions: seq<Transaction>, i: nat)
    requires i < |transactions|
    ensures var x := transactions[i];
            && (forall s :: Count(transactions[..i + 1], s) == Count(transactions[..i], s) + if x.status == s then 1 else 0)
            && (forall c, s :: Sum(transactions[..i + 1], c, s) ==
                  Sum(transactions[..i], c, s) + if x.currency == c && x.status == s then x.amount else 0.0)
  {
    assert transactions[..i + 1][..i] == transactions[..i];
  }

  lemma OneMoreSeen(transactions: seq<Transaction>, i: nat, c: string)
    requires i < |transactions|
    ensures var x := transactions[i];
            && (Appears(transactions[..i + 1], c) <==> Appears(transactions[..i], c) || x.currency == c)
            && (HasCompleted(transactions[..i + 1], c) <==>
                  HasCompleted(transactions[..i], c) || (x.currency == c && x.status == Completed))
  {
    var front, x, all := transactions[..i], transactions[i], transactions[..i + 1];
    assert all == front + [x];
    assert forall y :: y in all <==> y in front || y == x;
  }

  ghost function Positions(transactions: seq<Transaction>, status: Status): set<nat> {
    set i: nat | i < |transactions| && transactions[i].status == status
  }

  lemma {:induction false} PositionsGrow(front: seq<Transaction>, x: Transaction, status: Status)
    ensures |Positions(front + [x], status)| == |Positions(front, status)| + if x.status == status then 1 else 0
  {
    var n := |front|;
    assert Positions(front + [x], status) == Positions(front, status) + if x.status == status then {n} else {};
    assert n !in Positions(front, status);
  }

  lemma {:induction false} CountIsOfPositions(transactions: seq<Transaction>, status: Status)
    ensures Count(transactions, status) == |Positions(transactions, status)|
  {
    if transactions == [] {
      assert Positions(transactions, status) == {};
    } else {
      hide Positions;
      var n, front := |transactions| - 1, transactions[..|transactions| - 1];
      CountIsOfPositions(front, status);
      assert transactions == front + [transactions[n]];
      PositionsGrow(front, transactions[n], status);
    }
  }

  /** Sums are of amounts. */
  lemma {:induction false} SumsAddUp(transactions: seq<Transaction>, x: Transaction, currency: string, status: Status)
    ensures Sum([], currency, status) == 0.0
    ensures Sum(transactions + [x], currency, status) ==
            Sum(transactions, currency, status) + if x.currency == currency && x.status == status then x.amount else 0.0
  {
    assert (transactions + [x])[..|transactions|] == transactions;
  }

  lemma CountsArePositions(transactions: seq<Transaction>)
    ensures forall s :: Count(transactions, s) == |Positions(transactions, s)|
  {
    forall s ensures Count(transactions, s) == |Positions(transactions, s)| {
      CountIsOfPositions(transactions, s);
    }
  }

  /** A record of sums that has an entry exactly for the currencies with a completed transaction. */
  ghost predicate IsRevenue(transactions: seq<Transaction>, revenue: map<string, real>) {
    forall c :: if HasCompleted(transactions, c) then c in revenue && revenue[c] == Sum(transactions, c, Completed)
                else c !in revenue && Sum(transactions, c, Completed) == 0.0
  }

  function AddRevenue(revenue: map<string, real>, tx: Transaction): map<string, real> {
    revenue[tx.currency := (if tx.currency in revenue then revenue[tx.currency] else 0.0) + tx.amount]
  }

  lemma RevenueStep(transactions: seq<Transaction>, i: nat, revenue: map<string, real>)
    requires i < |transactions| && IsRevenue(transactions[..i], revenue)
    ensures IsRevenue(transactions[..i + 1],
                      if transactions[i].status == Completed then AddRevenue(revenue, transactions[i]) else revenue)
  {
    OneMoreCounted(transactions, i);
    forall c {
      OneMoreSeen(transactions, i, c);
    }
  }

  lemma NothingSeen()
    ensures IsRevenue([], map[])
    ensures forall s :: Count([], s) == 0
  {
  }

  lemma RevenueInPlainTerms(transactions: seq<Transaction>, revenue: map<string, real>)
    requires IsRevenue(transactions, revenue)
    ensures forall c :: c in revenue <==> exists x :: x in transactions && x.currency == c && x.status == Completed
    ensures forall c <- revenue :: revenue[c] == Sum(transactions, c, Completed)
  {
    forall c ensures c in revenue <==> exists x :: x in transactions && x.currency == c && x.status == Completed {
      assert HasCompleted(transactions, c) <==> c in revenue;
    }
  }

  lemma KpisInPlainTerms(transactions: seq<Transaction>, k: KpiSnapshot)
    requires IsKpis(transactions, k)
    ensures k.total == |transactions|
    ensures k.completed == |Positions(transactions, Completed)|
    ensures k.pending == |Positions(transactions, Pending)| && k.failed == |Positions(transactions, Failed)|
    ensures forall c :: c in k.completedRevenue <==>
              exists x :: x in transactions && x.currency == c && x.status == Completed
    ensures forall c <- k.completedRevenue :: k.completedRevenue[c] == Sum(transactions, c, Completed)
    ensures 0.0 <= k.successRate <= 100.0
    ensures k.completed + k.failed == 0 ==> k.successRate == 0.0
    ensures k.successRate * (k.completed + k.failed) as real == k.completed as real * 100.0
  {
    hide IsRevenue, Sum, Positions, Count;
    CountsArePositions(transactions);
    RevenueInPlainTerms(transactions, k.completedRevenue);
  }

  method AggregateKpis(transactions: seq<Transaction>) returns (k: KpiSnapshot)
    ensures IsKpis(transactions, k)
    ensures k.total == |transactions|
    ensures k.completed == |Positions(transactions, Completed)|
    ensures k.pending == |Positions(transactions, Pending)| && k.failed == |Positions(transactions, Failed)|
    ensures forall c :: c in k.completedRevenue <==>
              exists x :: x in transactions && x.currency == c && x.status == Completed
    ensures forall c <- k.completedRevenue :: k.completedRevenue[c] == Sum(transactions, c, Completed)
    ensures 0.0 <= k.successRate <= 100.0
    ensures k.completed + k.failed == 0 ==> k.successRate == 0.0
    ensures k.successRate * (k.completed + k.failed) as real == k.completed as real * 100.0
  {
    hide AddRevenue, IsRevenue, Sum, Positions, Count, HasCompleted;
    NothingSeen();
    assert transactions[..0] == [];
    var completed, pending, failed := 0, 0, 0;
    var completedRevenue: map<string, real> := map[];
    for i := 0 to |transactions|
      invariant completed == Count(transactions[..i], Completed)
      invariant pending == Count(transactions[..i], Pending)
      invariant failed == Count(transactions[..i], Failed)
      invariant IsRevenue(transactions[..i], completedRevenue)
    {
      var tx := transactions[i];
      OneMoreCounted(transactions, i);
      RevenueStep(transactions, i, completedRevenue);
      if tx.status == Completed {
        completed := completed + 1;
        completedRevenue := AddRevenue(completedRevenue, tx);
      } else if tx.status == Pending {
        pending := pending + 1;
      } else if tx.status == Failed {
        failed := failed + 1;
      }
    }
    assert transactions[..|transactions|] == transactions;
    var denominator := completed + failed;
    var successRate := if denominator > 0 then Share(completed, denominator) else 0.0;
    k := KpiSnapshot(|transactions|, completed, pending, failed, completedRevenue, successRate);
    KpisInPlainTerms(transactions, k);
  }

  method AggregateStatusCounts(transactions: seq<Transaction>) returns (c: StatusCounts)
    ensures IsStatusCounts(transactions, c)
    ensures c.completed == |Positions(transactions, Completed)|
    ensures c.pending == |Positions(transactions, Pending)| && c.failed == |Positions(transactions, Failed)|
  {
    hide Positions;
    CountsArePositions(transactions);
    var completed, pending, failed := 0, 0, 0;
    for i := 0 to |transactions|
      invariant completed == Count(transactions[..i], Completed)
      invariant pending == Count(transactions[..i], Pending)
      invariant failed == Count(transactions[..i], Failed)
    {
      OneMoreCounted(transactions, i);
      var s := transactions[i].status;
      if s == Completed { completed := completed + 1; }
      else if s == Pending { pending := pending + 1; }
      else if s == Failed { failed := failed + 1; }
    }
    assert transactions[..|transactions|] == transactions;
    c := StatusCounts(completed, pending, failed);
  }

  // ----- The currency table

  ghost predicate IsTable(transactions: seq<Transaction>, table: map<string, CurrencyStatusRow>) {
    forall c :: if Appears(transactions, c) then c in table && table[c] == RowOf(transactions, c)
                else c !in table && RowOf(transactions, c) == CurrencyStatusRow(c, 0.0, 0.0, 0.0)
  }

  ghost function RowOf(transactions: seq<Transaction>, c: string): CurrencyStatusRow {
    CurrencyStatusRow(c, Sum(transactions, c, Completed), Sum(transactions, c, Pending), Sum(transactions, c, Failed))
  }

  function AddToRow(row: CurrencyStatusRow, tx: Transaction): CurrencyStatusRow {
    match tx.status
    case Completed => row.(completed := row.completed + tx.amount)
    case Pending => row.(pending := row.pending + tx.amount)
    case Failed => row.(failed := row.failed + tx.amount)
    case Unknown => row
  }

  lemma TableStep(transactions: seq<Transaction>, i: nat, table: map<string, CurrencyStatusRow>)
    requires i < |transactions| && IsTable(transactions[..i], table)
    ensures var tx := transactions[i];
            var row := if tx.currency in table then table[tx.currency] else CurrencyStatusRow(tx.currency, 0.0, 0.0, 0.0);
            IsTable(transactions[..i + 1], table[tx.currency := AddToRow(row, tx)])
  {
    OneMoreCounted(transactions, i);
    forall c {
      OneMoreSeen(transactions, i, c);
    }
  }

  function InsertRow(x: CurrencyStatusRow, rows: seq<CurrencyStatusRow>, leq: (string, string) -> bool): (r: seq<CurrencyStatusRow>)
    ensures multiset(r) == multiset{x} + multiset(rows)
  {
    if rows == [] || leq(x.currency, rows[0].currency) then [x] + rows
    else
      assert rows == [rows[0]] + rows[1..];
      [rows[0]] + InsertRow(x, rows[1..], leq)
  }

  /** A stable sort by currency. */
  function SortRows(rows: seq<CurrencyStatusRow>, leq: (string, string) -> bool): (r: seq<CurrencyStatusRow>)
    ensures multiset(r) == multiset(rows)
  {
    if rows == [] then [] else
      assert rows == [rows[0]] + rows[1..];
      InsertRow(rows[0], SortRows(rows[1..], leq), leq)
  }

  lemma {:induction false} InsertRowKeepsOrder(x: CurrencyStatusRow, rows: seq<CurrencyStatusRow>, leq: (string, string) -> bool)
    requires IsCollation(leq) && InCurrencyOrder(rows, leq)
    ensures InCurrencyOrder(InsertRow(x, rows, leq), leq)
  {
    if rows == [] {
    } else if leq(x.currency, rows[0].currency) {
      forall y | y in rows ensures leq(x.currency, y.currency) {
        var j :| 0 <= j < |rows| && rows[j] == y;
        assert leq(rows[0].currency, rows[j].currency);
      }
    } else {
      var rest := InsertRow(x, rows[1..], leq);
      InsertRowKeepsOrder(x, rows[1..], leq);
      forall y | y in rest ensures leq(rows[0].currency, y.currency) {
        assert y in multiset(rest);
        assert y == x || y in rows[1..];
      }
    }
  }

  lemma {:induction false} SortRowsSorts(rows: seq<CurrencyStatusRow>, leq: (string, string) -> bool)
    requires IsCollation(leq)
    ensures InCurrencyOrder(SortRows(rows, leq), leq)
  {
    if rows != [] {
      SortRowsSorts(rows[1..], leq);
      InsertRowKeepsOrder(rows[0], SortRows(rows[1..], leq), leq);
    }
  }

  ghost predicate NoRepeats<T>(s: seq<T>) {
    forall i, j | 0 <= i < j < |s| :: s[i] != s[j]
  }

  lemma DistinctCurrencies(rows: seq<CurrencyStatusRow>, sorted: seq<CurrencyStatusRow>)
    requires multiset(sorted) == multiset(rows)
    requires forall i, j | 0 <= i < j < |rows| :: rows[i].currency != rows[j].currency
    ensures forall i, j | 0 <= i < j < |sorted| :: sorted[i].currency != sorted[j].currency
  {
    SameBagSameLength(rows, sorted);
    forall i, j | 0 <= i < j < |sorted| ensures sorted[i].currency != sorted[j].currency {
      assert sorted[i] in rows && sorted[j] in rows;
      if sorted[i] == sorted[j] {
        CountedTwice(sorted, i, j);
        OnlyOnce(rows, sorted[i]);
      }
    }
  }

  lemma {:induction false} OnlyOnce<T>(s: seq<T>, x: T)
    requires NoRepeats(s)
    ensures multiset(s)[x] <= 1
  {
    if s != [] {
      OnlyOnce(s[1..], x);
      assert s == [s[0]] + s[1..];
    }
  }

  lemma RowsOfTable(transactions: seq<Transaction>, table: map<string, CurrencyStatusRow>, order: seq<string>,
                    values: seq<CurrencyStatusRow>, rows: seq<CurrencyStatusRow>)
    requires IsTable(transactions, table) && NoRepeats(order) && forall c :: c in order <==> c in table
    requires |values| == |order| && forall i | 0 <= i < |order| :: values[i] == table[order[i]]
    requires multiset(rows) == multiset(values)
    ensures AreRows(transactions, rows)
  {
    SameBagSameLength(rows, values);
    forall i | 0 <= i < |order| ensures values[i].currency == order[i] && IsRow(transactions, values[i]) {
      assert order[i] in order;
    }
    DistinctCurrencies(values, rows);
    forall x | x in transactions ensures exists r :: r in rows && r.currency == x.currency {
      assert Appears(transactions, x.currency);
      assert x.currency in order;
      var i :| 0 <= i < |order| && order[i] == x.currency;
      assert values[i] in rows;
    }
  }

  method AggregateCurrencyStatus(transactions: seq<Transaction>, leq: (string, string) -> bool)
    returns (rows: seq<CurrencyStatusRow>)
    requires IsCollation(leq)
    ensures AreRows(transactions, rows)
    ensures InCurrencyOrder(rows, leq)
    ensures forall r <- rows :: && r.completed == Sum(transactions, r.currency, Completed)
                                && r.pending == Sum(transactions, r.currency, Pending)
                                && r.failed == Sum(transactions, r.currency, Failed)
    ensures (set r | r in rows :: r.currency) == set x | x in transactions :: x.currency
    ensures forall i, j | 0 <= i < j < |rows| ::
              leq(rows[i].currency, rows[j].currency) && rows[i].currency != rows[j].currency
  {
    var table: map<string, CurrencyStatusRow> := map[];
    var order: seq<string> := [];
    for i := 0 to |transactions|
      invariant IsTable(transactions[..i], table)
      invariant NoRepeats(order)
      invariant forall c :: c in order <==> c in table
    {
      hide IsTable, AddToRow;
      var tx := transactions[i];
      TableStep(transactions, i, table);
      if tx.currency !in table {
        order := order + [tx.currency];
        table := table[tx.currency := CurrencyStatusRow(tx.currency, 0.0, 0.0, 0.0)];
      }
      table := table[tx.currency := AddToRow(table[tx.currency], tx)];
    }
    assert transactions[..|transactions|] == transactions;
    var values := seq(|order|, i requires 0 <= i < |order| => table[order[i]]);
    rows := SortRows(values, leq);
    SortRowsSorts(values, leq);
    RowsOfTable(transactions, table, order, values, rows);
    RowsInPlainTerms(transactions, rows);
  }

  lemma RowsInPlainTerms(transactions: seq<Transaction>, rows: seq<CurrencyStatusRow>)
    requires AreRows(transactions, rows)
    ensures forall r <- rows :: && r.completed == Sum(transactions, r.currency, Completed)
                                && r.pending == Sum(transactions, r.currency, Pending)
                                && r.failed == Sum(transactions, r.currency, Failed)
    ensures (set r | r in rows :: r.currency) == set x | x in transactions :: x.currency
  {
    var named, seen := set r | r in rows :: r.currency, set x | x in transactions :: x.currency;
    forall c ensures c in named <==> c in seen {
      if c in named {
        var r :| r in rows && r.currency == c;
        assert IsRow(transactions, r);
      }
    }
  }

  // ----- Agreement, whatever the order of the list

  lemma {:induction false} CountOfParts(a: seq<Transaction>, b: seq<Transaction>, status: Status)
    ensures Count(a + b, status) == Count(a, status) + Count(b, status)
  {
    if b == [] {
      assert a + b == a;
    } else {
      CountOfParts(a, b[..|b| - 1], status);
      assert (a + b)[..|a + b| - 1] == a + b[..|b| - 1];
    }
  }

  lemma {:induction false} SumOfParts(a: seq<Transaction>, b: seq<Transaction>, c: string, status: Status)
    ensures Sum(a + b, c, status) == Sum(a, c, status) + Sum(b, c, status)
  {
    if b == [] {
      assert a + b == a;
    } else {
      SumOfParts(a, b[..|b| - 1], c, status);
      assert (a + b)[..|a + b| - 1] == a + b[..|b| - 1];
    }
  }

  lemma {:induction false} CountIgnoresOrder(a: seq<Transaction>, b: seq<Transaction>, status: Status)
    requires multiset(a) == multiset(b)
    ensures Count(a, status) == Count(b, status)
  {
    SameBagSameLength(a, b);
    if a != [] {
      var last, front := a[|a| - 1], a[..|a| - 1];
      var i := CutFromBag(b, last);
      assert a == front + [last];
      CountIgnoresOrder(front, b[..i] + b[i + 1..], status);
      CountOfParts(b[..i], b[i + 1..], status);
      CountOfParts(b[..i], [last], status);
      CountOfParts(b[..i] + [last], b[i + 1..], status);
      CountOfParts(front, [last], status);
    }
  }

  lemma {:induction false} SumIgnoresOrder(a: seq<Transaction>, b: seq<Transaction>, c: string, status: Status)
    requires multiset(a) == multiset(b)
    ensures Sum(a, c, status) == Sum(b, c, status)
  {
    SameBagSameLength(a, b);
    if a != [] {
      var last, front := a[|a| - 1], a[..|a| - 1];
      var i := CutFromBag(b, last);
      assert a == front + [last];
      SumIgnoresOrder(front, b[..i] + b[i + 1..], c, status);
      SumOfParts(b[..i], b[i + 1..], c, status);
      SumOfParts(b[..i], [last], c, status);
      SumOfParts(b[..i] + [last], b[i + 1..], c, status);
      SumOfParts(front, [last], c, status);
    }
  }

  lemma {:induction false} EveryStatusCounts(transactions: seq<Transaction>)
    ensures |transactions| == Count(transactions, Completed) + Count(transactions, Pending)
                            + Count(transactions, Failed) + Count(transactions, Unknown)
  {
    if transactions != [] {
      EveryStatusCounts(transactions[..|transactions| - 1]);
    }
  }

  /**
   * The three aggregations of any permutations of one list agree: the counts are the same, they fall short of the
   * total by exactly the transactions of unknown status, and the revenue of a currency is the completed sum in that
   * currency's row, which every currency with revenue has.
   */
  lemma AggregationsAgree(a: seq<Transaction>, b: seq<Transaction>, c: seq<Transaction>,
                          k: KpiSnapshot, counts: StatusCounts, rows: seq<CurrencyStatusRow>)
    requires multiset(a) == multiset(b) == multiset(c)
    requires IsKpis(a, k) && IsStatusCounts(b, counts) && AreRows(c, rows)
    ensures k.completed == counts.completed && k.pending == counts.pending && k.failed == counts.failed
    ensures k.total - (k.completed + k.pending + k.failed) == Count(a, Unknown)
    ensures forall r <- rows :: r.completed == if r.currency in k.completedRevenue then k.completedRevenue[r.currency] else 0.0
    ensures forall r <- rows :: r.currency in k.completedRevenue <==> HasCompleted(a, r.currency)
    ensures forall u <- k.completedRevenue :: exists r :: r in rows && r.currency == u
  {
    CountIgnoresOrder(a, b, Completed);
    CountIgnoresOrder(a, b, Pending);
    CountIgnoresOrder(a, b, Failed);
    EveryStatusCounts(a);
    SameBagSameLength(a, c);
    forall r | r in rows ensures r.completed == if r.currency in k.completedRevenue then k.completedRevenue[r.currency] else 0.0 {
      SumIgnoresOrder(a, c, r.currency, Completed);
    }
  }

  lemma KpisIgnoreOrder(a: seq<Transaction>, b: seq<Transaction>, k: KpiSnapshot, l: KpiSnapshot)
    requires multiset(a) == multiset(b) && IsKpis(a, k) && IsKpis(b, l)
    ensures k == l
  {
    CountIgnoresOrder(a, b, Completed);
    CountIgnoresOrder(a, b, Pending);
    CountIgnoresOrder(a, b, Failed);
    SameBagSameLength(a, b);
    SameRevenue(a, b, k.completedRevenue, l.completedRevenue);
  }

  lemma SameRevenue(a: seq<Transaction>, b: seq<Transaction>, m: map<string, real>, n: map<string, real>)
    requires multiset(a) == multiset(b) && IsRevenue(a, m) && IsRevenue(b, n)
    ensures m == n
  {
    SameBagSameLength(a, b);
    forall c ensures c in m <==> c in n {
      assert HasCompleted(a, c) <==> HasCompleted(b, c);
    }
    forall c | c in m ensures m[c] == n[c] {
      SumIgnoresOrder(a, b, c, Completed);
    }
  }

  ghost predicate IsStrictCollation(leq: (string, string) -> bool) {
    IsCollation(leq) && forall a, b :: leq(a, b) && leq(b, a) ==> a == b
  }

  lemma SameRowSets(a: seq<Transaction>, b: seq<Transaction>, rows: seq<CurrencyStatusRow>, rows': seq<CurrencyStatusRow>,
                    r: CurrencyStatusRow)
    requires multiset(a) == multiset(b) && AreRows(a, rows) && AreRows(b, rows')
    ensures r in rows ==> r in rows'
  {
    if r in rows {
      SameBagSameLength(a, b);
      var x :| x in a && x.currency == r.currency;
      assert x in b;
      var r' :| r' in rows' && r'.currency == x.currency;
      SumIgnoresOrder(a, b, r.currency, Completed);
      SumIgnoresOrder(a, b, r.currency, Pending);
      SumIgnoresOrder(a, b, r.currency, Failed);
      assert r == r';
    }
  }

  lemma {:induction false} SortedSetsAreEqual(rows: seq<CurrencyStatusRow>, rows': seq<CurrencyStatusRow>, leq: (string, string) -> bool)
    requires IsStrictCollation(leq)
    requires InCurrencyOrder(rows, leq) && InCurrencyOrder(rows', leq)
    requires forall i, j | 0 <= i < j < |rows| :: rows[i].currency != rows[j].currency
    requires forall i, j | 0 <= i < j < |rows'| :: rows'[i].currency != rows'[j].currency
    requires forall r :: r in rows <==> r in rows'
    ensures rows == rows'
  {
    assert rows != [] ==> rows[0] in rows';
    assert rows' != [] ==> rows'[0] in rows;
    if rows != [] {
      var i :| 0 <= i < |rows'| && rows'[i] == rows[0];
      var j :| 0 <= j < |rows| && rows[j] == rows'[0];
      assert leq(rows'[0].currency, rows'[i].currency) && leq(rows[0].currency, rows[j].currency);
      assert rows[0].currency == rows'[0].currency;
      assert i == 0;
      assert rows == [rows[0]] + rows[1..] && rows' == [rows'[0]] + rows'[1..];
      forall r ensures r in rows[1..] <==> r in rows'[1..] {
        assert r in rows <==> r in rows';
      }
      SortedSetsAreEqual(rows[1..], rows'[1..], leq);
    }
  }

  /** Under a collation that tells all strings apart, the table itself ignores the order of the list. */
  lemma TableIgnoresOrder(a: seq<Transaction>, b: seq<Transaction>, rows: seq<CurrencyStatusRow>,
                          rows': seq<CurrencyStatusRow>, leq: (string, string) -> bool)
    requires multiset(a) == multiset(b) && IsStrictCollation(leq)
    requires AreRows(a, rows) && AreRows(b, rows') && InCurrencyOrder(rows, leq) && InCurrencyOrder(rows', leq)
    ensures rows == rows'
  {
    forall r ensures r in rows <==> r in rows' {
      SameRowSets(a, b, rows, rows', r);
      SameRowSets(b, a, rows', rows, r);
    }
    SortedSetsAreEqual(rows, rows', leq);
  }
}
