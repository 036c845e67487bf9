/** The values every other module talks about. */
module Transactions {

  datatype Option<+T> = None | Some(value: T)

  /** The three server statuses, and the neutral status the client gives to anything it cannot read. */
  datatype Status = Pending | Completed | Failed | Unknown

  /** The text of a guid, which is always 36 characters long. */
  type Id = s: string | |s| == 36 witness EMPTY_GUID

  const EMPTY_GUID: string := "00000000-0000-0000-0000-000000000000"

  /**
   * Amounts are exact. A timestamp is an instant on an integer scale: ticks of 100 nanoseconds from the year 1 where
   * the service validates it, milliseconds from 1970 where the dashboard buckets it; elsewhere only its order counts.
   */
  datatype Transaction = Transaction(id: Id, amount: real, currency: string, status: Status, timestamp: int)

  /** The contents of a store: transactions keyed by the text of their id. */
  type Contents = m: map<string, Transaction> | KeyedById(m) witness map[]

  ghost predicate KeyedById(m: map<string, Transaction>) {
    forall k <- m :: m[k].id == k
  }

  /** LINQ `Take` and JavaScript `slice(0, n)`: never more than is there, nothing for n <= 0. */
  function TakeAtMost<T>(s: seq<T>, n: int): (r: seq<T>)
    ensures r <= s && (|r| == |s| || |r| == n || |r| == 0)
    ensures n >= 0 ==> |r| <= n && (|r| < n ==> r == s)
    ensures n < 0 ==> r == []
  {
    if n <= 0 then [] else if |s| <= n then s else s[..n]
  }

  function Timestamps(s: seq<Transaction>): (r: seq<int>)
    ensures |r| == |s|
    ensures forall i | 0 <= i < |s| :: r[i] == s[i].timestamp
  {
    seq(|s|, i requires 0 <= i < |s| => s[i].timestamp)
  }
}
