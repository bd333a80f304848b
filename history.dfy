/** The history query: the records where the account is the source, followed by
    those where it is the destination, kept when their execution time lies in
    the inclusive window, then ordered by execution time. */
module History {
  import opened Domain

  /** `isTransactionInRange`: a record is out of range when `from` is after its
      time or `to` is before it; a missing bound excludes nothing. */
  function IsTransactionInRange(req: FetchTransactionsRequest, t: Txn): (inRange: bool)
    ensures inRange <==>
              && (req.from.None? || req.from.value <= t.executionTime)
              && (req.to.None? || t.executionTime <= req.to.value)
  {
    if req.from.Some? && req.from.value > t.executionTime then false
    else if req.to.Some? && req.to.value < t.executionTime then false
    else true
  }

  /** The records of `s` that `keep` accepts, in their original order. */
  function Filter(s: seq<Txn>, keep: Txn -> bool): (r: seq<Txn>)
    ensures |r| <= |s|
    ensures forall x :: multiset(r)[x] == if keep(x) then multiset(s)[x] else 0
    decreases |s|
  {
    if s == [] then []
    else
      assert s == [s[0]] + s[1..];
      (if keep(s[0]) then [s[0]] else []) + Filter(s[1..], keep)
  }

  /** `SELECT * FROM TRANSACTION WHERE SOURCE_ACCOUNT_ID = ?`, in log order. */
  function BySource(log: seq<Txn>, account: AccountId): seq<Txn>
  {
    Filter(log, (t: Txn) => t.source == Some(account))
  }

  /** `SELECT * FROM TRANSACTION WHERE DESTINATION_ACCOUNT_ID = ?`, in log order. */
  function ByDestination(log: seq<Txn>, account: AccountId): seq<Txn>
  {
    Filter(log, (t: Txn) => t.destination == account)
  }

  ghost predicate SortedByTime(s: seq<Txn>)
  {
    forall i, j :: 0 <= i < j < |s| ==> s[i].executionTime <= s[j].executionTime
  }

  /** Puts `x` into a time-ordered sequence, before the first record that is
      not earlier than it. */
  function Insert(x: Txn, s: seq<Txn>): (r: seq<Txn>)
    requires SortedByTime(s)
    ensures SortedByTime(r)
    ensures multiset(r) == multiset(s) + multiset{x}
    ensures |r| == |s| + 1 && (r[0] == x || (|s| > 0 && r[0] == s[0]))
    decreases |s|
  {
    if s == [] || x.executionTime <= s[0].executionTime then [x] + s
    else
      assert s == [s[0]] + s[1..];
      [s[0]] + Insert(x, s[1..])
  }

  /** `sorted(Comparator.comparing(Transaction::getExecutionTime))`: a stable
      insertion sort on execution time. */
  function SortByTime(s: seq<Txn>): (r: seq<Txn>)
    ensures SortedByTime(r)
    ensures multiset(r) == multiset(s)
    decreases |s|
  {
    if s == [] then []
    else
      assert s == [s[0]] + s[1..];
      Insert(s[0], SortByTime(s[1..]))
  }

  /** `getTransactions`: merge the outgoing and incoming records, drop those
      outside the window, sort by time. */
  function GetTransactions(req: FetchTransactionsRequest, outgoing: seq<Txn>, incoming: seq<Txn>): seq<Txn>
  {
    SortByTime(Filter(outgoing + incoming, (t: Txn) => IsTransactionInRange(req, t)))
  }

  /** The whole query over the TRANSACTION log. */
  function ListTransactions(log: seq<Txn>, req: FetchTransactionsRequest): seq<Txn>
  {
    GetTransactions(req, BySource(log, req.accountId), ByDestination(log, req.accountId))
  }

  /** In how many of the two directional result sets a record appears. */
  function Involvement(t: Txn, account: AccountId): nat
  {
    (if t.source == Some(account) then 1 else 0) + (if t.destination == account then 1 else 0)
  }

  lemma InvolvementTimes(t: Txn, account: AccountId, n: nat)
    ensures n * Involvement(t, account) ==
              (if t.source == Some(account) then n else 0) + (if t.destination == account then n else 0)
  {
    if t.source == Some(account) && t.destination == account {
      assert n * 2 == n + n;
    }
  }

  /** The result is time-ordered and is a permutation of the in-range part of
      the merge of the two directional result sets. */
  lemma ListTransactionsSortedPermutation(log: seq<Txn>, req: FetchTransactionsRequest)
    ensures SortedByTime(ListTransactions(log, req))
    ensures multiset(ListTransactions(log, req)) ==
              multiset(Filter(BySource(log, req.accountId) + ByDestination(log, req.accountId),
                              (t: Txn) => IsTransactionInRange(req, t)))
  {
  }

  /** Each record of the log shows up once for each side of it the account is
      on, if its time is within the window, and not at all otherwise. */
  lemma {:induction false} ListTransactionsCount(log: seq<Txn>, req: FetchTransactionsRequest, x: Txn)
    ensures multiset(ListTransactions(log, req))[x] ==
              if IsTransactionInRange(req, x) then multiset(log)[x] * Involvement(x, req.accountId) else 0
  {
    var a, n := req.accountId, multiset(log)[x];
    var outgoing, incoming := BySource(log, a), ByDestination(log, a);
    var merged := outgoing + incoming;
    var kept := Filter(merged, (t: Txn) => IsTransactionInRange(req, t));
    assert multiset(outgoing)[x] == if x.source == Some(a) then n else 0;
    assert multiset(incoming)[x] == if x.destination == a then n else 0;
    assert multiset(kept)[x] == if IsTransactionInRange(req, x) then multiset(merged)[x] else 0;
    assert multiset(merged)[x] == multiset(outgoing)[x] + multiset(incoming)[x];
    assert multiset(ListTransactions(log, req)) == multiset(kept);
    InvolvementTimes(x, a, n);
  }

  /** A record is returned exactly when it is in the log, names the account on
      either side, and its time is within the window; what comes back is the
      stored record itself, every field unchanged. */
  lemma ListTransactionsMembership(log: seq<Txn>, req: FetchTransactionsRequest, x: Txn)
    ensures x in ListTransactions(log, req) <==>
              && x in log
              && (x.source == Some(req.accountId) || x.destination == req.accountId)
              && IsTransactionInRange(req, x)
  {
    ListTransactionsCount(log, req, x);
  }

  /** A window that starts after every record, or ends before every record,
      yields nothing. */
  lemma ListTransactionsEmptyWindow(log: seq<Txn>, req: FetchTransactionsRequest)
    requires || (req.from.Some? && forall t :: t in log ==> t.executionTime < req.from.value)
             || (req.to.Some? && forall t :: t in log ==> req.to.value < t.executionTime)
    ensures ListTransactions(log, req) == []
  {
    if ListTransactions(log, req) != [] {
      var x := ListTransactions(log, req)[0];
      ListTransactionsMembership(log, req, x);
    }
  }
}
