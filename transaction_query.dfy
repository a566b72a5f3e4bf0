/**
 * The transaction listing of the ledger service: an optional exact status
 * match, optional inclusive day bounds, then the skip/limit page, over the
 * log in storage order. It only reads.
 */
module TransactionQuery {
  import opened Results
  import opened Models
  import opened Paging

  const SecondsPerDay: int := 86400

  /** The day, counted from the epoch, that a timestamp falls on. */
  function Day(t: int): int {
    t / SecondsPerDay
  }

  /** `datetime.combine(d, time.min)`: the first second of the day of `d`; the time of day of `d` is dropped. */
  function StartOfDay(d: int): (r: int)
    ensures Day(r) == Day(d) && r <= d
    ensures forall t :: Day(t) == Day(d) ==> r <= t
  {
    Day(d) * SecondsPerDay
  }

  /** `datetime.combine(d, time.max)`: the last second of the day of `d`. */
  function EndOfDay(d: int): (r: int)
    ensures Day(r) == Day(d) && d <= r
    ensures forall t :: Day(t) == Day(d) ==> t <= r
  {
    Day(d) * SecondsPerDay + SecondsPerDay - 1
  }

  /** The parameters of the listing: page bounds and three optional filters. */
  datatype Query = Query(skip: nat, limit: nat, status: Option<string>, startDate: Option<int>, endDate: Option<int>)

  /** The parameters' defaults: the first ten records, unfiltered. */
  const DefaultQuery: Query := Query(0, 10, None, None, None)

  /** A status filter applies only when given and non-empty (`if status:`). */
  predicate StatusFilterOn(q: Query) {
    q.status.Some? && q.status.value != ""
  }

  /** The WHERE clause the filters build. */
  predicate Matches(q: Query, t: Transaction) {
    && (StatusFilterOn(q) ==> t.status == q.status.value)
    && (q.startDate.Some? ==> StartOfDay(q.startDate.value) <= t.createdAt)
    && (q.endDate.Some? ==> t.createdAt <= EndOfDay(q.endDate.value))
  }

  /** The bounds are whole days: a record matches exactly when its day lies between the bounds' days. */
  lemma MatchesByDay(q: Query, t: Transaction)
    ensures Matches(q, t) <==>
      && (StatusFilterOn(q) ==> t.status == q.status.value)
      && (q.startDate.Some? ==> Day(q.startDate.value) <= Day(t.createdAt))
      && (q.endDate.Some? ==> Day(t.createdAt) <= Day(q.endDate.value))
  {
    if q.startDate.Some? {
      StartBoundByDay(q.startDate.value, t.createdAt);
    }
    if q.endDate.Some? {
      EndBoundByDay(q.endDate.value, t.createdAt);
    }
  }

  lemma StartBoundByDay(d: int, t: int)
    ensures StartOfDay(d) <= t <==> Day(d) <= Day(t)
  {
  }

  lemma EndBoundByDay(d: int, t: int)
    ensures t <= EndOfDay(d) <==> Day(t) <= Day(d)
  {
  }

  /** The records of `log` that match, in log order. */
  function Filter(q: Query, log: seq<Transaction>): (r: seq<Transaction>)
    ensures |r| <= |log|
    ensures forall k :: 0 <= k < |r| ==> r[k] in log && Matches(q, r[k])
    ensures forall k :: 0 <= k < |log| && Matches(q, log[k]) ==> log[k] in r
  {
    if log == [] then []
    else (if Matches(q, log[0]) then [log[0]] else []) + Filter(q, log[1..])
  }

  /** Filtering keeps log order: the filter of a concatenation is the concatenation of the filters. */
  lemma {:induction false} FilterAppend(q: Query, a: seq<Transaction>, b: seq<Transaction>)
    ensures Filter(q, a + b) == Filter(q, a) + Filter(q, b)
  {
    if a == [] {
      assert a + b == b;
    } else {
      assert (a + b)[1..] == a[1..] + b;
      FilterAppend(q, a[1..], b);
    }
  }

  /** A record appended to the log is listed after every earlier record, and only if it matches. */
  lemma AppendedRecordListedLast(q: Query, log: seq<Transaction>, t: Transaction)
    ensures Filter(q, log + [t]) == Filter(q, log) + (if Matches(q, t) then [t] else [])
  {
    FilterAppend(q, log, [t]);
    assert [t][1..] == [];
  }

  /** `get_transactions`: the filters first, then the page. */
  function GetTransactions(log: seq<Transaction>, q: Query): (r: seq<Transaction>)
    ensures |r| <= q.limit
    ensures q.skip < |Filter(q, log)| ==>
              |r| == (if |Filter(q, log)| - q.skip < q.limit then |Filter(q, log)| - q.skip else q.limit)
    ensures forall k :: 0 <= k < |r| ==> r[k] in log && Matches(q, r[k])
    ensures forall k :: 0 <= k < |r| ==> q.skip + k < |Filter(q, log)| && r[k] == Filter(q, log)[q.skip + k]
  {
    Page(Filter(q, log), q.skip, q.limit)
  }

  /** With no filter given, the WHERE clause keeps the whole log. */
  lemma {:induction false} UnfilteredKeepsLog(q: Query, log: seq<Transaction>)
    requires !StatusFilterOn(q) && q.startDate.None? && q.endDate.None?
    ensures Filter(q, log) == log
  {
    if log != [] {
      UnfilteredKeepsLog(q, log[1..]);
    }
  }

  /** The listing with every parameter at its default returns the first ten records of the log. */
  lemma DefaultListing(log: seq<Transaction>)
    ensures GetTransactions(log, DefaultQuery) == log[..if |log| < 10 then |log| else 10]
  {
    UnfilteredKeepsLog(DefaultQuery, log);
  }

  /** Asking for one status on one day lists only records of that status created on that day. */
  lemma OneDayListing(log: seq<Transaction>, skip: nat, limit: nat, status: string, d: int)
    requires status != ""
    ensures var r := GetTransactions(log, Query(skip, limit, Some(status), Some(d), Some(d)));
            forall k :: 0 <= k < |r| ==> r[k].status == status && Day(r[k].createdAt) == Day(d)
  {
    var q := Query(skip, limit, Some(status), Some(d), Some(d));
    var r := GetTransactions(log, q);
    forall k | 0 <= k < |r| ensures r[k].status == status && Day(r[k].createdAt) == Day(d) {
      MatchesByDay(q, r[k]);
    }
  }
}
