/** The `offset(skip).limit(limit)` slice that both services apply to a query result. */
module Paging {

  /** The rows a query returns after skipping `skip` rows and keeping at most `limit`. */
  function Page<T>(rows: seq<T>, skip: nat, limit: nat): (r: seq<T>)
    ensures |r| <= limit
    ensures skip >= |rows| ==> r == []
    ensures skip < |rows| ==> |r| == (if |rows| - skip < limit then |rows| - skip else limit)
    ensures forall i :: 0 <= i < |r| ==> skip + i < |rows| && r[i] == rows[skip + i]
  {
    if skip >= |rows| then []
    else if |rows| - skip <= limit then rows[skip..]
    else rows[skip..skip + limit]
  }

  /** Reading page after page visits the rows in order: two adjacent pages make one bigger page. */
  lemma AdjacentPages<T>(rows: seq<T>, skip: nat, a: nat, b: nat)
    ensures Page(rows, skip, a) + Page(rows, skip + a, b) == Page(rows, skip, a + b)
  {
    var p, q, pq := Page(rows, skip, a), Page(rows, skip + a, b), Page(rows, skip, a + b);
    assert |p + q| == |pq|;
    forall i | 0 <= i < |pq| ensures (p + q)[i] == pq[i] {
      if i >= |p| {
        assert |p| == a;
      }
    }
  }
}
