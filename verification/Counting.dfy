/** Finite counting facts. */
module Counting {

  ghost predicate Distinct<T>(q: seq<T>) {
    forall i, j | 0 <= i < j < |q| :: q[i] != q[j]
  }

  /** Distinct numbers below n are at most n. */
  lemma {:induction false} DistinctBelow(q: seq<nat>, n: nat)
    requires Distinct(q)
    requires forall i | 0 <= i < |q| :: q[i] < n
    ensures |q| <= n
    decreases n
  {
    if q != [] {
      assert q[0] < n;
      if k :| 0 <= k < |q| && q[k] == n - 1 {
        var r := q[..k] + q[k + 1..];
        forall i | 0 <= i < |r|
          ensures r[i] < n - 1
        {
          assert r[i] == q[if i < k then i else i + 1];
        }
        DistinctBelow(r, n - 1);
      } else {
        assert forall i | 0 <= i < |q| :: q[i] != n - 1;
        DistinctBelow(q, n - 1);
      }
    }
  }
}
