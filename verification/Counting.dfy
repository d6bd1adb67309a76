/** Counting distinct numbers below a bound. */
module Counting {
  predicate Distinct<T(==)>(s: seq<T>) { forall i, j :: 0 <= i < j < |s| ==> s[i] != s[j] }

  lemma {:induction false} DistinctCount(chosen: seq<nat>, s: set<nat>)
    requires Distinct(chosen) && forall i :: i in s <==> i in chosen
    ensures |s| == |chosen|
  {
    if chosen == [] {
      assert s == {};
    } else {
      var n := |chosen| - 1;
      var rest := set i | i in chosen[..n];
      DistinctCount(chosen[..n], rest);
      assert s == rest + {chosen[n]};
      assert chosen[n] !in rest;
    }
  }

  lemma {:induction false} BoundedCount(s: set<nat>, k: nat)
    requires forall i :: i in s ==> i < k
    ensures |s| <= k
  {
    if k == 0 {
      assert s == {};
    } else {
      BoundedCount(s - {k - 1}, k - 1);
    }
  }

  /** Distinct numbers below k are at most k, and exactly k of them leave none out. */
  lemma {:induction false} Pigeonhole(chosen: seq<nat>, k: nat)
    requires Distinct(chosen) && forall i :: 0 <= i < |chosen| ==> chosen[i] < k
    ensures |chosen| <= k
    ensures |chosen| == k ==> forall c: nat :: c < k ==> c in chosen
  {
    var s := set i | i in chosen;
    DistinctCount(chosen, s);
    BoundedCount(s, k);
    forall c: nat | |chosen| == k && c < k ensures c in chosen {
      if c !in chosen {
        DistinctCount(chosen + [c], s + {c});
        BoundedCount(s + {c}, k);
      }
    }
  }
}
