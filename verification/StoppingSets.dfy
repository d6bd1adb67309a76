/**
  What peeling can reveal, in terms of the covers alone.  A set of sources stops the
  peeling decoder if no symbol covers exactly one of them; what peeling reveals is the
  least set outside of which no symbol covers exactly one source.
 */
module StoppingSets {
  import opened Counting

  /** No symbol covers exactly one source outside c. */
  predicate Closed(sets: seq<set<nat>>, c: set<nat>) { forall i :: 0 <= i < |sets| ==> |sets[i] - c| != 1 }

  /** r is within every such set. */
  ghost predicate Least(sets: seq<set<nat>>, r: set<nat>) { forall c: set<nat> :: Closed(sets, c) ==> r <= c }

  function Sources(k: nat): (s: set<nat>)
    ensures forall j: nat :: j in s <==> j < k
  {
    if k == 0 then {} else Sources(k - 1) + {k - 1}
  }

  /** Some sources of which no symbol covers exactly one. */
  predicate Stops(sets: seq<set<nat>>, k: nat, u: set<nat>) {
    u != {} && u <= Sources(k) && forall i :: 0 <= i < |sets| ==> |sets[i] * u| != 1
  }

  /** No sources stop the peeling. */
  ghost predicate Peelable(sets: seq<set<nat>>, k: nat) { forall u: set<nat> :: !Stops(sets, k, u) }

  lemma {:induction false} SingleElement(s: set<nat>, t: nat)
    requires t in s && |s| == 1
    ensures s == {t}
  {
    assert |s - {t}| == 0;
  }

  /** The one source a symbol has left belongs to every closed set that the others belong to. */
  lemma {:induction false} LeastGrows(sets: seq<set<nat>>, r: set<nat>, i: nat, t: nat)
    requires Least(sets, r) && i < |sets| && sets[i] - r == {t}
    ensures Least(sets, r + {t})
  {
    forall c: set<nat> | Closed(sets, c) ensures r + {t} <= c {
      if t !in c {
        assert sets[i] - c == {t};
      }
    }
  }

  /** The least closed set is everything exactly if nothing stops the peeling. */
  lemma {:induction false} PeelableExactly(sets: seq<set<nat>>, k: nat, r: set<nat>)
    requires r <= Sources(k) && (forall i :: 0 <= i < |sets| ==> sets[i] <= Sources(k))
    requires Closed(sets, r) && Least(sets, r)
    ensures r == Sources(k) <==> Peelable(sets, k)
  {
    if r != Sources(k) {
      var u := Sources(k) - r;
      forall i | 0 <= i < |sets| ensures |sets[i] * u| != 1 {
        assert sets[i] * u == sets[i] - r;
      }
      assert r + u == Sources(k);
      assert Stops(sets, k, u);
    }
    if !Peelable(sets, k) {
      var u: set<nat> :| Stops(sets, k, u);
      var c := Sources(k) - u;
      forall i | 0 <= i < |sets| ensures |sets[i] - c| != 1 {
        assert sets[i] - c == sets[i] * u;
      }
      assert Closed(sets, c) && r <= c;
      var t :| t in u;
      assert t !in r;
    }
  }

  /** Same stopping sets. */
  ghost predicate SameStops(a: seq<set<nat>>, b: seq<set<nat>>, k: nat) {
    forall u: set<nat> :: Stops(a, k, u) <==> Stops(b, k, u)
  }

  /** Covers after a peel: each revealed source stands alone in one, and the others have lost exactly the revealed. */
  predicate After(sets: seq<set<nat>>, next: seq<set<nat>>, r: set<nat>) {
    && |next| == |sets|
    && (forall i :: 0 <= i < |sets| ==> next[i] == sets[i] - r || (sets[i] <= r && next[i] <= r))
    && (forall j :: j in r ==> {j} in next)
  }

  /** A peel does not change what stops it. */
  lemma {:induction false} AfterStops(sets: seq<set<nat>>, next: seq<set<nat>>, k: nat, r: set<nat>)
    requires After(sets, next, r) && Least(sets, r) && forall i :: 0 <= i < |sets| ==> sets[i] <= Sources(k)
    ensures SameStops(sets, next, k)
  {
    forall u: set<nat> ensures Stops(sets, k, u) <==> Stops(next, k, u) {
      if Stops(sets, k, u) {
        var c := Sources(k) - u;
        forall i | 0 <= i < |sets| ensures |sets[i] - c| != 1 {
          assert sets[i] - c == sets[i] * u;
        }
        assert Closed(sets, c) && r <= c;
        ApartAfter(sets, next, r, u);
      }
      if Stops(next, k, u) {
        forall j | j in r ensures j !in u {
          var i :| 0 <= i < |next| && next[i] == {j};
          assert next[i] * u == if j in u then {j} else {};
        }
        ApartAfter(sets, next, r, u);
      }
    }
  }

  lemma {:induction false} ApartAfter(sets: seq<set<nat>>, next: seq<set<nat>>, r: set<nat>, u: set<nat>)
    requires After(sets, next, r) && r !! u
    ensures forall i :: 0 <= i < |sets| ==> sets[i] * u == next[i] * u
  {
  }

  /** More symbols do not tell covers with the same stopping sets apart. */
  lemma {:induction false} StopsSnoc(a: seq<set<nat>>, b: seq<set<nat>>, k: nat, s: set<nat>)
    requires SameStops(a, b, k)
    ensures SameStops(a + [s], b + [s], k)
  {
    forall u: set<nat> ensures Stops(a + [s], k, u) <==> Stops(b + [s], k, u) {
      StopsParts(a, k, s, u);
      StopsParts(b, k, s, u);
      assert Stops(a, k, u) <==> Stops(b, k, u);
    }
  }

  lemma {:induction false} StopsParts(a: seq<set<nat>>, k: nat, s: set<nat>, u: set<nat>)
    ensures Stops(a + [s], k, u) <==> Stops(a, k, u) && |s * u| != 1
  {
    var all := a + [s];
    assert all[|a|] == s && forall i :: 0 <= i < |a| ==> all[i] == a[i];
  }

  lemma {:induction false} SamePeelable(a: seq<set<nat>>, b: seq<set<nat>>, k: nat)
    requires SameStops(a, b, k)
    ensures Peelable(a, k) <==> Peelable(b, k)
  {
  }

  /** Peeling k sources takes k symbols. */
  lemma {:induction false} PeelableCount(sets: seq<set<nat>>, k: nat, u: set<nat>, used: set<nat>)
    requires Peelable(sets, k) && u <= Sources(k)
    requires forall i :: i in used ==> i < |sets| && sets[i] * u == {}
    ensures |used| + |u| <= |sets|
    decreases |u|
  {
    if u == {} {
      BoundedCount(used, |sets|);
    } else {
      assert !Stops(sets, k, u);
      var i: nat :| i < |sets| && |sets[i] * u| == 1;
      var t :| t in sets[i] * u;
      SingleElement(sets[i] * u, t);
      assert i !in used;
      var rest := u - {t};
      forall j | j in used + {i} ensures j < |sets| && sets[j] * rest == {} {
      }
      PeelableCount(sets, k, rest, used + {i});
    }
  }

  lemma {:induction false} SourcesCount(k: nat)
    ensures |Sources(k)| == k
  {
    if k > 0 {
      SourcesCount(k - 1);
    }
  }

  lemma {:induction false} SameStopsBoth(a: seq<set<nat>>, b: seq<set<nat>>, c: seq<set<nat>>, k: nat)
    requires SameStops(a, b, k) && SameStops(b, c, k)
    ensures SameStops(a, c, k)
  {
    hide Stops;
  }

  /** A symbol that covers nothing changes nothing. */
  lemma {:induction false} EmptyStops(sets: seq<set<nat>>, k: nat)
    ensures SameStops(sets + [{}], sets, k)
  {
    forall u: set<nat> ensures Stops(sets + [{}], k, u) <==> Stops(sets, k, u) {
      StopsParts(sets, k, {}, u);
      assert {} * u == {};
    }
  }

  /** Two symbols that cover the same two sources stop it, whatever their coefficients. */
  lemma {:induction false} StuckPair()
    ensures !Peelable([{0, 1}, {0, 1}], 2)
  {
    var u: set<nat> := {0, 1};
    assert u * u == u && |u| == 2;
    assert Sources(1) == {0} && Sources(2) == {0, 1};
    assert Stops([u, u], 2, u);
  }
}
