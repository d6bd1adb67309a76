/** The consistent-hash ring with golden-ratio positions (`crates/coding/src/placement.rs`). */
module GoldenRing {
  import opened Results
  import opened Modular

  const M: nat := 0x1_0000_0000_0000_0000
  const GOLDEN: nat := 0x9E37_79B9_7F4A_7C15
  /** The inverse of the golden constant modulo 2^64. */
  const UNGOLDEN: nat := 0xF1DE_83E1_9937_733D

  /** n times the odd constant, in 64 bits. */
  function Placement(n: nat): (p: nat)
    ensures p < M
  {
    n * GOLDEN % M
  }

  /** Positions never collide: multiplying by the inverse gives the number back. */
  lemma {:induction false} PlacementInverse(n: nat)
    requires n < M
    ensures Placement(n) * UNGOLDEN % M == n
  {
    var q := n * GOLDEN / M;
    var p := Placement(n);
    assert n * GOLDEN == q * M + p;
    UndoGolden();
    Unmultiply(n, GOLDEN, UNGOLDEN, QUOTIENT, q, p, M);
    Euclid(M, p * UNGOLDEN, n * QUOTIENT - q * UNGOLDEN, n);
  }

  const QUOTIENT: nat := GOLDEN * UNGOLDEN / M

  lemma {:induction false} UndoGolden()
    ensures GOLDEN * UNGOLDEN == QUOTIENT * M + 1
  {
  }

  lemma {:induction false} Unmultiply(n: int, g: int, u: int, k: int, q: int, p: int, m: int)
    requires n * g == q * m + p && g * u == k * m + 1
    ensures p * u == (n * k - q * u) * m + n
  {
    assert p * u == (n * g - q * m) * u;
    assert (n * g - q * m) * u == n * (g * u) - (q * u) * m by {
      assert n * g * u == n * (g * u);
      assert q * m * u == (q * u) * m;
    }
    assert n * (g * u) == n * (k * m + 1) == (n * k) * m + n;
  }

  lemma {:induction false} PlacementInjective(a: nat, b: nat)
    requires a < M && b < M && Placement(a) == Placement(b)
    ensures a == b
  {
    hide Placement;
    PlacementInverse(a);
    PlacementInverse(b);
  }

  // ---------------------------------------------------------------------------- routing

  /** How far clockwise p lies from k. */
  function Clockwise(k: nat, p: nat): nat
    requires k < M && p < M
  {
    if p >= k then p - k else p + M - k
  }

  ghost predicate OnRing(nodes: map<nat, nat>) { forall p :: p in nodes ==> p < M }

  /** Position p is the nearest one clockwise from k. */
  ghost predicate Nearest(nodes: map<nat, nat>, k: nat, p: nat)
    requires k < M && OnRing(nodes)
  {
    p in nodes && forall q :: q in nodes ==> Clockwise(k, p) <= Clockwise(k, q)
  }

  lemma {:induction false} NearestUnique(nodes: map<nat, nat>, k: nat, p: nat, q: nat)
    requires k < M && OnRing(nodes) && Nearest(nodes, k, p) && Nearest(nodes, k, q)
    ensures p == q
  {
    assert Clockwise(k, p) == Clockwise(k, q);
  }

  /** Taking a node away moves only the keys that were routed to it. */
  lemma {:induction false} RemoveStable(nodes: map<nat, nat>, gone: nat, k: nat, p: nat)
    requires k < M && OnRing(nodes) && Nearest(nodes, k, p) && p != gone
    ensures OnRing(nodes - {gone}) && Nearest(nodes - {gone}, k, p) && (nodes - {gone})[p] == nodes[p]
  {
  }

  /** A new node takes keys only to itself. */
  lemma {:induction false} AddStable(nodes: map<nat, nat>, pos: nat, e: nat, k: nat, p: nat)
    requires k < M && pos < M && OnRing(nodes) && pos !in nodes
    requires OnRing(nodes[pos := e]) && Nearest(nodes[pos := e], k, p)
    ensures p == pos || (Nearest(nodes, k, p) && nodes[p] == nodes[pos := e][p])
  {
    if p != pos {
      forall q | q in nodes ensures Clockwise(k, p) <= Clockwise(k, q) {
        assert q in nodes[pos := e];
      }
    }
  }

  class Ring {
    /** Entities by position, and positions by entity. */
    var nodes: map<nat, nat>
    var idToPos: map<nat, nat>
    var counter: nat

    /** The two maps are inverse, and every position comes from a counter value already used. */
    ghost predicate Valid()
      reads this
    {
      && counter < M
      && (forall p :: p in nodes ==> nodes[p] in idToPos && idToPos[nodes[p]] == p)
      && (forall e :: e in idToPos ==> idToPos[e] in nodes && nodes[idToPos[e]] == e)
      && (forall p :: p in nodes ==> Assigned(p, counter))
    }

    constructor ()
      ensures Valid() && nodes == map[]
    {
      nodes, idToPos, counter := map[], map[], 0;
    }

    /** Adds an entity at a position no other has had; a known entity keeps its own. */
    method Add(e: nat)
      requires Valid() && counter + 1 < M
      modifies this
      ensures Valid()
      ensures e in old(idToPos) ==> nodes == old(nodes) && idToPos == old(idToPos)
      ensures e !in old(idToPos) ==>
        && Placement(old(counter)) !in old(nodes)
        && nodes == old(nodes)[Placement(old(counter)) := e] && idToPos == old(idToPos)[e := Placement(old(counter))]
    {
      if e in idToPos {
        return;
      }
      hide Placement;
      var pos := Placement(counter);
      forall p | p in nodes ensures p != pos && Assigned(p, counter + 1) {
        var c: nat :| c < counter && p == Placement(c);
        if p == pos {
          PlacementInjective(c, counter);
          assert false;
        }
      }
      counter := counter + 1;
      assert Assigned(pos, counter);
      nodes := nodes[pos := e];
      idToPos := idToPos[e := pos];
    }

    /** Removes an entity; no other entity moves. */
    method Remove(e: nat) returns (known: bool)
      requires Valid()
      modifies this
      ensures Valid() && known == (e in old(idToPos)) && counter == old(counter)
      ensures known ==> nodes == old(nodes) - {old(idToPos)[e]} && idToPos == old(idToPos) - {e}
      ensures !known ==> nodes == old(nodes) && idToPos == old(idToPos)
    {
      hide Assigned;
      known := e in idToPos;
      if known {
        var pos := idToPos[e];
        idToPos := idToPos - {e};
        nodes := nodes - {pos};
      }
    }

    /** The entity nearest clockwise from the key's position. */
    method Route(key: nat) returns (e: Option<nat>)
      requires Valid() && key < M
      ensures e.None? <==> nodes == map[]
      ensures OnRing(nodes)
      ensures e.Some? ==> exists p :: Nearest(nodes, Placement(key), p) && nodes[p] == e.value
      ensures forall p :: Nearest(nodes, Placement(key), p) ==> e == Some(nodes[p])
    {
      hide Placement;
      forall p | p in nodes ensures p < M {
        var c: nat :| c < counter && p == Placement(c);
      }
      if nodes == map[] {
        return None;
      }
      var k := Placement(key);
      var later := set p | p in nodes && p >= k;
      var ahead := Smallest(later);
      if ahead.Some? {
        forall q | q in nodes ensures Clockwise(k, ahead.value) <= Clockwise(k, q) {
          assert q >= k ==> q in later;
        }
        assert Nearest(nodes, k, ahead.value);
        forall p | Nearest(nodes, k, p) ensures p == ahead.value {
          NearestUnique(nodes, k, p, ahead.value);
        }
        return Some(nodes[ahead.value]);
      }
      var first := Smallest(nodes.Keys);
      assert nodes.Keys != {};
      forall q | q in nodes ensures Clockwise(k, first.value) <= Clockwise(k, q) {
        assert q !in later && first.value !in later;
      }
      assert Nearest(nodes, k, first.value);
      forall p | Nearest(nodes, k, p) ensures p == first.value {
        NearestUnique(nodes, k, p, first.value);
      }
      e := Some(nodes[first.value]);
    }
  }

  /** The position was given out before the counter reached this value. */
  ghost predicate Assigned(p: nat, counter: nat) { exists c: nat :: c < counter && p == Placement(c) }

  /** The least element of a set of positions. */
  method Smallest(s: set<nat>) returns (least: Option<nat>)
    ensures least.None? <==> s == {}
    ensures least.Some? ==> least.value in s && forall x :: x in s ==> least.value <= x
  {
    least := None;
    var todo := s;
    while todo != {}
      invariant todo <= s && (least.None? ==> todo == s)
      invariant least.Some? ==> least.value in s && forall x :: x in s ==> x in todo || least.value <= x
      decreases |todo|
    {
      var x :| x in todo;
      if least.None? || x < least.value {
        least := Some(x);
      }
      todo := todo - {x};
    }
  }
}
