/**
  The matrices behind the Reed-Solomon code of `crates/coding/src/rs.rs`: evaluation
  points, the Vandermonde matrix of their powers, and what it means that rows of a
  generator determine the data.
 */
module Evaluation {
  import opened Counting
  import opened Gf256
  import opened GfLinear
  import opened Polynomials
  import opened LinearSystems

  /** The evaluation point of row i: i + 1 as a byte, so point 255 is 0. */
  function Point(i: nat): bv8 { ByteAt((i + 1) % 256) }

  /** The cast to a byte keeps the low eight bits. */
  lemma {:induction false} PointIsByte(i: nat, b: bv8)
    requires b as nat == (i + 1) % 256
    ensures b == Point(i)
  {
    hide ByteAt, Index;
    IndexIsNat(b);
    ByteOfIndex(b);
  }

  function FirstPoints(n: nat): (points: seq<bv8>)
    ensures |points| == n && forall i: nat :: i < n ==> points[i] == Point(i)
  {
    seq(n, i requires 0 <= i < n => Point(i))
  }

  function Vandermonde(n: nat, k: nat): (v: seq<Vec>)
    ensures |v| == n && Rectangular(v, k)
  {
    seq(n, i requires 0 <= i < n => PowerRow(Point(i), k))
  }

  lemma {:induction false} PointsDistinct(i: nat, j: nat)
    requires i < j < 256
    ensures Point(i) != Point(j)
  {
    hide ByteAt, Index;
    IndexOfByte((i + 1) % 256);
    IndexOfByte((j + 1) % 256);
  }

  /** These rows of g see every nonzero vector. */
  ghost predicate Independent(g: seq<Vec>, k: nat, idx: seq<nat>)
    requires Rectangular(g, k) && forall i :: 0 <= i < |idx| ==> idx[i] < |g|
  {
    forall z: Vec :: |z| == k && (forall i :: 0 <= i < |idx| ==> Dot(g[idx[i]], z) == 0) ==> AllZero(z)
  }

  predicate Below(idx: seq<nat>, n: nat) { forall i :: 0 <= i < |idx| ==> idx[i] < n }

  /** Any k distinct symbols determine the data. */
  ghost predicate Mds(g: seq<Vec>, k: nat, m: nat)
    requires |g| == k + m && Rectangular(g, k)
  {
    forall idx: seq<nat> :: |idx| == k && Distinct(idx) && Below(idx, k + m) ==> Independent(g, k, idx)
  }

  lemma {:induction false} VandermondeRow(n: nat, k: nat, i: nat, c: Vec)
    requires i < n && |c| == k
    ensures Apply(Vandermonde(n, k), c)[i] == Eval(c, Point(i))
  {
    hide Eval, DotTo, Point, PowerRow;
    EvalIsDot(c, Point(i));
  }

  /** A polynomial that vanishes at k distinct points below 256 is zero. */
  lemma {:induction false} RootsAtPoints(c: Vec, idx: seq<nat>)
    requires |idx| == |c| && Distinct(idx) && Below(idx, 256)
    requires forall i :: 0 <= i < |idx| ==> Eval(c, Point(idx[i])) == 0
    ensures AllZero(c)
  {
    hide Eval, Point;
    var points := seq(|idx|, i requires 0 <= i < |idx| => Point(idx[i]));
    forall i, j | 0 <= i < j < |points| ensures points[i] != points[j] {
      if idx[i] < idx[j] {
        PointsDistinct(idx[i], idx[j]);
      } else {
        PointsDistinct(idx[j], idx[i]);
      }
    }
    TooManyRoots(c, points);
  }

  lemma {:induction false} DotAllZero(u: Vec, v: Vec, n: nat)
    requires AllZero(v) && n <= |u| && n <= |v|
    ensures DotTo(u, v, n) == 0
  {
    hide Add, Mul;
    if n > 0 {
      DotAllZero(u, v, n - 1);
      MulUnits(u[n - 1]);
      AddLaws(0, 0, 0);
    }
  }

  // ------------------------------------------------------------- the augmented matrix

  /** [a | I] */
  function Augmented(a: seq<Vec>, k: nat): (rows: seq<Vec>)
    requires |a| == k && Rectangular(a, k)
    ensures |rows| == k && Rectangular(rows, k + k)
  {
    seq(k, i requires 0 <= i < k => a[i] + Unit(k, i))
  }

  lemma {:induction false} AugmentedKilled(a: seq<Vec>, k: nat, x: Vec, y: Vec)
    requires |a| == k && Rectangular(a, k) && |x| == k && |y| == k
    ensures Kills(x + y, Augmented(a, k)) <==> Apply(a, x) == y
  {
    hide Add, Mul;
    var rows := Augmented(a, k);
    forall i | 0 <= i < k ensures Dot(rows[i], x + y) == 0 <==> Dot(a[i], x) == y[i] {
      DotToAppend(a[i], x, Unit(k, i), y, k);
      DotToSingle(Unit(k, i), y, i, k);
      MulUnits(y[i]);
      AddLaws(Dot(a[i], x), y[i], 0);
    }
    hide DotTo;
    if Kills(x + y, rows) {
      forall i | 0 <= i < k ensures Apply(a, x)[i] == y[i] {
        assert Dot(rows[i], x + y) == 0;
      }
    }
    if Apply(a, x) == y {
      forall i | 0 <= i < k ensures Dot(rows[i], x + y) == 0 {
        assert Apply(a, x)[i] == y[i];
      }
    }
  }
}
