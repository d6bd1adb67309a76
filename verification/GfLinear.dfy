/**
  Vectors over GF(2^8): the row operations of `gf256.rs`, dot products, and the
  kernel of a set of rows.  A row [a | b] of an augmented system and a candidate
  solution are tied together by one dot product: `Dot(row, z) == 0`, where z is
  the solution followed by the coordinate 1 of the right-hand side it is read at.
 */
module GfLinear {
  import opened Gf256

  type Vec = seq<bv8>

  function Axpy(a: bv8, src: Vec, dst: Vec): (r: Vec)
    requires |src| == |dst|
    ensures |r| == |dst|
    ensures forall i :: 0 <= i < |r| ==> r[i] == Add(dst[i], Mul(a, src[i]))
  {
    seq(|dst|, i requires 0 <= i < |dst| => Add(dst[i], Mul(a, src[i])))
  }

  function Scale(a: bv8, v: Vec): (r: Vec)
    ensures |r| == |v|
    ensures forall i :: 0 <= i < |r| ==> r[i] == Mul(a, v[i])
  {
    seq(|v|, i requires 0 <= i < |v| => Mul(a, v[i]))
  }

  function Zeros(n: nat): (r: Vec)
    ensures |r| == n && forall i :: 0 <= i < n ==> r[i] == 0
  {
    seq(n, _ => 0)
  }

  function Unit(n: nat, p: nat): (r: Vec)
    requires p < n
    ensures |r| == n && forall i :: 0 <= i < n ==> r[i] == if i == p then 1 else 0
  {
    seq(n, i => if i == p then 1 else 0)
  }

  function DotTo(u: Vec, v: Vec, n: nat): bv8
    requires n <= |u| && n <= |v|
  {
    if n == 0 then 0 else Add(DotTo(u, v, n - 1), Mul(u[n - 1], v[n - 1]))
  }

  function Dot(u: Vec, v: Vec): bv8
    requires |u| == |v|
  {
    DotTo(u, v, |u|)
  }

  lemma {:induction false} AxpyZero(src: Vec, dst: Vec)
    requires |src| == |dst|
    ensures Axpy(0, src, dst) == dst
  {
    hide Add, Mul;
    forall i | 0 <= i < |dst| ensures Axpy(0, src, dst)[i] == dst[i] {
      MulUnits(src[i]);
      AddLaws(dst[i], 0, 0);
    }
  }

  lemma {:induction false} ScaleOne(v: Vec)
    ensures Scale(1, v) == v
  {
    hide Mul;
    forall i | 0 <= i < |v| ensures Scale(1, v)[i] == v[i] {
      MulUnits(v[i]);
    }
  }

  // ---------------------------------------------------------------- dot products

  lemma {:induction false} DotToCommutes(u: Vec, v: Vec, n: nat)
    requires n <= |u| && n <= |v|
    ensures DotTo(u, v, n) == DotTo(v, u, n)
  {
    hide Add, Mul;
    if n > 0 {
      DotToCommutes(u, v, n - 1);
      MulCommutes(u[n - 1], v[n - 1]);
    }
  }

  lemma {:induction false} DotToAxpy(a: bv8, u: Vec, w: Vec, z: Vec, n: nat)
    requires |u| == |w| && n <= |u| && n <= |z|
    ensures DotTo(Axpy(a, u, w), z, n) == Add(DotTo(w, z, n), Mul(a, DotTo(u, z, n)))
  {
    hide Add, Mul, Axpy;
    if n == 0 {
      MulUnits(a);
      AddLaws(0, 0, 0);
    } else {
      DotToAxpy(a, u, w, z, n - 1);
      var du, dw := DotTo(u, z, n - 1), DotTo(w, z, n - 1);
      var ui, wi, zi := u[n - 1], w[n - 1], z[n - 1];
      MulDistributes(wi, Mul(a, ui), zi);
      MulAssociates(a, ui, zi);
      MulDistributes(du, Mul(ui, zi), a);
      AddSwap(dw, Mul(a, du), Mul(wi, zi), Mul(a, Mul(ui, zi)));
    }
  }

  lemma {:induction false} DotToScale(a: bv8, u: Vec, z: Vec, n: nat)
    requires n <= |u| && n <= |z|
    ensures DotTo(Scale(a, u), z, n) == Mul(a, DotTo(u, z, n))
  {
    hide Add, Mul, Scale;
    if n == 0 {
      MulUnits(a);
    } else {
      DotToScale(a, u, z, n - 1);
      MulAssociates(a, u[n - 1], z[n - 1]);
      MulDistributes(DotTo(u, z, n - 1), Mul(u[n - 1], z[n - 1]), a);
    }
  }

  lemma {:induction false} DotToAgrees(u: Vec, v: Vec, u': Vec, v': Vec, n: nat)
    requires n <= |u| && n <= |v| && n <= |u'| && n <= |v'|
    requires forall i :: 0 <= i < n ==> Mul(u[i], v[i]) == Mul(u'[i], v'[i])
    ensures DotTo(u, v, n) == DotTo(u', v', n)
  {
    hide Add, Mul;
    if n > 0 {
      DotToAgrees(u, v, u', v', n - 1);
    }
  }

  /** All terms vanish but the one at p. */
  lemma {:induction false} DotToSingle(u: Vec, v: Vec, p: nat, n: nat)
    requires n <= |u| && n <= |v| && p < |u| && p < |v|
    requires forall i :: 0 <= i < n && i != p ==> u[i] == 0 || v[i] == 0
    ensures DotTo(u, v, n) == if p < n then Mul(u[p], v[p]) else 0
  {
    hide Add, Mul;
    if n > 0 {
      DotToSingle(u, v, p, n - 1);
      MulUnits(u[n - 1]);
      MulUnits(v[n - 1]);
      AddLaws(Mul(u[p], v[p]), 0, 0);
      AddLaws(0, 0, 0);
    }
  }

  /** All terms vanish but the ones at p and q. */
  lemma {:induction false} DotToPair(u: Vec, v: Vec, p: nat, q: nat, n: nat)
    requires n <= |u| && n <= |v| && p < q < n
    requires forall i :: 0 <= i < n && i != p && i != q ==> u[i] == 0 || v[i] == 0
    ensures DotTo(u, v, n) == Add(Mul(u[p], v[p]), Mul(u[q], v[q]))
  {
    hide Add, Mul;
    if q == n - 1 {
      DotToSingle(u, v, p, n - 1);
    } else {
      DotToPair(u, v, p, q, n - 1);
      MulUnits(u[n - 1]);
      MulUnits(v[n - 1]);
      AddLaws(DotTo(u, v, n - 1), 0, 0);
    }
  }

  // ---------------------------------------------------------- rows and kernels

  predicate Rectangular(rows: seq<Vec>, m: nat) {
    forall i :: 0 <= i < |rows| ==> |rows[i]| == m
  }

  /** z is in the kernel of the rows: every row's dot product with z vanishes. */
  ghost predicate Kills(z: Vec, rows: seq<Vec>) {
    Rectangular(rows, |z|) && forall i :: 0 <= i < |rows| ==> Dot(rows[i], z) == 0
  }

  /** The linear combination of the rows with coefficients cs. */
  function CombTo(cs: Vec, rows: seq<Vec>, m: nat, n: nat): (r: Vec)
    requires n <= |cs| && n <= |rows| && Rectangular(rows, m)
    ensures |r| == m
  {
    if n == 0 then Zeros(m) else Axpy(cs[n - 1], rows[n - 1], CombTo(cs, rows, m, n - 1))
  }

  function Comb(cs: Vec, rows: seq<Vec>, m: nat): (r: Vec)
    requires |cs| == |rows| && Rectangular(rows, m)
    ensures |r| == m
  {
    CombTo(cs, rows, m, |rows|)
  }

  /** The product of the matrix with a column. */
  function Apply(rows: seq<Vec>, x: Vec): (r: Vec)
    requires Rectangular(rows, |x|)
    ensures |r| == |rows| && forall i :: 0 <= i < |r| ==> r[i] == Dot(rows[i], x)
  {
    seq(|rows|, i requires 0 <= i < |rows| => Dot(rows[i], x))
  }

  lemma {:induction false} DotZeros(z: Vec, n: nat)
    requires n <= |z|
    ensures DotTo(Zeros(|z|), z, n) == 0
  {
    hide Add, Mul;
    if n > 0 {
      DotZeros(z, n - 1);
      MulUnits(z[n - 1]);
      AddLaws(0, 0, 0);
    }
  }

  /** Combining rows, then reading at z, is reading the rows at z, then combining. */
  lemma {:induction false} DotCombTo(cs: Vec, rows: seq<Vec>, z: Vec, n: nat)
    requires |cs| == |rows| && n <= |cs| && Rectangular(rows, |z|)
    ensures Dot(CombTo(cs, rows, |z|, n), z) == DotTo(cs, Apply(rows, z), n)
  {
    hide Add, Mul, Axpy, Zeros;
    if n == 0 {
      DotZeros(z, |z|);
    } else {
      DotCombTo(cs, rows, z, n - 1);
      DotToAxpy(cs[n - 1], rows[n - 1], CombTo(cs, rows, |z|, n - 1), z, |z|);
    }
  }

  lemma {:induction false} DotComb(cs: Vec, rows: seq<Vec>, z: Vec)
    requires |cs| == |rows| && Rectangular(rows, |z|)
    ensures Dot(Comb(cs, rows, |z|), z) == Dot(cs, Apply(rows, z))
  {
    DotCombTo(cs, rows, z, |rows|);
  }
}

