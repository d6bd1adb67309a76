/**
  Polynomials over GF(2^8), coefficients lowest first, and the one fact about
  them that Reed-Solomon rests on: k coefficients that vanish at k distinct
  points are all zero, and k - 1 points always leave a nonzero choice.
 */
module Polynomials {
  import opened Counting
  import opened Gf256
  import opened GfLinear

  function Eval(c: Vec, x: bv8): bv8 {
    if c == [] then 0 else Add(c[0], Mul(x, Eval(c[1..], x)))
  }

  function Pow(x: bv8, j: nat): bv8 {
    if j == 0 then 1 else Mul(Pow(x, j - 1), x)
  }

  /** The powers of x below k: one row of a Vandermonde matrix. */
  function PowerRow(x: bv8, k: nat): (r: Vec)
    ensures |r| == k
  {
    seq(k, j requires 0 <= j < k => Pow(x, j))
  }

  predicate AllZero(v: Vec) { forall i :: 0 <= i < |v| ==> v[i] == 0 }

  // ----------------------------------------------------- evaluation is a dot product

  lemma {:induction false} EvalTail(c: Vec, x: bv8, n: nat)
    requires n <= |c|
    ensures Eval(c, x) == Add(DotTo(PowerRow(x, |c|), c, n), Mul(Pow(x, n), Eval(c[n..], x)))
  {
    hide Add, Mul;
    if n == 0 {
      assert c[0..] == c;
      MulUnits(Eval(c, x));
      AddLaws(Eval(c, x), 0, 0);
    } else {
      EvalTail(c, x, n - 1);
      var p, t := Pow(x, n - 1), Eval(c[n..], x);
      assert c[n - 1..][1..] == c[n..];
      MulDistributes(c[n - 1], Mul(x, t), p);
      MulAssociates(p, x, t);
      AddLaws(DotTo(PowerRow(x, |c|), c, n - 1), Mul(p, c[n - 1]), Mul(Mul(p, x), t));
    }
  }

  lemma {:induction false} EvalIsDot(c: Vec, x: bv8)
    ensures Eval(c, x) == Dot(PowerRow(x, |c|), c)
  {
    hide Add, Mul;
    EvalTail(c, x, |c|);
    MulUnits(Pow(x, |c|));
    AddLaws(Dot(PowerRow(x, |c|), c), 0, 0);
  }

  // --------------------------------------------------------------------- division

  /** The quotient of c by X + a. */
  function Quotient(c: Vec, a: bv8): (q: Vec)
    ensures |q| == if c == [] then 0 else |c| - 1
  {
    if |c| <= 1 then [] else [Eval(c[1..], a)] + Quotient(c[1..], a)
  }

  lemma {:induction false} Division(c: Vec, a: bv8, x: bv8)
    ensures Eval(c, x) == Add(Mul(Add(x, a), Eval(Quotient(c, a), x)), Eval(c, a))
  {
    hide Add, Mul;
    MulUnits(Add(x, a));
    if |c| <= 1 {
      MulUnits(x);
      MulUnits(a);
      AddLaws(0, 0, 0);
      AddLaws(Eval(c, a), 0, 0);
      if |c| == 1 {
        assert c[1..] == [];
      }
    } else {
      var d := c[1..];
      var q := Quotient(d, a);
      Division(d, a, x);
      assert Quotient(c, a)[1..] == q;
      DivisionStep(c[0], a, x, Eval(d, x), Eval(d, a), Eval(q, x));
    }
  }

  /** The arithmetic of one division step: e is d at x, r is d at a, s is the quotient of d at x. */
  lemma {:induction false} DivisionStep(c0: bv8, a: bv8, x: bv8, e: bv8, r: bv8, s: bv8)
    requires e == Add(Mul(Add(x, a), s), r)
    ensures Add(c0, Mul(x, e)) == Add(Mul(Add(x, a), Add(r, Mul(x, s))), Add(c0, Mul(a, r)))
  {
    hide Add, Mul;
    var y := Add(x, a);
    MulDistributes(Mul(y, s), r, x);
    MulDistributes(r, Mul(x, s), y);
    MulDistributes(x, a, r);
    MulAssociates(x, y, s);
    MulAssociates(y, x, s);
    MulCommutes(x, y);
    var ys, xr, ar := Mul(x, Mul(y, s)), Mul(x, r), Mul(a, r);
    assert Mul(x, e) == Add(ys, xr);
    assert Mul(y, Add(r, Mul(x, s))) == Add(Add(xr, ar), ys);
    Regroup(c0, ys, xr, ar);
  }

  lemma {:induction false} Regroup(c0: bv8, ys: bv8, xr: bv8, ar: bv8)
    ensures Add(c0, Add(ys, xr)) == Add(Add(Add(xr, ar), ys), Add(c0, ar))
  {
    assert c0 ^ (ys ^ xr) == ((xr ^ ar) ^ ys) ^ (c0 ^ ar);
  }

  lemma {:induction false} ZeroQuotient(c: Vec, a: bv8)
    requires Eval(c, a) == 0 && AllZero(Quotient(c, a))
    ensures AllZero(c)
  {
    hide Add, Mul;
    if c != [] {
      var d := c[1..];
      if d != [] {
        assert Quotient(c, a)[0] == Eval(d, a);
        forall i | 0 <= i < |Quotient(d, a)| ensures Quotient(d, a)[i] == 0 {
          assert Quotient(c, a)[i + 1] == 0;
        }
        ZeroQuotient(d, a);
      }
      MulUnits(a);
      AddLaws(c[0], 0, 0);
      assert forall i :: 0 < i < |c| ==> c[i] == d[i - 1];
    }
  }

  /** As many distinct roots as coefficients: the polynomial is zero. */
  lemma {:induction false} TooManyRoots(c: Vec, points: seq<bv8>)
    requires |points| == |c| && Distinct(points)
    requires forall i :: 0 <= i < |points| ==> Eval(c, points[i]) == 0
    ensures AllZero(c)
    decreases |points|
  {
    hide Add, Mul, Eval;
    if c != [] {
      var n := |points| - 1;
      var a := points[n];
      var q := Quotient(c, a);
      forall i | 0 <= i < n ensures Eval(q, points[i]) == 0 {
        Division(c, a, points[i]);
        AddLaws(points[i], a, 0);
        AddLaws(Mul(Add(points[i], a), Eval(q, points[i])), 0, 0);
        MulNonzero(Add(points[i], a), Eval(q, points[i]));
      }
      TooManyRoots(q, points[..n]);
      ZeroQuotient(c, a);
    }
  }

  // ------------------------------------------------------------- roots by design

  function AddConstant(p: Vec, c: bv8): (r: Vec)
    requires p != []
    ensures |r| == |p|
  {
    [Add(p[0], c)] + p[1..]
  }

  /** The product of q with X + a. */
  function TimesRoot(q: Vec, a: bv8): (p: Vec)
    ensures |p| == |q| + 1
    ensures q != [] ==> p[|q|] == q[|q| - 1]
  {
    if q == [] then [0]
    else
      var p := [Mul(a, q[0])] + AddConstant(TimesRoot(q[1..], a), q[0]);
      assert |q| == 1 ==> p[1] == q[0] by { AddLaws(q[0], 0, 0); }
      p
  }

  lemma {:induction false} EvalTimesRoot(q: Vec, a: bv8, x: bv8)
    ensures Eval(TimesRoot(q, a), x) == Mul(Add(x, a), Eval(q, x))
  {
    hide Add, Mul;
    MulUnits(x);
    MulUnits(Add(x, a));
    if q == [] {
      AddLaws(0, 0, 0);
      assert TimesRoot(q, a)[1..] == [];
    } else {
      var d := q[1..];
      var t := TimesRoot(d, a);
      EvalTimesRoot(d, a, x);
      var u := AddConstant(t, q[0]);
      assert u[1..] == t[1..];
      assert TimesRoot(q, a)[1..] == u;
      AddLaws(t[0], q[0], Mul(x, Eval(t[1..], x)));
      AddLaws(q[0], Mul(x, Eval(t[1..], x)), t[0]);
      AddLaws(t[0], Mul(x, Eval(t[1..], x)), q[0]);
      assert Eval(u, x) == Add(Eval(t, x), q[0]);
      RootStep(q[0], a, x, Eval(d, x));
    }
  }

  lemma {:induction false} RootStep(q0: bv8, a: bv8, x: bv8, e: bv8)
    ensures Add(Mul(a, q0), Mul(x, Add(Mul(Add(x, a), e), q0))) == Mul(Add(x, a), Add(q0, Mul(x, e)))
  {
    hide Add, Mul;
    var y := Add(x, a);
    MulDistributes(Mul(y, e), q0, x);
    MulDistributes(q0, Mul(x, e), y);
    MulDistributes(x, a, q0);
    MulAssociates(x, y, e);
    MulAssociates(y, x, e);
    MulCommutes(x, y);
    var w, xq, aq := Mul(x, Mul(y, e)), Mul(x, q0), Mul(a, q0);
    AddLaws(w, xq, aq);
    AddLaws(aq, w, xq);
    AddLaws(aq, xq, w);
    AddLaws(xq, aq, w);
  }

  /** The monic polynomial with exactly these roots. */
  function RootPolynomial(points: seq<bv8>): (c: Vec)
    ensures |c| == |points| + 1 && c[|points|] == 1
  {
    if points == [] then [1] else TimesRoot(RootPolynomial(points[1..]), points[0])
  }

  lemma {:induction false} RootsOf(points: seq<bv8>, i: nat)
    requires i < |points|
    ensures Eval(RootPolynomial(points), points[i]) == 0
  {
    hide Add, Mul, Eval;
    var q := RootPolynomial(points[1..]);
    EvalTimesRoot(q, points[0], points[i]);
    AddLaws(points[i], points[i], 0);
    MulUnits(Eval(q, points[i]));
    MulUnits(Add(points[i], points[0]));
    if i > 0 {
      RootsOf(points[1..], i - 1);
    }
  }
}

