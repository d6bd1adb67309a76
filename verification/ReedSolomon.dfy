/**
  Systematic Reed-Solomon erasure coding (`crates/coding/src/rs.rs`).  The
  generator matrix is a Vandermonde matrix, made systematic by the inverse of its
  top square; what it computes is stated without it: symbol i is the value at
  point i of the polynomial that takes the data as its values at points 0..k.
  Beyond 256 data symbols there is no such inverse; `RepeatedPoints.dfy` says what
  the generator is then.
 */
module ReedSolomon {
  import opened Counting
  import opened Gf256
  import opened GfLinear
  import opened Polynomials
  import opened Evaluation
  import opened RepeatedPoints
  import opened Gauss
  import opened LinearSystems
  import opened Results

  /** The data x are interpolated by c, and the codeword g * x is c at every point. */
  ghost predicate Interpolates(g: seq<Vec>, k: nat, m: nat, x: Vec, c: Vec)
    requires |g| == k + m && Rectangular(g, k) && |x| == k
  {
    |c| == k && Apply(Vandermonde(k, k), c) == x && Apply(g, x) == Apply(Vandermonde(k + m, k), c)
  }

  /** g is the systematic evaluation code of the points. */
  ghost predicate EvaluationCode(g: seq<Vec>, k: nat, m: nat) {
    && |g| == k + m && Rectangular(g, k)
    && (forall x: Vec :: |x| == k ==> exists c: Vec :: Interpolates(g, k, m, x, c))
  }

  // ------------------------------------------------------------------ the MDS law

  lemma {:induction false} UnseenIsZero(g: seq<Vec>, k: nat, m: nat, idx: seq<nat>, z: Vec, c: Vec)
    requires |g| == k + m && Rectangular(g, k) && |z| == k && Interpolates(g, k, m, z, c) && k + m <= 256
    requires |idx| == k && Distinct(idx) && Below(idx, k + m)
    requires forall i :: 0 <= i < k ==> Dot(g[idx[i]], z) == 0
    ensures AllZero(z)
  {
    hide DotTo, Eval, Point, Vandermonde;
    forall i | 0 <= i < k ensures Eval(c, Point(idx[i])) == 0 {
      VandermondeRow(k + m, k, idx[i], c);
      assert Apply(g, z)[idx[i]] == Dot(g[idx[i]], z);
    }
    RootsAtPoints(c, idx);
    forall i | 0 <= i < k ensures z[i] == 0 {
      DotAllZero(Vandermonde(k, k)[i], c, k);
    }
  }

  /** Up to 256 points, k distinct rows see every nonzero vector. */
  lemma {:induction false} DistinctRowsIndependent(g: seq<Vec>, k: nat, m: nat, idx: seq<nat>)
    requires EvaluationCode(g, k, m) && k + m <= 256
    requires |idx| == k && Distinct(idx) && Below(idx, k + m)
    ensures Independent(g, k, idx)
  {
    hide DotTo, Interpolates;
    forall z: Vec | |z| == k && (forall i :: 0 <= i < k ==> Dot(g[idx[i]], z) == 0) ensures AllZero(z) {
      var c: Vec :| Interpolates(g, k, m, z, c);
      UnseenIsZero(g, k, m, idx, z, c);
    }
  }

  /** 0, 256, then 1, 2, ...: k row numbers, of which the first two name the same point. */
  function ClashingRows(k: nat): (idx: seq<nat>)
    requires 2 <= k <= 256
    ensures |idx| == k && Distinct(idx) && idx[0] == 0 && idx[1] == 256
    ensures forall i :: 2 <= i < k ==> idx[i] == i - 1
    ensures forall i :: 0 <= i < k ==> idx[i] <= 256
  {
    seq(k, i requires 0 <= i < k => if i == 0 then 0 else if i == 1 then 256 else i - 1)
  }

  /** With more than 256 points there are k distinct rows that miss a nonzero vector. */
  lemma {:induction false} RepeatedPointClash(g: seq<Vec>, k: nat, m: nat)
    requires EvaluationCode(g, k, m) && 2 <= k <= 256 < k + m
    ensures !Independent(g, k, ClashingRows(k))
  {
    hide DotTo, Eval, Vandermonde, Interpolates, Point;
    var points := FirstPoints(k - 1);
    var c := RootPolynomial(points);
    assert c[k - 1] == 1;
    var z := Apply(Vandermonde(k, k), c);
    var c': Vec :| Interpolates(g, k, m, z, c');
    SamePolynomial(g, k, m, c, z, c');
    forall i | 0 <= i < k ensures Dot(g[ClashingRows(k)[i]], z) == 0 {
      ClashingRowVanishes(g, k, m, c, z, i);
    }
    if AllZero(z) {
      forall i | 0 <= i < k ensures Eval(c, Point(i)) == 0 {
        VandermondeRow(k, k, i, c);
      }
      RootsAtPoints(c, seq(k, i => i));
    }
  }

  /** Two polynomials through the same k values are the same. */
  lemma {:induction false} SamePolynomial(g: seq<Vec>, k: nat, m: nat, c: Vec, z: Vec, c': Vec)
    requires |g| == k + m && Rectangular(g, k) && |c| == k <= 256 && z == Apply(Vandermonde(k, k), c)
    requires Interpolates(g, k, m, z, c')
    ensures c' == c
  {
    hide DotTo, Eval, Point, Add, Mul, Vandermonde;
    var d := Axpy(1, c, c');
    forall i | 0 <= i < k ensures Eval(d, Point(i)) == 0 {
      VandermondeRow(k, k, i, c);
      VandermondeRow(k, k, i, c');
      VandermondeRow(k, k, i, d);
      var row := Vandermonde(k, k)[i];
      DotToCommutes(row, d, k);
      DotToCommutes(row, c, k);
      DotToCommutes(row, c', k);
      DotToAxpy(1, c, c', row, k);
      MulUnits(DotTo(c, row, k));
      AddLaws(DotTo(c, row, k), DotTo(c, row, k), 0);
    }
    RootsAtPoints(d, seq(k, i => i));
    forall i | 0 <= i < k ensures c'[i] == c[i] {
      MulUnits(c[i]);
      AddLaws(c'[i], c[i], 0);
    }
  }

  /** Every clashing row stands at one of the first k - 1 points. */
  lemma {:induction false} ClashingPoint(k: nat, i: nat) returns (p: nat)
    requires 2 <= k <= 256 && i < k
    ensures p < k - 1 && Point(ClashingRows(k)[i]) == FirstPoints(k - 1)[p]
  {
    p := if i < 2 then 0 else i - 1;
    assert ClashingRows(k)[i] == if i == 1 then 256 else p;
  }

  lemma {:induction false} ClashingRowVanishes(g: seq<Vec>, k: nat, m: nat, c: Vec, z: Vec, i: nat)
    requires |g| == k + m && Rectangular(g, k) && 2 <= k <= 256 < k + m && i < k && |z| == k
    requires c == RootPolynomial(FirstPoints(k - 1)) && Interpolates(g, k, m, z, c)
    ensures Dot(g[ClashingRows(k)[i]], z) == 0
  {
    hide DotTo, Eval, Vandermonde, Point, RootPolynomial, FirstPoints, ClashingRows;
    var p := ClashingPoint(k, i);
    var r := ClashingRows(k)[i];
    VandermondeRow(k + m, k, r, c);
    assert Apply(g, z)[r] == Dot(g[r], z);
    RootsOf(FirstPoints(k - 1), p);
  }

  lemma {:induction false} SingleSymbol(g: seq<Vec>, m: nat, idx: seq<nat>)
    requires EvaluationCode(g, 1, m) && |idx| == 1 && Below(idx, 1 + m)
    ensures Independent(g, 1, idx)
  {
    hide DotTo, Interpolates;
    forall z: Vec | |z| == 1 && (forall i :: 0 <= i < 1 ==> Dot(g[idx[i]], z) == 0) ensures AllZero(z) {
      var c: Vec :| Interpolates(g, 1, m, z, c);
      SingleSymbolZero(g, m, idx[0], z, c);
    }
  }

  lemma {:induction false} SingleSymbolZero(g: seq<Vec>, m: nat, r: nat, z: Vec, c: Vec)
    requires |g| == 1 + m && Rectangular(g, 1) && |z| == 1 && r < 1 + m
    requires Interpolates(g, 1, m, z, c) && Dot(g[r], z) == 0
    ensures AllZero(z)
  {
    hide DotTo, Point, Vandermonde, Add, Mul;
    VandermondeRow(1 + m, 1, r, c);
    VandermondeRow(1, 1, 0, c);
    assert Apply(g, z)[r] == Dot(g[r], z);
    MulUnits(Point(r));
    MulUnits(Point(0));
    assert c[1..] == [];
    assert Eval(c, Point(r)) == Eval(c, Point(0));
    assert z[0] == Eval(c, Point(0));
  }

  /** What the generator of k data and m parity symbols is. */
  ghost predicate Built(g: seq<Vec>, k: nat, m: nat) {
    if k <= 256 then EvaluationCode(g, k, m) else WideCode(g, k, m)
  }

  /** One symbol; no repeated point; no parity; or one parity row without a zero. */
  predicate Recovers(k: nat, m: nat) {
    k == 1 || k + m <= 256 || m == 0 || (m == 1 && k > 256 && FullRow(k))
  }

  /** Any k distinct symbols determine the data exactly when the shape is one of these. */
  lemma {:induction false} MdsExactly(g: seq<Vec>, k: nat, m: nat)
    requires Built(g, k, m) && 1 <= k
    ensures |g| == k + m && Rectangular(g, k)
    ensures Mds(g, k, m) <==> Recovers(k, m)
  {
    hide EvaluationCode, WideCode, Mds, FullRow;
    if k <= 256 {
      CodeShape(g, k, m);
      NarrowMdsExactly(g, k, m);
    } else {
      WideMdsExactly(g, k, m);
    }
  }

  /** Up to 256 data symbols the code recovers from any k exactly when no point repeats. */
  lemma {:induction false} NarrowMdsExactly(g: seq<Vec>, k: nat, m: nat)
    requires EvaluationCode(g, k, m) && 1 <= k <= 256
    ensures Mds(g, k, m) <==> k == 1 || k + m <= 256
  {
    hide Interpolates, EvaluationCode, Independent;
    assert |g| == k + m && Rectangular(g, k) by { CodeShape(g, k, m); }
    if k == 1 {
      forall idx: seq<nat> | |idx| == k && Distinct(idx) && Below(idx, k + m) ensures Independent(g, k, idx) {
        SingleSymbol(g, m, idx);
      }
    } else if k + m <= 256 {
      forall idx: seq<nat> | |idx| == k && Distinct(idx) && Below(idx, k + m) ensures Independent(g, k, idx) {
        DistinctRowsIndependent(g, k, m, idx);
      }
    } else {
      RepeatedPointClash(g, k, m);
      assert Below(ClashingRows(k), k + m);
    }
  }

  lemma {:induction false} CodeShape(g: seq<Vec>, k: nat, m: nat)
    requires EvaluationCode(g, k, m)
    ensures |g| == k + m && Rectangular(g, k)
  {
  }

  // ------------------------------------------------------------ inverting a matrix

  ghost predicate Nonsingular(a: seq<Vec>, k: nat)
    requires Rectangular(a, k)
  {
    forall x: Vec :: |x| == k && (forall i :: 0 <= i < |a| ==> Dot(a[i], x) == 0) ==> AllZero(x)
  }

  ghost predicate InversePair(a: seq<Vec>, b: seq<Vec>, k: nat)
    requires |a| == |b| == k && Rectangular(a, k) && Rectangular(b, k)
  {
    forall x: Vec :: |x| == k ==> Apply(b, Apply(a, x)) == x && Apply(a, Apply(b, x)) == x
  }

  /** In a nonsingular system every column finds its pivot. */
  lemma {:induction false} PivotExists(a: seq<Vec>, rows: seq<Vec>, k: nat, r: nat, pivots: seq<nat>)
    requires |a| == k && Rectangular(a, k) && Nonsingular(a, k) && r < k
    requires Eliminated(Augmented(a, k), rows, k + k, r, pivots) && |pivots| == r && |rows| == k
    ensures exists p :: r <= p < k && rows[p][r] != 0
  {
    hide Kills, Augmented;
    if forall p :: r <= p < k ==> rows[p][r] == 0 {
      EchelonSkip(rows, k + k, r, pivots);
      var z := RankDeficient(rows, k + k, r + 1, pivots);
      NonsingularKernel(a, k, z);
    }
  }

  lemma {:induction false} NonsingularKernel(a: seq<Vec>, k: nat, z: Vec)
    requires |a| == k && Rectangular(a, k) && Nonsingular(a, k) && |z| == k + k && Kills(z, Augmented(a, k))
    requires forall c :: k <= c < k + k ==> z[c] == 0
    ensures AllZero(z)
  {
    hide DotTo;
    assert z == z[..k] + Zeros(k);
    AugmentedKilled(a, k, z[..k], Zeros(k));
    forall i | 0 <= i < k ensures Dot(a[i], z[..k]) == 0 {
      assert Apply(a, z[..k])[i] == Zeros(k)[i];
    }
    assert AllZero(z[..k]);
    forall c | 0 <= c < k ensures z[c] == 0 {
      assert z[..k][c] == 0;
    }
  }

  /** Full elimination of [a | I] leaves [I | b] with b the inverse of a. */
  lemma {:induction false} InverseLeft(a: seq<Vec>, rows: seq<Vec>, k: nat, pivots: seq<nat>, b: seq<Vec>)
    requires |a| == k && Rectangular(a, k) && |rows| == k && |pivots| == k
    requires Eliminated(Augmented(a, k), rows, k + k, k, pivots)
    requires |b| == k && Rectangular(b, k) && forall i :: 0 <= i < k ==> b[i] == rows[i][k..]
    ensures InversePair(a, b, k)
  {
    hide Dot, Augmented, Kills, Apply, Pivoted, Increasing;
    FullRank(rows, k + k, k, pivots);
    hide Echelon;
    forall x: Vec, y: Vec | |x| == k && |y| == k ensures Apply(a, x) == y <==> Apply(b, y) == x {
      AugmentedKilled(a, k, x, y);
      ReducedKilled(rows, b, k, x, y);
      assert |x + y| == k + k;
    }
    hide Eliminated;
    forall x: Vec | |x| == k ensures Apply(b, Apply(a, x)) == x && Apply(a, Apply(b, x)) == x {
      ApplySize(a, x);
      ApplySize(b, x);
    }
  }

  lemma {:induction false} ApplySize(a: seq<Vec>, x: Vec)
    requires Rectangular(a, |x|)
    ensures |Apply(a, x)| == |a|
  {
  }

  lemma {:induction false} ReducedKilled(rows: seq<Vec>, b: seq<Vec>, k: nat, x: Vec, y: Vec)
    requires |rows| == k && Rectangular(rows, k + k) && |b| == k && Rectangular(b, k) && |x| == k && |y| == k
    requires forall i, j :: 0 <= i < k && 0 <= j < k ==> rows[i][j] == if i == j then 1 else 0
    requires forall i :: 0 <= i < k ==> b[i] == rows[i][k..]
    ensures Kills(x + y, rows) <==> Apply(b, y) == x
  {
    hide Add, Mul;
    forall i | 0 <= i < k ensures Dot(rows[i], x + y) == 0 <==> Dot(b[i], y) == x[i] {
      assert rows[i] == rows[i][..k] + b[i];
      DotToAppend(rows[i][..k], x, b[i], y, k);
      DotToSingle(rows[i][..k], x, i, k);
      MulUnits(x[i]);
      AddLaws(x[i], Dot(b[i], y), 0);
    }
    hide DotTo;
    if Kills(x + y, rows) {
      forall i | 0 <= i < k ensures Apply(b, y)[i] == x[i] {
        assert Dot(rows[i], x + y) == 0;
      }
    }
    if Apply(b, y) == x {
      forall i | 0 <= i < k ensures Dot(rows[i], x + y) == 0 {
        assert Apply(b, y)[i] == x[i];
      }
    }
  }

  /** One turn of the inversion of a nonsingular matrix. */
  lemma {:induction false} NonsingularTurn(a: seq<Vec>, rows: seq<Vec>, k: nat, r: nat, pivots: seq<nat>, p: nat)
    requires |a| == k && Rectangular(a, k) && Nonsingular(a, k) && r < k == |rows| && Rectangular(rows, k + k)
    requires Eliminated(Augmented(a, k), rows, k + k, r, pivots) && |pivots| == r
    requires r <= p <= k && (forall i :: r <= i < p ==> rows[i][r] == 0) && (p < k ==> rows[p][r] != 0)
    ensures p < k && Eliminated(Augmented(a, k), PivotRows(rows, k + k, r, p, r), k + k, r + 1, pivots + [r])
  {
    hide Kills, Echelon, PivotRows, Augmented, Nonsingular;
    PivotExists(a, rows, k, r, pivots);
    EchelonPivot(rows, k + k, r, pivots, p);
    forall z: Vec | |z| == k + k ensures Kills(z, Augmented(a, k)) <==> Kills(z, PivotRows(rows, k + k, r, p, r)) {
      KillsPivotRows(z, rows, r, p, r);
    }
  }

  /** Gauss-Jordan inversion of [a | I], row r against column r. */
  method InvertMatrix(a: seq<Vec>, k: nat) returns (inv: seq<Vec>)
    requires |a| == k && Rectangular(a, k)
    ensures |inv| == k && Rectangular(inv, k)
    ensures Nonsingular(a, k) ==> InversePair(a, inv, k)
    ensures 256 < k && a == Vandermonde(k, k) ==> WideInverse(inv, k)
  {
    hide Kills, Echelon, PivotRows, Augmented, DotTo, Vandermonde, WideState, WideInverse, Nonsingular, InversePair;
    var start := Augmented(a, k);
    var rows := new Vec[k](i requires 0 <= i < k => start[i]);
    ghost var pivots: seq<nat> := [];
    assert rows[..] == start;
    EchelonStart(start, k + k);
    hide Eliminated;
    ghost var wide := 256 < k && a == Vandermonde(k, k);
    if wide {
      WideStart(k);
    }
    for r := 0 to k
      invariant Rectangular(rows[..], k + k)
      invariant Nonsingular(a, k) ==> |pivots| == r && Eliminated(start, rows[..], k + k, r, pivots)
      invariant wide ==> WideState(k, rows[..], if r < 256 then r else 256)
    {
      ghost var was := rows[..];
      var p := r;
      while p < k && rows[p][r] == 0
        invariant r <= p <= k && rows[..] == was
        invariant forall i :: r <= i < p ==> was[i][r] == 0
      {
        p := p + 1;
      }
      if Nonsingular(a, k) {
        NonsingularTurn(a, was, k, r, pivots, p);
        pivots := pivots + [r];
      }
      if wide {
        WideTurn(k, was, r, p);
      }
      if p < k {
        PivotInPlace(rows, k + k, r, p, r);
      }
    }
    var reduced := rows[..];
    inv := seq(k, i requires 0 <= i < k => reduced[i][k..]);
    if Nonsingular(a, k) {
      InverseLeft(a, reduced, k, pivots, inv);
    }
    if wide {
      WideResult(k, reduced, inv);
    }
  }

  /** One pivot on a vector of rows. */
  method PivotInPlace(rows: array<Vec>, m: nat, t: nat, p: nat, col: nat)
    requires t < rows.Length && p < rows.Length && col < m && Rectangular(rows[..], m)
    modifies rows
    ensures rows[..] == PivotRows(old(rows[..]), m, t, p, col)
  {
    hide Add, Mul, Axpy, Scale, Inv;
    ghost var was := rows[..];
    rows[t], rows[p] := rows[p], rows[t];
    assert rows[..] == Swapped(was, t, p);
    rows[t] := Scale(Inv(rows[t][col]), rows[t]);
    ghost var scaled := rows[..];
    var pivotRow := rows[t];
    for r := 0 to rows.Length
      invariant forall i :: 0 <= i < rows.Length ==>
        rows[i] == if i < r && i != t then Axpy(scaled[i][col], pivotRow, scaled[i]) else scaled[i]
    {
      if r != t {
        var c := rows[r][col];
        if c != 0 {
          rows[r] := Axpy(c, pivotRow, rows[r]);
        } else {
          AxpyZero(pivotRow, rows[r]);
        }
      }
    }
  }

  // ------------------------------------------------------------------ the generator

  lemma {:induction false} VandermondeNonsingular(k: nat)
    requires k <= 256
    ensures Nonsingular(Vandermonde(k, k), k)
  {
    hide DotTo, Eval, Point, Vandermonde;
    forall x: Vec | |x| == k && (forall i :: 0 <= i < k ==> Dot(Vandermonde(k, k)[i], x) == 0) ensures AllZero(x) {
      forall i | 0 <= i < k ensures Eval(x, Point(i)) == 0 {
        VandermondeRow(k, k, i, x);
      }
      RootsAtPoints(x, seq(k, i => i));
    }
  }

  /** Identity rows over products of the Vandermonde rows with the inverse: an evaluation code. */
  lemma {:induction false} GeneratorIsEvaluationCode(g: seq<Vec>, k: nat, m: nat, inv: seq<Vec>)
    requires |g| == k + m && Rectangular(g, k) && |inv| == k && Rectangular(inv, k)
    requires InversePair(Vandermonde(k, k), inv, k)
    requires forall j :: 0 <= j < k ==> g[j] == Unit(k, j)
    requires forall i :: k <= i < k + m ==> g[i] == Comb(Vandermonde(k + m, k)[i], inv, k)
    ensures EvaluationCode(g, k, m)
  {
    hide DotTo, Add, Mul, Point, PowerRow, Comb, InversePair;
    forall x: Vec | |x| == k ensures exists c: Vec :: Interpolates(g, k, m, x, c) {
      var c := Apply(inv, x);
      assert Apply(Vandermonde(k, k), c) == x by { InverseAt(Vandermonde(k, k), inv, k, x); }
      forall i | 0 <= i < k + m ensures Apply(g, x)[i] == Apply(Vandermonde(k + m, k), c)[i] {
        if i < k {
          DotUnit(k, i, x);
          assert Vandermonde(k, k)[i] == Vandermonde(k + m, k)[i];
          assert Apply(Vandermonde(k, k), c)[i] == x[i];
        } else {
          DotComb(Vandermonde(k + m, k)[i], inv, x);
        }
      }
      assert Interpolates(g, k, m, x, c);
    }
  }

  lemma {:induction false} InverseAt(a: seq<Vec>, b: seq<Vec>, k: nat, x: Vec)
    requires |a| == |b| == k && Rectangular(a, k) && Rectangular(b, k) && InversePair(a, b, k) && |x| == k
    ensures Apply(a, Apply(b, x)) == x
  {
  }

  /** Row i of the Vandermonde matrix, power by power. */
  method BuildPowerRow(alpha: bv8, k: nat) returns (row: Vec)
    ensures row == PowerRow(alpha, k)
  {
    hide Mul;
    row := Zeros(k);
    var pow := 1;
    for j := 0 to k
      invariant |row| == k && pow == Pow(alpha, j)
      invariant forall i :: 0 <= i < j ==> row[i] == Pow(alpha, i)
    {
      row := row[j := pow];
      pow := Mul(pow, alpha);
    }
  }

  /** One parity row: the product of a row with a matrix, entry by entry. */
  method RowTimesMatrix(v: Vec, inv: seq<Vec>, k: nat) returns (row: Vec)
    requires |v| == |inv| == k && Rectangular(inv, k)
    ensures row == Comb(v, inv, k)
  {
    hide Add, Mul;
    row := Zeros(k);
    for j := 0 to k
      invariant |row| == k
      invariant forall i :: 0 <= i < j ==> row[i] == Comb(v, inv, k)[i]
    {
      var acc := 0;
      for t := 0 to k
        invariant acc == CombTo(v, inv, k, t)[j]
      {
        acc := Add(acc, Mul(v[t], inv[t][j]));
      }
      row := row[j := acc];
    }
  }

  /** The systematic generator matrix: identity on top, parity rows below. */
  method BuildGenerator(k: nat, m: nat) returns (g: seq<Vec>)
    ensures |g| == k + m && Rectangular(g, k)
    ensures forall j :: 0 <= j < k ==> g[j] == Unit(k, j)
    ensures Built(g, k, m)
  {
    hide Point, PowerRow, Comb, DotTo, EvaluationCode, Nonsingular, InversePair, WideCode, WideInverse;
    var n := k + m;
    var v: seq<Vec> := [];
    for i := 0 to n
      invariant |v| == i && Rectangular(v, k)
      invariant forall j: nat :: j < i ==> v[j] == PowerRow(Point(j), k)
    {
      var row := BuildPowerRow(Point(i), k);
      v := v + [row];
    }
    var top := v[..k];
    assert top == Vandermonde(k, k);
    assert v == Vandermonde(n, k);
    var inv := InvertMatrix(top, k);
    g := seq(k, j requires 0 <= j < k => Unit(k, j));
    for i := 0 to m
      invariant |g| == k + i && Rectangular(g, k)
      invariant forall j :: 0 <= j < k ==> g[j] == Unit(k, j)
      invariant forall j :: k <= j < k + i ==> g[j] == Comb(v[j], inv, k)
    {
      var row := RowTimesMatrix(v[k + i], inv, k);
      g := g + [row];
    }
    if k <= 256 {
      VandermondeNonsingular(k);
      GeneratorIsEvaluationCode(g, k, m, inv);
    } else {
      WideGenerator(g, k, m, inv);
    }
  }

  /** Two evaluation codes of the same shape are the same matrix. */
  lemma {:induction false} EvaluationCodeUnique(g: seq<Vec>, h: seq<Vec>, k: nat, m: nat)
    requires EvaluationCode(g, k, m) && EvaluationCode(h, k, m) && k <= 256
    ensures g == h
  {
    hide DotTo, Interpolates;
    forall i, j | 0 <= i < k + m && 0 <= j < k ensures g[i][j] == h[i][j] {
      var x := Unit(k, j);
      var c: Vec :| Interpolates(g, k, m, x, c);
      var d: Vec :| Interpolates(h, k, m, x, d);
      SameCodeword(g, h, k, m, x, c, d);
      DotUnit(k, j, g[i]);
      DotUnit(k, j, h[i]);
      DotToCommutes(g[i], x, k);
      DotToCommutes(h[i], x, k);
      assert Apply(g, x)[i] == Apply(h, x)[i];
    }
    assert forall i :: 0 <= i < k + m ==> g[i] == h[i];
  }

  /** There is only one generator of each shape. */
  lemma {:induction false} BuiltUnique(g: seq<Vec>, h: seq<Vec>, k: nat, m: nat)
    requires Built(g, k, m) && Built(h, k, m)
    ensures g == h && |g| == k + m && Rectangular(g, k)
  {
    hide EvaluationCode, WideCode;
    if k <= 256 {
      EvaluationCodeUnique(g, h, k, m);
      CodeShape(g, k, m);
    } else {
      WideCodeUnique(g, h, k, m);
      WideCodeShape(g, k, m);
    }
  }

  lemma {:induction false} SameCodeword(g: seq<Vec>, h: seq<Vec>, k: nat, m: nat, x: Vec, c: Vec, d: Vec)
    requires |g| == |h| == k + m && Rectangular(g, k) && Rectangular(h, k) && |x| == k <= 256
    requires Interpolates(g, k, m, x, c) && Interpolates(h, k, m, x, d)
    ensures Apply(g, x) == Apply(h, x)
  {
    SamePolynomial(h, k, m, c, x, d);
  }

  // ---------------------------------------------------------------------- encoding

  datatype RsError = Empty | SizeMismatch(a: nat, b: nat) | Insufficient(have: nat, need: nat)

  datatype RsEncoder = RsEncoder(g: seq<Vec>, k: nat, n: nat, symbolSize: nat)

  ghost predicate ValidEncoder(e: RsEncoder, m: nat) {
    && e.n == e.k + m && |e.g| == e.n && Rectangular(e.g, e.k)
    && (forall j :: 0 <= j < e.k ==> e.g[j] == Unit(e.k, j))
    && Built(e.g, e.k, m)
  }

  method NewEncoder(k: nat, m: nat, symbolSize: nat) returns (r: Result<RsEncoder, RsError>)
    ensures k == 0 <==> r.Err?
    ensures r.Err? ==> r.error == Empty
    ensures r.Ok? ==> r.value.k == k && r.value.symbolSize == symbolSize && ValidEncoder(r.value, m)
  {
    hide Built;
    if k == 0 {
      return Err(Empty);
    }
    var g := BuildGenerator(k, m);
    r := Ok(RsEncoder(g, k, k + m, symbolSize));
  }

  /** Byte t of every symbol lies on the polynomial c: symbol i at the byte i + 1. */
  ghost predicate OnCurve(coded: seq<Vec>, s: nat, t: nat, c: Vec)
    requires Rectangular(coded, s) && t < s
  {
    forall i: nat, b: bv8 :: i < |coded| && b as nat == (i + 1) % 256 ==> coded[i][t] == Eval(c, b)
  }

  /** Byte t of all n symbols is one polynomial with k coefficients. */
  ghost predicate Interpolated(coded: seq<Vec>, k: nat, s: nat, t: nat)
    requires Rectangular(coded, s) && t < s
  {
    exists c: Vec :: |c| == k && OnCurve(coded, s, t, c)
  }

  /** Coefficient j of h is what data symbol j differs by from data symbol j modulo 256. */
  ghost predicate Excess(data: seq<Vec>, s: nat, t: nat, h: Vec)
    requires Rectangular(data, s) && t < s && |h| == |data|
  {
    forall j :: 0 <= j < |data| ==> h[j] == Add(data[j][t], data[j % 256][t])
  }

  /** Past 256 data symbols, parity i is data symbol i modulo 256 plus the excess at the byte i + 1. */
  ghost predicate Folded(coded: seq<Vec>, k: nat, s: nat, t: nat)
    requires Rectangular(coded, s) && t < s && 256 < k <= |coded|
  {
    forall h: Vec, i: nat, b: bv8 ::
      |h| == k && Excess(coded[..k], s, t, h) && k <= i < |coded| && b as nat == (i + 1) % 256 ==>
        coded[i][t] == Add(coded[i % 256][t], Eval(h, b))
  }

  lemma {:induction false} CodedOnCurve(g: seq<Vec>, k: nat, m: nat, s: nat, data: seq<Vec>, coded: seq<Vec>, t: nat)
    requires EvaluationCode(g, k, m) && Shape(data, k, s) && t < s
    requires |coded| == k + m && Rectangular(coded, s) && forall i :: 0 <= i < k + m ==> coded[i] == Comb(g[i], data, s)
    ensures Interpolated(coded, k, s, t)
  {
    hide DotTo, CombTo, Eval, Point, Vandermonde;
    var x := Column(data, s, t);
    var c: Vec :| Interpolates(g, k, m, x, c);
    forall i: nat, b: bv8 | i < k + m && b as nat == (i + 1) % 256 ensures coded[i][t] == Eval(c, b) {
      CombColumn(g[i], data, s, t, k);
      assert Apply(g, x)[i] == Dot(g[i], x);
      VandermondeRow(k + m, k, i, c);
      PointIsByte(i, b);
    }
    assert OnCurve(coded, s, t, c);
  }

  lemma {:induction false} ExcessIsTail(data: seq<Vec>, s: nat, t: nat, h: Vec)
    requires Rectangular(data, s) && t < s && |h| == |data| && Excess(data, s, t, h)
    ensures h == Tail(Column(data, s, t))
  {
    hide Add;
    forall j: nat | j < |data| ensures h[j] == Tail(Column(data, s, t))[j] {
      AddLaws(data[j][t], data[j % 256][t], 0);
    }
  }

  lemma {:induction false} ParityFolds(row: Vec, i: nat, s: nat, data: seq<Vec>, t: nat, b: bv8)
    requires 256 < |row| == |data| && Rectangular(data, s) && t < s && b as nat == (i + 1) % 256
    requires var x := Column(data, s, t); Dot(row, x) == Parity(i, x)
    ensures Comb(row, data, s)[t] == Add(data[i % 256][t], Eval(Tail(Column(data, s, t)), b))
  {
    hide DotTo, CombTo, Eval, Point, PowerRow, Add, Tail;
    CombColumn(row, data, s, t, |data|);
    PointIsByte(i, b);
    EvalIsDot(Tail(Column(data, s, t)), b);
  }

  lemma {:induction false} CodedFolds(g: seq<Vec>, k: nat, m: nat, s: nat, data: seq<Vec>, coded: seq<Vec>, t: nat)
    requires WideCode(g, k, m) && Shape(data, k, s) && t < s
    requires |coded| == k + m && Rectangular(coded, s) && coded[..k] == data
    requires forall i :: 0 <= i < k + m ==> coded[i] == Comb(g[i], data, s)
    ensures Folded(coded, k, s, t)
  {
    hide DotTo, CombTo, Eval, Add, Tail, Parity, Excess;
    forall h: Vec, i: nat, b: bv8 |
      |h| == k && Excess(coded[..k], s, t, h) && k <= i < k + m && b as nat == (i + 1) % 256
      ensures coded[i][t] == Add(coded[i % 256][t], Eval(h, b))
    {
      assert Dot(g[i], Column(data, s, t)) == Parity(i, Column(data, s, t));
      ParityFolds(g[i], i, s, data, t, b);
      ExcessIsTail(data, s, t, h);
      assert coded[i % 256] == data[i % 256];
    }
  }

  lemma {:induction false} CodedColumn(g: seq<Vec>, k: nat, m: nat, s: nat, data: seq<Vec>, coded: seq<Vec>, t: nat)
    requires Built(g, k, m) && |g| == k + m && Rectangular(g, k) && Shape(data, k, s) && t < s
    requires |coded| == k + m && Rectangular(coded, s) && coded[..k] == data
    requires forall i :: 0 <= i < k + m ==> coded[i] == Comb(g[i], data, s)
    ensures k <= 256 ==> Interpolated(coded, k, s, t)
    ensures 256 < k ==> Folded(coded, k, s, t)
  {
    hide EvaluationCode, WideCode, Interpolated, Folded, Comb;
    if k <= 256 {
      CodedOnCurve(g, k, m, s, data, coded, t);
    } else {
      CodedFolds(g, k, m, s, data, coded, t);
    }
  }

  /** Encodes k symbols: symbol i of the codeword is generator row i applied to the data. */
  method Encode(e: RsEncoder, ghost m: nat, data: seq<Vec>) returns (r: Result<seq<Vec>, RsError>)
    requires ValidEncoder(e, m)
    ensures r.Ok? <==> Shape(data, e.k, e.symbolSize)
    ensures |data| != e.k ==> r == Err(SizeMismatch(|data|, e.k))
    ensures r.Ok? ==> |r.value| == e.n && r.value[..e.k] == data
    ensures r.Ok? ==> forall i :: 0 <= i < e.n ==> r.value[i] == Comb(e.g[i], data, e.symbolSize)
    ensures r.Ok? ==> Rectangular(r.value, e.symbolSize)
    ensures r.Ok? && e.k <= 256 ==> forall t: nat :: t < e.symbolSize ==> Interpolated(r.value, e.k, e.symbolSize, t)
    ensures r.Ok? && 256 < e.k ==> forall t: nat :: t < e.symbolSize ==> Folded(r.value, e.k, e.symbolSize, t)
  {
    hide Built, Axpy, Interpolated, Folded, EvaluationCode, WideCode;
    if |data| != e.k {
      return Err(SizeMismatch(|data|, e.k));
    }
    for i := 0 to |data|
      invariant forall j :: 0 <= j < i ==> |data[j]| == e.symbolSize
    {
      if |data[i]| != e.symbolSize {
        return Err(SizeMismatch(|data[i]|, e.symbolSize));
      }
    }
    var out := data;
    for i := e.k to e.n
      invariant |out| == i && out[..e.k] == data
      invariant forall j :: e.k <= j < i ==> out[j] == Comb(e.g[j], data, e.symbolSize)
    {
      var symbol := Zeros(e.symbolSize);
      for j := 0 to e.k
        invariant symbol == CombTo(e.g[i], data, e.symbolSize, j)
      {
        var c := e.g[i][j];
        if c != 0 {
          symbol := Axpy(c, data[j], symbol);
        } else {
          AxpyZero(data[j], symbol);
        }
      }
      out := out + [symbol];
    }
    forall i | 0 <= i < e.k ensures out[i] == Comb(e.g[i], data, e.symbolSize) {
      CombUnit(e.k, i, data, e.symbolSize);
      assert out[i] == out[..e.k][i];
    }
    EncodedSizes(e.g, e.k, m, e.symbolSize, data, out);
    forall t: nat | t < e.symbolSize
      ensures e.k <= 256 ==> Interpolated(out, e.k, e.symbolSize, t)
      ensures 256 < e.k ==> Folded(out, e.k, e.symbolSize, t)
    {
      CodedColumn(e.g, e.k, m, e.symbolSize, data, out, t);
    }
    r := Ok(out);
  }

  // ---------------------------------------------------------------------- decoding

  predicate Readable(survived: seq<(nat, Vec)>, k: nat, m: nat, s: nat) {
    forall i :: 0 <= i < |survived| && i < k ==> survived[i].0 < k + m && |survived[i].1| == s
  }

  function Indices(survived: seq<(nat, Vec)>, k: nat): (idx: seq<nat>)
    requires k <= |survived|
    ensures |idx| == k && forall i :: 0 <= i < k ==> idx[i] == survived[i].0
  {
    seq(k, i requires 0 <= i < k => survived[i].0)
  }

  /** The first k survivors are symbols of the codeword of `data`. */
  ghost predicate SymbolsOf(survived: seq<(nat, Vec)>, g: seq<Vec>, k: nat, m: nat, s: nat, data: seq<Vec>)
    requires k <= |survived| && Readable(survived, k, m, s) && |g| == k + m && Rectangular(g, k)
  {
    Shape(data, k, s) && forall i :: 0 <= i < k ==> survived[i].1 == Comb(g[survived[i].0], data, s)
  }

  /** The augmented rows the decoder solves. */
  function SurvivorRows(survived: seq<(nat, Vec)>, g: seq<Vec>, k: nat, m: nat, s: nat): (rows: seq<Vec>)
    requires k <= |survived| && Readable(survived, k, m, s) && |g| == k + m && Rectangular(g, k)
    ensures |rows| == k && Rectangular(rows, k + s)
  {
    seq(k, i requires 0 <= i < k => g[survived[i].0] + survived[i].1)
  }

  lemma {:induction false} SymbolsOfIffSolved(survived: seq<(nat, Vec)>, g: seq<Vec>, k: nat, m: nat, s: nat,
                                              data: seq<Vec>)
    requires k <= |survived| && Readable(survived, k, m, s) && |g| == k + m && Rectangular(g, k) && Shape(data, k, s)
    ensures SymbolsOf(survived, g, k, m, s, data) <==> SolvedBy(SurvivorRows(survived, g, k, m, s), k, s, data)
  {
    hide DotTo, Comb;
    var rows := SurvivorRows(survived, g, k, m, s);
    forall i | 0 <= i < k
      ensures RowSolvedBy(rows[i], k, s, data) <==> survived[i].1 == Comb(g[survived[i].0], data, s)
    {
      RowSolvedIffComb(g[survived[i].0], survived[i].1, k, s, data);
    }
  }

  /** Where any k symbols suffice, two data with the same distinct survivors are equal. */
  lemma {:induction false} DistinctSurvivorsDetermine(survived: seq<(nat, Vec)>, g: seq<Vec>, k: nat, m: nat, s: nat,
                                   x: seq<Vec>, y: seq<Vec>)
    requires 1 <= k <= |survived| && Readable(survived, k, m, s) && |g| == k + m && Rectangular(g, k)
    requires Mds(g, k, m) && Distinct(Indices(survived, k))
    requires SymbolsOf(survived, g, k, m, s, x) && SymbolsOf(survived, g, k, m, s, y)
    ensures x == y
  {
    hide DotTo, Comb;
    var idx := Indices(survived, k);
    assert Below(idx, k + m);
    assert Independent(g, k, idx);
    forall t | 0 <= t < s ensures Column(x, s, t) == Column(y, s, t) {
      ColumnsAgree(survived, g, k, m, s, x, y, t);
    }
    forall j | 0 <= j < k ensures x[j] == y[j] {
      forall t | 0 <= t < s ensures x[j][t] == y[j][t] {
        assert Column(x, s, t)[j] == Column(y, s, t)[j];
      }
    }
  }

  lemma {:induction false} ColumnsAgree(survived: seq<(nat, Vec)>, g: seq<Vec>, k: nat, m: nat, s: nat,
                     x: seq<Vec>, y: seq<Vec>, t: nat)
    requires k <= |survived| && Readable(survived, k, m, s) && |g| == k + m && Rectangular(g, k) && t < s
    requires Independent(g, k, Indices(survived, k))
    requires SymbolsOf(survived, g, k, m, s, x) && SymbolsOf(survived, g, k, m, s, y)
    ensures Column(x, s, t) == Column(y, s, t)
  {
    hide DotTo, Add, Mul;
    var idx := Indices(survived, k);
    var cx, cy := Column(x, s, t), Column(y, s, t);
    var z := Axpy(1, cx, cy);
    forall i | 0 <= i < k ensures Dot(g[idx[i]], z) == 0 {
      var row := g[idx[i]];
      CombColumn(row, x, s, t, k);
      CombColumn(row, y, s, t, k);
      DotToCommutes(row, z, k);
      DotToCommutes(row, cx, k);
      DotToCommutes(row, cy, k);
      DotToAxpy(1, cx, cy, row, k);
      MulUnits(DotTo(cx, row, k));
      AddLaws(DotTo(cy, row, k), DotTo(cx, row, k), 0);
    }
    assert AllZero(z);
    forall j | 0 <= j < k ensures cx[j] == cy[j] {
      MulUnits(cx[j]);
      AddLaws(cy[j], cx[j], 0);
    }
  }

  lemma {:induction false} SymbolsShape(survived: seq<(nat, Vec)>, g: seq<Vec>, k: nat, m: nat, s: nat, data: seq<Vec>)
    requires k <= |survived| && Readable(survived, k, m, s) && |g| == k + m && Rectangular(g, k)
    requires SymbolsOf(survived, g, k, m, s, data)
    ensures Shape(data, k, s)
  {
  }

  /** Decodes the first k survivors. */
  method Decode(k: nat, m: nat, s: nat, survived: seq<(nat, Vec)>, width: nat)
      returns (r: Result<seq<Vec>, RsError>)
    requires k + s > 0 && Readable(survived, k, m, s)
    ensures |survived| < k ==> r == Err(Insufficient(|survived|, k))
    ensures k <= |survived| && s == 0 ==> r.Err?
    // any consistent data are returned, or they have a rival that explains the same survivors
    ensures k <= |survived| && s > 0 ==> forall g, data ::
      Built(g, k, m) && SymbolsOf(survived, g, k, m, s, data) ==>
        r == Ok(data) || (r.Err? && exists rival :: rival != data && SymbolsOf(survived, g, k, m, s, rival))
    // where any k symbols suffice, distinct survivors always give the data back
    ensures 1 <= k <= |survived| && s > 0 && Recovers(k, m) && Distinct(Indices(survived, k)) ==> forall g, data ::
      Built(g, k, m) && SymbolsOf(survived, g, k, m, s, data) ==> r == Ok(data)
  {
    hide DotTo, Built, Comb, SymbolsOf, SolvedBy, HasRival, Recovers, Mds;
    if |survived| < k {
      return Err(Insufficient(|survived|, k));
    }
    var g := BuildGenerator(k, m);
    var rows := SurvivorRows(survived, g, k, m, s);
    var rank, out := SolveSystem(rows, k, s, width);
    if rank < k {
      r := Err(Insufficient(rank, k));
    } else if exists i :: 0 <= i < k && |out[i]| == 0 {
      r := Err(Insufficient(rank, k));
    } else {
      r := Ok(out);
    }
    assert rank == k && s == 0 ==> |out[0]| == 0;
    if s > 0 {
      forall h | Built(h, k, m) ensures |h| == k + m && Rectangular(h, k) {
        BuiltUnique(h, h, k, m);
      }
      forall h, data | |h| == k + m && Rectangular(h, k) && Built(h, k, m) && SymbolsOf(survived, h, k, m, s, data)
        ensures r == Ok(data) || (r.Err? && exists rival :: rival != data && SymbolsOf(survived, h, k, m, s, rival))
        ensures 1 <= k && Recovers(k, m) && Distinct(Indices(survived, k)) ==> r == Ok(data)
      {
        BuiltUnique(g, h, k, m);
        SymbolsShape(survived, g, k, m, s, data);
        SymbolsOfIffSolved(survived, g, k, m, s, data);
        if rank < k {
          var rival := RivalSymbols(survived, g, k, m, s, data);
          if Recovers(k, m) && Distinct(Indices(survived, k)) {
            MdsExactly(g, k, m);
            DistinctSurvivorsDetermine(survived, g, k, m, s, data, rival);
          }
        }
      }
    }
  }

  lemma {:induction false} RivalSymbols(survived: seq<(nat, Vec)>, g: seq<Vec>, k: nat, m: nat, s: nat, data: seq<Vec>)
      returns (rival: seq<Vec>)
    requires k <= |survived| && Readable(survived, k, m, s) && |g| == k + m && Rectangular(g, k)
    requires HasRival(SurvivorRows(survived, g, k, m, s), k, s, data)
    ensures rival != data && SymbolsOf(survived, g, k, m, s, rival)
  {
    hide SolvedBy, SymbolsOf;
    var rows := SurvivorRows(survived, g, k, m, s);
    rival :| rival != data && SolvedBy(rows, k, s, rival);
    SolvedShape(rows, k, s, rival);
    SymbolsOfIffSolved(survived, g, k, m, s, rival);
  }

  /** The code end to end: encode, lose all but the symbols in `keep`, decode. */
  method AnyKReconstruct(k: nat, m: nat, s: nat, data: seq<Vec>, keep: seq<nat>, width: nat)
      returns (r: Result<seq<Vec>, RsError>)
    requires 1 <= k && Recovers(k, m) && s > 0 && Shape(data, k, s)
    requires k <= |keep| && Below(keep, k + m) && Distinct(keep[..k])
    ensures r == Ok(data)
  {
    hide Built, Recovers, Comb, Rectangular;
    var e := NewEncoder(k, m, s);
    var coded := Encode(e.value, m, data);
    assert Rectangular(data, s);
    EncodedSizes(e.value.g, k, m, s, data, coded.value);
    var survived := seq(|keep|, i requires 0 <= i < |keep| => (keep[i], coded.value[keep[i]]));
    assert Indices(survived, k) == keep[..k];
    assert SymbolsOf(survived, e.value.g, k, m, s, data);
    r := Decode(k, m, s, survived, width);
  }

  lemma {:induction false} EncodedSizes(g: seq<Vec>, k: nat, m: nat, s: nat, data: seq<Vec>, coded: seq<Vec>)
    requires |g| == |coded| == k + m && Rectangular(g, k) && Shape(data, k, s)
    requires forall i :: 0 <= i < k + m ==> coded[i] == Comb(g[i], data, s)
    ensures forall i :: 0 <= i < k + m ==> |coded[i]| == s
  {
  }
}
