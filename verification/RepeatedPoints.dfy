/**
  The Reed-Solomon generator of `crates/coding/src/rs.rs` for more than 256 data
  symbols.  There are 256 points, so the top square of the Vandermonde matrix repeats
  rows and has no inverse.  The inversion loop skips the columns without a pivot and
  returns a matrix all the same; here is what that matrix does, and so what the parity
  symbols are: with x at position s read as x[s], the parity symbol of row r is

      x[r % 256]  +  sum over 256 <= s < k of Point(r)^s (x[s] + x[s % 256]).
 */
module RepeatedPoints {
  import opened Counting
  import opened Gf256
  import opened GfLinear
  import opened Polynomials
  import opened Evaluation
  import opened Gauss
  import opened LinearSystems

  // ---------------------------------------------------------------- the inversion loop

  function Upto(r: nat): (pivots: seq<nat>)
    ensures |pivots| == r && forall i :: 0 <= i < r ==> pivots[i] == i
  {
    seq(r, i => i)
  }

  /** Beyond column 256 the right half is still the identity. */
  predicate TailUnits(rows: seq<Vec>, k: nat)
    requires |rows| == k && Rectangular(rows, k + k)
  {
    forall i, d :: 0 <= i < k && k + 256 <= d < k + k ==> rows[i][d] == if d == k + i then 1 else 0
  }

  function Start(k: nat): (rows: seq<Vec>)
    ensures |rows| == k && Rectangular(rows, k + k)
  {
    Augmented(Vandermonde(k, k), k)
  }

  /** After r columns: r pivots, the first 256 rows among themselves, the rest untouched on the right. */
  ghost predicate WideState(k: nat, rows: seq<Vec>, r: nat) {
    && 256 < k && r <= 256 && |rows| == k && Rectangular(rows, k + k)
    && Eliminated(Start(k), rows, k + k, r, Upto(r))
    && Eliminated(Start(k)[..256], rows[..256], k + k, r, Upto(r))
    && TailUnits(rows, k)
  }

  lemma {:induction false} WideStart(k: nat)
    requires 256 < k
    ensures WideState(k, Start(k), 0)
  {
    hide Kills, Vandermonde;
    assert Upto(0) == [];
    EchelonStart(Start(k), k + k);
    EchelonStart(Start(k)[..256], k + k);
    hide Echelon;
    forall i, d | 0 <= i < k && k + 256 <= d < k + k ensures Start(k)[i][d] == if d == k + i then 1 else 0 {
      assert Start(k)[i] == Vandermonde(k, k)[i] + Unit(k, i);
    }
  }

  /** A row of the augmented matrix relates the two halves. */
  lemma {:induction false} StartRow(k: nat, i: nat, x: Vec, y: Vec)
    requires i < k && |x| == k && |y| == k
    ensures Dot(Start(k)[i], x + y) == 0 <==> Dot(Vandermonde(k, k)[i], x) == y[i]
  {
    hide Add, Mul, Vandermonde, DotTo;
    DotToAppend(Vandermonde(k, k)[i], x, Unit(k, i), y, k);
    DotUnit(k, i, y);
    AddLaws(Dot(Vandermonde(k, k)[i], x), y[i], 0);
    assert Dot(Start(k)[i], x + y) == Add(Dot(Vandermonde(k, k)[i], x), Dot(Unit(k, i), y));
  }

  /** A vector on the first 256 coordinates that the first 256 rows do not see is zero. */
  lemma {:induction false} LowKernel(k: nat, z: Vec)
    requires 256 < k && |z| == k + k && Kills(z, Start(k)[..256])
    requires forall c :: 256 <= c < k + k ==> z[c] == 0
    ensures AllZero(z)
  {
    hide DotTo, Vandermonde, Eval, Point, Start;
    var x, y := z[..k], z[k..];
    var low := z[..256];
    forall i | 0 <= i < 256 ensures Eval(low, Point(i)) == 0 {
      assert z == x + y && Dot(Start(k)[..256][i], z) == 0;
      StartRow(k, i, x, y);
      LowDot(k, i, x);
      assert x[..256] == low;
    }
    RootsAtPoints(low, Upto(256));
    forall c | 0 <= c < k + k ensures z[c] == 0 {
      if c < 256 {
        assert low[c] == 0;
      }
    }
  }

  /** A row of powers on a vector that is zero from 256 on. */
  lemma {:induction false} LowDot(k: nat, i: nat, x: Vec)
    requires 256 < k && i < k && |x| == k && forall c :: 256 <= c < k ==> x[c] == 0
    ensures Dot(Vandermonde(k, k)[i], x) == Eval(x[..256], Point(i))
  {
    hide DotTo, Eval, Point, Pow;
    var row := Vandermonde(k, k)[i];
    assert row == row[..256] + row[256..] && x == x[..256] + x[256..];
    DotToAppend(row[..256], x[..256], row[256..], x[256..], k - 256);
    DotAllZero(row[256..], x[256..], k - 256);
    AddLaws(Dot(row[..256], x[..256]), 0, 0);
    EvalIsDot(x[..256], Point(i));
    assert row[..256] == PowerRow(Point(i), 256);
  }

  /** In the first 256 columns the first 256 rows hold a pivot. */
  lemma {:induction false} WidePivot(k: nat, rows: seq<Vec>, r: nat)
    requires WideState(k, rows, r) && r < 256
    ensures exists p :: r <= p < 256 && rows[p][r] != 0
  {
    hide Kills, Start;
    if forall p :: r <= p < 256 ==> rows[p][r] == 0 {
      EchelonSkip(rows[..256], k + k, r, Upto(r));
      var z := RankDeficient(rows[..256], k + k, r + 1, Upto(r));
      LowKernel(k, z);
    }
  }

  /** The first 256 rows of a pivot among them are their own pivot. */
  lemma {:induction false} PivotTop(rows: seq<Vec>, m: nat, t: nat, p: nat, col: nat)
    requires t <= p < 256 < |rows| && col < m && Rectangular(rows, m)
    ensures PivotRows(rows, m, t, p, col)[..256] == PivotRows(rows[..256], m, t, p, col)
  {
    hide Axpy, Scale, Inv;
    var a, b := PivotRows(rows, m, t, p, col), PivotRows(rows[..256], m, t, p, col);
    forall i | 0 <= i < 256 ensures a[i] == b[i] {
    }
  }

  lemma {:induction false} WideStep(k: nat, rows: seq<Vec>, r: nat, p: nat)
    requires WideState(k, rows, r) && r < 256 && r <= p < 256 && rows[p][r] != 0
    ensures WideState(k, PivotRows(rows, k + k, r, p, r), r + 1)
  {
    hide Kills, Echelon, PivotRows, Start;
    var m := k + k;
    var next := PivotRows(rows, m, r, p, r);
    assert Upto(r + 1) == Upto(r) + [r];
    EchelonPivot(rows, m, r, Upto(r), p);
    EchelonPivot(rows[..256], m, r, Upto(r), p);
    PivotTop(rows, m, r, p, r);
    forall z: Vec | |z| == m
      ensures Kills(z, Start(k)) <==> Kills(z, next)
      ensures Kills(z, Start(k)[..256]) <==> Kills(z, next[..256])
    {
      KillsPivotRows(z, rows, r, p, r);
      KillsPivotRows(z, rows[..256], r, p, r);
    }
    PivotTail(rows, k, r, p);
  }

  lemma {:induction false} PivotTail(rows: seq<Vec>, k: nat, r: nat, p: nat)
    requires 256 < k == |rows| && Rectangular(rows, k + k) && TailUnits(rows, k)
    requires r <= p < 256 && rows[p][r] != 0
    ensures TailUnits(PivotRows(rows, k + k, r, p, r), k)
  {
    hide PivotRows;
    PivotEntries(rows, k + k, r, p, r);
    var next := PivotRows(rows, k + k, r, p, r);
    forall i, d | 0 <= i < k && k + 256 <= d < k + k ensures next[i][d] == if d == k + i then 1 else 0 {
      assert rows[p][d] == 0 && rows[r][d] == 0;
    }
  }

  // --------------------------------------------------------- the matrix it ends with

  /** Both halves of a row on both halves of a vector. */
  lemma {:induction false} HalvesDot(row: Vec, k: nat, x: Vec, y: Vec)
    requires |row| == k + k && |x| == k && |y| == k
    ensures Dot(row, x + y) == 0 <==> Dot(row[..k], x) == Dot(row[k..], y)
  {
    hide Add, DotTo;
    assert row == row[..k] + row[k..];
    DotToAppend(row[..k], x, row[k..], y, k);
    AddLaws(Dot(row[..k], x), Dot(row[k..], y), 0);
  }

  lemma {:induction false} LeftIdentity(k: nat, rows: seq<Vec>)
    requires WideState(k, rows, 256)
    ensures forall i, j :: 0 <= i < k && 0 <= j < 256 ==> rows[i][j] == if i == j then 1 else 0
  {
    hide Kills, Start, TailUnits;
    FullRank(rows, k + k, 256, Upto(256));
  }

  /** What the first 256 rows make of y. */
  function Solve(rows: seq<Vec>, k: nat, y: Vec): (x: Vec)
    requires 256 < k == |rows| && Rectangular(rows, k + k) && |y| == k
    ensures |x| == k && forall c :: 256 <= c < k ==> x[c] == 0
    ensures forall i :: 0 <= i < 256 ==> x[i] == Dot(rows[i][k..], y)
  {
    seq(k, i requires 0 <= i < k => if i < 256 then Dot(rows[i][k..], y) else 0)
  }

  /** It takes the first 256 values of y at the 256 points. */
  lemma {:induction false} TopSolves(k: nat, rows: seq<Vec>, y: Vec)
    requires WideState(k, rows, 256) && |y| == k
    ensures forall i :: 0 <= i < 256 ==> Dot(Vandermonde(k, k)[i], Solve(rows, k, y)) == y[i]
  {
    hide DotTo, Vandermonde, Echelon, Start, Mul, Solve, TailUnits;
    LeftIdentity(k, rows);
    var x := Solve(rows, k, y);
    forall i | 0 <= i < 256 ensures Dot(rows[..256][i], x + y) == 0 {
      DotToSingle(rows[i][..k], x, i, k);
      MulUnits(x[i]);
      HalvesDot(rows[i], k, x, y);
    }
    assert |x + y| == k + k && Kills(x + y, rows[..256]);
    assert Kills(x + y, Start(k)[..256]);
    forall i | 0 <= i < 256 ensures Dot(Vandermonde(k, k)[i], x) == y[i] {
      assert Dot(Start(k)[..256][i], x + y) == 0;
      StartRow(k, i, x, y);
    }
  }

  predicate Periodic(y: Vec) { forall s: nat :: s < |y| ==> y[s] == y[s % 256] }

  lemma {:induction false} SamePoint(k: nat, i: nat)
    requires i < k && 256 < k
    ensures Vandermonde(k, k)[i] == Vandermonde(k, k)[i % 256] && Point(i) == Point(i % 256)
  {
    hide ByteAt, PowerRow;
  }

  lemma {:induction false} PeriodicSolved(k: nat, rows: seq<Vec>, y: Vec)
    requires WideState(k, rows, 256) && |y| == k && Periodic(y)
    ensures Apply(Vandermonde(k, k), Solve(rows, k, y)) == y
  {
    hide DotTo, Vandermonde, WideState, Solve;
    WideShape(k, rows, 256);
    TopSolves(k, rows, y);
    var x := Solve(rows, k, y);
    forall i | 0 <= i < k ensures Apply(Vandermonde(k, k), x)[i] == y[i] {
      SamePoint(k, i);
    }
  }

  /** Every row says the same of x on the left as of its values on the right. */
  lemma {:induction false} RowRelation(k: nat, rows: seq<Vec>, i: nat, x: Vec)
    requires WideState(k, rows, 256) && i < k && |x| == k
    ensures Dot(rows[i][..k], x) == Dot(rows[i][k..], Apply(Vandermonde(k, k), x))
  {
    hide DotTo, Vandermonde, Echelon, TailUnits;
    var y := Apply(Vandermonde(k, k), x);
    AugmentedKilled(Vandermonde(k, k), k, x, y);
    assert Kills(x + y, rows);
    HalvesDot(rows[i], k, x, y);
  }

  lemma {:induction false} BottomPeriodic(k: nat, rows: seq<Vec>, i: nat, y: Vec)
    requires WideState(k, rows, 256) && 256 <= i < k && |y| == k && Periodic(y)
    ensures Dot(rows[i][k..], y) == 0
  {
    hide DotTo, Vandermonde, Solve, Periodic;
    PeriodicSolved(k, rows, y);
    var x := Solve(rows, k, y);
    RowRelation(k, rows, i, x);
    LeftIdentity(k, rows);
    DotToSingle(rows[i][..k], x, 0, k);
    MulUnits(x[0]);
  }

  /** From row 256 on nothing is left on the left, so the loop finds no more pivots. */
  lemma {:induction false} BottomLeft(k: nat, rows: seq<Vec>, i: nat, j: nat)
    requires WideState(k, rows, 256) && 256 <= i < k && j < k
    ensures rows[i][j] == 0
  {
    hide DotTo, Periodic, WideState, Mul;
    var x := Unit(k, j);
    var y := Apply(Vandermonde(k, k), x);
    forall s: nat | s < k ensures y[s] == y[s % 256] {
      SamePoint(k, s);
    }
    assert Periodic(y) by { PeriodicIntro(y); }
    BottomPeriodic(k, rows, i, y);
    WideShape(k, rows, 256);
    RowRelation(k, rows, i, x);
    DotToSingle(rows[i][..k], x, j, k);
    MulUnits(rows[i][j]);
  }

  lemma {:induction false} WideShape(k: nat, rows: seq<Vec>, r: nat)
    requires WideState(k, rows, r)
    ensures 256 < k == |rows| && Rectangular(rows, k + k) && TailUnits(rows, k)
  {
  }

  lemma {:induction false} PeriodicIntro(y: Vec)
    requires forall s: nat :: s < |y| ==> y[s] == y[s % 256]
    ensures Periodic(y)
  {
  }

  /** 1 at every position of residue c. */
  function Indicator(k: nat, c: nat): (y: Vec)
    ensures |y| == k && forall s: nat :: s < k ==> y[s] == if s % 256 == c then 1 else 0
  {
    seq(k, s requires 0 <= s < k => if s % 256 == c then 1 else 0)
  }

  lemma {:induction false} IndicatorPeriodic(k: nat, c: nat)
    requires 256 < k
    ensures Periodic(Indicator(k, c))
    ensures forall s: nat :: s < 256 ==> Indicator(k, c)[s] == if s == c then 1 else 0
  {
  }

  /** From row 256 on the right half pairs a position with its residue modulo 256. */
  lemma {:induction false} BottomRight(k: nat, rows: seq<Vec>, i: nat, c: nat)
    requires WideState(k, rows, 256) && 256 <= i < k && c < 256
    ensures rows[i][k + c] == if c == i % 256 then 1 else 0
  {
    hide DotTo, WideState, Mul, Add, Indicator, Periodic;
    WideShape(k, rows, 256);
    var y, row := Indicator(k, c), rows[i][k..];
    IndicatorPeriodic(k, c);
    BottomPeriodic(k, rows, i, y);
    assert y[i] == if i % 256 == c then 1 else 0;
    forall d | 256 <= d < k ensures row[d] == if d == i then 1 else 0 {
      assert row[d] == rows[i][k + d];
    }
    MulUnits(row[c]);
    MulUnits(1);
    hide TailUnits;
    if c == i % 256 {
      DotToPair(row, y, c, i, k);
      AddLaws(row[c], 1, 0);
    } else {
      DotToSingle(row, y, c, k);
    }
  }

  /** The positions from 256 on, each with its residue's value added. */
  function Tail(z: Vec): (t: Vec)
    ensures |t| == |z| && forall s: nat :: s < |z| ==> t[s] == if s < 256 then 0 else Add(z[s % 256], z[s])
  {
    seq(|z|, s requires 0 <= s < |z| => if s < 256 then 0 else Add(z[s % 256], z[s]))
  }

  lemma {:induction false} BottomDot(k: nat, rows: seq<Vec>, i: nat, z: Vec)
    requires WideState(k, rows, 256) && 256 <= i < k && |z| == k
    ensures Dot(rows[i][k..], z) == Tail(z)[i]
  {
    hide DotTo, WideState, Mul, Add;
    WideShape(k, rows, 256);
    var row := rows[i][k..];
    forall d | 0 <= d < k ensures row[d] == if d == i || d == i % 256 then 1 else 0 {
      assert row[d] == rows[i][k + d];
      if d < 256 {
        BottomRight(k, rows, i, d);
      }
    }
    DotToPair(row, z, i % 256, i, k);
    MulUnits(z[i]);
    MulUnits(z[i % 256]);
  }

  /** The parity symbol of row r. */
  function Parity(r: nat, z: Vec): bv8
    requires 256 < |z|
  {
    Add(z[r % 256], Dot(PowerRow(Point(r), |z|), Tail(z)))
  }

  /** What the returned matrix does under every row of powers. */
  ghost predicate WideInverse(inv: seq<Vec>, k: nat)
    requires 256 < k == |inv| && Rectangular(inv, k)
  {
    forall r: nat, z: Vec :: |z| == k ==> Dot(PowerRow(Point(r), k), Apply(inv, z)) == Parity(r, z)
  }

  /** The loop ends with such a matrix. */
  lemma {:induction false} WideParity(k: nat, rows: seq<Vec>, inv: seq<Vec>, r: nat, z: Vec)
    requires WideState(k, rows, 256) && |z| == k
    requires |inv| == k && Rectangular(inv, k) && forall i :: 0 <= i < k ==> inv[i] == rows[i][k..]
    ensures Dot(PowerRow(Point(r), k), Apply(inv, z)) == Parity(r, z)
  {
    hide DotTo, WideState, Mul, Add, Point, PowerRow, Solve, Tail;
    WideShape(k, rows, 256);
    var v, x, t, y := PowerRow(Point(r), k), Solve(rows, k, z), Tail(z), Apply(inv, z);
    forall i | 0 <= i < k ensures y[i] == Axpy(1, t, x)[i] {
      MulUnits(t[i]);
      if i < 256 {
        AddLaws(x[i], 0, 0);
      } else {
        BottomDot(k, rows, i, z);
        AddLaws(t[i], 0, 0);
      }
    }
    assert y == Axpy(1, t, x);
    DotToCommutes(v, y, k);
    DotToAxpy(1, t, x, v, k);
    DotToCommutes(v, x, k);
    DotToCommutes(v, t, k);
    MulUnits(DotTo(t, v, k));
    TopSolves(k, rows, z);
    assert v == Vandermonde(k, k)[r % 256] by { SamePower(k, r); }
  }

  lemma {:induction false} SamePower(k: nat, r: nat)
    requires 256 < k
    ensures PowerRow(Point(r), k) == Vandermonde(k, k)[r % 256]
  {
    hide PowerRow, ByteAt;
    assert Point(r) == Point(r % 256);
  }

  // ------------------------------------------------------------- which rows suffice

  /** g has the data as its first k symbols and these parities behind them. */
  ghost predicate WideCode(g: seq<Vec>, k: nat, m: nat) {
    && 256 < k && |g| == k + m && Rectangular(g, k)
    && (forall j :: 0 <= j < k ==> g[j] == Unit(k, j))
    && (forall r: nat, z: Vec :: k <= r < k + m && |z| == k ==> Dot(g[r], z) == Parity(r, z))
  }

  /** The sum of the powers of x below n whose exponents are j modulo 256, from 256 on. */
  function ResidueSum(x: bv8, j: nat, n: nat): bv8 {
    if n <= 256 then 0 else Add(ResidueSum(x, j, n - 1), if (n - 1) % 256 == j then Pow(x, n - 1) else 0)
  }

  /** Entry j of parity row r. */
  function Entry(r: nat, j: nat, k: nat): bv8 {
    if j >= 256 then Pow(Point(r), j) else Add(if j == r % 256 then 1 else 0, ResidueSum(Point(r), j, k))
  }

  lemma {:induction false} ResidueDot(x: bv8, k: nat, j: nat, n: nat)
    requires j < 256 < k && n <= k
    ensures DotTo(PowerRow(x, k), Tail(Unit(k, j)), n) == ResidueSum(x, j, n)
  {
    hide Add, Mul, Pow;
    if n > 0 {
      ResidueDot(x, k, j, n - 1);
      var t := Tail(Unit(k, j))[n - 1];
      MulUnits(Pow(x, n - 1));
      AddLaws(0, 0, 0);
      assert n > 256 ==> Unit(k, j)[n - 1] == 0;
      AddLaws(1, 0, 0);
    }
  }

  lemma {:induction false} HighTail(k: nat, j: nat)
    requires 256 <= j < k
    ensures Tail(Unit(k, j)) == Unit(k, j)
  {
    hide Add;
    var z := Unit(k, j);
    forall s: nat | s < k ensures Tail(z)[s] == z[s] {
      assert z[s % 256] == 0;
      AddLaws(z[s], 0, 0);
    }
  }

  lemma {:induction false} EntryIsParity(r: nat, j: nat, k: nat)
    requires j < k && 256 < k
    ensures Parity(r, Unit(k, j)) == Entry(r, j, k)
  {
    hide Add, DotTo, Pow, Point, ResidueSum, Tail;
    var v, z := PowerRow(Point(r), k), Unit(k, j);
    if j < 256 {
      ResidueDot(Point(r), k, j, k);
    } else {
      HighTail(k, j);
      assert z[r % 256] == 0;
      DotUnit(k, j, v);
      DotToCommutes(v, z, k);
      assert Dot(v, Tail(z)) == v[j];
      assert v[j] == Pow(Point(r), j);
      AddLaws(v[j], 0, 0);
    }
  }

  lemma {:induction false} EntryOf(g: seq<Vec>, k: nat, m: nat, r: nat, j: nat)
    requires WideCode(g, k, m) && k <= r < k + m && j < k
    ensures g[r][j] == Entry(r, j, k)
  {
    hide DotTo, Entry, Parity;
    EntryIsParity(r, j, k);
    DotUnit(k, j, g[r]);
    DotToCommutes(g[r], Unit(k, j), k);
    assert Dot(g[r], Unit(k, j)) == Parity(r, Unit(k, j));
  }

  /** There is only one such generator. */
  lemma {:induction false} WideCodeUnique(g: seq<Vec>, h: seq<Vec>, k: nat, m: nat)
    requires WideCode(g, k, m) && WideCode(h, k, m)
    ensures g == h
  {
    hide Entry, Parity;
    forall i | 0 <= i < k + m ensures g[i] == h[i] {
      if i >= k {
        forall j | 0 <= j < k ensures g[i][j] == h[i][j] {
          EntryOf(g, k, m, i, j);
          EntryOf(h, k, m, i, j);
        }
      }
    }
  }

  /** A data row sees its own coordinate. */
  lemma {:induction false} DataRow(g: seq<Vec>, k: nat, m: nat, j: nat, z: Vec)
    requires WideCode(g, k, m) && j < k && |z| == k
    ensures Dot(g[j], z) == z[j]
  {
    DotUnit(k, j, z);
  }

  /** The data rows with one of them replaced by a parity row. */
  lemma {:induction false} ZeroEntryClash(g: seq<Vec>, k: nat, m: nat, j: nat)
    requires WideCode(g, k, m) && m >= 1 && j < k && Entry(k, j, k) == 0
    ensures !Mds(g, k, m)
  {
    hide DotTo, Entry, WideCode;
    WideCodeShape(g, k, m);
    var idx: seq<nat> := Upto(k)[j := k];
    var z := Unit(k, j);
    forall i | 0 <= i < k ensures Dot(g[idx[i]], z) == 0 {
      if i == j {
        EntryOf(g, k, m, k, j);
        DotUnit(k, j, g[k]);
        DotToCommutes(g[k], z, k);
      } else {
        DataRow(g, k, m, i, z);
      }
    }
    assert Distinct(idx) && Below(idx, k + m);
    assert z[j] != 0;
    assert !Independent(g, k, idx);
  }

  lemma {:induction false} WideCodeShape(g: seq<Vec>, k: nat, m: nat)
    requires WideCode(g, k, m)
    ensures 256 < k && |g| == k + m && Rectangular(g, k)
  {
  }

  /** Powers repeat after 255. */
  lemma {:induction false} PowRepeats(x: bv8, n: nat)
    requires n > 0
    ensures Pow(x, n + 255) == Pow(x, n)
  {
    hide Mul, Exp, Log;
    if x == 0 {
      PowOfZero(n);
      PowOfZero(n + 255);
    } else {
      PowIsExp(x, n);
      PowIsExp(x, n + 255);
      assert Log(x) * (n + 255) == Log(x) * n + 255 * Log(x);
      ExpPeriod(Log(x) * n, Log(x));
    }
  }

  lemma {:induction false} PowOfZero(n: nat)
    requires n > 0
    ensures Pow(0, n) == 0
  {
    hide Mul;
    MulUnits(Pow(0, n - 1));
  }

  lemma {:induction false} PowIsExp(x: bv8, n: nat)
    requires x != 0
    ensures Pow(x, n) == Exp(Log(x) * n)
  {
    hide Mul, Exp, Log, PolyMul;
    if n == 0 {
      ExpOfZero();
    } else {
      PowIsExp(x, n - 1);
      assert Log(x) * n == Log(x) * (n - 1) + Log(x);
      ExpAdd(Log(x) * (n - 1), Log(x));
      MulIsPolyMul(Pow(x, n - 1), x);
    }
  }

  lemma {:induction false} ExpOfZero()
    ensures Exp(0) == 1
  {
  }

  lemma {:induction false} ExpPeriod(a: nat, q: nat)
    ensures Exp(a + 255 * q) == Exp(a)
  {
    hide Exp;
    if q > 0 {
      ExpPeriod(a, q - 1);
      assert a + 255 * q == 255 + (a + 255 * (q - 1));
      DoubledPower(a + 255 * (q - 1));
    }
  }

  /** From 512 symbols on, two parity rows agree on positions 256 and 511. */
  lemma {:induction false} TwoParitiesClash(g: seq<Vec>, k: nat, m: nat)
    requires WideCode(g, k, m) && m >= 2 && k >= 512
    ensures !Mds(g, k, m)
  {
    hide DotTo, Entry, WideCode, Mul, Add;
    WideCodeShape(g, k, m);
    var idx: seq<nat> := Upto(k)[256 := k][511 := k + 1];
    var z := Zeros(k)[256 := 1][511 := 1];
    forall i | 0 <= i < k ensures Dot(g[idx[i]], z) == 0 {
      if i == 256 || i == 511 {
        ParityMisses(g, k, m, idx[i], z);
      } else {
        DataRow(g, k, m, i, z);
      }
    }
    assert Distinct(idx) && Below(idx, k + m);
    assert z[256] != 0;
    assert !Independent(g, k, idx);
  }

  lemma {:induction false} ParityMisses(g: seq<Vec>, k: nat, m: nat, r: nat, z: Vec)
    requires WideCode(g, k, m) && k <= r < k + m && k >= 512 && z == Zeros(k)[256 := 1][511 := 1]
    ensures Dot(g[r], z) == 0
  {
    hide DotTo, WideCode, Mul, Add, Pow, Point;
    WideCodeShape(g, k, m);
    EntryOf(g, k, m, r, 256);
    EntryOf(g, k, m, r, 511);
    PowRepeats(Point(r), 256);
    DotToPair(g[r], z, 256, 511, k);
    MulUnits(g[r][256]);
    AddLaws(g[r][256], g[r][511], 0);
  }

  /** Distinct rows that are all data rows determine everything. */
  lemma {:induction false} AllDataRows(g: seq<Vec>, k: nat, m: nat, idx: seq<nat>, z: Vec)
    requires WideCode(g, k, m) && |idx| == k && Distinct(idx) && Below(idx, k) && |z| == k
    requires forall i :: 0 <= i < k ==> Dot(g[idx[i]], z) == 0
    ensures AllZero(z)
  {
    hide DotTo, WideCode;
    WideCodeShape(g, k, m);
    Pigeonhole(idx, k);
    forall c: nat | c < k ensures z[c] == 0 {
      assert c in idx;
      var i :| 0 <= i < k && idx[i] == c;
      DataRow(g, k, m, c, z);
    }
  }

  /** With one parity row, any k rows leave out at most one coordinate. */
  lemma {:induction false} OneParityRow(g: seq<Vec>, k: nat, idx: seq<nat>, z: Vec)
    requires WideCode(g, k, 1) && |idx| == k && Distinct(idx) && Below(idx, k + 1) && |z| == k
    requires forall i :: 0 <= i < k ==> Dot(g[idx[i]], z) == 0
    requires forall j: nat :: j < k ==> Entry(k, j, k) != 0
    ensures AllZero(z)
  {
    hide DotTo, WideCode, Entry, Mul;
    WideCodeShape(g, k, 1);
    if k !in idx {
      AllDataRows(g, k, 1, idx, z);
    } else if j: nat :| j < k && j !in idx {
      forall c: nat | c < k && c != j ensures z[c] == 0 {
        OnlyOneLeft(idx, k, j, c);
        var i :| 0 <= i < k && idx[i] == c;
        DataRow(g, k, 1, c, z);
      }
      DotToSingle(g[k], z, j, k);
      EntryOf(g, k, 1, k, j);
      MulNonzero(g[k][j], z[j]);
      var i :| 0 <= i < k && idx[i] == k;
      assert Dot(g[idx[i]], z) == 0;
    } else {
      forall c: nat | c < k ensures z[c] == 0 {
        assert c in idx;
        var i :| 0 <= i < k && idx[i] == c;
        DataRow(g, k, 1, c, z);
      }
    }
  }

  lemma {:induction false} OnlyOneLeft(idx: seq<nat>, k: nat, j: nat, c: nat)
    requires |idx| == k && Distinct(idx) && Below(idx, k + 1) && j < k && c < k && c != j && j !in idx
    ensures c in idx
  {
    if c !in idx {
      var all := idx + [j, c];
      assert Distinct(all);
      Pigeonhole(all, k + 1);
    }
  }

  /** No entry of the one parity row vanishes. */
  predicate FullRow(k: nat) {
    Point(k) != 0 && forall j: nat :: j < 256 ==> Entry(k, j, k) != 0
  }

  lemma {:induction false} PowNonzero(x: bv8, n: nat)
    requires x != 0
    ensures Pow(x, n) != 0
  {
    hide Mul;
    if n > 0 {
      PowNonzero(x, n - 1);
      MulNonzero(Pow(x, n - 1), x);
    }
  }

  lemma {:induction false} FullRowExactly(k: nat)
    requires 256 < k
    ensures FullRow(k) <==> forall j: nat :: j < k ==> Entry(k, j, k) != 0
  {
    hide Add, Pow, Point, ResidueSum;
    if FullRow(k) {
      forall j: nat | j < k ensures Entry(k, j, k) != 0 {
        if j >= 256 {
          PowNonzero(Point(k), j);
        }
      }
    }
    if Point(k) == 0 {
      PowOfZero(256);
      assert Entry(k, 256, k) == 0;
    }
  }

  lemma {:induction false} ResidueAbsent(x: bv8, j: nat, n: nat)
    requires j < 256 && n <= 256 + j
    ensures ResidueSum(x, j, n) == 0
  {
    hide Add, Pow;
    if n > 256 {
      ResidueAbsent(x, j, n - 1);
      assert (n - 1) % 256 == n - 257;
      AddLaws(0, 0, 0);
    }
  }

  lemma {:induction false} LastPoint()
    ensures Point(511) == 0
  {
    hide ByteAt, Index;
    ZeroByte();
    ByteOfIndex(0);
  }

  /** Below 512 symbols some entry of the first parity row vanishes. */
  lemma {:induction false} NarrowRow(k: nat)
    requires 256 < k < 512
    ensures !FullRow(k)
  {
    hide Add, Pow, ResidueSum, Point;
    if k == 511 {
      LastPoint();
    } else {
      var j := k - 255;
      ResidueAbsent(Point(k), j, k);
      AddLaws(0, 0, 0);
      assert k % 256 == k - 256;
      assert Entry(k, j, k) == 0;
    }
  }

  // ------------------------------------------------- which parity rows are without zeros

  /** x + x^2 + ... + x^n */
  function PowerSum(x: bv8, n: nat): bv8 { if n == 0 then 0 else Add(PowerSum(x, n - 1), Pow(x, n)) }

  lemma {:induction false} PowAdd(x: bv8, a: nat, b: nat)
    ensures Pow(x, a + b) == Mul(Pow(x, a), Pow(x, b))
  {
    hide Mul;
    if b == 0 {
      MulUnits(Pow(x, a));
    } else {
      PowAdd(x, a, b - 1);
      MulAssociates(Pow(x, a), Pow(x, b - 1), x);
    }
  }

  lemma {:induction false} PowPeriod(x: bv8, n: nat, q: nat)
    requires n > 0
    ensures Pow(x, n + 255 * q) == Pow(x, n)
  {
    hide Pow;
    if q > 0 {
      PowPeriod(x, n, q - 1);
      PowRepeats(x, n + 255 * (q - 1));
    }
  }

  /** The powers of one residue are a power times a sum of consecutive ones. */
  lemma {:induction false} ResidueClosed(x: bv8, j: nat, n: nat)
    requires j < 256 <= n
    ensures ResidueSum(x, j, n) == Mul(Pow(x, j), PowerSum(x, (n - 1 - j) / 256))
  {
    hide Add, Mul, Pow;
    var q := (n - 1 - j) / 256;
    if n == 256 {
      MulUnits(Pow(x, j));
    } else {
      ResidueClosed(x, j, n - 1);
      if (n - 1) % 256 == j {
        assert n - 1 == j + 256 * q && (n - 2 - j) / 256 == q - 1;
        PowAdd(x, j, 256 * q);
        PowPeriod(x, q, q);
        assert q + 255 * q == 256 * q;
        MulSum(Pow(x, j), PowerSum(x, q - 1), Pow(x, q));
      } else {
        assert (n - 2 - j) / 256 == q;
        AddLaws(ResidueSum(x, j, n - 1), 0, 0);
      }
    }
  }

  lemma {:induction false} MulSum(a: bv8, b: bv8, c: bv8)
    ensures Mul(a, Add(b, c)) == Add(Mul(a, b), Mul(a, c))
  {
    hide Add, Mul;
    MulDistributes(b, c, a);
    MulCommutes(a, b);
    MulCommutes(a, c);
    MulCommutes(a, Add(b, c));
  }

  /** Three sums decide whether the parity row of k data symbols has a zero. */
  predicate FullShape(k: nat)
    requires 256 < k
  {
    var x, p, t := Point(k), k / 256, k % 256;
    && x != 0 && PowerSum(x, p - 1) != 0 && (t > 0 ==> PowerSum(x, p) != 0)
    && Mul(Pow(x, t), PowerSum(x, p - 1)) != 1
  }

  lemma {:induction false} EntryClosed(k: nat, j: nat)
    requires 256 < k && j < 256 && Point(k) != 0
    ensures
      var x, p, t := Point(k), k / 256, k % 256;
      Entry(k, j, k) == 0 <==>
      if j < t then PowerSum(x, p) == 0
      else if j > t then PowerSum(x, p - 1) == 0
      else Mul(Pow(x, t), PowerSum(x, p - 1)) == 1
  {
    hide Add, Mul, Pow, Point, ResidueSum, PowerSum;
    var x, p, t := Point(k), k / 256, k % 256;
    ResidueClosed(x, j, k);
    assert (k - 1 - j) / 256 == if j < t then p else p - 1;
    var sum := PowerSum(x, if j < t then p else p - 1);
    PowNonzero(x, j);
    MulNonzero(Pow(x, j), sum);
    AddLaws(Mul(Pow(x, j), sum), 0, 0);
    AddLaws(1, Mul(Pow(x, j), sum), 0);
  }

  lemma {:induction false} FullRowClosed(k: nat)
    requires 256 < k
    ensures FullRow(k) <==> FullShape(k)
  {
    hide Add, Mul, Pow, Point, Entry, PowerSum;
    if Point(k) != 0 {
      var t := k % 256;
      if t == 255 {
        LastResidue(k);
      }
      forall j: nat | j < 256
        ensures Entry(k, j, k) == 0 <==>
          if j < t then PowerSum(Point(k), k / 256) == 0
          else if j > t then PowerSum(Point(k), k / 256 - 1) == 0
          else Mul(Pow(Point(k), t), PowerSum(Point(k), k / 256 - 1)) == 1
      {
        EntryClosed(k, j);
      }
      assert FullRow(k) ==> Entry(k, 255, k) != 0 && Entry(k, t, k) != 0 && Entry(k, 0, k) != 0;
    }
  }

  lemma {:induction false} LastResidue(k: nat)
    requires k % 256 == 255
    ensures Point(k) == 0
  {
    hide ByteAt, Index;
    assert (k + 1) % 256 == 0;
    ZeroByte();
    ByteOfIndex(0);
  }

  /** (x + 1)(x + ... + x^n) = x (x^n + 1), so for which n a sum vanishes. */
  lemma {:induction false} SumVanishes(x: bv8, n: nat)
    requires x != 0
    ensures Mul(Add(x, 1), PowerSum(x, n)) == Mul(x, Add(Pow(x, n), 1))
    ensures PowerSum(x, n) == 0 <==> if x == 1 then n % 2 == 0 else Pow(x, n) == 1
  {
    hide Add, Mul, Pow;
    Geometric(x, n);
    MulNonzero(Add(x, 1), PowerSum(x, n));
    MulNonzero(x, Add(Pow(x, n), 1));
    AddLaws(x, 1, 0);
    AddLaws(Pow(x, n), 1, 0);
    if x == 1 {
      SumOfOnes(n);
    }
  }

  lemma {:induction false} Geometric(x: bv8, n: nat)
    ensures Mul(Add(x, 1), PowerSum(x, n)) == Mul(x, Add(Pow(x, n), 1))
  {
    hide Add, Mul;
    if n == 0 {
      MulUnits(Add(x, 1));
      MulUnits(x);
      AddLaws(1, 1, 0);
    } else {
      hide Pow;
      Geometric(x, n - 1);
      var a, b := Pow(x, n - 1), Pow(x, n);
      assert b == Mul(x, a) by { PowAdd(x, n - 1, 1); PowOne(x); MulCommutes(a, x); }
      MulSum(Add(x, 1), PowerSum(x, n - 1), b);
      MulSum(x, a, 1);
      MulSum(x, b, 1);
      MulUnits(x);
      MulUnits(b);
      MulDistributes(x, 1, b);
      assert Mul(Add(x, 1), b) == Add(Mul(x, b), b);
      Telescope(b, x, Mul(x, b));
    }
  }

  lemma {:induction false} Telescope(b: bv8, x: bv8, xb: bv8)
    ensures Add(Add(b, x), Add(xb, b)) == Add(xb, x)
  {
  }

  lemma {:induction false} PowOne(x: bv8)
    ensures Pow(x, 1) == x
  {
    hide Mul;
    assert Pow(x, 1) == Mul(Pow(x, 0), x);
    MulUnits(x);
  }

  lemma {:induction false} SumOfOnes(n: nat)
    ensures PowerSum(1, n) == if n % 2 == 0 then 0 else 1
  {
    hide Mul;
    if n > 0 {
      SumOfOnes(n - 1);
      PowOfOne(n);
    }
  }

  lemma {:induction false} PowOfOne(n: nat)
    ensures Pow(1, n) == 1
  {
    hide Mul;
    if n > 0 {
      PowOfOne(n - 1);
      MulUnits(1);
    }
  }

  /** Such shapes exist: 513 data symbols and one parity symbol. */
  lemma {:induction false} FullRowExists()
    ensures FullRow(513)
  {
    hide Mul, Add, FullRow;
    assert Point(513) == 2;
    PowOne(2);
    SquareOfTwo();
    assert Pow(2, 2) == Mul(Pow(2, 1), 2);
    assert PowerSum(2, 1) == Add(PowerSum(2, 0), Pow(2, 1));
    AddLaws(2, 0, 0);
    AddLaws(2, 4, 0);
    FullRowClosed(513);
  }

  lemma {:induction false} SquareOfTwo()
    ensures Mul(2, 2) == 4
  {
    hide Mul;
    MulIsPolyMul(2, 2);
  }

  /** Beyond 256 data symbols any k symbols suffice exactly without parity, or with one full parity row. */
  lemma {:induction false} WideMdsExactly(g: seq<Vec>, k: nat, m: nat)
    requires WideCode(g, k, m)
    ensures |g| == k + m && Rectangular(g, k)
    ensures Mds(g, k, m) <==> m == 0 || (m == 1 && FullRow(k))
  {
    hide WideCode, DotTo, Entry, FullRow;
    WideCodeShape(g, k, m);
    FullRowExactly(k);
    if m == 0 {
      forall idx: seq<nat>, z: Vec | |idx| == k && Distinct(idx) && Below(idx, k + m) && |z| == k &&
        (forall i :: 0 <= i < k ==> Dot(g[idx[i]], z) == 0) ensures AllZero(z)
      {
        AllDataRows(g, k, m, idx, z);
      }
    } else if !FullRow(k) {
      var j: nat :| j < k && Entry(k, j, k) == 0;
      ZeroEntryClash(g, k, m, j);
    } else if m == 1 {
      forall idx: seq<nat>, z: Vec | |idx| == k && Distinct(idx) && Below(idx, k + m) && |z| == k &&
        (forall i :: 0 <= i < k ==> Dot(g[idx[i]], z) == 0) ensures AllZero(z)
      {
        OneParityRow(g, k, idx, z);
      }
    } else {
      if k < 512 {
        NarrowRow(k);
      }
      TwoParitiesClash(g, k, m);
    }
  }

  /** Identity rows over products of the Vandermonde rows with that matrix. */
  lemma {:induction false} WideGenerator(g: seq<Vec>, k: nat, m: nat, inv: seq<Vec>)
    requires 256 < k == |inv| && Rectangular(inv, k) && WideInverse(inv, k)
    requires |g| == k + m && Rectangular(g, k) && forall j :: 0 <= j < k ==> g[j] == Unit(k, j)
    requires forall i: nat :: k <= i < k + m ==> g[i] == Comb(PowerRow(Point(i), k), inv, k)
    ensures WideCode(g, k, m)
  {
    hide DotTo, Comb, PowerRow, Point, Parity;
    forall r: nat, z: Vec | k <= r < k + m && |z| == k ensures Dot(g[r], z) == Parity(r, z) {
      DotComb(PowerRow(Point(r), k), inv, z);
    }
  }

  /** One turn of the inversion loop: a pivot up to column 256, none from there on. */
  lemma {:induction false} WideTurn(k: nat, rows: seq<Vec>, r: nat, p: nat)
    requires WideState(k, rows, if r < 256 then r else 256) && r < k == |rows| && Rectangular(rows, k + k)
    requires r <= p <= k && (forall i :: r <= i < p ==> rows[i][r] == 0) && (p < k ==> rows[p][r] != 0)
    ensures if r < 256 then p < k && WideState(k, PivotRows(rows, k + k, r, p, r), r + 1) else p == k
  {
    hide WideState, PivotRows;
    if r < 256 {
      WideShape(k, rows, r);
      WidePivot(k, rows, r);
      var q :| r <= q < 256 && rows[q][r] != 0;
      assert p <= q;
      WideStep(k, rows, r, p);
    } else if p < k {
      BottomLeft(k, rows, p, r);
    }
  }

  lemma {:induction false} WideResult(k: nat, rows: seq<Vec>, inv: seq<Vec>)
    requires WideState(k, rows, 256) && 256 < k == |rows| == |inv| && Rectangular(rows, k + k) && Rectangular(inv, k)
    requires forall i :: 0 <= i < k ==> inv[i] == rows[i][k..]
    ensures WideInverse(inv, k)
  {
    hide WideState, DotTo, PowerRow, Point, Parity;
    forall r: nat, z: Vec | |z| == k ensures Dot(PowerRow(Point(r), k), Apply(inv, z)) == Parity(r, z) {
      WideParity(k, rows, inv, r, z);
    }
  }
}
