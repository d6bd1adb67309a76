/**
  Augmented systems over GF(2^8): each row is k coefficients followed by an
  s-byte symbol, and a solution is k symbols of s bytes.  Elimination keeps the
  solutions; full rank leaves the solution itself, and a lower rank means that
  every solution has a rival.
 */
module LinearSystems {
  import opened Gf256
  import opened Bytes
  import opened GfLinear
  import opened GfSlices
  import opened Gauss

  predicate Shape(x: seq<Vec>, k: nat, s: nat) { |x| == k && Rectangular(x, s) }

  /** Byte t of every symbol. */
  function Column(x: seq<Vec>, s: nat, t: nat): (c: Vec)
    requires Rectangular(x, s) && t < s
    ensures |c| == |x| && forall j :: 0 <= j < |x| ==> c[j] == x[j][t]
  {
    seq(|x|, j requires 0 <= j < |x| => x[j][t])
  }

  ghost predicate RowSolvedBy(row: Vec, k: nat, s: nat, x: seq<Vec>)
    requires |row| == k + s && Shape(x, k, s)
  {
    forall t :: 0 <= t < s ==> Dot(row[..k], Column(x, s, t)) == row[k + t]
  }

  /** x solves every row of the system. */
  ghost predicate SolvedBy(rows: seq<Vec>, k: nat, s: nat, x: seq<Vec>) {
    Rectangular(rows, k + s) && Shape(x, k, s) && forall i :: 0 <= i < |rows| ==> RowSolvedBy(rows[i], k, s, x)
  }

  /** Byte t of x, followed by the coordinate 1 of right-hand side byte t. */
  function Lift(x: seq<Vec>, s: nat, t: nat): (z: Vec)
    requires Rectangular(x, s) && t < s
    ensures |z| == |x| + s
  {
    Column(x, s, t) + Unit(s, t)
  }

  lemma {:induction false} DotToAppend(u: Vec, v: Vec, u': Vec, v': Vec, n: nat)
    requires |u| == |v| && |u'| == |v'| && n <= |u'|
    ensures DotTo(u + u', v + v', |u| + n) == Add(Dot(u, v), DotTo(u', v', n))
  {
    hide Add, Mul;
    if n == 0 {
      DotToAgrees(u + u', v + v', u, v, |u|);
      AddLaws(Dot(u, v), 0, 0);
    } else {
      DotToAppend(u, v, u', v', n - 1);
      AddLaws(Dot(u, v), DotTo(u', v', n - 1), Mul(u'[n - 1], v'[n - 1]));
    }
  }

  lemma {:induction false} RowKilled(row: Vec, k: nat, s: nat, x: seq<Vec>, t: nat)
    requires |row| == k + s && Shape(x, k, s) && t < s
    ensures Dot(row, Lift(x, s, t)) == 0 <==> Dot(row[..k], Column(x, s, t)) == row[k + t]
  {
    hide Add, Mul;
    var b := row[k..];
    assert row == row[..k] + b;
    DotToAppend(row[..k], Column(x, s, t), b, Unit(s, t), s);
    DotToSingle(b, Unit(s, t), t, s);
    MulUnits(b[t]);
    AddLaws(Dot(row[..k], Column(x, s, t)), row[k + t], 0);
  }

  /** Solving the system is being killed by it, byte by byte. */
  lemma {:induction false} SolvedIffKilled(rows: seq<Vec>, k: nat, s: nat, x: seq<Vec>)
    requires Rectangular(rows, k + s) && Shape(x, k, s)
    ensures SolvedBy(rows, k, s, x) <==> forall t :: 0 <= t < s ==> Kills(Lift(x, s, t), rows)
  {
    hide DotTo, Lift, Column;
    forall i, t | 0 <= i < |rows| && 0 <= t < s
      ensures Dot(rows[i], Lift(x, s, t)) == 0 <==> Dot(rows[i][..k], Column(x, s, t)) == rows[i][k + t]
    {
      RowKilled(rows[i], k, s, x, t);
    }
    if forall t :: 0 <= t < s ==> Kills(Lift(x, s, t), rows) {
      forall i | 0 <= i < |rows| ensures RowSolvedBy(rows[i], k, s, x) {
        forall t | 0 <= t < s ensures Dot(rows[i][..k], Column(x, s, t)) == rows[i][k + t] {
          assert Kills(Lift(x, s, t), rows);
        }
      }
    }
    if SolvedBy(rows, k, s, x) {
      forall t | 0 <= t < s ensures Kills(Lift(x, s, t), rows) {
        forall i | 0 <= i < |rows| ensures Dot(rows[i], Lift(x, s, t)) == 0 {
          assert RowSolvedBy(rows[i], k, s, x);
        }
      }
    }
  }

  lemma {:induction false} EliminationKeepsSolutions(before: seq<Vec>, after: seq<Vec>, k: nat, s: nat,
                                                     pivots: seq<nat>, x: seq<Vec>)
    requires Rectangular(before, k + s) && Shape(x, k, s) && Eliminated(before, after, k + s, k, pivots)
    ensures SolvedBy(before, k, s, x) <==> SolvedBy(after, k, s, x)
  {
    hide Kills, SolvedBy;
    SolvedIffKilled(before, k, s, x);
    SolvedIffKilled(after, k, s, x);
  }

  /** At full rank the right-hand sides are the only solution. */
  lemma {:induction false} SolutionAtFullRank(rows: seq<Vec>, k: nat, s: nat, pivots: seq<nat>, x: seq<Vec>)
    requires Echelon(rows, k + s, k, pivots) && |pivots| == k && SolvedBy(rows, k, s, x)
    ensures forall i :: 0 <= i < k ==> rows[i][k..] == x[i]
  {
    hide Add, Mul;
    FullRank(rows, k + s, k, pivots);
    forall i | 0 <= i < k ensures rows[i][k..] == x[i] {
      assert RowSolvedBy(rows[i], k, s, x);
      forall t | 0 <= t < s ensures rows[i][k + t] == x[i][t] {
        var c := Column(x, s, t);
        DotToSingle(rows[i][..k], c, i, k);
        MulUnits(c[i]);
      }
    }
  }

  /** x with byte 0 of each symbol moved by z. */
  function Shifted(x: seq<Vec>, k: nat, s: nat, z: Vec): (y: seq<Vec>)
    requires Shape(x, k, s) && s > 0 && |z| >= k
    ensures Shape(y, k, s)
  {
    seq(k, j requires 0 <= j < k => x[j][0 := Add(x[j][0], z[j])])
  }

  /** Below full rank every solution has a rival. */
  lemma {:induction false} RivalSolution(before: seq<Vec>, after: seq<Vec>, k: nat, s: nat, pivots: seq<nat>,
                                         x: seq<Vec>)
      returns (y: seq<Vec>)
    requires Eliminated(before, after, k + s, k, pivots) && |pivots| < k && s > 0
    requires SolvedBy(before, k, s, x)
    ensures SolvedBy(before, k, s, y) && y != x
  {
    var z := RankDeficient(after, k + s, k, pivots);
    assert Kills(z, before);
    y := KernelRival(before, k, s, x, z);
  }

  lemma {:induction false} KernelRival(rows: seq<Vec>, k: nat, s: nat, x: seq<Vec>, z: Vec) returns (y: seq<Vec>)
    requires s > 0 && SolvedBy(rows, k, s, x) && |z| == k + s && Kills(z, rows)
    requires forall c :: k <= c < k + s ==> z[c] == 0
    requires exists c :: 0 <= c < k && z[c] != 0
    ensures SolvedBy(rows, k, s, y) && y != x
  {
    y := Shifted(x, k, s, z);
    hide Add, Mul;
    var c :| 0 <= c < k && z[c] != 0;
    AddLaws(x[c][0], z[c], 0);
    assert y[c][0] != x[c][0] by { AddCancels(x[c][0], z[c]); }
    forall i | 0 <= i < |rows| ensures RowSolvedBy(rows[i], k, s, y) {
      assert RowSolvedBy(rows[i], k, s, x) && Dot(rows[i], z) == 0;
      ShiftedRow(rows[i], k, s, x, z);
    }
  }

  lemma {:induction false} AddCancels(a: bv8, b: bv8)
    requires b != 0
    ensures Add(a, b) != a
  {
  }

  lemma {:induction false} ShiftedRow(row: Vec, k: nat, s: nat, x: seq<Vec>, z: Vec)
    requires |row| == k + s && s > 0 && Shape(x, k, s) && |z| == k + s
    requires forall c :: k <= c < k + s ==> z[c] == 0
    requires RowSolvedBy(row, k, s, x) && Dot(row, z) == 0
    ensures RowSolvedBy(row, k, s, Shifted(x, k, s, z))
  {
    hide Add, Mul;
    var y := Shifted(x, k, s, z);
    var head := row[..k];
    forall t | 0 <= t < s ensures Dot(head, Column(y, s, t)) == row[k + t] {
      if t > 0 {
        assert Column(y, s, t) == Column(x, s, t);
      } else {
        var cx := Column(x, s, 0);
        MulUnits(0);
        assert Column(y, s, 0) == Axpy(1, z[..k], cx) by {
          forall j | 0 <= j < k ensures Column(y, s, 0)[j] == Axpy(1, z[..k], cx)[j] {
            MulUnits(z[j]);
          }
        }
        DotToCommutes(head, Column(y, s, 0), k);
        DotToAxpy(1, z[..k], cx, head, k);
        DotToCommutes(cx, head, k);
        HeadDot(row, k, s, z);
        MulUnits(1);
        AddLaws(Dot(head, cx), 0, 0);
      }
    }
  }

  lemma {:induction false} HeadDot(row: Vec, k: nat, s: nat, z: Vec)
    requires |row| == k + s && |z| == k + s && Dot(row, z) == 0
    requires forall c :: k <= c < k + s ==> z[c] == 0
    ensures DotTo(z[..k], row[..k], k) == 0
  {
    hide Add, Mul;
    assert row == row[..k] + row[k..] && z == z[..k] + z[k..];
    DotToAppend(row[..k], z[..k], row[k..], z[k..], s);
    assert z[k..] == Zeros(s);
    DotZeros(row[k..], s);
    DotToCommutes(row[k..], z[k..], s);
    DotToCommutes(row[..k], z[..k], k);
    AddLaws(Dot(row[..k], z[..k]), 0, 0);
  }

  // ------------------------------------------------------ symbols as combinations

  lemma {:induction false} DotUnit(k: nat, i: nat, x: Vec)
    requires |x| == k && i < k
    ensures Dot(Unit(k, i), x) == x[i]
  {
    hide Add, Mul;
    DotToSingle(Unit(k, i), x, i, k);
    MulUnits(x[i]);
  }

  /** A combination of symbols, read at one byte. */
  lemma {:induction false} CombColumn(cs: Vec, x: seq<Vec>, s: nat, t: nat, n: nat)
    requires |cs| == |x| && Rectangular(x, s) && t < s && n <= |x|
    ensures CombTo(cs, x, s, n)[t] == DotTo(cs, Column(x, s, t), n)
  {
    hide Add, Mul;
    if n > 0 {
      CombColumn(cs, x, s, t, n - 1);
    }
  }

  lemma {:induction false} CombUnit(k: nat, i: nat, x: seq<Vec>, s: nat)
    requires Shape(x, k, s) && i < k
    ensures Comb(Unit(k, i), x, s) == x[i]
  {
    hide DotTo;
    forall t | 0 <= t < s ensures Comb(Unit(k, i), x, s)[t] == x[i][t] {
      CombColumn(Unit(k, i), x, s, t, k);
      DotUnit(k, i, Column(x, s, t));
    }
  }

  /** A row is solved exactly when its symbol is the combination its coefficients name. */
  lemma {:induction false} RowSolvedIffComb(coeffs: Vec, symbol: Vec, k: nat, s: nat, data: seq<Vec>)
    requires |coeffs| == k && |symbol| == s && Shape(data, k, s)
    ensures RowSolvedBy(coeffs + symbol, k, s, data) <==> symbol == Comb(coeffs, data, s)
  {
    hide DotTo;
    var row := coeffs + symbol;
    assert row[..k] == coeffs;
    forall t | 0 <= t < s
      ensures Dot(row[..k], Column(data, s, t)) == Comb(coeffs, data, s)[t] && row[k + t] == symbol[t]
    {
      CombColumn(coeffs, data, s, t, k);
    }
    if RowSolvedBy(row, k, s, data) {
      assert forall t :: 0 <= t < s ==> row[k + t] == Comb(coeffs, data, s)[t];
      assert symbol == Comb(coeffs, data, s);
    }
  }

  // --------------------------------------------------------------- solving in place

  /** Reads the reduced rows: each row's symbol goes to the place of its first nonzero coefficient. */
  method ReadSolution(rows: seq<Vec>, k: nat, s: nat) returns (out: seq<Vec>)
    requires Rectangular(rows, k + s) && k <= |rows|
    requires forall i, j :: 0 <= i < |rows| && 0 <= j < k ==> rows[i][j] == if i == j then 1 else 0
    ensures |out| == k && forall i :: 0 <= i < k ==> out[i] == rows[i][k..]
  {
    out := seq(k, _ => []);
    for r := 0 to |rows|
      invariant |out| == k && forall i :: 0 <= i < r && i < k ==> out[i] == rows[i][k..]
    {
      var piv := 0;
      while piv < k && rows[r][piv] == 0
        invariant 0 <= piv <= k && piv <= r
      {
        piv := piv + 1;
      }
      if piv < k {
        out := out[piv := rows[r][k..]];
      }
    }
  }

  ghost predicate HasRival(rows: seq<Vec>, k: nat, s: nat, x: seq<Vec>) {
    exists y :: y != x && SolvedBy(rows, k, s, y)
  }

  lemma {:induction false} Outcome(rows: seq<Vec>, after: seq<Vec>, k: nat, s: nat, pivots: seq<nat>, x: seq<Vec>)
    requires Eliminated(rows, after, k + s, k, pivots) && SolvedBy(rows, k, s, x)
    ensures |pivots| == k ==> |after| >= k && forall i :: 0 <= i < k ==> after[i][k..] == x[i]
    ensures |pivots| < k && s > 0 ==> HasRival(rows, k, s, x)
  {
    hide Kills, SolvedBy;
    assert Rectangular(rows, k + s) && Shape(x, k, s) by { SolvedShape(rows, k, s, x); }
    if |pivots| == k {
      EliminationKeepsSolutions(rows, after, k, s, pivots, x);
      SolutionAtFullRank(after, k, s, pivots, x);
    } else if |pivots| < k && s > 0 {
      var y := RivalSolution(rows, after, k, s, pivots, x);
    }
  }

  lemma {:induction false} SolvedShape(rows: seq<Vec>, k: nat, s: nat, x: seq<Vec>)
    requires SolvedBy(rows, k, s, x)
    ensures Rectangular(rows, k + s) && Shape(x, k, s)
  {
  }

  /**
    Lays the rows out flat, eliminates, and reads the solution.  Rank k: `out` is
    the only possible solution.  Lower rank: every solution has a rival.
   */
  method SolveSystem(rows: seq<Vec>, k: nat, s: nat, width: nat) returns (rank: nat, out: seq<Vec>)
    requires Rectangular(rows, k + s) && k + s > 0
    ensures rank <= k && rank <= |rows|
    ensures rank == k ==> Shape(out, k, s) && forall x :: SolvedBy(rows, k, s, x) ==> x == out
    ensures rank < k && s > 0 ==> forall x :: SolvedBy(rows, k, s, x) ==> HasRival(rows, k, s, x)
  {
    hide DotTo, Echelon, RowsOf, Flat, Eliminated, SolvedBy, HasRival;
    RowsOfFlat(rows, k + s);
    FlatCount(rows, k + s);
    var flat := Flat(rows);
    var mat := new bv8[|flat|](i requires 0 <= i < |flat| => flat[i]);
    assert mat[..] == flat;
    ghost var pivots;
    rank, pivots := Eliminate(mat, k + s, k, width);
    var after := RowsOf(mat[..], k + s, |rows|);
    EliminatedEchelon(rows, after, k + s, k, pivots);
    EchelonBounds(after, k + s, k, pivots);
    out := [];
    if rank == k {
      FullRank(after, k + s, k, pivots);
      EchelonBounds(after, k + s, k, pivots);
      out := ReadSolution(after, k, s);
    }
    forall x | SolvedBy(rows, k, s, x)
      ensures rank == k ==> x == out
      ensures rank < k && s > 0 ==> HasRival(rows, k, s, x)
    {
      SolvedShape(rows, k, s, x);
      Outcome(rows, after, k, s, pivots, x);
    }
  }
}

