/**
  Gaussian elimination over GF(2^8), as `gf_gauss_eliminate` of
  `crates/coding/src/gf256.rs` performs it in place on a flat row-major buffer.

  What a caller relies on is stated without the algorithm: the elimination keeps
  the kernel of the rows, full rank leaves the identity beside the solution, and
  a lower rank comes with a nonzero kernel vector, so the system is ambiguous.
 */
module Gauss {
  import opened Gf256
  import opened GfLinear
  import opened GfSlices

  /** Subtract from every row but t the multiple of row t that clears `col`. */
  function Cleared(rows: seq<Vec>, m: nat, t: nat, col: nat): (r: seq<Vec>)
    requires t < |rows| && col < m && Rectangular(rows, m)
    ensures |r| == |rows| && Rectangular(r, m)
  {
    seq(|rows|, i requires 0 <= i < |rows| =>
      if i == t then rows[i] else Axpy(rows[i][col], rows[t], rows[i]))
  }

  function Swapped(rows: seq<Vec>, t: nat, p: nat): seq<Vec>
    requires t < |rows| && p < |rows|
  {
    rows[t := rows[p]][p := rows[t]]
  }

  /** One pivot: exchange rows t and p, normalise row t at `col`, clear the column. */
  function PivotRows(rows: seq<Vec>, m: nat, t: nat, p: nat, col: nat): (r: seq<Vec>)
    requires t < |rows| && p < |rows| && col < m && Rectangular(rows, m)
    ensures |r| == |rows| && Rectangular(r, m)
  {
    var swapped := Swapped(rows, t, p);
    var scaled := swapped[t := Scale(Inv(swapped[t][col]), swapped[t])];
    Cleared(scaled, m, t, col)
  }

  // ------------------------------------------------------- the kernel is preserved

  lemma {:induction false} KillsScaled(z: Vec, rows: seq<Vec>, t: nat, a: bv8)
    requires t < |rows| && a != 0
    ensures Kills(z, rows) <==> Kills(z, rows[t := Scale(a, rows[t])])
  {
    hide Add, Mul, Scale, DotTo;
    var next := rows[t := Scale(a, rows[t])];
    if Rectangular(rows, |z|) {
      DotToScale(a, rows[t], z, |z|);
      MulNonzero(a, Dot(rows[t], z));
      assert Rectangular(next, |z|);
      assert forall i :: 0 <= i < |rows| && i != t ==> next[i] == rows[i];
      if Kills(z, next) {
        assert Dot(next[t], z) == 0;
        forall i | 0 <= i < |rows| ensures Dot(rows[i], z) == 0 {
          assert Dot(next[i], z) == 0;
        }
      }
    } else if Rectangular(next, |z|) {
      forall i | 0 <= i < |rows| ensures |rows[i]| == |z| {
        assert |next[i]| == |z|;
      }
    }
  }

  lemma {:induction false} KillsSwapped(z: Vec, rows: seq<Vec>, t: nat, p: nat)
    requires t < |rows| && p < |rows|
    ensures Kills(z, rows) <==> Kills(z, Swapped(rows, t, p))
  {
    hide DotTo;
    assert Swapped(Swapped(rows, t, p), t, p) == rows;
    if Kills(z, rows) {
      SwapKeepsKills(z, rows, t, p);
    }
    if Kills(z, Swapped(rows, t, p)) {
      SwapKeepsKills(z, Swapped(rows, t, p), t, p);
    }
  }

  lemma {:induction false} SwapKeepsKills(z: Vec, rows: seq<Vec>, t: nat, p: nat)
    requires t < |rows| && p < |rows|
    requires Kills(z, rows)
    ensures Kills(z, Swapped(rows, t, p))
  {
    hide DotTo;
    forall i | 0 <= i < |rows| ensures |Swapped(rows, t, p)[i]| == |z| && Dot(Swapped(rows, t, p)[i], z) == 0 {
      var j := if i == p then t else if i == t then p else i;
      assert Swapped(rows, t, p)[i] == rows[j];
    }
  }

  lemma {:induction false} KillsCleared(z: Vec, rows: seq<Vec>, t: nat, col: nat)
    requires t < |rows| && col < |z| && Rectangular(rows, |z|)
    ensures Kills(z, rows) <==> Kills(z, Cleared(rows, |z|, t, col))
  {
    hide Add, Mul, Axpy, DotTo;
    var next := Cleared(rows, |z|, t, col);
    if Dot(rows[t], z) == 0 {
      forall i | 0 <= i < |rows| ensures Dot(next[i], z) == Dot(rows[i], z) {
        if i != t {
          DotToAxpy(rows[i][col], rows[t], rows[i], z, |z|);
          MulUnits(rows[i][col]);
          AddLaws(Dot(rows[i], z), 0, 0);
        }
      }
      forall i | 0 <= i < |rows| ensures Dot(next[i], z) == 0 <==> Dot(rows[i], z) == 0 {
      }
    } else {
      assert next[t] == rows[t];
    }
  }

  /** A pivot keeps the kernel. */
  lemma {:induction false} KillsPivotRows(z: Vec, rows: seq<Vec>, t: nat, p: nat, col: nat)
    requires t < |rows| && p < |rows| && col < |z| && Rectangular(rows, |z|) && rows[p][col] != 0
    ensures Kills(z, rows) <==> Kills(z, PivotRows(rows, |z|, t, p, col))
  {
    hide Inv, Scale, Cleared, Kills;
    var swapped := Swapped(rows, t, p);
    var a := Inv(swapped[t][col]);
    MulInverse(swapped[t][col]);
    KillsSwapped(z, rows, t, p);
    KillsScaled(z, swapped, t, a);
    KillsCleared(z, swapped[t := Scale(a, swapped[t])], t, col);
  }

  // -------------------------------------------------------------- the reduced form

  predicate Increasing(pivots: seq<nat>, bound: nat) {
    && (forall i :: 0 <= i < |pivots| ==> pivots[i] < bound)
    && (forall i, j :: 0 <= i < j < |pivots| ==> pivots[i] < pivots[j])
  }

  /** Row i is normalised at pivots[i], and is the only row with a value there. */
  predicate Pivoted(rows: seq<Vec>, m: nat, i: nat, c: nat)
    requires Rectangular(rows, m) && i < |rows|
  {
    && c < m && rows[i][c] == 1
    && (forall r :: 0 <= r < |rows| && r != i ==> rows[r][c] == 0)
    && (forall d :: 0 <= d < c ==> rows[i][d] == 0)
  }

  /** The first `col` columns are in reduced echelon form with these pivot columns. */
  ghost predicate Echelon(rows: seq<Vec>, m: nat, col: nat, pivots: seq<nat>) {
    && Rectangular(rows, m) && col <= m
    && |pivots| <= |rows| && Increasing(pivots, col)
    && (forall i :: 0 <= i < |pivots| ==> Pivoted(rows, m, i, pivots[i]))
    && (forall r, d :: |pivots| <= r < |rows| && 0 <= d < col ==> rows[r][d] == 0)
  }

  lemma {:induction false} PivotEntries(rows: seq<Vec>, m: nat, t: nat, p: nat, col: nat)
    requires t <= p < |rows| && col < m && Rectangular(rows, m) && rows[p][col] != 0
    ensures
      var next := PivotRows(rows, m, t, p, col);
      && next[t][col] == 1
      && (forall r :: 0 <= r < |rows| && r != t ==> next[r][col] == 0)
      && (forall d :: 0 <= d < m && rows[p][d] == 0 ==> next[t][d] == 0)
      && (forall r, d :: 0 <= r < |rows| && r != t && r != p && 0 <= d < m && rows[p][d] == 0 ==>
            next[r][d] == rows[r][d])
      && (forall d :: t != p && 0 <= d < m && rows[p][d] == 0 ==> next[p][d] == rows[t][d])
  {
    hide Add, Mul, Inv;
    var swapped := Swapped(rows, t, p);
    var a := Inv(swapped[t][col]);
    var scaled := swapped[t := Scale(a, swapped[t])];
    var next := PivotRows(rows, m, t, p, col);
    MulInverse(rows[p][col]);
    assert next[t] == scaled[t];
    forall d | 0 <= d < m && rows[p][d] == 0 ensures scaled[t][d] == 0 {
      MulUnits(a);
    }
    forall r, d | 0 <= r < |rows| && r != t && 0 <= d < m && rows[p][d] == 0 ensures next[r][d] == scaled[r][d] {
      MulUnits(scaled[r][col]);
      AddLaws(scaled[r][d], 0, 0);
    }
    forall r | 0 <= r < |rows| && r != t ensures next[r][col] == 0 {
      MulUnits(scaled[r][col]);
      AddLaws(scaled[r][col], scaled[r][col], 0);
    }
  }

  /** A pivot extends the reduced form by one column. */
  lemma {:induction false} EchelonPivot(rows: seq<Vec>, m: nat, col: nat, pivots: seq<nat>, p: nat)
    requires Echelon(rows, m, col, pivots) && col < m
    requires |pivots| <= p < |rows| && rows[p][col] != 0
    ensures Echelon(PivotRows(rows, m, |pivots|, p, col), m, col + 1, pivots + [col])
  {
    hide Add, Mul, PivotRows;
    var t := |pivots|;
    PivotEntries(rows, m, t, p, col);
    var next := PivotRows(rows, m, t, p, col);
    var nextPivots := pivots + [col];
    assert forall d :: 0 <= d < col ==> rows[p][d] == 0;
    forall i | 0 <= i < |nextPivots| ensures Pivoted(next, m, i, nextPivots[i]) {
      if i < t {
        var c := pivots[i];
        assert Pivoted(rows, m, i, c);
        forall d | 0 <= d <= c ensures next[i][d] == rows[i][d] {
          assert rows[p][d] == 0;
        }
        forall r | 0 <= r < |rows| && r != i ensures next[r][c] == 0 {
          assert rows[p][c] == 0 && rows[t][c] == 0 && rows[r][c] == 0;
        }
      } else {
        assert nextPivots[i] == col;
      }
    }
    forall r, d | t < r < |rows| && 0 <= d <= col ensures next[r][d] == 0 {
      if d < col {
        assert rows[r][d] == 0 && rows[t][d] == 0 && rows[p][d] == 0;
      }
    }
  }

  lemma {:induction false} EchelonSkip(rows: seq<Vec>, m: nat, col: nat, pivots: seq<nat>)
    requires Echelon(rows, m, col, pivots) && col < m
    requires forall r :: |pivots| <= r < |rows| ==> rows[r][col] == 0
    ensures Echelon(rows, m, col + 1, pivots)
  {
  }

  // -------------------------------------------------------- what the rank tells

  /** Full rank leaves the identity in the first k columns. */
  lemma {:induction false} FullRank(rows: seq<Vec>, m: nat, k: nat, pivots: seq<nat>)
    requires Echelon(rows, m, k, pivots) && |pivots| == k
    ensures forall i :: 0 <= i < k ==> pivots[i] == i
    ensures forall i, j :: 0 <= i < |rows| && 0 <= j < k ==> rows[i][j] == if i == j then 1 else 0
  {
    forall i | 0 <= i < k ensures pivots[i] == i {
      PivotAtLeast(pivots, k, i);
      PivotAtMost(pivots, k, i);
    }
    forall i, j | 0 <= i < |rows| && 0 <= j < k ensures rows[i][j] == if i == j then 1 else 0 {
      assert Pivoted(rows, m, j, pivots[j]);
    }
  }

  lemma {:induction false} PivotAtLeast(pivots: seq<nat>, k: nat, i: nat)
    requires Increasing(pivots, k) && i < |pivots|
    ensures pivots[i] >= i
  {
    if i > 0 {
      PivotAtLeast(pivots, k, i - 1);
    }
  }

  lemma {:induction false} PivotAtMost(pivots: seq<nat>, k: nat, i: nat)
    requires Increasing(pivots, k) && i < |pivots|
    ensures pivots[i] + (|pivots| - i) <= k
    decreases |pivots| - i
  {
    if i + 1 < |pivots| {
      PivotAtMost(pivots, k, i + 1);
    }
  }

  /** Below full rank some column has no pivot. */
  lemma {:induction false} FreeColumn(pivots: seq<nat>, k: nat, i: nat) returns (f: nat)
    requires Increasing(pivots, k) && |pivots| < k && i <= |pivots|
    requires forall j :: 0 <= j < i ==> pivots[j] == j
    ensures f < k && f !in pivots
    decreases |pivots| - i
  {
    if i == |pivots| || pivots[i] != i {
      f := i;
      if i < |pivots| {
        PivotAtLeast(pivots, k, i);
      }
    } else {
      f := FreeColumn(pivots, k, i + 1);
    }
  }

  /** 1 at the free column f, and at each pivot column what its row holds at f. */
  ghost function FreeVector(rows: seq<Vec>, m: nat, pivots: seq<nat>, f: nat): (z: Vec)
    requires Rectangular(rows, m) && f < m && |pivots| <= |rows|
    ensures |z| == m
  {
    seq(m, c requires 0 <= c < m =>
      if c == f then 1
      else if i :| 0 <= i < |pivots| && pivots[i] == c then rows[i][f]
      else 0)
  }

  lemma {:induction false} FreeVectorKills(rows: seq<Vec>, m: nat, k: nat, pivots: seq<nat>, f: nat)
    requires Echelon(rows, m, k, pivots) && f < k && f !in pivots
    ensures Kills(FreeVector(rows, m, pivots, f), rows)
  {
    hide Add, Mul;
    var z := FreeVector(rows, m, pivots, f);
    forall r | 0 <= r < |rows| ensures Dot(rows[r], z) == 0 {
      if r < |pivots| {
        var c := pivots[r];
        assert Pivoted(rows, m, r, c);
        assert z[c] == rows[r][f];
        forall d | 0 <= d < m && d != c && d != f ensures rows[r][d] == 0 || z[d] == 0 {
          if i :| 0 <= i < |pivots| && pivots[i] == d {
            assert Pivoted(rows, m, i, d);
          }
        }
        MulUnits(rows[r][f]);
        AddLaws(rows[r][f], rows[r][f], 0);
        if c < f {
          DotToPair(rows[r], z, c, f, m);
        } else {
          DotToPair(rows[r], z, f, c, m);
        }
      } else {
        DotToSingle(rows[r], z, f, m);
        MulUnits(z[f]);
      }
    }
  }

  /** Rank below k: a nonzero vector, supported on the unknowns, that no row can see. */
  lemma {:induction false} RankDeficient(rows: seq<Vec>, m: nat, k: nat, pivots: seq<nat>) returns (z: Vec)
    requires Echelon(rows, m, k, pivots) && |pivots| < k
    ensures Kills(z, rows) && |z| == m
    ensures forall c :: k <= c < m ==> z[c] == 0
    ensures exists c :: 0 <= c < k && z[c] != 0
  {
    var f := FreeColumn(pivots, k, 0);
    z := FreeVector(rows, m, pivots, f);
    FreeVectorKills(rows, m, k, pivots, f);
    assert z[f] != 0;
  }

  // ------------------------------------------------------- the in-place elimination

  /** What elimination of the first k columns of `before` into `after` guarantees. */
  ghost predicate Eliminated(before: seq<Vec>, after: seq<Vec>, m: nat, k: nat, pivots: seq<nat>) {
    && Echelon(after, m, k, pivots)
    && (forall z: Vec :: |z| == m ==> (Kills(z, before) <==> Kills(z, after)))
  }

  lemma {:induction false} EliminatedEchelon(before: seq<Vec>, after: seq<Vec>, m: nat, k: nat, pivots: seq<nat>)
    requires Eliminated(before, after, m, k, pivots)
    ensures Echelon(after, m, k, pivots) && |pivots| <= k
  {
    if |pivots| > 0 {
      PivotAtMost(pivots, k, 0);
    }
  }

  /** Any system can be eliminated; the rank is at most the number of rows. */
  lemma {:induction false} EliminationExists(rows: seq<Vec>, m: nat, col: nat)
      returns (after: seq<Vec>, pivots: seq<nat>)
    requires Rectangular(rows, m) && col <= m
    ensures Eliminated(rows, after, m, col, pivots) && |pivots| <= |after| == |rows|
  {
    hide Kills, PivotRows, Echelon;
    if col == 0 {
      after, pivots := rows, [];
      EchelonStart(rows, m);
    } else {
      after, pivots := EliminationExists(rows, m, col - 1);
      var was, t := after, |pivots|;
      EchelonBounds(was, m, col - 1, pivots);
      if p :| t <= p < |was| && was[p][col - 1] != 0 {
        after := PivotRows(was, m, t, p, col - 1);
        EchelonPivot(was, m, col - 1, pivots, p);
        forall z: Vec | |z| == m ensures Kills(z, rows) <==> Kills(z, after) {
          KillsPivotRows(z, was, t, p, col - 1);
        }
        pivots := pivots + [col - 1];
      } else {
        EchelonSkip(was, m, col - 1, pivots);
      }
    }
  }

  /** The first row at or below `rank` with a value in `col`, if any. */
  method FindPivot(mat: array<bv8>, m: nat, n: nat, rank: nat, col: nat) returns (p: nat)
    requires Offset(n, m) <= mat.Length && rank <= n && col < m
    ensures rank <= p <= n
    ensures p < n ==> RowsOf(mat[..], m, n)[p][col] != 0
    ensures p == n ==> forall r :: rank <= r < n ==> RowsOf(mat[..], m, n)[r][col] == 0
  {
    hide Offset, RowsOf;
    ghost var rows := RowsOf(mat[..], m, n);
    p := rank;
    while p < n
      invariant rank <= p <= n
      invariant forall r :: rank <= r < p ==> rows[r][col] == 0
    {
      RowOf(mat[..], m, n, p);
      if mat[Offset(p, m) + col] != 0 {
        return;
      }
      p := p + 1;
    }
  }

  /** Clears `col` from row r with the normalised pivot row, unless it is clear already. */
  method ClearRow(mat: array<bv8>, m: nat, n: nat, r: nat, col: nat, pivotRow: Vec, width: nat)
    requires Offset(n, m) <= mat.Length && r < n && col < m && |pivotRow| == m
    modifies mat
    ensures
      var rows := RowsOf(old(mat[..]), m, n);
      RowsOf(mat[..], m, n) == rows[r := Axpy(rows[r][col], pivotRow, rows[r])]
  {
    hide Add, Mul, Offset, RowsOf, Axpy, Splice;
    ghost var was := mat[..];
    RowOf(was, m, n, r);
    var f := mat[Offset(r, m) + col];
    if f != 0 {
      AxpySlice(f, pivotRow, mat, Offset(r, m), width);
      SpliceRow(was, m, n, r, Axpy(f, pivotRow, RowsOf(was, m, n)[r]));
    } else {
      AxpyZero(pivotRow, RowsOf(was, m, n)[r]);
    }
  }

  /** Clears `col` from every row but t. */
  method ClearColumn(mat: array<bv8>, m: nat, n: nat, t: nat, col: nat, width: nat)
    requires Offset(n, m) <= mat.Length && t < n && col < m
    modifies mat
    ensures RowsOf(mat[..], m, n) == Cleared(RowsOf(old(mat[..]), m, n), m, t, col)
  {
    hide Add, Mul, Offset, RowsOf, Axpy;
    ghost var rows := RowsOf(mat[..], m, n);
    ghost var done := Cleared(rows, m, t, col);
    assert forall i :: 0 <= i < n ==> done[i] == if i == t then rows[i] else Axpy(rows[i][col], rows[t], rows[i]);
    hide Cleared;
    RowOf(mat[..], m, n, t);
    var pivotRow := mat[Offset(t, m)..Offset(t, m) + m];
    for r := 0 to n
      invariant forall i :: 0 <= i < n ==> RowsOf(mat[..], m, n)[i] == if i < r then done[i] else rows[i]
    {
      if r != t {
        assert RowsOf(mat[..], m, n)[r] == rows[r];
        ClearRow(mat, m, n, r, col, pivotRow, width);
      }
    }
  }

  /** One pivot, in place. */
  method Pivot(mat: array<bv8>, m: nat, n: nat, rank: nat, p: nat, col: nat, width: nat)
    requires Offset(n, m) <= mat.Length && rank <= p < n && col < m
    modifies mat
    ensures RowsOf(mat[..], m, n) == PivotRows(RowsOf(old(mat[..]), m, n), m, rank, p, col)
  {
    hide Add, Mul, Offset, RowsOf, Cleared, Inv, Scale, Splice;
    ghost var rows := RowsOf(mat[..], m, n);
    RowOf(mat[..], m, n, rank);
    RowOf(mat[..], m, n, p);
    if rank != p {
      RowFits(rank, m, p);
      ghost var was := mat[..];
      SwapSlices(mat, Offset(rank, m), Offset(p, m), m);
      SpliceRow(was, m, n, rank, rows[p]);
      SpliceRow(Splice(was, Offset(rank, m), rows[p]), m, n, p, rows[rank]);
    }
    ghost var swapped := Swapped(rows, rank, p);
    assert RowsOf(mat[..], m, n) == swapped;
    RowOf(mat[..], m, n, rank);
    var inv := Inv(mat[Offset(rank, m) + col]);
    ghost var was := mat[..];
    ScalSlice(inv, mat, Offset(rank, m), m, width);
    SpliceRow(was, m, n, rank, Scale(inv, swapped[rank]));
    ClearColumn(mat, m, n, rank, col, width);
  }

  /** Gaussian elimination of the first k columns of a row-major buffer of rows of m bytes. */
  method Eliminate(mat: array<bv8>, m: nat, k: nat, width: nat) returns (rank: nat, ghost pivots: seq<nat>)
    requires m == 0 || k <= m
    modifies mat
    ensures rank == |pivots|
    ensures m == 0 ==> rank == 0 && mat[..] == old(mat[..])
    ensures m > 0 ==> Offset(mat.Length / m, m) <= mat.Length
    ensures m > 0 ==>
      Eliminated(RowsOf(old(mat[..]), m, mat.Length / m), RowsOf(mat[..], m, mat.Length / m), m, k, pivots)
  {
    hide Kills, PivotRows, Echelon, RowsOf;
    rank, pivots := 0, [];
    if m == 0 {
      return;
    }
    var n := mat.Length / m;
    OffsetIsProduct(n, m);
    hide Offset;
    ghost var before := RowsOf(mat[..], m, n);
    var col := 0;
    EchelonStart(before, m);
    while col < k
      invariant 0 <= col <= k && rank == |pivots|
      invariant Eliminated(before, RowsOf(mat[..], m, n), m, col, pivots)
    {
      ghost var rows := RowsOf(mat[..], m, n);
      EchelonBounds(rows, m, col, pivots);
      var p := FindPivot(mat, m, n, rank, col);
      if p < n {
        Pivot(mat, m, n, rank, p, col, width);
        EchelonPivot(rows, m, col, pivots, p);
        forall z: Vec | |z| == m ensures Kills(z, before) <==> Kills(z, PivotRows(rows, m, rank, p, col)) {
          KillsPivotRows(z, rows, rank, p, col);
        }
        pivots := pivots + [col];
        rank := rank + 1;
        if rank == n {
          EchelonNoRowsLeft(RowsOf(mat[..], m, n), m, col + 1, k, pivots);
          return;
        }
      } else {
        EchelonSkip(rows, m, col, pivots);
      }
      col := col + 1;
    }
  }

  lemma {:induction false} EchelonStart(rows: seq<Vec>, m: nat)
    requires Rectangular(rows, m)
    ensures Echelon(rows, m, 0, [])
  {
  }

  lemma {:induction false} EchelonBounds(rows: seq<Vec>, m: nat, col: nat, pivots: seq<nat>)
    requires Echelon(rows, m, col, pivots)
    ensures Rectangular(rows, m) && |pivots| <= |rows|
  {
  }

  lemma {:induction false} EchelonNoRowsLeft(rows: seq<Vec>, m: nat, col: nat, k: nat, pivots: seq<nat>)
    requires Echelon(rows, m, col, pivots) && |pivots| == |rows| && col <= k <= m
    ensures Echelon(rows, m, k, pivots)
  {
  }
}
