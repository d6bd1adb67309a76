/**
  Random linear network coding (`crates/coding/src/rlnc.rs`): the decoder keeps
  the packets it has seen as an incrementally reduced system, one row per
  innovative packet, whatever the order of arrival.
 */
module Rlnc {
  import opened Counting
  import opened Gf256
  import opened GfLinear
  import opened LinearSystems
  import opened Peeling
  import opened StoppingSets
  import opened Results

  datatype RlncError =
    | Insufficient(have: nat, need: nat)
    | Singular(have: nat)
    | SizeMismatch(exp: nat, got: nat)

  datatype CodedPacket = CodedPacket(coeffs: Vec, payload: Vec)

  // -------------------------------------------------------------------------- spans

  /** v is a linear combination of the vectors. */
  ghost predicate InSpan(v: Vec, vecs: seq<Vec>, k: nat)
    requires Rectangular(vecs, k)
  {
    exists cs: Vec :: |cs| == |vecs| && Comb(cs, vecs, k) == v
  }

  lemma {:induction false} CombAxpy(a: bv8, cu: Vec, cw: Vec, vecs: seq<Vec>, k: nat, n: nat)
    requires |cu| == |cw| == |vecs| && n <= |vecs| && Rectangular(vecs, k)
    ensures CombTo(Axpy(a, cu, cw), vecs, k, n) == Axpy(a, CombTo(cu, vecs, k, n), CombTo(cw, vecs, k, n))
  {
    if n == 0 {
      AxpyOfZeros(a, Zeros(k));
      ScaleZeros(a, k);
    } else {
      CombAxpy(a, cu, cw, vecs, k, n - 1);
      AxpyOfSums(a, cu[n - 1], cw[n - 1], vecs[n - 1], CombTo(cu, vecs, k, n - 1), CombTo(cw, vecs, k, n - 1));
      hide Add, Mul;
    }
  }

  lemma {:induction false} ScaleZeros(a: bv8, k: nat)
    ensures Scale(a, Zeros(k)) == Zeros(k)
  {
    hide Mul;
    MulUnits(a);
  }

  lemma {:induction false} AxpyOfSums(a: bv8, cu: bv8, cw: bv8, v: Vec, u: Vec, w: Vec)
    requires |v| == |u| == |w|
    ensures Axpy(Add(cw, Mul(a, cu)), v, Axpy(a, u, w)) == Axpy(a, Axpy(cu, v, u), Axpy(cw, v, w))
  {
    hide Add, Mul;
    var lhs := Axpy(Add(cw, Mul(a, cu)), v, Axpy(a, u, w));
    var rhs := Axpy(a, Axpy(cu, v, u), Axpy(cw, v, w));
    forall i | 0 <= i < |v| ensures lhs[i] == rhs[i] {
      MulDistributes(cw, Mul(a, cu), v[i]);
      MulAssociates(a, cu, v[i]);
      MulDistributes(u[i], Mul(cu, v[i]), a);
      AddSwap(w[i], Mul(a, u[i]), Mul(cw, v[i]), Mul(a, Mul(cu, v[i])));
    }
  }

  lemma {:induction false} SpanAxpy(a: bv8, u: Vec, w: Vec, vecs: seq<Vec>, k: nat)
    requires Rectangular(vecs, k) && InSpan(u, vecs, k) && InSpan(w, vecs, k)
    ensures |u| == |w| == k && InSpan(Axpy(a, u, w), vecs, k)
  {
    hide Axpy;
    var cu: Vec :| |cu| == |vecs| && Comb(cu, vecs, k) == u;
    var cw: Vec :| |cw| == |vecs| && Comb(cw, vecs, k) == w;
    CombAxpy(a, cu, cw, vecs, k, |vecs|);
  }

  lemma {:induction false} SpanZeros(vecs: seq<Vec>, k: nat)
    requires Rectangular(vecs, k)
    ensures InSpan(Zeros(k), vecs, k)
  {
    CombZero(vecs, k, |vecs|);
  }

  lemma {:induction false} SpanScale(a: bv8, u: Vec, vecs: seq<Vec>, k: nat)
    requires Rectangular(vecs, k) && InSpan(u, vecs, k)
    ensures InSpan(Scale(a, u), vecs, k)
  {
    SpanZeros(vecs, k);
    SpanAxpy(a, u, Zeros(k), vecs, k);
    AxpyOfZeros(a, u);
  }

  lemma {:induction false} SpanMember(vecs: seq<Vec>, k: nat, i: nat)
    requires Rectangular(vecs, k) && i < |vecs|
    ensures InSpan(vecs[i], vecs, k)
  {
    CombUnit(|vecs|, i, vecs, k);
  }

  /** A span inside a span. */
  lemma {:induction false} SpanWithin(cs: Vec, inner: seq<Vec>, outer: seq<Vec>, k: nat, n: nat)
    requires Rectangular(inner, k) && Rectangular(outer, k) && |cs| == |inner| && n <= |inner|
    requires forall i :: 0 <= i < |inner| ==> InSpan(inner[i], outer, k)
    ensures InSpan(CombTo(cs, inner, k, n), outer, k)
  {
    hide InSpan, Axpy;
    if n == 0 {
      SpanZeros(outer, k);
    } else {
      SpanWithin(cs, inner, outer, k, n - 1);
      SpanAxpy(cs[n - 1], inner[n - 1], CombTo(cs, inner, k, n - 1), outer, k);
    }
  }

  lemma {:induction false} SpanTransitive(v: Vec, inner: seq<Vec>, outer: seq<Vec>, k: nat)
    requires Rectangular(inner, k) && Rectangular(outer, k) && InSpan(v, inner, k)
    requires forall i :: 0 <= i < |inner| ==> InSpan(inner[i], outer, k)
    ensures InSpan(v, outer, k)
  {
    var cs: Vec :| |cs| == |inner| && Comb(cs, inner, k) == v;
    SpanWithin(cs, inner, outer, k, |inner|);
  }

  lemma {:induction false} SpanGrows(v: Vec, vecs: seq<Vec>, w: Vec, k: nat)
    requires Rectangular(vecs, k) && |w| == k && InSpan(v, vecs, k)
    ensures InSpan(v, vecs + [w], k)
  {
    hide InSpan;
    var more := vecs + [w];
    forall i | 0 <= i < |vecs| ensures InSpan(vecs[i], more, k) {
      SpanMember(more, k, i);
      assert more[i] == vecs[i];
    }
    SpanTransitive(v, vecs, more, k);
  }

  // --------------------------------------------------------------- the reduced rows

  function Heads(rows: seq<Vec>, m: nat, k: nat): (h: seq<Vec>)
    requires Rectangular(rows, m) && k <= m
    ensures |h| == |rows| && Rectangular(h, k)
  {
    seq(|rows|, i requires 0 <= i < |rows| => rows[i][..k])
  }

  /** Row i is normalised at column c, and no other row has a value there. */
  predicate PivotOf(rows: seq<Vec>, m: nat, i: nat, c: nat)
    requires Rectangular(rows, m) && i < |rows|
  {
    c < m && rows[i][c] == 1 && forall r :: 0 <= r < |rows| && r != i ==> rows[r][c] == 0
  }

  /** The rows are in reduced form with these pivot columns, all among the first k. */
  predicate Reduced(rows: seq<Vec>, m: nat, k: nat, pivots: seq<nat>) {
    && Rectangular(rows, m) && k <= m && |pivots| == |rows|
    && (forall i :: 0 <= i < |rows| ==> pivots[i] < k && PivotOf(rows, m, i, pivots[i]))
  }

  /** A row after the first n pivots have been cleared from it. */
  function ClearedBy(row: Vec, rows: seq<Vec>, m: nat, pivots: seq<nat>, n: nat): (r: Vec)
    requires |row| == m && Rectangular(rows, m) && n <= |rows| && n <= |pivots|
    requires forall i :: 0 <= i < |pivots| ==> pivots[i] < m
    ensures |r| == m
  {
    if n == 0 then row
    else
      var r := ClearedBy(row, rows, m, pivots, n - 1);
      Axpy(r[pivots[n - 1]], rows[n - 1], r)
  }

  lemma {:induction false} ClearsPivots(row: Vec, rows: seq<Vec>, m: nat, k: nat, pivots: seq<nat>, n: nat, j: nat)
    requires |row| == m && Reduced(rows, m, k, pivots) && j < n <= |rows|
    ensures ClearedBy(row, rows, m, pivots, n)[pivots[j]] == 0
  {
    hide Add, Mul;
    var r := ClearedBy(row, rows, m, pivots, n - 1);
    var c := pivots[j];
    assert PivotOf(rows, m, j, c);
    if j == n - 1 {
      MulUnits(r[c]);
      AddLaws(r[c], r[c], 0);
    } else {
      ClearsPivots(row, rows, m, k, pivots, n - 1, j);
      MulUnits(r[pivots[n - 1]]);
      AddLaws(0, 0, 0);
    }
  }

  lemma {:induction false} HeadAxpy(a: bv8, u: Vec, w: Vec, k: nat)
    requires |u| == |w| && k <= |u|
    ensures Axpy(a, u, w)[..k] == Axpy(a, u[..k], w[..k])
  {
    hide Add, Mul;
  }

  /** Clearing pivots moves a row only by combinations of the rows. */
  lemma {:induction false} ClearingKeepsSpan(row: Vec, rows: seq<Vec>, m: nat, k: nat, pivots: seq<nat>, n: nat,
                                             vecs: seq<Vec>)
    requires |row| == m && k <= m && Rectangular(rows, m) && n <= |rows| && n <= |pivots|
    requires forall i :: 0 <= i < |pivots| ==> pivots[i] < m
    requires Rectangular(vecs, k) && forall i :: 0 <= i < |rows| ==> InSpan(rows[i][..k], vecs, k)
    ensures InSpan(ClearedBy(row, rows, m, pivots, n)[..k], vecs, k) <==> InSpan(row[..k], vecs, k)
  {
    hide InSpan, Axpy;
    if n > 0 {
      ClearingKeepsSpan(row, rows, m, k, pivots, n - 1, vecs);
      var r := ClearedBy(row, rows, m, pivots, n - 1);
      var c, e := r[pivots[n - 1]], rows[n - 1];
      HeadAxpy(c, e, r, k);
      if InSpan(r[..k], vecs, k) {
        SpanAxpy(c, e[..k], r[..k], vecs, k);
      }
      if InSpan(Axpy(c, e, r)[..k], vecs, k) {
        SpanAxpy(c, e[..k], Axpy(c, e, r)[..k], vecs, k);
        AxpyTwice(c, e[..k], r[..k]);
      }
    }
  }

  /** A combination of reduced rows shows its coefficients at the pivots. */
  lemma {:induction false} CombAtPivot(cs: Vec, rows: seq<Vec>, m: nat, k: nat, pivots: seq<nat>, j: nat, n: nat)
    requires Reduced(rows, m, k, pivots) && |cs| == |rows| && j < |rows| && n <= |rows|
    ensures CombTo(cs, Heads(rows, m, k), k, n)[pivots[j]] == if j < n then cs[j] else 0
  {
    hide Add, Mul;
    if n > 0 {
      CombAtPivot(cs, rows, m, k, pivots, j, n - 1);
      assert PivotOf(rows, m, j, pivots[j]);
      MulUnits(cs[n - 1]);
      AddLaws(cs[j], 0, 0);
      AddLaws(0, 0, 0);
    }
  }

  /** A vector in the span that vanishes at every pivot is zero. */
  lemma {:induction false} ClearedInSpanIsZero(v: Vec, rows: seq<Vec>, m: nat, k: nat, pivots: seq<nat>)
    requires Reduced(rows, m, k, pivots) && InSpan(v, Heads(rows, m, k), k)
    requires |v| == k && forall i :: 0 <= i < |pivots| ==> v[pivots[i]] == 0
    ensures v == Zeros(k)
  {
    var heads := Heads(rows, m, k);
    var cs: Vec :| |cs| == |heads| && Comb(cs, heads, k) == v;
    forall j | 0 <= j < |rows| ensures cs[j] == 0 {
      CombAtPivot(cs, rows, m, k, pivots, j, |rows|);
    }
    assert cs == Zeros(|heads|);
    CombZero(heads, k, |heads|);
  }

  // ------------------------------------------------------- rows true of the source

  lemma {:induction false} SolvedAxpy(c: bv8, u: Vec, w: Vec, k: nat, s: nat, x: seq<Vec>)
    requires |u| == |w| == k + s && Shape(x, k, s)
    requires RowSolvedBy(u, k, s, x) && RowSolvedBy(w, k, s, x)
    ensures RowSolvedBy(Axpy(c, u, w), k, s, x)
  {
    hide Add, Mul, DotTo, Axpy, Lift;
    forall t | 0 <= t < s ensures Dot(Axpy(c, u, w)[..k], Column(x, s, t)) == Axpy(c, u, w)[k + t] {
      RowKilled(u, k, s, x, t);
      RowKilled(w, k, s, x, t);
      RowKilled(Axpy(c, u, w), k, s, x, t);
      DotToAxpy(c, u, w, Lift(x, s, t), k + s);
      MulUnits(c);
      AddLaws(0, 0, 0);
    }
  }

  lemma {:induction false} SolvedScale(c: bv8, u: Vec, k: nat, s: nat, x: seq<Vec>)
    requires |u| == k + s && Shape(x, k, s) && RowSolvedBy(u, k, s, x)
    ensures RowSolvedBy(Scale(c, u), k, s, x)
  {
    hide Add, Mul, DotTo, Scale, Lift;
    forall t | 0 <= t < s ensures Dot(Scale(c, u)[..k], Column(x, s, t)) == Scale(c, u)[k + t] {
      RowKilled(u, k, s, x, t);
      RowKilled(Scale(c, u), k, s, x, t);
      DotToScale(c, u, Lift(x, s, t), k + s);
      MulUnits(c);
    }
  }

  lemma {:induction false} ClearedStaysTrue(row: Vec, rows: seq<Vec>, pivots: seq<nat>, k: nat, s: nat, n: nat,
                                            x: seq<Vec>)
    requires |row| == k + s && n <= |rows| && n <= |pivots| && SolvedBy(rows, k, s, x) && RowSolvedBy(row, k, s, x)
    requires forall i :: 0 <= i < |pivots| ==> pivots[i] < k + s
    ensures RowSolvedBy(ClearedBy(row, rows, k + s, pivots, n), k, s, x)
  {
    hide RowSolvedBy, Axpy;
    if n > 0 {
      ClearedStaysTrue(row, rows, pivots, k, s, n - 1, x);
      var r := ClearedBy(row, rows, k + s, pivots, n - 1);
      SolvedAxpy(r[pivots[n - 1]], rows[n - 1], r, k, s, x);
    }
  }

  // ------------------------------------------------------------- inserting a new row

  /** Clears the new pivot from every row and appends the new row. */
  function Inserted(rows: seq<Vec>, m: nat, row: Vec, piv: nat): (next: seq<Vec>)
    requires Rectangular(rows, m) && |row| == m && piv < m
    ensures |next| == |rows| + 1 && Rectangular(next, m)
  {
    seq(|rows|, e requires 0 <= e < |rows| => Axpy(rows[e][piv], row, rows[e])) + [row]
  }

  lemma {:induction false} InsertKeepsReduced(rows: seq<Vec>, m: nat, k: nat, pivots: seq<nat>, row: Vec, piv: nat)
    requires Reduced(rows, m, k, pivots) && |row| == m && piv < k && row[piv] == 1
    requires forall i :: 0 <= i < |pivots| ==> row[pivots[i]] == 0
    ensures Reduced(Inserted(rows, m, row, piv), m, k, pivots + [piv])
  {
    hide Add, Mul;
    var next, pivots' := Inserted(rows, m, row, piv), pivots + [piv];
    forall e | 0 <= e < |rows| ensures next[e][piv] == 0 {
      MulUnits(rows[e][piv]);
      AddLaws(rows[e][piv], rows[e][piv], 0);
    }
    forall e, i | 0 <= e < |rows| && 0 <= i < |pivots| ensures next[e][pivots[i]] == rows[e][pivots[i]] {
      MulUnits(rows[e][piv]);
      AddLaws(rows[e][pivots[i]], 0, 0);
    }
    forall i | 0 <= i < |next| ensures PivotOf(next, m, i, pivots'[i]) {
      if i < |rows| {
        assert PivotOf(rows, m, i, pivots[i]);
      }
    }
  }

  ghost predicate SpansWithin(inner: seq<Vec>, outer: seq<Vec>, k: nat)
    requires Rectangular(inner, k) && Rectangular(outer, k)
  {
    forall i :: 0 <= i < |inner| ==> InSpan(inner[i], outer, k)
  }

  /** The new rows are combinations of whatever the old rows and the new one are combinations of. */
  lemma {:induction false} InsertedWithin(rows: seq<Vec>, m: nat, k: nat, row: Vec, piv: nat, outer: seq<Vec>)
    requires Rectangular(rows, m) && |row| == m && piv < m && k <= m && Rectangular(outer, k)
    requires SpansWithin(Heads(rows, m, k), outer, k) && InSpan(row[..k], outer, k)
    ensures SpansWithin(Heads(Inserted(rows, m, row, piv), m, k), outer, k)
  {
    hide InSpan, Axpy;
    var next := Inserted(rows, m, row, piv);
    forall i | 0 <= i < |next| ensures InSpan(Heads(next, m, k)[i], outer, k) {
      if i < |rows| {
        HeadAxpy(rows[i][piv], row, rows[i], k);
        assert InSpan(Heads(rows, m, k)[i], outer, k);
        SpanAxpy(rows[i][piv], row[..k], rows[i][..k], outer, k);
      }
    }
  }

  /** Nothing is lost: the old rows and the new one are combinations of the new rows. */
  lemma {:induction false} WithinInserted(rows: seq<Vec>, m: nat, k: nat, row: Vec, piv: nat)
    requires Rectangular(rows, m) && |row| == m && piv < m && k <= m
    ensures
      var heads := Heads(Inserted(rows, m, row, piv), m, k);
      SpansWithin(Heads(rows, m, k), heads, k) && InSpan(row[..k], heads, k)
  {
    hide InSpan, Axpy;
    var next := Inserted(rows, m, row, piv);
    var heads := Heads(next, m, k);
    SpanMember(heads, k, |rows|);
    assert heads[|rows|] == row[..k];
    forall i | 0 <= i < |rows| ensures InSpan(Heads(rows, m, k)[i], heads, k) {
      var c := rows[i][piv];
      SpanMember(heads, k, i);
      HeadAxpy(c, row, rows[i], k);
      SpanAxpy(c, row[..k], heads[i], heads, k);
      AxpyTwice(c, row[..k], rows[i][..k]);
    }
  }

  lemma {:induction false} InsertedStaysTrue(rows: seq<Vec>, k: nat, s: nat, row: Vec, piv: nat, x: seq<Vec>)
    requires SolvedBy(rows, k, s, x) && |row| == k + s && RowSolvedBy(row, k, s, x) && piv < k + s
    ensures SolvedBy(Inserted(rows, k + s, row, piv), k, s, x)
  {
    hide RowSolvedBy, Axpy;
    var next := Inserted(rows, k + s, row, piv);
    forall i | 0 <= i < |next| ensures RowSolvedBy(next[i], k, s, x) {
      if i < |rows| {
        SolvedAxpy(rows[i][piv], row, rows[i], k, s, x);
      }
    }
  }

  // ---------------------------------------------------------------------- the decoder

  predicate Sized(p: CodedPacket, k: nat, s: nat) { |p.coeffs| == k && |p.payload| == s }

  predicate AllSized(seen: seq<CodedPacket>, k: nat, s: nat) {
    forall i :: 0 <= i < |seen| ==> Sized(seen[i], k, s)
  }

  function CoeffsOf(seen: seq<CodedPacket>, k: nat, s: nat): (c: seq<Vec>)
    requires AllSized(seen, k, s)
    ensures |c| == |seen| && Rectangular(c, k) && forall i :: 0 <= i < |seen| ==> c[i] == seen[i].coeffs
  {
    seq(|seen|, i requires 0 <= i < |seen| => seen[i].coeffs)
  }

  /** Every packet is the combination of the sources x that its coefficients name. */
  ghost predicate TrueOf(seen: seq<CodedPacket>, k: nat, s: nat, x: seq<Vec>) {
    && AllSized(seen, k, s) && Shape(x, k, s)
    && (forall i :: 0 <= i < |seen| ==> seen[i].payload == Comb(seen[i].coeffs, x, s))
  }

  /** The rows are a reduced form of exactly what the packets say. */
  ghost predicate Decodes(rows: seq<Vec>, pivots: seq<nat>, seen: seq<CodedPacket>, k: nat, s: nat) {
    && Reduced(rows, k + s, k, pivots) && AllSized(seen, k, s)
    && SpansWithin(Heads(rows, k + s, k), CoeffsOf(seen, k, s), k)
    && SpansWithin(CoeffsOf(seen, k, s), Heads(rows, k + s, k), k)
    && (forall x :: TrueOf(seen, k, s, x) ==> SolvedBy(rows, k, s, x))
  }

  /** What the rows make of a packet once its pivots are cleared. */
  function Residue(p: CodedPacket, rows: seq<Vec>, pivots: seq<nat>, k: nat, s: nat): (r: Vec)
    requires Reduced(rows, k + s, k, pivots) && Sized(p, k, s)
    ensures |r| == k + s
  {
    ClearedBy(p.coeffs + p.payload, rows, k + s, pivots, |rows|)
  }

  /** A packet adds nothing exactly when its coefficients are a combination of earlier ones. */
  lemma {:induction false} ResidueIsInnovation(p: CodedPacket, rows: seq<Vec>, pivots: seq<nat>, seen: seq<CodedPacket>,
                                               k: nat, s: nat)
    requires Decodes(rows, pivots, seen, k, s) && Sized(p, k, s)
    ensures InSpan(p.coeffs, CoeffsOf(seen, k, s), k) <==> Residue(p, rows, pivots, k, s)[..k] == Zeros(k)
  {
    hide InSpan, TrueOf, SolvedBy;
    var heads, coeffs := Heads(rows, k + s, k), CoeffsOf(seen, k, s);
    var row := p.coeffs + p.payload;
    assert row[..k] == p.coeffs;
    forall i | 0 <= i < |rows| ensures InSpan(rows[i][..k], coeffs, k) {
      assert InSpan(heads[i], coeffs, k);
    }
    ClearingKeepsSpan(row, rows, k + s, k, pivots, |rows|, coeffs);
    var r := Residue(p, rows, pivots, k, s);
    if r[..k] == Zeros(k) {
      SpanZeros(coeffs, k);
    }
    if InSpan(p.coeffs, coeffs, k) {
      SpanTransitive(r[..k], coeffs, heads, k);
      forall i | 0 <= i < |pivots| ensures r[..k][pivots[i]] == 0 {
        ClearsPivots(row, rows, k + s, k, pivots, |rows|, i);
      }
      ClearedInSpanIsZero(r[..k], rows, k + s, k, pivots);
    }
  }

  /** A packet that adds nothing leaves the rows a reduced form of all packets. */
  lemma {:induction false} DependentKeeps(p: CodedPacket, rows: seq<Vec>, pivots: seq<nat>, seen: seq<CodedPacket>,
                                          k: nat, s: nat)
    requires Decodes(rows, pivots, seen, k, s) && Sized(p, k, s) && InSpan(p.coeffs, CoeffsOf(seen, k, s), k)
    ensures Decodes(rows, pivots, seen + [p], k, s)
  {
    hide InSpan, SolvedBy, Reduced;
    assert Reduced(rows, k + s, k, pivots);
    ReducedShape(rows, k + s, k, pivots);
    var heads, coeffs, more := Heads(rows, k + s, k), CoeffsOf(seen, k, s), CoeffsOf(seen + [p], k, s);
    assert more == coeffs + [p.coeffs];
    forall i | 0 <= i < |heads| ensures InSpan(heads[i], more, k) {
      SpanGrows(heads[i], coeffs, p.coeffs, k);
    }
    SpanTransitive(p.coeffs, coeffs, heads, k);
    forall i | 0 <= i < |more| ensures InSpan(more[i], heads, k) {
      if i < |coeffs| {
        assert more[i] == coeffs[i];
      }
    }
    forall x | TrueOf(seen + [p], k, s, x) ensures SolvedBy(rows, k, s, x) {
      TruePrefix(seen, p, k, s, x);
    }
  }

  lemma {:induction false} ReducedShape(rows: seq<Vec>, m: nat, k: nat, pivots: seq<nat>)
    requires Reduced(rows, m, k, pivots)
    ensures Rectangular(rows, m) && k <= m
  {
  }

  lemma {:induction false} TruePrefix(seen: seq<CodedPacket>, p: CodedPacket, k: nat, s: nat, x: seq<Vec>)
    requires TrueOf(seen + [p], k, s, x)
    ensures TrueOf(seen, k, s, x) && Shape(x, k, s) && Sized(p, k, s) && p.payload == Comb(p.coeffs, x, s)
  {
    hide Comb;
    var all := seen + [p];
    assert all[|seen|] == p && forall i :: 0 <= i < |seen| ==> all[i] == seen[i];
  }

  /** An innovative packet: its residue, normalised at piv, becomes a new row. */
  lemma {:induction false} InnovativeExtends(p: CodedPacket, rows: seq<Vec>, pivots: seq<nat>, seen: seq<CodedPacket>,
                                             k: nat, s: nat,
                          piv: nat, row: Vec)
    requires Decodes(rows, pivots, seen, k, s) && Sized(p, k, s)
    requires piv < k && Residue(p, rows, pivots, k, s)[piv] != 0
    requires row == Scale(Inv(Residue(p, rows, pivots, k, s)[piv]), Residue(p, rows, pivots, k, s))
    ensures Decodes(Inserted(rows, k + s, row, piv), pivots + [piv], seen + [p], k, s)
  {
    hide InSpan, SolvedBy, Mul, Inv, TrueOf, Inserted;
    var m := k + s;
    var r, start := Residue(p, rows, pivots, k, s), p.coeffs + p.payload;
    MulInverse(r[piv]);
    forall i | 0 <= i < |pivots| ensures row[pivots[i]] == 0 {
      ClearsPivots(start, rows, m, k, pivots, |rows|, i);
      MulUnits(Inv(r[piv]));
    }
    InsertKeepsReduced(rows, m, k, pivots, row, piv);
    InnovativeSpans(p, rows, pivots, seen, k, s, piv, row);
    forall x | TrueOf(seen + [p], k, s, x) ensures SolvedBy(Inserted(rows, m, row, piv), k, s, x) {
      TruePrefix(seen, p, k, s, x);
      PacketSolved(p, k, s, x);
      ClearedStaysTrue(start, rows, pivots, k, s, |rows|, x);
      SolvedScale(Inv(r[piv]), r, k, s, x);
      InsertedStaysTrue(rows, k, s, row, piv, x);
    }
  }

  lemma {:induction false} PacketSolved(p: CodedPacket, k: nat, s: nat, x: seq<Vec>)
    requires Sized(p, k, s) && Shape(x, k, s) && p.payload == Comb(p.coeffs, x, s)
    ensures RowSolvedBy(p.coeffs + p.payload, k, s, x)
  {
    RowSolvedIffComb(p.coeffs, p.payload, k, s, x);
  }

  lemma {:induction false} InnovativeSpans(p: CodedPacket, rows: seq<Vec>, pivots: seq<nat>, seen: seq<CodedPacket>,
                                           k: nat, s: nat,
                        piv: nat, row: Vec)
    requires Decodes(rows, pivots, seen, k, s) && Sized(p, k, s)
    requires piv < k && Residue(p, rows, pivots, k, s)[piv] != 0
    requires row == Scale(Inv(Residue(p, rows, pivots, k, s)[piv]), Residue(p, rows, pivots, k, s))
    ensures SpansWithin(Heads(Inserted(rows, k + s, row, piv), k + s, k), CoeffsOf(seen + [p], k, s), k)
    ensures SpansWithin(CoeffsOf(seen + [p], k, s), Heads(Inserted(rows, k + s, row, piv), k + s, k), k)
  {
    hide InSpan, SolvedBy, Mul, Inv, TrueOf, Inserted, Scale;
    var m := k + s;
    var r, start := Residue(p, rows, pivots, k, s), p.coeffs + p.payload;
    var heads, coeffs, more := Heads(rows, m, k), CoeffsOf(seen, k, s), CoeffsOf(seen + [p], k, s);
    var next := Heads(Inserted(rows, m, row, piv), m, k);
    assert more == coeffs + [p.coeffs] && start[..k] == p.coeffs;
    HeadScale(Inv(r[piv]), r, k);
    // the new rows lie in the span of the packets
    forall i | 0 <= i < |heads| ensures InSpan(heads[i], more, k) {
      SpanGrows(heads[i], coeffs, p.coeffs, k);
    }
    SpanMember(more, k, |coeffs|);
    forall i | 0 <= i < |rows| ensures InSpan(rows[i][..k], more, k) {
      assert InSpan(heads[i], more, k);
    }
    ClearingKeepsSpan(start, rows, m, k, pivots, |rows|, more);
    SpanScale(Inv(r[piv]), r[..k], more, k);
    InsertedWithin(rows, m, k, row, piv, more);
    // the packets lie in the span of the new rows
    WithinInserted(rows, m, k, row, piv);
    MulInverse(r[piv]);
    SpanScale(r[piv], row[..k], next, k);
    ScaleBack(r[piv], r[..k]);
    forall i | 0 <= i < |rows| ensures InSpan(rows[i][..k], next, k) {
      assert InSpan(heads[i], next, k);
    }
    ClearingKeepsSpan(start, rows, m, k, pivots, |rows|, next);
    forall i | 0 <= i < |more| ensures InSpan(more[i], next, k) {
      if i < |coeffs| {
        assert more[i] == coeffs[i];
        SpanTransitive(coeffs[i], heads, next, k);
      }
    }
  }

  lemma {:induction false} HeadScale(a: bv8, u: Vec, k: nat)
    requires k <= |u|
    ensures Scale(a, u)[..k] == Scale(a, u[..k])
  {
    hide Mul;
  }

  lemma {:induction false} ScaleBack(a: bv8, u: Vec)
    requires a != 0
    ensures Scale(a, Scale(Inv(a), u)) == u
  {
    ScaleInverse(a, u, Scale(Inv(a), u));
  }

  /** Per-generation decoder. */
  class RlncDecoder {
    const k: nat
    const symbolSize: nat
    var rows: seq<Vec>
    var pivots: seq<nat>
    ghost var seen: seq<CodedPacket>

    ghost predicate Valid()
      reads this
    {
      Decodes(rows, pivots, seen, k, symbolSize)
    }

    constructor (k: nat, symbolSize: nat)
      ensures Valid() && this.k == k && this.symbolSize == symbolSize && rows == [] && seen == []
    {
      this.k, this.symbolSize, rows, pivots, seen := k, symbolSize, [], [], [];
    }

    /** Adds a packet; true exactly when its coefficients are not a combination of earlier ones. */
    method AddPacket(p: CodedPacket) returns (r: Result<bool, RlncError>)
      requires Valid()
      modifies this
      ensures Valid()
      ensures |p.coeffs| != k ==> r == Err(RlncError.SizeMismatch(k, |p.coeffs|))
      ensures |p.coeffs| == k && |p.payload| != symbolSize ==> r == Err(RlncError.SizeMismatch(symbolSize, |p.payload|))
      ensures r.Err? ==> rows == old(rows) && pivots == old(pivots) && seen == old(seen)
      ensures r.Ok? ==> seen == old(seen) + [p] && |rows| == |old(rows)| + if r.value then 1 else 0
      ensures r.Ok? ==> (r.value <==> !InSpan(p.coeffs, CoeffsOf(old(seen), k, symbolSize), k))
    {
      hide Decodes, InSpan, Axpy, Scale, Inv;
      if |p.coeffs| != k {
        return Err(RlncError.SizeMismatch(k, |p.coeffs|));
      }
      if |p.payload| != symbolSize {
        return Err(RlncError.SizeMismatch(symbolSize, |p.payload|));
      }
      var m := k + symbolSize;
      DecodesFacts(rows, pivots, seen, k, symbolSize);
      var row := ClearPivots(p.coeffs + p.payload, rows, m, pivots);
      ResidueIsInnovation(p, rows, pivots, seen, k, symbolSize);
      var piv := 0;
      while piv < k && row[piv] == 0
        invariant rows == old(rows) && pivots == old(pivots) && seen == old(seen)
        invariant piv <= k && forall c :: 0 <= c < piv ==> row[c] == 0
      {
        piv := piv + 1;
      }
      if piv == k {
        assert row[..k] == Zeros(k);
        DependentKeeps(p, rows, pivots, seen, k, symbolSize);
        seen := seen + [p];
        return Ok(false);
      }
      assert row[..k][piv] != 0;
      var normal := Scale(Inv(row[piv]), row);
      InnovativeExtends(p, rows, pivots, seen, k, symbolSize, piv, normal);
      var next := ClearAndAppend(rows, m, normal, piv);
      rows, pivots, seen := next, pivots + [piv], seen + [p];
      r := Ok(true);
    }

    /** Decodes once k innovative packets have arrived, in any order. */
    method Decode() returns (r: Result<seq<Vec>, RlncError>)
      requires Valid()
      ensures |rows| < k ==> r == Err(Insufficient(|rows|, k))
      ensures |rows| >= k ==> r.Ok? && forall x :: TrueOf(seen, k, symbolSize, x) ==> r == Ok(x)
    {
      if |rows| < k {
        return Err(Insufficient(|rows|, k));
      }
      DecodesFacts(rows, pivots, seen, k, symbolSize);
      FullPivots(rows, pivots, k, symbolSize);
      // every column is a pivot, so no place is left unfilled
      var out := PlaceByPivot(rows, pivots, k, symbolSize);
      r := Ok(out);
      forall x | TrueOf(seen, k, symbolSize, x) ensures out == x {
        FullSolution(rows, pivots, k, symbolSize, x, out);
      }
    }
  }

  /** Puts each row's symbol at its pivot. */
  method PlaceByPivot(rows: seq<Vec>, pivots: seq<nat>, k: nat, s: nat) returns (out: seq<Vec>)
    requires Reduced(rows, k + s, k, pivots)
    ensures |out| == k && forall j :: 0 <= j < |rows| ==> out[pivots[j]] == rows[j][k..]
  {
    out := seq(k, _ => Zeros(s));
    for i := 0 to |rows|
      invariant |out| == k && forall j :: 0 <= j < i ==> out[pivots[j]] == rows[j][k..]
    {
      forall j | 0 <= j < i ensures pivots[j] != pivots[i] {
        assert PivotOf(rows, k + s, j, pivots[j]) && PivotOf(rows, k + s, i, pivots[i]);
      }
      out := out[pivots[i] := rows[i][k..]];
    }
  }

  lemma {:induction false} FullSolution(rows: seq<Vec>, pivots: seq<nat>, k: nat, s: nat, x: seq<Vec>, out: seq<Vec>)
    requires Reduced(rows, k + s, k, pivots) && |rows| == k && SolvedBy(rows, k, s, x)
    requires forall c: nat :: c < k ==> c in pivots
    requires |out| == k && forall j :: 0 <= j < |rows| ==> out[pivots[j]] == rows[j][k..]
    ensures out == x
  {
    hide SolvedBy, Reduced;
    assert |x| == k by { SolvedShape(rows, k, s, x); }
    forall c: nat | c < k ensures out[c] == x[c] {
      assert c in pivots;
      var i :| 0 <= i < |pivots| && pivots[i] == c;
      ReducedCount(rows, k + s, k, pivots);
      FullRow(rows, pivots, k, s, i, x);
    }
  }

  lemma {:induction false} ReducedCount(rows: seq<Vec>, m: nat, k: nat, pivots: seq<nat>)
    requires Reduced(rows, m, k, pivots)
    ensures |pivots| == |rows|
  {
  }

  /** k or more reduced rows have every column as a pivot. */
  lemma {:induction false} FullPivots(rows: seq<Vec>, pivots: seq<nat>, k: nat, s: nat)
    requires Reduced(rows, k + s, k, pivots) && |rows| >= k
    ensures |rows| == k && forall c: nat :: c < k ==> c in pivots
  {
    forall i, j | 0 <= i < j < |pivots| ensures pivots[i] != pivots[j] {
      assert PivotOf(rows, k + s, i, pivots[i]) && PivotOf(rows, k + s, j, pivots[j]);
    }
    Pigeonhole(pivots, k);
  }

  /** With every column a pivot, row i says what source pivots[i] is. */
  lemma {:induction false} FullRow(rows: seq<Vec>, pivots: seq<nat>, k: nat, s: nat, i: nat, x: seq<Vec>)
    requires Reduced(rows, k + s, k, pivots) && |rows| == k && i < k && SolvedBy(rows, k, s, x)
    requires forall c: nat :: c < k ==> c in pivots
    ensures rows[i][k..] == x[pivots[i]]
  {
    hide Add, Mul;
    var p := pivots[i];
    assert PivotOf(rows, k + s, i, p);
    forall c: nat | c < k && c != p ensures rows[i][c] == 0 {
      assert c in pivots;
      var j :| 0 <= j < |pivots| && pivots[j] == c;
      assert PivotOf(rows, k + s, j, c);
    }
    assert RowSolvedBy(rows[i], k, s, x);
    forall t | 0 <= t < s ensures rows[i][k + t] == x[p][t] {
      DotToSingle(rows[i][..k], Column(x, s, t), p, k);
      MulUnits(x[p][t]);
    }
  }

  lemma {:induction false} DecodesFacts(rows: seq<Vec>, pivots: seq<nat>, seen: seq<CodedPacket>, k: nat, s: nat)
    requires Decodes(rows, pivots, seen, k, s)
    ensures Reduced(rows, k + s, k, pivots) && AllSized(seen, k, s)
  {
  }

  /** Reduces a row against the existing pivots. */
  method ClearPivots(start: Vec, rows: seq<Vec>, m: nat, pivots: seq<nat>) returns (row: Vec)
    requires |start| == m && Rectangular(rows, m) && |pivots| == |rows|
    requires forall i :: 0 <= i < |pivots| ==> pivots[i] < m
    ensures row == ClearedBy(start, rows, m, pivots, |rows|)
  {
    hide Axpy;
    row := start;
    for i := 0 to |rows|
      invariant row == ClearedBy(start, rows, m, pivots, i)
    {
      var piv := pivots[i];
      assert ClearedBy(start, rows, m, pivots, i + 1) == Axpy(row[piv], rows[i], row);
      if row[piv] != 0 {
        row := Axpy(row[piv], rows[i], row);
      } else {
        AxpyZero(rows[i], row);
      }
    }
  }

  /** Eliminates the new pivot column from every row and appends the new row. */
  method ClearAndAppend(rows: seq<Vec>, m: nat, row: Vec, piv: nat) returns (next: seq<Vec>)
    requires Rectangular(rows, m) && |row| == m && piv < m
    ensures next == Inserted(rows, m, row, piv)
  {
    hide Axpy;
    next := rows;
    for e := 0 to |rows|
      invariant |next| == |rows|
      invariant forall i :: 0 <= i < |rows| ==> next[i] == if i < e then Axpy(rows[i][piv], row, rows[i]) else rows[i]
    {
      if next[e][piv] != 0 {
        next := next[e := Axpy(next[e][piv], row, next[e])];
      } else {
        AxpyZero(row, next[e]);
      }
    }
    next := next + [row];
  }

  // -------------------------------------------------------------------- sparse packets

  /** The sources with a nonzero coefficient. */
  function Support(coeffs: Vec): (s: set<nat>)
    ensures forall j: nat :: j in s <==> j < |coeffs| && coeffs[j] != 0
  {
    set j: nat | j < |coeffs| && coeffs[j] != 0
  }

  function Supports(packets: seq<CodedPacket>): (sets: seq<set<nat>>)
    ensures |sets| == |packets| && forall i :: 0 <= i < |packets| ==> sets[i] == Support(packets[i].coeffs)
  {
    seq(|packets|, i requires 0 <= i < |packets| => Support(packets[i].coeffs))
  }

  /** The nonzero coefficients of a dense row. */
  method SparseCover(coeffs: Vec) returns (cover: map<nat, bv8>)
    ensures CoverOk(cover, |coeffs|) && Dense(cover, |coeffs|) == coeffs && cover.Keys == Support(coeffs)
    ensures |cover| == 0 ==> coeffs == Zeros(|coeffs|)
  {
    cover := map[];
    for idx := 0 to |coeffs|
      invariant CoverOk(cover, |coeffs|)
      invariant forall i: nat :: i in cover <==> i < idx && coeffs[i] != 0
      invariant forall i: nat :: i in cover ==> cover[i] == coeffs[i]
    {
      if coeffs[idx] != 0 {
        cover := cover[idx := coeffs[idx]];
      }
    }
    if |cover| == 0 {
      assert cover == map[];
      forall i: nat | i < |coeffs| ensures coeffs[i] == 0 {
        assert i !in cover;
      }
    }
  }

  /**
    Decodes sparse packets with the peeling decoder; packets without coefficients say
    nothing.  Packets without bytes are decoded exactly if nothing stops the peeling.
   */
  method SparseDecode(packets: seq<CodedPacket>, k: nat, s: nat, width: nat) returns (r: Result<seq<Vec>, RlncError>)
    requires AllSized(packets, k, s)
    ensures r.Err? ==> r.error.Insufficient?
    ensures s > 0 ==> forall x :: TrueOf(packets, k, s, x) ==>
      r == Ok(x) || (r.Err? && exists y :: y != x && TrueOf(packets, k, s, y))
    ensures s == 0 ==> if Peelable(Supports(packets), k) then r == Ok(Empties(k)) else r.Err?
  {
    hide Comb, Dense, SameStops, Peelable, Support;
    var syms: seq<ParsedSym> := [];
    NothingStops(k);
    for i := 0 to |packets|
      invariant Fresh(syms, k, s)
      invariant SaysTheSame(packets[..i], syms, k, s)
      invariant SameStops(Supports(packets[..i]), CoverSets(syms), k)
    {
      var cover := SparseCover(packets[i].coeffs);
      ghost var before := syms;
      if |cover| > 0 {
        syms := syms + [ParsedSym(cover, packets[i].payload)];
      }
      assert packets[..i + 1] == packets[..i] + [packets[i]];
      SparseStepAll(packets[..i], packets[i], before, cover, k, s);
      SupportsSnoc(packets[..i], packets[i], before, cover, k);
    }
    assert packets[..|packets|] == packets;
    SamePeelable(Supports(packets), CoverSets(syms), k);
    var work := new ParsedSym[|syms|](i requires 0 <= i < |syms| => syms[i]);
    assert work[..] == syms;
    if s > 0 {
      FreshIsHeld(syms, k, s);
    }
    var d := PeelSymbols(work, k, s, width);
    match d {
      case Ok(out) => r := Ok(out);
      case Err(e) => r := Err(Insufficient(e.have, e.need));
    }
    forall x | s > 0 && TrueOf(packets, k, s, x)
      ensures r == Ok(x) || (r.Err? && exists y :: y != x && TrueOf(packets, k, s, y))
    {
      assert ExplainsAll(x, syms, k, s);
      if d.Err? {
        var y :| y != x && ExplainsAll(y, syms, k, s);
        assert TrueOf(packets, k, s, y);
      }
    }
  }

  lemma {:induction false} NothingStops(k: nat)
    ensures SameStops(Supports([]), CoverSets([]), k)
  {
  }

  /** A packet adds its support, or nothing if it is empty. */
  lemma {:induction false} SupportsSnoc(seen: seq<CodedPacket>, p: CodedPacket, syms: seq<ParsedSym>,
                                        cover: map<nat, bv8>, k: nat)
    requires SameStops(Supports(seen), CoverSets(syms), k) && cover.Keys == Support(p.coeffs)
    ensures SameStops(Supports(seen + [p]),
                      CoverSets(if |cover| > 0 then syms + [ParsedSym(cover, p.payload)] else syms), k)
  {
    hide Support, SameStops;
    var set0 := Support(p.coeffs);
    StopsSnoc(Supports(seen), CoverSets(syms), k, set0);
    assert Supports(seen + [p]) == Supports(seen) + [set0];
    if |cover| > 0 {
      assert CoverSets(syms + [ParsedSym(cover, p.payload)]) == CoverSets(syms) + [set0];
    } else {
      assert |cover.Keys| == |cover|;
      EmptyStops(CoverSets(syms), k);
      SameStopsBoth(Supports(seen + [p]), CoverSets(syms) + [{}], CoverSets(syms), k);
    }
  }

  /** Once some x is true of the packets, the symbols say exactly what the packets say. */
  ghost predicate SaysTheSame(seen: seq<CodedPacket>, syms: seq<ParsedSym>, k: nat, s: nat) {
    (exists x :: TrueOf(seen, k, s, x)) ==>
      forall y :: Shape(y, k, s) ==> (TrueOf(seen, k, s, y) <==> ExplainsAll(y, syms, k, s))
  }

  lemma {:induction false} SparseStepAll(seen: seq<CodedPacket>, p: CodedPacket, syms: seq<ParsedSym>,
                                         cover: map<nat, bv8>, k: nat, s: nat)
    requires AllSized(seen, k, s) && Sized(p, k, s) && Dense(cover, k) == p.coeffs
    requires |cover| == 0 ==> p.coeffs == Zeros(k)
    requires SaysTheSame(seen, syms, k, s)
    ensures SaysTheSame(seen + [p], if |cover| > 0 then syms + [ParsedSym(cover, p.payload)] else syms, k, s)
  {
    hide TrueOf, ExplainsAll;
    if x :| TrueOf(seen + [p], k, s, x) {
      TruePrefix(seen, p, k, s, x);
      forall y | Shape(y, k, s)
        ensures TrueOf(seen + [p], k, s, y) <==>
                ExplainsAll(y, if |cover| > 0 then syms + [ParsedSym(cover, p.payload)] else syms, k, s)
      {
        SparseStep(seen, p, syms, cover, k, s, x, y);
      }
    }
  }

  lemma {:induction false} SparseStep(seen: seq<CodedPacket>, p: CodedPacket, syms: seq<ParsedSym>,
                                      cover: map<nat, bv8>, k: nat, s: nat, x: seq<Vec>, y: seq<Vec>)
    requires AllSized(seen, k, s) && Sized(p, k, s) && Dense(cover, k) == p.coeffs
    requires |cover| == 0 ==> p.coeffs == Zeros(k)
    requires TrueOf(seen + [p], k, s, x) && Shape(y, k, s)
    requires SaysTheSame(seen, syms, k, s)
    ensures TrueOf(seen + [p], k, s, y) <==>
            ExplainsAll(y, if |cover| > 0 then syms + [ParsedSym(cover, p.payload)] else syms, k, s)
  {
    hide Comb, Dense;
    TruePrefix(seen, p, k, s, x);
    var all := seen + [p];
    assert all[|seen|] == p && forall i :: 0 <= i < |seen| ==> all[i] == seen[i];
    assert TrueOf(all, k, s, y) <==> TrueOf(seen, k, s, y) && p.payload == Comb(p.coeffs, y, s) by {
      if TrueOf(all, k, s, y) {
        TruePrefix(seen, p, k, s, y);
      }
    }
    if |cover| > 0 {
      var sym := ParsedSym(cover, p.payload);
      var more := syms + [sym];
      assert more[|syms|] == sym && forall i :: 0 <= i < |syms| ==> more[i] == syms[i];
      assert ExplainsAll(y, more, k, s) <==> ExplainsAll(y, syms, k, s) && Explains(y, sym, k, s);
    } else {
      assert p.coeffs == Zeros(k);
      CombZero(x, s, k);
      CombZero(y, s, k);
      assert Comb(p.coeffs, x, s) == Comb(p.coeffs, y, s) by {
        CombIsCombTo(p.coeffs, x, s);
        CombIsCombTo(p.coeffs, y, s);
      }
    }
  }
}
