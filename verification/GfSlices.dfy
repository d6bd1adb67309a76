/**
  The in-place byte-slice operations of `crates/coding/src/gf256.rs`:
  `gf_axpy_slice`, `gf_scal_slice` and the row exchange of the elimination.  The
  vector kernels multiply through two 16-entry nibble tables, as many whole lanes
  at a time as fit; the scalar tail reads the multiply table.
 */
module GfSlices {
  import opened Gf256
  import opened Bytes
  import opened GfLinear

  /** s with the stretch starting at `off` replaced by v. */
  function Splice(s: Vec, off: nat, v: Vec): (r: Vec)
    requires off + |v| <= |s|
    ensures |r| == |s|
    ensures forall i :: 0 <= i < |s| ==> r[i] == if off <= i < off + |v| then v[i - off] else s[i]
  {
    s[..off] + v + s[off + |v|..]
  }

  /** The 32-byte table of `mul_nibble_tables`: a times each low nibble, then each high nibble. */
  function NibbleTables(a: bv8): (t: Vec)
    ensures |t| == 32
  {
    seq(32, i requires 0 <= i < 32 =>
      if i < 16 then Mul(a, ByteAt(i)) else Mul(a, ByteAt(16 * (i - 16))))
  }

  function LowNibble(x: bv8): (i: nat)
    ensures i < 16
  {
    LowBits(x & 0x0f);
    Index(x & 0x0f)
  }

  function HighNibble(x: bv8): (i: nat)
    ensures i < 16
  {
    LowBits(x >> 4);
    Index(x >> 4)
  }

  lemma {:induction false} LowBits(b: bv8)
    requires b < 16
    ensures Index(b) < 16
  {
  }

  /** Shifting up by four bits is multiplying by sixteen. */
  lemma {:induction false} ShiftedIndex(x: bv8)
    ensures Index(x & 0xf0) == 16 * Index(x >> 4)
  {
  }

  lemma {:induction false} NibblesOf(x: bv8)
    ensures (x & 0x0f) ^ (x & 0xf0) == x
  {
  }

  lemma {:induction false} NibbleSplit(x: bv8)
    ensures Add(ByteAt(LowNibble(x)), ByteAt(16 * HighNibble(x))) == x
  {
    hide Index, ByteAt;
    ShiftedIndex(x);
    ByteOfIndex(x & 0x0f);
    ByteOfIndex(x & 0xf0);
    NibblesOf(x);
  }

  /** Two nibble lookups make one product. */
  lemma {:induction false} NibbleProduct(a: bv8, x: bv8)
    ensures
      var t := NibbleTables(a);
      Add(t[LowNibble(x)], t[16 + HighNibble(x)]) == Mul(a, x)
  {
    hide Add, Mul, ByteAt, LowNibble, HighNibble;
    NibbleSplit(x);
    MulDistributes(ByteAt(LowNibble(x)), ByteAt(16 * HighNibble(x)), a);
  }

  /** The bytes of a slice that a vector kernel of this width covers. */
  function WholeLanes(n: nat, width: nat): (i: nat)
    ensures i <= n
  {
    if width == 0 then 0 else n - n % width
  }

  /** `dst[off + i] ^= a * src[i]`; width is the vector width found at run time, 0 for none. */
  method AxpySlice(a: bv8, src: Vec, dst: array<bv8>, off: nat, width: nat)
    requires off + |src| <= dst.Length
    modifies dst
    ensures dst[..] == Splice(old(dst[..]), off, Axpy(a, src, old(dst[off..off + |src|])))
  {
    hide Add, Mul, LowNibble, HighNibble, NibbleTables;
    var n := |src|;
    ghost var was := dst[off..off + n];
    if a == 0 || n == 0 {
      AxpyZero(src, was);
      return;
    }
    if a == 1 {
      for i := 0 to n
        invariant forall j :: 0 <= j < dst.Length ==>
          dst[j] == if off <= j < off + i then Add(old(dst[j]), Mul(a, src[j - off])) else old(dst[j])
      {
        MulUnits(src[i]);
        dst[off + i] := Add(dst[off + i], src[i]);
      }
      return;
    }
    var tables := NibbleTables(a);
    var whole := WholeLanes(n, width);
    for i := 0 to whole
      invariant forall j :: 0 <= j < dst.Length ==>
        dst[j] == if off <= j < off + i then Add(old(dst[j]), Mul(a, src[j - off])) else old(dst[j])
    {
      NibbleProduct(a, src[i]);
      dst[off + i] := Add(dst[off + i], Add(tables[LowNibble(src[i])], tables[16 + HighNibble(src[i])]));
    }
    for i := whole to n
      invariant forall j :: 0 <= j < dst.Length ==>
        dst[j] == if off <= j < off + i then Add(old(dst[j]), Mul(a, src[j - off])) else old(dst[j])
    {
      dst[off + i] := Add(dst[off + i], Mul(a, src[i]));
    }
    ghost var made := Splice(old(dst[..]), off, Axpy(a, src, was));
    assert forall j :: 0 <= j < dst.Length ==> dst[j] == made[j];
  }

  /** `dst[off + i] = a * dst[off + i]` for the n bytes from `off`. */
  method ScalSlice(a: bv8, dst: array<bv8>, off: nat, n: nat, width: nat)
    requires off + n <= dst.Length
    modifies dst
    ensures dst[..] == Splice(old(dst[..]), off, Scale(a, old(dst[off..off + n])))
  {
    hide Add, Mul, LowNibble, HighNibble, NibbleTables;
    ghost var was := dst[off..off + n];
    if n == 0 {
      return;
    }
    if a == 0 {
      for i := 0 to n
        invariant forall j :: 0 <= j < dst.Length ==>
          dst[j] == if off <= j < off + i then Mul(a, old(dst[j])) else old(dst[j])
      {
        MulUnits(was[i]);
        dst[off + i] := 0;
      }
      return;
    }
    if a == 1 {
      ScaleOne(was);
      return;
    }
    var tables := NibbleTables(a);
    var whole := WholeLanes(n, width);
    for i := 0 to whole
      invariant forall j :: 0 <= j < dst.Length ==>
        dst[j] == if off <= j < off + i then Mul(a, old(dst[j])) else old(dst[j])
    {
      NibbleProduct(a, dst[off + i]);
      dst[off + i] := Add(tables[LowNibble(dst[off + i])], tables[16 + HighNibble(dst[off + i])]);
    }
    for i := whole to n
      invariant forall j :: 0 <= j < dst.Length ==>
        dst[j] == if off <= j < off + i then Mul(a, old(dst[j])) else old(dst[j])
    {
      dst[off + i] := Mul(a, dst[off + i]);
    }
    ghost var made := Splice(old(dst[..]), off, Scale(a, was));
    assert forall j :: 0 <= j < dst.Length ==> dst[j] == made[j];
  }

  /** Exchanges the n bytes at `lo` with the n bytes at `hi`. */
  method SwapSlices(dst: array<bv8>, lo: nat, hi: nat, n: nat)
    requires lo + n <= hi && hi + n <= dst.Length
    modifies dst
    ensures dst[..] == Splice(Splice(old(dst[..]), lo, old(dst[hi..hi + n])), hi, old(dst[lo..lo + n]))
  {
    ghost var a, b := dst[lo..lo + n], dst[hi..hi + n];
    for i := 0 to n
      invariant forall j :: 0 <= j < dst.Length ==>
        dst[j] == if lo <= j < lo + i then b[j - lo] else if hi <= j < hi + i then a[j - hi] else old(dst[j])
    {
      dst[lo + i], dst[hi + i] := dst[hi + i], dst[lo + i];
    }
  }

  // ------------------------------------------------------------ a buffer as rows

  /** Where row r starts: r * m. */
  function Offset(r: nat, m: nat): nat {
    if r == 0 then 0 else Offset(r - 1, m) + m
  }

  lemma {:induction false} OffsetIsProduct(r: nat, m: nat)
    ensures Offset(r, m) == r * m
  {
    if r > 0 {
      OffsetIsProduct(r - 1, m);
    }
  }

  lemma {:induction false} RowFits(r: nat, m: nat, n: nat)
    requires r < n
    ensures Offset(r, m) + m <= Offset(n, m)
  {
    if r < n - 1 {
      RowFits(r, m, n - 1);
    }
  }

  function RowAt(s: Vec, m: nat, n: nat, r: nat): (row: Vec)
    requires Offset(n, m) <= |s| && r < n
    ensures |row| == m
  {
    RowFits(r, m, n);
    s[Offset(r, m)..Offset(r, m) + m]
  }

  /** The first n rows of m bytes of a row-major buffer. */
  function RowsOf(s: Vec, m: nat, n: nat): (rows: seq<Vec>)
    requires Offset(n, m) <= |s|
    ensures |rows| == n && Rectangular(rows, m)
  {
    seq(n, r requires 0 <= r < n => RowAt(s, m, n, r))
  }

  lemma {:induction false} RowOf(s: Vec, m: nat, n: nat, r: nat)
    requires Offset(n, m) <= |s| && r < n
    ensures Offset(r, m) + m <= |s|
    ensures RowsOf(s, m, n)[r] == s[Offset(r, m)..Offset(r, m) + m]
  {
    hide Offset;
    RowFits(r, m, n);
  }

  /** Writing one row's stretch of the buffer replaces that row and no other. */
  lemma {:induction false} SpliceRow(s: Vec, m: nat, n: nat, r: nat, v: Vec)
    requires Offset(n, m) <= |s| && r < n && |v| == m && Offset(r, m) + m <= |s|
    ensures RowsOf(Splice(s, Offset(r, m), v), m, n) == RowsOf(s, m, n)[r := v]
  {
    hide Offset, Splice, RowsOf;
    var t := Splice(s, Offset(r, m), v);
    forall i | 0 <= i < n ensures RowsOf(t, m, n)[i] == RowsOf(s, m, n)[r := v][i] {
      RowOf(s, m, n, i);
      RowOf(t, m, n, i);
      if i < r {
        RowFits(i, m, r);
      } else if i > r {
        RowFits(r, m, i);
      }
    }
  }

  lemma {:induction false} FlatLength(rows: seq<Vec>, m: nat)
    requires Rectangular(rows, m)
    ensures |Flat(rows)| == Offset(|rows|, m)
  {
    if rows != [] {
      FlatLength(rows[..|rows| - 1], m);
    }
  }

  lemma {:induction false} FlatRow(rows: seq<Vec>, m: nat, r: nat)
    requires Rectangular(rows, m) && r < |rows|
    ensures Offset(r, m) + m <= |Flat(rows)|
    ensures Flat(rows)[Offset(r, m)..Offset(r, m) + m] == rows[r]
  {
    var n := |rows| - 1;
    FlatLength(rows, m);
    FlatLength(rows[..n], m);
    RowFits(r, m, |rows|);
    if r < n {
      RowFits(r, m, n);
      FlatRow(rows[..n], m, r);
    }
  }

  lemma {:induction false} RowsOfFlat(rows: seq<Vec>, m: nat)
    requires Rectangular(rows, m)
    ensures Offset(|rows|, m) == |Flat(rows)|
    ensures RowsOf(Flat(rows), m, |rows|) == rows
  {
    hide Offset, RowsOf, Flat;
    FlatLength(rows, m);
    forall r | 0 <= r < |rows| ensures RowsOf(Flat(rows), m, |rows|)[r] == rows[r] {
      FlatRow(rows, m, r);
      RowOf(Flat(rows), m, |rows|, r);
    }
  }

  lemma {:induction false} FlatCount(rows: seq<Vec>, m: nat)
    requires Rectangular(rows, m) && m > 0
    ensures |Flat(rows)| / m == |rows|
  {
    FlatLength(rows, m);
    OffsetIsProduct(|rows|, m);
    QuotientOfProduct(|rows|, m);
  }

  lemma {:induction false} QuotientOfProduct(n: nat, m: nat)
    requires m > 0
    ensures (n * m) / m == n
  {
    var q, r := (n * m) / m, (n * m) % m;
    assert (n - q) * m == r;
    ProductGap(n - q, m);
  }

  lemma {:induction false} ProductGap(d: int, m: nat)
    requires 0 <= d * m < m
    ensures d == 0
  {
  }
}

