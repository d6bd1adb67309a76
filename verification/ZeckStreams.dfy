/** The packed form of Fibonacci codewords: bits in bytes, lowest first (`crates/coding/src/zeckendorf.rs`). */
module ZeckStreams {
  import opened Bytes
  import opened Results
  import opened GfLinear
  import opened Zeckendorf

  // ------------------------------------------------------------------------------- bits

  function Mask(k: nat): bv8
    requires k < 8
  {
    if k == 0 then 1 else if k == 1 then 2 else if k == 2 then 4 else if k == 3 then 8
    else if k == 4 then 16 else if k == 5 then 32 else if k == 6 then 64 else 128
  }

  function BitOf(b: bv8, k: nat): bool
    requires k < 8
  {
    b & Mask(k) != 0
  }

  /** Bit i of the buffer; reads beyond its end are zero. */
  function BitAt(buf: Bytes, i: nat): bool { i / 8 < |buf| && BitOf(buf[i / 8], i % 8) }

  function WithBit(buf: Bytes, i: nat): (r: Bytes)
    requires i < 8 * |buf|
    ensures |r| == |buf|
  {
    buf[i / 8 := buf[i / 8] | Mask(i % 8)]
  }

  lemma {:induction false} BitSet(b: bv8, k: nat, j: nat)
    requires k < 8 && j < 8
    ensures BitOf(b | Mask(k), j) == (k == j || BitOf(b, j))
  {
    assert (b | Mask(k)) & Mask(j) == (b & Mask(j)) | (Mask(k) & Mask(j));
    Masks(k, j);
  }

  lemma {:induction false} Masks(k: nat, j: nat)
    requires k < 8 && j < 8
    ensures Mask(k) & Mask(j) == if k == j then Mask(k) else 0
    ensures Mask(k) != 0
  {
  }

  lemma {:induction false} WithBitAt(buf: Bytes, i: nat, j: nat)
    requires i < 8 * |buf|
    ensures BitAt(WithBit(buf, i), j) == (j == i || BitAt(buf, j))
  {
    hide BitOf, Mask;
    if j / 8 == i / 8 {
      BitSet(buf[i / 8], i % 8, j % 8);
    }
  }

  lemma {:induction false} ZeroBits(k: nat)
    requires k < 8
    ensures !BitOf(0, k)
  {
  }

  /** A byte without bits is zero. */
  lemma {:induction false} NoBits(b: bv8)
    requires forall k :: 0 <= k < 8 ==> !BitOf(b, k)
    ensures b == 0
  {
    assert !BitOf(b, 0) && !BitOf(b, 1) && !BitOf(b, 2) && !BitOf(b, 3);
    assert !BitOf(b, 4) && !BitOf(b, 5) && !BitOf(b, 6) && !BitOf(b, 7);
  }

  /** The buffer holds exactly these bits, and zeros behind them in its last byte. */
  ghost predicate Packs(buf: Bytes, s: seq<bool>) {
    && |buf| == (|s| + 7) / 8
    && forall i: nat :: BitAt(buf, i) == (i < |s| && s[i])
  }

  /** The buffer's bits are these, and zeros behind them. */
  ghost predicate Shows(buf: Bytes, s: seq<bool>) { forall i: nat :: BitAt(buf, i) == (i < |s| && s[i]) }

  function Falses(n: nat): (s: seq<bool>)
    ensures |s| == n && forall i :: 0 <= i < n ==> !s[i]
  {
    seq(n, _ => false)
  }

  lemma {:induction false} ShowsZeros(n: nat, m: nat)
    ensures Shows(Zeros(n), Falses(m))
  {
    hide BitAt;
    ZeroBuffer(n);
  }

  /** Filling in bit i, all lower bits being zero. */
  lemma {:induction false} ShowsFilled(buf: Bytes, i: nat, high: seq<bool>, bit: bool)
    requires i < 8 * |buf| && Shows(buf, Falses(i + 1) + high)
    ensures Shows(if bit then WithBit(buf, i) else buf, Falses(i) + ([bit] + high))
  {
    hide BitAt, WithBit;
    var s, t := Falses(i + 1) + high, Falses(i) + ([bit] + high);
    assert forall j: nat :: j < |s| && j != i ==> t[j] == s[j];
    if bit {
      SetInto(buf, WithBit(buf, i), i);
    }
  }

  /** Adding a bit behind the others. */
  lemma {:induction false} ShowsSnoc(buf: Bytes, s: seq<bool>, bit: bool)
    requires |s| < 8 * |buf| && Shows(buf, s)
    ensures Shows(if bit then WithBit(buf, |s|) else buf, s + [bit])
  {
    hide BitAt, WithBit;
    if bit {
      SetInto(buf, WithBit(buf, |s|), |s|);
    }
  }

  /** All bits of the buffer, padding included. */
  function Unpacked(buf: Bytes): (bits: seq<bool>)
    ensures |bits| == 8 * |buf| && forall i: nat :: i < |bits| ==> bits[i] == BitAt(buf, i)
  {
    seq(8 * |buf|, i requires 0 <= i < 8 * |buf| => BitAt(buf, i))
  }

  lemma {:induction false} ZeroBuffer(n: nat)
    ensures forall i: nat :: !BitAt(Zeros(n), i)
  {
    hide BitOf;
    forall i: nat ensures !BitAt(Zeros(n), i) {
      ZeroBits(i % 8);
    }
  }

  lemma {:induction false} GrownBuffer(buf: Bytes, n: nat)
    ensures forall i: nat :: BitAt(buf + Zeros(n), i) == BitAt(buf, i)
  {
    hide BitOf;
    forall i: nat ensures BitAt(buf + Zeros(n), i) == BitAt(buf, i) {
      ZeroBits(i % 8);
    }
  }

  // --------------------------------------------------------------------------- encoding

  lemma {:induction false} GreedyStep(rem: nat, idx: nat)
    requires idx > 0
    ensures Greedy(rem, idx) ==
      if Fib(idx - 1) <= rem then Greedy(rem - Fib(idx - 1), idx - 1) + [true] else Greedy(rem, idx - 1) + [false]
  {
    hide Fib;
  }

  /** How many table entries are at most n. */
  method CountFibs(fibs: seq<nat>, n: nat) returns (hi: nat)
    requires |fibs| == TABLE && (forall i :: 0 <= i < TABLE ==> fibs[i] == Fib(i)) && n <= U64_MAX
    ensures hi == Hi(n) <= TABLE
  {
    hide Fib;
    hi := 0;
    while hi < |fibs| && fibs[hi] <= n
      invariant hi <= TABLE && (hi > 0 ==> Fib(hi - 1) <= n)
    {
      hi := hi + 1;
    }
    if hi == TABLE {
      LargestFibs();
    }
    HiUnique(n, hi);
  }

  /** Writes the greedy decomposition and the terminator into a packed buffer. */
  method ZeckEncode(n: nat) returns (out: Bytes)
    requires 0 < n <= U64_MAX
    ensures Packs(out, Codeword(n))
  {
    hide Fib, Greedy, Shows, WithBit, Falses, BitAt;
    var fibs := FibTable();
    var hi := CountFibs(fibs, n);
    out := Zeros((hi + 1 + 7) / 8);
    ShowsZeros((hi + 1 + 7) / 8, hi);
    var rem: nat, idx: nat := n, hi;
    ghost var high: seq<bool> := [];
    ghost var data := Greedy(n, hi);
    assert data + [] == data && Falses(hi) + [] == Falses(hi);
    while idx > 0
      invariant idx <= hi && |out| == (hi + 1 + 7) / 8 && |high| == hi - idx
      invariant data == Greedy(rem, idx) + high && Shows(out, Falses(idx) + high)
    {
      idx := idx - 1;
      GreedyStep(rem, idx + 1);
      ghost var bit := fibs[idx] <= rem;
      ShowsFilled(out, idx, high, bit);
      Regroup(Greedy(if bit then rem - fibs[idx] else rem, idx), bit, high);
      if fibs[idx] <= rem {
        out := WithBit(out, idx);
        rem := rem - fibs[idx];
      }
      high := [bit] + high;
    }
    NoGreedy(rem);
    assert data == high && Falses(0) + high == high;
    ShowsSnoc(out, data, true);
    out := WithBit(out, hi);
    ShowsPacks(out, Codeword(n));
  }

  lemma {:induction false} Regroup(a: seq<bool>, x: bool, b: seq<bool>)
    ensures a + [x] + b == a + ([x] + b)
  {
  }

  lemma {:induction false} ShowsPacks(buf: Bytes, s: seq<bool>)
    ensures Shows(buf, s) && |buf| == (|s| + 7) / 8 <==> Packs(buf, s)
  {
    hide BitAt;
  }

  lemma {:induction false} NoGreedy(rem: nat)
    ensures Greedy(rem, 0) == []
  {
  }

  lemma {:induction false} SetInto(buf: Bytes, out: Bytes, i: nat)
    requires i < 8 * |buf| && out == WithBit(buf, i)
    ensures forall j: nat :: BitAt(out, j) == (j == i || BitAt(buf, j))
  {
    hide BitAt, WithBit;
    forall j: nat ensures BitAt(out, j) == (j == i || BitAt(buf, j)) {
      WithBitAt(buf, i, j);
    }
  }

  /** The index of the highest set bit, plus one. */
  method CodewordBits(cw: Bytes) returns (nbits: nat)
    ensures forall i: nat :: i >= nbits ==> !BitAt(cw, i)
    ensures nbits > 0 ==> BitAt(cw, nbits - 1)
  {
    hide BitOf;
    var bi := |cw|;
    while bi > 0
      invariant bi <= |cw| && forall i: nat :: i >= 8 * bi ==> !BitAt(cw, i)
    {
      bi := bi - 1;
      if cw[bi] != 0 {
        var k := 8;
        while k > 0
          invariant 0 <= k <= 8 && bi < |cw| && forall i: nat :: i >= 8 * bi + k ==> !BitAt(cw, i)
        {
          k := k - 1;
          assert (8 * bi + k) / 8 == bi && (8 * bi + k) % 8 == k;
          if BitOf(cw[bi], k) {
            return 8 * bi + k + 1;
          }
        }
        forall j | 0 <= j < 8 ensures !BitOf(cw[bi], j) {
          assert !BitAt(cw, 8 * bi + j);
          assert (8 * bi + j) / 8 == bi && (8 * bi + j) % 8 == j;
        }
        NoBits(cw[bi]);
        assert false;
      } else {
        ByteEmpty(cw, bi);
      }
    }
    nbits := 0;
  }

  lemma {:induction false} ByteEmpty(cw: Bytes, bi: nat)
    requires bi < |cw| && cw[bi] == 0
    ensures forall i: nat :: 8 * bi <= i < 8 * bi + 8 ==> !BitAt(cw, i)
  {
    hide BitOf;
    forall i: nat | 8 * bi <= i < 8 * bi + 8 ensures !BitAt(cw, i) {
      ZeroBits(i % 8);
    }
  }

  // --------------------------------------------------------------------------- decoding

  lemma {:induction false} ScanStep(bits: seq<bool>, i: nat)
    ensures Scan(bits, i) ==
      if i >= |bits| then None
      else if bits[i] && i + 1 < |bits| && bits[i + 1] then Some(i)
      else Scan(bits, i + 1)
  {
  }

  /** Adds up the Fibonacci numbers of the data bits. */
  method SumData(buf: Bytes, start: nat, term: nat) returns (val: nat)
    requires start <= term <= 8 * |buf|
    ensures val == WrappedValue(Unpacked(buf)[start..term])
  {
    hide BitAt, Fib;
    var fibs := FibTable();
    val := 0;
    ghost var data := Unpacked(buf)[start..term];
    for j := start to term
      invariant val == WrappedValue(data[..j - start])
    {
      assert data[..j - start + 1][..j - start] == data[..j - start];
      if BitAt(buf, j) && j - start < |fibs| {
        val := (val + fibs[j - start]) % (U64_MAX + 1);
      }
    }
    assert data[..term - start] == data;
  }

  lemma {:induction false} InBuffer(buf: Bytes, i: nat)
    ensures i / 8 >= |buf| <==> i >= 8 * |buf|
    ensures i >= 8 * |buf| ==> !BitAt(buf, i)
  {
  }

  /** Reads one codeword from bit `start`. */
  method DecodeCodeword(buf: Bytes, start: nat) returns (r: Option<(nat, nat)>)
    ensures r == DecodeAt(Unpacked(buf), start)
  {
    hide BitAt, WrappedValue, Scan;
    ghost var bits := Unpacked(buf);
    var i := start;
    while true
      invariant i >= start && Scan(bits, i) == Scan(bits, start)
      decreases |bits| - i
    {
      ScanStep(bits, i);
      InBuffer(buf, i);
      InBuffer(buf, i + 1);
      if i / 8 >= |buf| {
        return None;
      }
      if BitAt(buf, i) && BitAt(buf, i + 1) {
        var term := i + 1;
        var val := SumData(buf, start, term);
        return Some((val, term + 1 - start));
      }
      i := i + 1;
    }
  }

  /** Reads codewords until none is left. */
  method DecodeAll(buf: Bytes) returns (out: seq<nat>)
    ensures out == DecodeFrom(Unpacked(buf), 0)
  {
    hide DecodeAt, Unpacked, DecodeFrom, Unshift;
    ghost var bits := Unpacked(buf);
    out := [];
    var i := 0;
    assert [] + DecodeFrom(bits, 0) == DecodeFrom(bits, 0);
    while true
      invariant DecodeFrom(bits, 0) == out + DecodeFrom(bits, i)
      decreases |bits| - i
    {
      var r := DecodeCodeword(buf, i);
      if r.None? {
        DecodeEnd(bits, i);
        assert out + [] == out;
        return;
      }
      DecodeNext(bits, i, r.value.0, r.value.1);
      assert out + ([Unshift(r.value.0)] + DecodeFrom(bits, i + r.value.1)) ==
             out + [Unshift(r.value.0)] + DecodeFrom(bits, i + r.value.1);
      out := out + [Unshift(r.value.0)];
      i := i + r.value.1;
    }
  }

  /** A stream that packs codewords without padding between them. */
  class ZeckStream {
    var buf: Bytes
    var bits: nat
    /** The numbers pushed so far. */
    ghost var pushed: seq<nat>

    ghost predicate Valid()
      reads this
    {
      Small(pushed) && bits == |Stream(pushed)| && Packs(buf, Stream(pushed))
    }

    constructor ()
      ensures Valid() && pushed == []
    {
      buf, bits, pushed := [], 0, [];
    }

    /** Appends a number's codeword at the current bit. */
    method Push(n: nat)
      requires Valid() && n < U64_MAX
      modifies this
      ensures Valid() && pushed == old(pushed) + [n]
    {
      hide Fib, Codeword, BitAt, Stream, WithBit, Packs, Shows;
      ghost var word, before := Codeword(n + 1), Stream(pushed);
      ShowsPacks(buf, before);
      var cw := ZeckEncode(n + 1);
      var nbits := CodewordBits(cw);
      WordEnds(cw, n + 1, nbits);
      var need := (bits + nbits + 7) / 8;
      if |buf| < need {
        ShowsGrown(buf, need - |buf|, before);
        buf := buf + Zeros(need - |buf|);
      }
      assert before + word[..0] == before;
      for j := 0 to nbits
        invariant bits == |before| && pushed == old(pushed) && |buf| == need && Shows(buf, before + word[..j])
      {
        PackedBit(cw, word, j);
        ShowsSnoc(buf, before + word[..j], word[j]);
        assert before + word[..j] + [word[j]] == before + word[..j + 1];
        if BitAt(cw, j) {
          buf := WithBit(buf, bits + j);
        }
      }
      assert word[..nbits] == word;
      bits := bits + nbits;
      pushed := pushed + [n];
      StreamParts(pushed);
      assert pushed[..|pushed| - 1] == old(pushed);
      ShowsPacks(buf, Stream(pushed));
    }

    /** Decoding the buffer gives exactly the numbers pushed. */
    method Finish() returns (out: Bytes)
      requires Valid()
      ensures out == buf && DecodeFrom(Unpacked(out), 0) == pushed
    {
      hide Fib, Codeword, BitAt, Stream, DecodeFrom;
      out := buf;
      ghost var all, stream := Unpacked(buf), Stream(pushed);
      assert stream == all[..|stream|];
      StreamRoundTrip(all, pushed);
    }
  }

  lemma {:induction false} ShowsGrown(buf: Bytes, n: nat, s: seq<bool>)
    requires Shows(buf, s)
    ensures Shows(buf + Zeros(n), s)
  {
    hide BitAt;
    GrownBuffer(buf, n);
  }

  lemma {:induction false} PackedBit(cw: Bytes, word: seq<bool>, j: nat)
    requires Packs(cw, word) && j < |word|
    ensures BitAt(cw, j) == word[j]
  {
    hide BitAt;
  }

  lemma {:induction false} WordEnds(cw: Bytes, n: nat, nbits: nat)
    requires n > 0 && Packs(cw, Codeword(n))
    requires (forall i: nat :: i >= nbits ==> !BitAt(cw, i)) && (nbits > 0 ==> BitAt(cw, nbits - 1))
    ensures nbits == |Codeword(n)|
  {
    hide Fib, BitAt, Greedy;
    var last := |Codeword(n)| - 1;
    assert Codeword(n)[last];
    assert BitAt(cw, last);
  }
}
