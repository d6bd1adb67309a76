/**
  Fibonacci-coded integers and their bit-continuous stream
  (`crates/coding/src/zeckendorf.rs`).
 */
module Zeckendorf {
  import opened Bytes
  import opened Results

  // ------------------------------------------------------------------ Fibonacci numbers

  /** 1, 2, 3, 5, 8, … */
  function Fib(i: nat): (f: nat)
    ensures f > i
  {
    if i == 0 then 1 else if i == 1 then 2 else Fib(i - 1) + Fib(i - 2)
  }

  lemma {:induction false} FibGrows(i: nat)
    ensures Fib(i) < Fib(i + 1) <= 2 * Fib(i)
  {
    if i > 0 {
      FibGrows(i - 1);
    }
  }

  lemma {:induction false} FibMonotone(i: nat, j: nat)
    requires i <= j
    ensures Fib(i) <= Fib(j)
    decreases j
  {
    if i < j {
      FibMonotone(i, j - 1);
      FibGrows(j - 1);
    }
  }

  lemma {:induction false} FibStep(i: nat)
    ensures Fib(i + 2) == Fib(i + 1) + Fib(i)
  {
  }

  /** Ten steps at once. */
  lemma {:induction false} FibTen(i: nat)
    ensures Fib(i + 10) == 34 * Fib(i) + 55 * Fib(i + 1)
    ensures Fib(i + 11) == 55 * Fib(i) + 89 * Fib(i + 1)
  {
    hide Fib;
    FibStep(i); FibStep(i + 1); FibStep(i + 2); FibStep(i + 3); FibStep(i + 4);
    FibStep(i + 5); FibStep(i + 6); FibStep(i + 7); FibStep(i + 8); FibStep(i + 9);
  }

  /** How many Fibonacci numbers the table holds. */
  const TABLE: nat := 92

  lemma {:induction false} FirstFibs()
    ensures Fib(0) == 1 && Fib(1) == 2
  {
  }

  /** The last numbers that fit in 64 bits. */
  lemma {:induction false} LargestFibs()
    ensures Fib(90) == 7540113804746346429 && Fib(91) == 12200160415121876738
    ensures Fib(92) > U64_MAX
  {
    hide Fib;
    MiddleFibs();
    FibTen(50); FibTen(60); FibTen(70); FibTen(80);
    FibStep(90);
  }

  lemma {:induction false} MiddleFibs()
    ensures Fib(50) == 32951280099 && Fib(51) == 53316291173
  {
    hide Fib;
    FirstFibs();
    FibTen(0);
    assert Fib(10) == 144 && Fib(11) == 233;
    FibTen(10);
    assert Fib(20) == 17711 && Fib(21) == 28657;
    FibTen(20);
    assert Fib(30) == 2178309 && Fib(31) == 3524578;
    FibTen(30);
    assert Fib(40) == 267914296 && Fib(41) == 433494437;
    FibTen(40);
  }

  /** The cached table: doubling room decides where it ends, and nothing in it wraps. */
  method FibTable() returns (f: seq<nat>)
    ensures |f| == TABLE && forall i :: 0 <= i < TABLE ==> f[i] == Fib(i)
  {
    hide Fib;
    FirstFibs();
    LargestFibs();
    f := [1, 2];
    while f[|f| - 1] <= U64_MAX / 2
      invariant 2 <= |f| <= TABLE && forall i :: 0 <= i < |f| ==> f[i] == Fib(i)
      decreases TABLE - |f|
    {
      var n := |f|;
      FibGrows(n - 2);
      FibStep(n - 2);
      assert f[n - 1] == Fib(n - 1);
      f := f + [(f[n - 1] + f[n - 2]) % (U64_MAX + 1)];
    }
    assert f[|f| - 1] == Fib(|f| - 1);
    if |f| < TABLE {
      FibMonotone(|f| - 1, 90);
      assert false;
    }
  }

  // --------------------------------------------------------------------- decompositions

  /** The sum of the Fibonacci numbers the bits select. */
  function Value(bits: seq<bool>): nat {
    if bits == [] then 0
    else
      var n := |bits| - 1;
      Value(bits[..n]) + if bits[n] then Fib(n) else 0
  }

  predicate NoAdjacent(bits: seq<bool>) { forall i :: 0 <= i < |bits| - 1 ==> !(bits[i] && bits[i + 1]) }

  /** The greedy decomposition of rem over the idx smallest Fibonacci numbers. */
  function Greedy(rem: nat, idx: nat): (bits: seq<bool>)
    ensures |bits| == idx
    decreases idx
  {
    if idx == 0 then []
    else if Fib(idx - 1) <= rem then Greedy(rem - Fib(idx - 1), idx - 1) + [true]
    else Greedy(rem, idx - 1) + [false]
  }

  lemma {:induction false} ValueSnoc(bits: seq<bool>, b: bool)
    ensures Value(bits + [b]) == Value(bits) + if b then Fib(|bits|) else 0
  {
    hide Fib;
    assert (bits + [b])[..|bits|] == bits;
  }

  lemma {:induction false} NoAdjacentSnoc(bits: seq<bool>, b: bool)
    requires NoAdjacent(bits) && (bits != [] && b ==> !bits[|bits| - 1])
    ensures NoAdjacent(bits + [b])
  {
    var more := bits + [b];
    forall i | 0 <= i < |more| - 1 ensures !(more[i] && more[i + 1]) {
      if i < |bits| - 1 {
        assert !(bits[i] && bits[i + 1]);
      }
    }
  }

  lemma {:induction false} TopBit(rem: nat, idx: nat)
    requires idx > 0
    ensures Greedy(rem, idx)[idx - 1] <==> Fib(idx - 1) <= rem
  {
    hide Fib;
  }

  /** It sums to the number, and picks no two neighbours. */
  lemma {:induction false} GreedyDecomposes(rem: nat, idx: nat)
    requires rem < Fib(idx)
    ensures Value(Greedy(rem, idx)) == rem && NoAdjacent(Greedy(rem, idx))
    decreases idx
  {
    hide Fib, NoAdjacent, Value;
    FirstFibs();
    if idx == 0 {
      NothingSelected();
    } else {
      var top := Fib(idx - 1) <= rem;
      var low := if top then rem - Fib(idx - 1) else rem;
      if idx >= 2 {
        FibStep(idx - 2);
        FibGrows(idx - 2);
        TopBit(low, idx - 1);
      }
      GreedyDecomposes(low, idx - 1);
      ValueSnoc(Greedy(low, idx - 1), top);
      NoAdjacentSnoc(Greedy(low, idx - 1), top);
    }
  }

  lemma {:induction false} NothingSelected()
    ensures Value([]) == 0 && NoAdjacent([])
  {
  }

  /** Bits without neighbours stay below the next Fibonacci number. */
  lemma {:induction false} ValueBound(bits: seq<bool>)
    requires NoAdjacent(bits)
    ensures Value(bits) < Fib(|bits|)
  {
    hide Fib;
    FirstFibs();
    var n := |bits| - 1;
    if n >= 0 {
      var front := bits[..n];
      ValueBound(front);
      FibGrows(n);
      if bits[n] && n > 0 {
        assert !bits[n - 1];
        assert front[..n - 1] == bits[..n - 1];
        ValueBound(front[..n - 1]);
        FibStep(n - 1);
      }
    }
  }

  /** Zeckendorf's theorem: there is no other such decomposition. */
  lemma {:induction false} DecompositionUnique(bits: seq<bool>)
    requires NoAdjacent(bits)
    ensures Greedy(Value(bits), |bits|) == bits
  {
    hide Fib, NoAdjacent, Value;
    if bits != [] {
      var n := |bits| - 1;
      var front := bits[..n];
      NoAdjacentFront(bits);
      ValueBound(front);
      DecompositionUnique(front);
      ValueSnoc(front, bits[n]);
      assert bits == front + [bits[n]];
    }
  }

  lemma {:induction false} NoAdjacentFront(bits: seq<bool>)
    requires NoAdjacent(bits) && bits != []
    ensures NoAdjacent(bits[..|bits| - 1])
  {
  }

  // -------------------------------------------------------------------------- codewords

  function HiFrom(n: nat, i: nat): (hi: nat)
    requires i > 0 ==> Fib(i - 1) <= n
    ensures n < Fib(hi) && (hi > 0 ==> Fib(hi - 1) <= n)
    decreases n + 1 - i
  {
    if n < Fib(i) then i else HiFrom(n, i + 1)
  }

  /** How many Fibonacci numbers are at most n. */
  function Hi(n: nat): (hi: nat)
    ensures n < Fib(hi) && (hi > 0 ==> Fib(hi - 1) <= n)
  {
    HiFrom(n, 0)
  }

  lemma {:induction false} HiUnique(n: nat, a: nat)
    requires n < Fib(a) && (a > 0 ==> Fib(a - 1) <= n)
    ensures a == Hi(n)
  {
    hide Fib;
    var b := Hi(n);
    if a < b {
      FibMonotone(a, b - 1);
    } else if b < a {
      FibMonotone(b, a - 1);
    }
  }

  /** The data bits with a terminating one. */
  function Codeword(n: nat): (w: seq<bool>)
    ensures |w| == Hi(n) + 1
  {
    Greedy(n, Hi(n)) + [true]
  }

  /** A codeword is its data without neighbours, ending in a one, and the terminator. */
  lemma {:induction false} CodewordShape(n: nat)
    requires n > 0
    ensures
      var hi := Hi(n);
      hi > 0 && Greedy(n, hi)[hi - 1] && NoAdjacent(Greedy(n, hi)) && Value(Greedy(n, hi)) == n
  {
    hide Fib, Greedy;
    FirstFibs();
    GreedyDecomposes(n, Hi(n));
    TopBit(n, Hi(n));
  }

  // --------------------------------------------------------------------------- decoding

  /** The first position from i on where two ones stand side by side. */
  function Scan(bits: seq<bool>, i: nat): (r: Option<nat>)
    ensures r.Some? ==> i <= r.value && r.value + 1 < |bits|
    decreases |bits| - i
  {
    if i >= |bits| then None
    else if bits[i] && i + 1 < |bits| && bits[i + 1] then Some(i)
    else Scan(bits, i + 1)
  }

  /** The sum as the decoder forms it: in 64 bits, numbers beyond the table left out. */
  function WrappedValue(bits: seq<bool>): nat {
    if bits == [] then 0
    else
      var n := |bits| - 1;
      var below := WrappedValue(bits[..n]);
      if bits[n] && n < TABLE then (below + Fib(n)) % (U64_MAX + 1) else below
  }

  lemma {:induction false} ValueWithin(bits: seq<bool>)
    requires |bits| <= TABLE && Value(bits) <= U64_MAX
    ensures WrappedValue(bits) == Value(bits)
  {
    if bits != [] {
      ValueWithin(bits[..|bits| - 1]);
    }
  }

  function DecodeAt(bits: seq<bool>, start: nat): (r: Option<(nat, nat)>)
    ensures r.Some? ==> r.value.1 >= 2 && start + r.value.1 <= |bits|
  {
    var p := Scan(bits, start);
    if p.None? then None
    else
      var term := p.value + 1;
      Some((WrappedValue(bits[start..term]), term + 1 - start))
  }

  lemma {:induction false} ScanData(bits: seq<bool>, start: nat, data: seq<bool>, i: nat)
    requires data != [] && NoAdjacent(data) && data[|data| - 1] && i < |data|
    requires start + |data| < |bits| && bits[start..start + |data|] == data && bits[start + |data|]
    ensures Scan(bits, start + i) == Some(start + |data| - 1)
    decreases |data| - i
  {
    assert bits[start + i] == data[i];
    if i < |data| - 1 {
      assert bits[start + i + 1] == data[i + 1];
      assert !(data[i] && data[i + 1]);
      ScanData(bits, start, data, i + 1);
    }
  }

  lemma {:induction false} HiInTable(n: nat)
    requires n <= U64_MAX
    ensures Hi(n) <= TABLE
  {
    hide Fib;
    LargestFibs();
    if Hi(n) > TABLE {
      FibMonotone(92, Hi(n) - 1);
    }
  }

  /** A codeword is read back wherever it starts, to its last bit, whatever follows. */
  lemma {:induction false} CodewordRoundTrip(bits: seq<bool>, start: nat, n: nat)
    requires 0 < n <= U64_MAX
    requires start + |Codeword(n)| <= |bits| && bits[start..start + |Codeword(n)|] == Codeword(n)
    ensures DecodeAt(bits, start) == Some((n, |Codeword(n)|))
  {
    hide Scan, WrappedValue, Value, Greedy, NoAdjacent, Fib, Hi;
    var hi := Hi(n);
    var data, word := Greedy(n, hi), bits[start..start + hi + 1];
    CodewordShape(n);
    HiInTable(n);
    assert bits[start..start + hi] == word[..hi] == data;
    assert bits[start + hi] == word[hi];
    ScanData(bits, start, data, 0);
    ValueWithin(data);
  }

  /** No codeword is a proper prefix of another. */
  lemma {:induction false} PrefixFree(a: nat, b: nat)
    requires 0 < a <= U64_MAX && 0 < b <= U64_MAX && Codeword(a) <= Codeword(b)
    ensures a == b
  {
    hide DecodeAt, Codeword;
    var word := Codeword(b);
    assert word[0..|Codeword(a)|] == Codeword(a) && word[0..|word|] == word;
    CodewordRoundTrip(word, 0, a);
    CodewordRoundTrip(word, 0, b);
  }

  // ---------------------------------------------------------------------------- streams

  /** Undoes the shift by one that gives zero a codeword. */
  function Unshift(v: nat): nat { (v + U64_MAX) % (U64_MAX + 1) }

  function DecodeFrom(bits: seq<bool>, i: nat): seq<nat>
    decreases |bits| - i
  {
    var r := DecodeAt(bits, i);
    if r.None? then [] else [Unshift(r.value.0)] + DecodeFrom(bits, i + r.value.1)
  }

  /** The codewords of the numbers, each shifted by one, one after the other. */
  function Stream(ns: seq<nat>): seq<bool> {
    if ns == [] then [] else Stream(ns[..|ns| - 1]) + Codeword(ns[|ns| - 1] + 1)
  }

  predicate Small(ns: seq<nat>) { forall i :: 0 <= i < |ns| ==> ns[i] < U64_MAX }

  predicate AllZero(bits: seq<bool>, from: nat) { forall i :: from <= i < |bits| ==> !bits[i] }

  lemma {:induction false} ScanZeros(bits: seq<bool>, i: nat)
    requires AllZero(bits, i)
    ensures Scan(bits, i) == None
    decreases |bits| - i
  {
    if i < |bits| {
      ScanZeros(bits, i + 1);
    }
  }

  lemma {:induction false} DecodeEnd(bits: seq<bool>, i: nat)
    requires DecodeAt(bits, i).None?
    ensures DecodeFrom(bits, i) == []
  {
    hide DecodeAt;
  }

  lemma {:induction false} DecodeNext(bits: seq<bool>, i: nat, v: nat, used: nat)
    requires DecodeAt(bits, i) == Some((v, used))
    ensures DecodeFrom(bits, i) == [Unshift(v)] + DecodeFrom(bits, i + used)
  {
    hide DecodeAt;
  }

  lemma {:induction false} UnshiftShifted(n: nat)
    requires n < U64_MAX
    ensures Unshift(n + 1) == n
  {
  }

  lemma {:induction false} Split(bits: seq<bool>, a: seq<bool>, b: seq<bool>)
    requires a + b <= bits
    ensures a <= bits && bits[|a|..|a| + |b|] == b
  {
    assert bits[|a|..|a| + |b|] == (a + b)[|a|..];
    assert bits[..|a|] == (a + b)[..|a|];
  }

  lemma {:induction false} StreamParts(ns: seq<nat>)
    ensures ns == [] ==> Stream(ns) == []
    ensures ns != [] ==> Stream(ns) == Stream(ns[..|ns| - 1]) + Codeword(ns[|ns| - 1] + 1)
  {
    hide Codeword, Hi, Fib;
  }

  lemma {:induction false} Regroup(ns: seq<nat>, rest: seq<nat>)
    requires ns != []
    ensures ns[..|ns| - 1] + ([ns[|ns| - 1]] + rest) == ns + rest
  {
  }

  /** What is decoded from a stream and whatever follows begins with the stream's numbers. */
  lemma {:induction false} StreamPrefix(bits: seq<bool>, ns: seq<nat>)
    requires Small(ns) && Stream(ns) <= bits
    ensures DecodeFrom(bits, 0) == ns + DecodeFrom(bits, |Stream(ns)|)
    decreases |ns|
  {
    hide DecodeAt, Codeword, DecodeFrom, Stream, Unshift, Fib, Hi;
    StreamParts(ns);
    if ns == [] {
      assert ns + DecodeFrom(bits, 0) == DecodeFrom(bits, 0);
    } else {
      var n := |ns| - 1;
      var before, word := Stream(ns[..n]), Codeword(ns[n] + 1);
      Split(bits, before, word);
      StreamPrefix(bits, ns[..n]);
      CodewordRoundTrip(bits, |before|, ns[n] + 1);
      DecodeNext(bits, |before|, ns[n] + 1, |word|);
      UnshiftShifted(ns[n]);
      Regroup(ns, DecodeFrom(bits, |Stream(ns)|));
    }
  }

  /** Decoding a stream behind any zero padding gives exactly the numbers pushed. */
  lemma {:induction false} StreamRoundTrip(bits: seq<bool>, ns: seq<nat>)
    requires Small(ns) && Stream(ns) <= bits && AllZero(bits, |Stream(ns)|)
    ensures DecodeFrom(bits, 0) == ns
  {
    hide Stream, WrappedValue, Fib;
    StreamPrefix(bits, ns);
    ScanZeros(bits, |Stream(ns)|);
    assert ns + [] == ns;
  }

  // ------------------------------------------------------------------ self-synchronisation

  /** The last bit of the debris and the first of the codeword are both ones. */
  predicate Straddles(debris: seq<bool>, n: nat) { debris != [] && debris[|debris| - 1] && Codeword(n)[0] }

  lemma {:induction false} NoAdjacentConcat(a: seq<bool>, b: seq<bool>)
    requires NoAdjacent(a) && NoAdjacent(b) && (a != [] && b != [] ==> !(a[|a| - 1] && b[0]))
    ensures NoAdjacent(a + b)
  {
    var s := a + b;
    forall i | 0 <= i < |s| - 1 ensures !(s[i] && s[i + 1]) {
      if i < |a| - 1 {
        assert !(a[i] && a[i + 1]);
      } else if i >= |a| {
        assert s[i] == b[i - |a|] && s[i + 1] == b[i - |a| + 1];
      }
    }
  }

  /**
    Behind debris without a terminator the decoder locks on at the end of the next codeword,
    unless the debris ends in a one and the codeword begins with one: then it takes these two
    for the terminator, one bit into the codeword.
   */
  lemma {:induction false} Relocks(debris: seq<bool>, n: nat, tail: seq<bool>)
    requires NoAdjacent(debris) && n > 0
    ensures
      var r := DecodeAt(debris + Codeword(n) + tail, 0);
      && r.Some? && |Codeword(n)| >= 2
      && r.value.1 == if Straddles(debris, n) then |debris| + 1 else |debris| + |Codeword(n)|
  {
    hide Scan, Greedy, Fib, WrappedValue, Hi, Value, NoAdjacent;
    var word, data := Codeword(n), Greedy(n, Hi(n));
    CodewordShape(n);
    var bits := debris + word + tail;
    if Straddles(debris, n) {
      assert bits[0..0 + |debris|] == debris && bits[0 + |debris|] == word[0];
      ScanData(bits, 0, debris, 0);
    } else {
      assert word[0] == data[0];
      NoAdjacentConcat(debris, data);
      var all := debris + data;
      assert bits[0..0 + |all|] == all && bits[0 + |all|] == word[|data|];
      assert all[|all| - 1] == data[|data| - 1];
      ScanData(bits, 0, all, 0);
    }
  }

  lemma {:induction false} ScanShift(bits: seq<bool>, off: nat, i: nat)
    requires off <= |bits|
    ensures
      var r := Scan(bits[off..], i);
      Scan(bits, off + i) == if r.None? then None else Some(off + r.value)
    decreases |bits| - off - i
  {
    if off + i < |bits| {
      ScanShift(bits, off, i + 1);
    }
  }

  lemma {:induction false} DecodeShift(bits: seq<bool>, off: nat, i: nat)
    requires off <= |bits|
    ensures DecodeFrom(bits, off + i) == DecodeFrom(bits[off..], i)
    decreases |bits| - off - i
  {
    hide Scan, WrappedValue, Unshift;
    ScanShift(bits, off, i);
    var rest := bits[off..];
    var p := Scan(rest, i);
    if p.Some? {
      assert bits[off + i..off + p.value + 1] == rest[i..p.value + 1];
      DecodeShift(bits, off, i + DecodeAt(rest, i).value.1);
    }
  }

  /** After a straddle the rest of the codeword ends in step with it, unless it is the codeword of one. */
  lemma {:induction false} StraddleRest(n: nat, tail: seq<bool>)
    requires n > 0 && Codeword(n)[0]
    ensures n == 1 ==> Codeword(n)[1..] == [true]
    ensures
      var r := DecodeAt(Codeword(n)[1..] + tail, 0);
      r.Some? && r.value.1 == |Codeword(n)| - 1 <==> n > 1
  {
    hide Scan, Greedy, WrappedValue, Value, NoAdjacent;
    var data := Greedy(n, Hi(n));
    CodewordShape(n);
    FirstFibs();
    HiOfOne(n);
    hide Hi, Fib;
    var rest := data[1..];
    var bits := Codeword(n)[1..] + tail;
    if n > 1 {
      NoAdjacentTail(data);
      assert rest[|rest| - 1] == data[|data| - 1];
      assert bits[0..0 + |rest|] == rest && bits[0 + |rest|];
      ScanData(bits, 0, rest, 0);
    } else {
      assert Codeword(n)[1..] == [true];
    }
  }

  lemma {:induction false} HiOfOne(n: nat)
    requires n > 0
    ensures Hi(n) == 1 <==> n == 1
  {
    FirstFibs();
    if n == 1 {
      HiUnique(1, 1);
    }
  }

  lemma {:induction false} NoAdjacentTail(bits: seq<bool>)
    requires bits != [] && NoAdjacent(bits)
    ensures NoAdjacent(bits[1..])
  {
  }

  lemma {:induction false} ScanNothing(bits: seq<bool>, i: nat)
    requires NoAdjacent(bits)
    ensures Scan(bits, i) == None
    decreases |bits| - i
  {
    if i < |bits| {
      ScanNothing(bits, i + 1);
    }
  }

  /** How many of the numbers pushed behind the debris are lost. */
  function Lost(debris: seq<bool>, ns: seq<nat>): (k: nat)
    ensures k <= |ns|
    decreases |ns|
  {
    if ns == [] then 0
    else if Straddles(debris, ns[0] + 1) && ns[0] == 0 then 1 + Lost([true], ns[1..])
    else 1
  }

  /** How many numbers that were never pushed come out instead. */
  function Spurious(debris: seq<bool>, ns: seq<nat>): nat
    decreases |ns|
  {
    if ns == [] then 0
    else if !Straddles(debris, ns[0] + 1) then 1
    else if ns[0] > 0 then 2
    else 1 + Spurious([true], ns[1..])
  }

  /** The first number decoded behind debris, and where the decoder goes on. */
  lemma {:induction false} FirstDecoded(debris: seq<bool>, n: nat, rest: seq<bool>) returns (v: nat)
    requires NoAdjacent(debris) && n > 0
    ensures
      var left := if Straddles(debris, n) then Codeword(n)[1..] + rest else rest;
      DecodeFrom(debris + Codeword(n) + rest, 0) == [v] + DecodeFrom(left, 0)
  {
    hide DecodeAt, DecodeFrom, Codeword, Fib, Hi, Unshift, NoAdjacent, Straddles;
    var bits := debris + Codeword(n) + rest;
    Relocks(debris, n, rest);
    var first := DecodeAt(bits, 0).value;
    v := Unshift(first.0);
    DecodeNext(bits, 0, first.0, first.1);
    DecodeShift(bits, first.1, 0);
    if Straddles(debris, n) {
      assert bits[first.1..] == Codeword(n)[1..] + rest;
    } else {
      assert bits[first.1..] == rest;
    }
  }

  /** The number decoded from the rest of a codeword. */
  lemma {:induction false} SecondDecoded(n: nat, rest: seq<bool>) returns (v: nat)
    requires n > 1 && Codeword(n)[0]
    ensures DecodeFrom(Codeword(n)[1..] + rest, 0) == [v] + DecodeFrom(rest, 0)
  {
    hide DecodeAt, DecodeFrom, Codeword, Fib, Hi, Unshift;
    var left := Codeword(n)[1..] + rest;
    StraddleRest(n, rest);
    var second := DecodeAt(left, 0).value;
    v := Unshift(second.0);
    DecodeNext(left, 0, second.0, second.1);
    DecodeShift(left, second.1, 0);
    assert left[second.1..] == rest;
  }

  /** Behind debris without a terminator: so much is lost, and everything after it is decoded as pushed. */
  lemma {:induction false} ResyncExactly(debris: seq<bool>, ns: seq<nat>, padding: seq<bool>)
    requires NoAdjacent(debris) && Small(ns) && AllZero(padding, 0)
    ensures
      var out, j := DecodeFrom(debris + (Stream(ns) + padding), 0), Spurious(debris, ns);
      |out| == j + |ns| - Lost(debris, ns) && out[j..] == ns[Lost(debris, ns)..]
    decreases |ns|
  {
    hide DecodeFrom, Codeword, Fib, Hi, NoAdjacent, Straddles, Stream;
    if ns == [] {
      StreamParts(ns);
      assert Stream(ns) + padding == padding;
      NothingDecoded(debris, padding);
    } else {
      var word, rest, n := Codeword(ns[0] + 1), Stream(ns[1..]) + padding, ns[0] + 1;
      StreamHead(ns);
      assert debris + (word + Stream(ns[1..]) + padding) == debris + word + rest;
      var v := FirstDecoded(debris, n, rest);
      if !Straddles(debris, n) {
        StreamRoundTrip(rest, ns[1..]);
      } else {
        FirstBit(debris, n);
        if n == 1 {
          StraddleRest(n, rest);
          OneBit();
          ResyncExactly([true], ns[1..], padding);
          AfterSpurious([v] + DecodeFrom([true] + rest, 0), v, DecodeFrom([true] + rest, 0), ns, [true]);
        } else {
          var w := SecondDecoded(n, rest);
          StreamRoundTrip(rest, ns[1..]);
        }
      }
    }
  }

  lemma {:induction false} StreamHead(ns: seq<nat>)
    requires ns != []
    ensures Stream(ns) == Codeword(ns[0] + 1) + Stream(ns[1..])
    decreases |ns|
  {
    hide Stream, Codeword, Hi, Fib;
    var n := |ns| - 1;
    StreamParts(ns);
    StreamParts(ns[1..]);
    if n == 0 {
      StreamParts([]);
      assert ns[..0] == [];
    } else {
      StreamHead(ns[..n]);
      assert ns[..n][1..] == ns[1..][..n - 1];
      assert Codeword(ns[0] + 1) + Stream(ns[..n][1..]) + Codeword(ns[n] + 1)
          == Codeword(ns[0] + 1) + (Stream(ns[..n][1..]) + Codeword(ns[n] + 1));
    }
  }

  lemma {:induction false} NothingDecoded(debris: seq<bool>, padding: seq<bool>)
    requires NoAdjacent(debris) && AllZero(padding, 0)
    ensures DecodeFrom(debris + padding, 0) == []
  {
    NoAdjacentConcat(debris, padding);
    ScanNothing(debris + padding, 0);
  }

  lemma {:induction false} FirstBit(debris: seq<bool>, n: nat)
    requires Straddles(debris, n)
    ensures Codeword(n)[0]
  {
  }

  lemma {:induction false} OneBit()
    ensures NoAdjacent([true])
  {
  }

  lemma {:induction false} AfterSpurious(out: seq<nat>, v: nat, rest: seq<nat>, ns: seq<nat>, debris: seq<bool>)
    requires ns != [] && out == [v] + rest
    requires
      var j, k := Spurious(debris, ns[1..]), Lost(debris, ns[1..]);
      |rest| == j + |ns| - 1 - k && rest[j..] == ns[1..][k..]
    ensures
      var j, k := 1 + Spurious(debris, ns[1..]), 1 + Lost(debris, ns[1..]);
      |out| == j + |ns| - k && out[j..] == ns[k..]
  {
    hide Spurious;
  }

  /** Only the first number behind the debris is lost, unless it is a zero behind a straddle. */
  lemma {:induction false} OnlyOneLost(debris: seq<bool>, ns: seq<nat>)
    requires ns != []
    ensures Lost(debris, ns) == 1 <==> !(Straddles(debris, 1) && ns[0] == 0 && |ns| > 1)
  {
    hide Straddles;
    if |ns| > 1 && ns[0] == 0 && Straddles(debris, 1) {
      assert Lost([true], ns[1..]) >= 1;
    } else if |ns| == 1 {
      assert ns[1..] == [];
    }
  }
}
