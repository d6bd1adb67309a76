/**
  The rateless fountain code of `crates/coding/src/fountain.rs`: the wire form of
  a coded symbol, the systematic-plus-repair encoder, and the decoder that parses
  symbols off the wire and hands them to the peeling decoder.  The degree, the
  indices and the coefficients of a repair symbol come from a seeded generator in
  the program; here they are whatever the caller passes.
 */
module Fountain {
  import opened Counting
  import opened Gf256
  import opened GfLinear
  import opened LinearSystems
  import opened Peeling
  import opened StoppingSets
  import opened Results

  // ------------------------------------------------------------------ the wire form

  /** `n as u16`, little endian. */
  function Le16(n: nat): (b: Vec)
    ensures |b| == 2
  {
    [ByteAt(n % 256), ByteAt((n / 256) % 256)]
  }

  function U16(lo: bv8, hi: bv8): (n: nat)
    ensures n < 65536
  {
    Index(lo) + 256 * Index(hi)
  }

  /** `n as u16` */
  function Low16(n: nat): (w: nat)
    ensures w <= n && w < 65536
  {
    n % 65536
  }

  lemma {:induction false} Le16RoundTrip(n: nat)
    ensures U16(Le16(n)[0], Le16(n)[1]) == n % 65536
  {
    hide Index, ByteAt;
    IndexOfByte(n % 256);
    IndexOfByte((n / 256) % 256);
  }

  /** The (index, coefficient) pairs. */
  function PairBytes(chosen: seq<nat>, coeffs: Vec, n: nat): (b: Vec)
    requires n <= |chosen| && n <= |coeffs|
    ensures |b| == 3 * n
  {
    if n == 0 then [] else PairBytes(chosen, coeffs, n - 1) + Le16(chosen[n - 1]) + [coeffs[n - 1]]
  }

  /** count | (index, coefficient)* | payload */
  function WireSymbol(chosen: seq<nat>, coeffs: Vec, payload: Vec): (w: Vec)
    requires |chosen| == |coeffs|
    ensures |w| == 2 + 3 * |chosen| + |payload|
  {
    Le16(|chosen|) + PairBytes(chosen, coeffs, |chosen|) + payload
  }

  /** The cover named by the first n pairs: pairs out of range or zero are dropped. */
  function CoverOf(wire: Vec, k: nat, n: nat): (cover: map<nat, bv8>)
    requires 2 + 3 * n <= |wire|
    ensures CoverOk(cover, k)
  {
    if n == 0 then map[]
    else
      var cover := CoverOf(wire, k, n - 1);
      var p := 2 + 3 * (n - 1);
      var idx, c := U16(wire[p], wire[p + 1]), wire[p + 2];
      if idx < k && c != 0 then cover[idx := c] else cover
  }

  /** What a wire symbol says: nothing (no usable coefficient), or one parsed symbol. */
  function ParseWire(wire: Vec, k: nat, s: nat): (r: Result<Option<ParsedSym>, FountainError>)
    ensures r.Ok? && r.value.Some? ==> CoverOk(r.value.value.cover, k) && |r.value.value.payload| == s
  {
    if |wire| < 2 then Err(SizeMismatch(|wire|, 2))
    else
      var n := U16(wire[0], wire[1]);
      var header := 2 + 3 * n;
      if |wire| < header + s then Err(SizeMismatch(|wire|, header + s))
      else
        var cover := CoverOf(wire, k, n);
        if |cover| == 0 then Ok(None) else Ok(Some(ParsedSym(cover, wire[header..header + s])))
  }

  /** Indices to coefficients. */
  function CoverMap(chosen: seq<nat>, coeffs: Vec, n: nat): map<nat, bv8>
    requires n <= |chosen| && n <= |coeffs|
  {
    if n == 0 then map[] else CoverMap(chosen, coeffs, n - 1)[chosen[n - 1] := coeffs[n - 1]]
  }

  predicate GoodPick(chosen: seq<nat>, coeffs: Vec, k: nat) {
    && |chosen| == |coeffs| && |chosen| > 0 && Distinct(chosen)
    && (forall i :: 0 <= i < |chosen| ==> chosen[i] < k && coeffs[i] != 0)
  }

  /** The indices fit in 16 bits. */
  predicate Narrow(chosen: seq<nat>) { forall i :: 0 <= i < |chosen| ==> chosen[i] < 65536 }

  lemma {:induction false} CoverOfWire(chosen: seq<nat>, coeffs: Vec, payload: Vec, k: nat, n: nat)
    requires GoodPick(chosen, coeffs, k) && Narrow(chosen) && n <= |chosen|
    ensures CoverOf(WireSymbol(chosen, coeffs, payload), k, n) == CoverMap(chosen, coeffs, n)
  {
    hide Le16, U16;
    if n > 0 {
      CoverOfWire(chosen, coeffs, payload, k, n - 1);
      PairAt(chosen, coeffs, payload, n - 1);
      Le16RoundTrip(chosen[n - 1]);
    }
  }

  lemma {:induction false} PairAt(chosen: seq<nat>, coeffs: Vec, payload: Vec, i: nat)
    requires |chosen| == |coeffs| && i < |chosen|
    ensures
      var w := WireSymbol(chosen, coeffs, payload);
      var p := 2 + 3 * i;
      w[p] == Le16(chosen[i])[0] && w[p + 1] == Le16(chosen[i])[1] && w[p + 2] == coeffs[i]
  {
    hide Le16;
    PairBytesAt(chosen, coeffs, i, |chosen|);
  }

  lemma {:induction false} PairBytesAt(chosen: seq<nat>, coeffs: Vec, i: nat, n: nat)
    requires i < n <= |chosen| && n <= |coeffs|
    ensures
      var b := PairBytes(chosen, coeffs, n);
      b[3 * i] == Le16(chosen[i])[0] && b[3 * i + 1] == Le16(chosen[i])[1] && b[3 * i + 2] == coeffs[i]
  {
    hide Le16;
    if i < n - 1 {
      PairBytesAt(chosen, coeffs, i, n - 1);
    }
  }

  lemma {:induction false} InhabitedMap(cover: map<nat, bv8>, i: nat)
    requires i in cover
    ensures |cover| > 0
  {
    assert |cover.Keys - {i}| == |cover.Keys| - 1;
    assert |cover.Keys| == |cover|;
  }

  lemma {:induction false} WireParts(chosen: seq<nat>, coeffs: Vec, payload: Vec)
    requires |chosen| == |coeffs|
    ensures
      var w := WireSymbol(chosen, coeffs, payload);
      w[0] == Le16(|chosen|)[0] && w[1] == Le16(|chosen|)[1] && w[2 + 3 * |chosen|..] == payload
  {
    hide Le16, PairBytes;
  }

  /** Parsing what the encoder writes gives the symbol back. */
  lemma {:induction false} WireRoundTrip(chosen: seq<nat>, coeffs: Vec, payload: Vec, k: nat)
    requires GoodPick(chosen, coeffs, k) && Narrow(chosen) && |chosen| < 65536
    ensures ParseWire(WireSymbol(chosen, coeffs, payload), k, |payload|) ==
            Ok(Some(ParsedSym(CoverMap(chosen, coeffs, |chosen|), payload)))
  {
    hide Le16, U16, WireSymbol, CoverOf;
    var w := WireSymbol(chosen, coeffs, payload);
    WireParts(chosen, coeffs, payload);
    Le16RoundTrip(|chosen|);
    CoverOfWire(chosen, coeffs, payload, k, |chosen|);
    InhabitedMap(CoverMap(chosen, coeffs, |chosen|), chosen[|chosen| - 1]);
    assert w[2 + 3 * |chosen|..2 + 3 * |chosen| + |payload|] == payload;
  }

  /** A pick of all 65536 sources overflows the count field and is read as no symbol. */
  lemma {:induction false} WireOverflow(chosen: seq<nat>, coeffs: Vec, payload: Vec, k: nat)
    requires |chosen| == |coeffs| == 65536
    ensures ParseWire(WireSymbol(chosen, coeffs, payload), k, |payload|) == Ok(None)
  {
    hide Le16, U16, WireSymbol;
    WireParts(chosen, coeffs, payload);
    Le16RoundTrip(|chosen|);
  }

  // --------------------------------------------------------------------- the encoder

  /** The payload of a pick, source by source. */
  function PickComb(chosen: seq<nat>, coeffs: Vec, x: seq<Vec>, s: nat, n: nat): (p: Vec)
    requires Rectangular(x, s) && n <= |chosen| && n <= |coeffs|
    requires forall i :: 0 <= i < |chosen| ==> chosen[i] < |x|
    ensures |p| == s
  {
    if n == 0 then Zeros(s) else Axpy(coeffs[n - 1], x[chosen[n - 1]], PickComb(chosen, coeffs, x, s, n - 1))
  }

  lemma {:induction false} CoverMapKeys(chosen: seq<nat>, coeffs: Vec, n: nat)
    requires n <= |chosen| && n <= |coeffs|
    ensures forall i :: i in CoverMap(chosen, coeffs, n) <==> exists j :: 0 <= j < n && chosen[j] == i
  {
    if n > 0 {
      CoverMapKeys(chosen, coeffs, n - 1);
    }
  }

  /** The pick's payload is the combination its cover names. */
  lemma {:induction false} PickIsComb(chosen: seq<nat>, coeffs: Vec, x: seq<Vec>, k: nat, s: nat, n: nat)
    requires GoodPick(chosen, coeffs, k) && Shape(x, k, s) && n <= |chosen|
    ensures Comb(Dense(CoverMap(chosen, coeffs, n), k), x, s) == PickComb(chosen, coeffs, x, s, n)
  {
    hide Axpy;
    if n == 0 {
      assert Dense(map[], k) == Zeros(k);
      CombZero(x, s, k);
    } else {
      PickIsComb(chosen, coeffs, x, k, s, n - 1);
      CoverMapKeys(chosen, coeffs, n - 1);
      var before, t, c := Dense(CoverMap(chosen, coeffs, n - 1), k), chosen[n - 1], coeffs[n - 1];
      assert t !in CoverMap(chosen, coeffs, n - 1);
      assert Dense(CoverMap(chosen, coeffs, n), k) == before[t := c];
      CombUpdate(before, x, s, t, c, k);
    }
  }

  /** The sum of z over a pick. */
  function PickDot(chosen: seq<nat>, coeffs: Vec, z: Vec, n: nat): bv8
    requires n <= |chosen| && n <= |coeffs| && forall i :: 0 <= i < |chosen| ==> chosen[i] < |z|
  {
    if n == 0 then 0 else Add(PickDot(chosen, coeffs, z, n - 1), Mul(coeffs[n - 1], z[chosen[n - 1]]))
  }

  /** Byte t of a pick's payload is the sum over byte t of the sources. */
  lemma {:induction false} PickByte(chosen: seq<nat>, coeffs: Vec, x: seq<Vec>, s: nat, t: nat, n: nat)
    requires Rectangular(x, s) && n <= |chosen| && n <= |coeffs| && t < s
    requires forall i :: 0 <= i < |chosen| ==> chosen[i] < |x|
    ensures PickComb(chosen, coeffs, x, s, n)[t] == PickDot(chosen, coeffs, Column(x, s, t), n)
  {
    hide Add, Mul;
    if n > 0 {
      PickByte(chosen, coeffs, x, s, t, n - 1);
    }
  }

  /** The pick's cover sees z as the pick does. */
  lemma {:induction false} PickSees(chosen: seq<nat>, coeffs: Vec, k: nat, z: Vec)
    requires GoodPick(chosen, coeffs, k) && |z| == k
    ensures Dot(Dense(CoverMap(chosen, coeffs, |chosen|), k), z) == PickDot(chosen, coeffs, z, |chosen|)
  {
    hide DotTo, CombTo, Dense, CoverMap;
    var x := seq(k, i requires 0 <= i < k => [z[i]]);
    assert Column(x, 1, 0) == z;
    PickIsComb(chosen, coeffs, x, k, 1, |chosen|);
    CombColumn(Dense(CoverMap(chosen, coeffs, |chosen|), k), x, 1, 0, k);
    PickByte(chosen, coeffs, x, 1, 0, |chosen|);
  }

  lemma {:induction false} CoverMapValues(chosen: seq<nat>, coeffs: Vec, n: nat, i: nat)
    requires Distinct(chosen) && i < n <= |chosen| && n <= |coeffs|
    ensures chosen[i] in CoverMap(chosen, coeffs, n) && CoverMap(chosen, coeffs, n)[chosen[i]] == coeffs[i]
  {
    if i < n - 1 {
      CoverMapValues(chosen, coeffs, n - 1, i);
    }
  }

  /** A 16-bit number in two bytes, the low one first. */
  predicate Sixteen(wire: Vec, p: nat, n: nat)
    requires p + 2 <= |wire|
  {
    wire[p] as nat + 256 * wire[p + 1] as nat == n % 65536
  }

  /**
    The bytes of a pick's symbol: the count, each index with its coefficient, and the
    sum of the picked sources, byte by byte.
   */
  predicate Framed(wire: Vec, chosen: seq<nat>, coeffs: Vec, x: seq<Vec>, s: nat)
    requires |chosen| == |coeffs| && Rectangular(x, s) && forall i :: 0 <= i < |chosen| ==> chosen[i] < |x|
  {
    var header := 2 + 3 * |chosen|;
    && |wire| == header + s && Sixteen(wire, 0, |chosen|)
    && (forall i :: 0 <= i < |chosen| ==> Sixteen(wire, 2 + 3 * i, chosen[i]) && wire[4 + 3 * i] == coeffs[i])
    && (forall t: nat :: t < s ==> wire[header + t] == PickDot(chosen, coeffs, Column(x, s, t), |chosen|))
  }

  /** What the receiver makes of it: the picked sources in true combination, or nothing once the count overflows. */
  ghost predicate SaysPick(wire: Vec, chosen: seq<nat>, coeffs: Vec, x: seq<Vec>, k: nat, s: nat)
    requires |chosen| == |coeffs| && Shape(x, k, s)
  {
    var p := ParseWire(wire, k, s);
    && p.Ok?
    && if |chosen| >= 65536 then p.value.None?
       else p.value.Some? && SymbolOf(p.value.value, chosen, coeffs) && Explains(x, p.value.value, k, s)
  }

  /** The symbol covers the picked sources with their coefficients, and no others. */
  ghost predicate SymbolOf(sym: ParsedSym, chosen: seq<nat>, coeffs: Vec)
    requires |chosen| == |coeffs|
  {
    && (forall j :: j in sym.cover ==> j in chosen)
    && (forall i :: 0 <= i < |chosen| ==> chosen[i] in sym.cover && sym.cover[chosen[i]] == coeffs[i])
  }

  lemma {:induction false} SixteenLe(wire: Vec, p: nat, n: nat)
    requires p + 2 <= |wire| && wire[p] == Le16(n)[0] && wire[p + 1] == Le16(n)[1]
    ensures Sixteen(wire, p, n)
  {
    hide Index, Le16;
    Le16RoundTrip(n);
    IndexIsNat(wire[p]);
    IndexIsNat(wire[p + 1]);
  }

  lemma {:induction false} PickedWireFramed(chosen: seq<nat>, coeffs: Vec, x: seq<Vec>, s: nat)
    requires |chosen| == |coeffs| && Rectangular(x, s) && forall i :: 0 <= i < |chosen| ==> chosen[i] < |x|
    ensures Framed(WireSymbol(chosen, coeffs, PickComb(chosen, coeffs, x, s, |chosen|)), chosen, coeffs, x, s)
  {
    hide WireSymbol, PickComb, PickDot, Le16, Sixteen;
    var payload := PickComb(chosen, coeffs, x, s, |chosen|);
    var wire := WireSymbol(chosen, coeffs, payload);
    WireParts(chosen, coeffs, payload);
    SixteenLe(wire, 0, |chosen|);
    forall i: nat | i < |chosen| ensures Sixteen(wire, 2 + 3 * i, chosen[i]) && wire[4 + 3 * i] == coeffs[i] {
      PairAt(chosen, coeffs, payload, i);
      SixteenLe(wire, 2 + 3 * i, chosen[i]);
    }
    forall t: nat | t < s
      ensures wire[2 + 3 * |chosen| + t] == PickDot(chosen, coeffs, Column(x, s, t), |chosen|)
    {
      PickByte(chosen, coeffs, x, s, t, |chosen|);
      assert wire[2 + 3 * |chosen| + t] == wire[2 + 3 * |chosen|..][t];
    }
  }

  lemma {:induction false} PickedWireSays(chosen: seq<nat>, coeffs: Vec, x: seq<Vec>, k: nat, s: nat)
    requires GoodPick(chosen, coeffs, k) && Shape(x, k, s) && k <= 65536
    ensures SaysPick(WireSymbol(chosen, coeffs, PickComb(chosen, coeffs, x, s, |chosen|)), chosen, coeffs, x, k, s)
  {
    hide WireSymbol, ParseWire, Comb, Dense;
    PickSize(chosen, coeffs, k);
    var payload := PickComb(chosen, coeffs, x, s, |chosen|);
    if |chosen| < 65536 {
      WireRoundTrip(chosen, coeffs, payload, k);
      PickIsComb(chosen, coeffs, x, k, s, |chosen|);
      CoverMapKeys(chosen, coeffs, |chosen|);
      forall i: nat | i < |chosen|
        ensures chosen[i] in CoverMap(chosen, coeffs, |chosen|)
        ensures CoverMap(chosen, coeffs, |chosen|)[chosen[i]] == coeffs[i]
      {
        CoverMapValues(chosen, coeffs, |chosen|, i);
      }
    } else {
      WireOverflow(chosen, coeffs, payload, k);
    }
  }

  /** Nothing the wire says contradicts x. */
  ghost predicate TrueWire(wire: Vec, x: seq<Vec>, k: nat, s: nat)
    requires Shape(x, k, s)
  {
    var r := ParseWire(wire, k, s);
    r.Ok? && (r.value.Some? ==> Explains(x, r.value.value, k, s))
  }

  predicate Picks(picks: seq<(seq<nat>, Vec)>, k: nat) {
    forall i :: 0 <= i < |picks| ==> GoodPick(picks[i].0, picks[i].1, k)
  }

  lemma {:induction false} PickSize(chosen: seq<nat>, coeffs: Vec, k: nat)
    requires GoodPick(chosen, coeffs, k)
    ensures |chosen| <= k
  {
    Pigeonhole(chosen, k);
  }

  /** A wire symbol built from a pick is true of the source. */
  lemma {:induction false} PickedWireIsTrue(chosen: seq<nat>, coeffs: Vec, x: seq<Vec>, k: nat, s: nat)
    requires GoodPick(chosen, coeffs, k) && Shape(x, k, s) && k <= 65536
    ensures TrueWire(WireSymbol(chosen, coeffs, PickComb(chosen, coeffs, x, s, |chosen|)), x, k, s)
  {
    hide WireSymbol, ParseWire, Comb, Dense;
    PickSize(chosen, coeffs, k);
    var payload := PickComb(chosen, coeffs, x, s, |chosen|);
    if |chosen| < 65536 {
      WireRoundTrip(chosen, coeffs, payload, k);
      PickIsComb(chosen, coeffs, x, k, s, |chosen|);
    } else {
      WireOverflow(chosen, coeffs, payload, k);
    }
  }

  /** The wire form of source symbol i itself. */
  function SystematicWire(x: seq<Vec>, i: nat): Vec
    requires i < |x|
  {
    WireSymbol([i], [1], x[i])
  }

  lemma {:induction false} SystematicPick(x: seq<Vec>, k: nat, s: nat, i: nat)
    requires Shape(x, k, s) && i < k
    ensures GoodPick([i], [1], k) && PickComb([i], [1], x, s, 1) == x[i]
  {
    AxpyOfZeros(1, x[i]);
    ScaleOne(x[i]);
    hide Axpy, Scale;
    assert PickComb([i], [1], x, s, 0) == Zeros(s);
  }

  /** A wire symbol with one coefficient 1 says what that source is. */
  lemma {:induction false} WirePins(j: nat, payload: Vec, k: nat, s: nat, y: seq<Vec>)
    requires Shape(y, k, s) && j < k && j < 65536 && |payload| == s
    ensures ParseWire(WireSymbol([j], [1], payload), k, s) == Ok(Some(ParsedSym(map[j := 1], payload)))
    ensures Explains(y, ParsedSym(map[j := 1], payload), k, s) <==> y[j] == payload
  {
    hide WireSymbol, ParseWire, Scale, Mul, Inv;
    WireRoundTrip([j], [1], payload, k);
    assert CoverMap([j], [1], 1) == map[j := 1] by {
      assert CoverMap([j], [1], 0) == map[];
    }
    SingleCoverReveals(ParsedSym(map[j := 1], payload), k, s, j, y);
    MulInverse(1);
    MulUnits(Inv(1));
    ScaleOne(payload);
  }

  /** A systematic symbol says what its source is. */
  lemma {:induction false} SystematicPins(x: seq<Vec>, k: nat, s: nat, i: nat, y: seq<Vec>)
    requires Shape(x, k, s) && Shape(y, k, s) && i < k <= 65536
    ensures ParseWire(SystematicWire(x, i), k, s) == Ok(Some(ParsedSym(map[i := 1], x[i])))
    ensures Explains(y, ParsedSym(map[i := 1], x[i]), k, s) <==> y[i] == x[i]
  {
    WirePins(i, x[i], k, s, y);
  }

  /**
    In a generation of any size, the symbol of source i names source i modulo 65536,
    so it is true exactly when the two sources are equal.
   */
  lemma {:induction false} SystematicTrueExactly(x: seq<Vec>, k: nat, s: nat, i: nat)
    requires Shape(x, k, s) && i < k
    ensures TrueWire(SystematicWire(x, i), x, k, s) <==> x[i] == x[Low16(i)]
  {
    hide ParseWire, Explains, WireSymbol;
    WireWraps(i, x[i]);
    WirePins(Low16(i), x[i], k, s, x);
  }

  lemma {:induction false} WireWraps(i: nat, payload: Vec)
    ensures WireSymbol([i], [1], payload) == WireSymbol([Low16(i)], [1], payload)
  {
    Le16Wraps(i);
    hide Le16;
    assert PairBytes([i], [1], 1) == PairBytes([Low16(i)], [1], 1) by {
      assert PairBytes([i], [1], 0) == PairBytes([Low16(i)], [1], 0);
    }
  }

  lemma {:induction false} Le16Wraps(i: nat)
    ensures Le16(i) == Le16(Low16(i))
  {
    hide ByteAt;
    assert i % 65536 % 256 == i % 256;
    assert i % 65536 / 256 == i / 256 % 256;
  }

  /** Systematic plus repair encoder for one generation. */
  class FountainEncoder {
    const source: seq<Vec>
    const symbolSize: nat
    var repairIndex: nat

    predicate Valid()
      reads this
    {
      |source| > 0 && Rectangular(source, symbolSize)
    }

    constructor (source: seq<Vec>, symbolSize: nat)
      requires |source| > 0 && Rectangular(source, symbolSize)
      ensures Valid() && this.source == source && this.symbolSize == symbolSize && repairIndex == 0
    {
      this.source, this.symbolSize, repairIndex := source, symbolSize, 0;
    }

    /** Mixes the picked sources and frames the result. */
    method RepairSymbol(chosen: seq<nat>, coeffs: Vec) returns (wire: Vec)
      requires Valid() && GoodPick(chosen, coeffs, |source|)
      modifies this
      ensures Valid() && repairIndex == old(repairIndex) + 1
      ensures wire == WireSymbol(chosen, coeffs, PickComb(chosen, coeffs, source, symbolSize, |chosen|))
    {
      hide Axpy, WireSymbol;
      repairIndex := repairIndex + 1;
      var payload := Zeros(symbolSize);
      for i := 0 to |chosen|
        invariant payload == PickComb(chosen, coeffs, source, symbolSize, i)
      {
        payload := Axpy(coeffs[i], source[chosen[i]], payload);
      }
      wire := WireSymbol(chosen, coeffs, payload);
    }

    /** The source symbols verbatim, then one repair symbol for each pick. */
    method Produce(count: nat, picks: seq<(seq<nat>, Vec)>) returns (wires: seq<Vec>)
      requires Valid() && Picks(picks, |source|) && |picks| + |source| >= count
      modifies this
      ensures Valid() && |wires| == count
      ensures repairIndex == old(repairIndex) + if count > |source| then count - |source| else 0
      ensures forall i :: 0 <= i < count && i < |source| ==>
        wires[i] == SystematicWire(source, i) && Framed(wires[i], [i], [1], source, symbolSize)
      ensures forall i :: |source| <= i < count ==>
        Framed(wires[i], picks[i - |source|].0, picks[i - |source|].1, source, symbolSize)
      ensures |source| <= 65536 ==> forall i :: 0 <= i < count ==> TrueWire(wires[i], source, |source|, symbolSize)
      ensures |source| <= 65536 ==> forall i :: |source| <= i < count ==>
        SaysPick(wires[i], picks[i - |source|].0, picks[i - |source|].1, source, |source|, symbolSize)
    {
      hide WireSymbol, PickComb, TrueWire, Framed, SaysPick;
      wires := [];
      var k := |source|;
      var systematic := if count < k then count else k;
      for i := 0 to systematic
        invariant |wires| == i && repairIndex == old(repairIndex)
        invariant forall j :: 0 <= j < i ==>
          wires[j] == SystematicWire(source, j) && Framed(wires[j], [j], [1], source, symbolSize)
        invariant k <= 65536 ==> forall j :: 0 <= j < i ==> TrueWire(wires[j], source, k, symbolSize)
      {
        SystematicPick(source, k, symbolSize, i);
        PickedWireFramed([i], [1], source, symbolSize);
        if k <= 65536 {
          PickedWireIsTrue([i], [1], source, k, symbolSize);
        }
        wires := wires + [SystematicWire(source, i)];
      }
      var i := k;
      while i < count
        invariant k <= i && (i <= count || count < k)
        invariant |wires| == if count < k then count else i
        invariant repairIndex == old(repairIndex) + if count < k then 0 else i - k
        invariant forall j :: 0 <= j < systematic ==>
          wires[j] == SystematicWire(source, j) && Framed(wires[j], [j], [1], source, symbolSize)
        invariant forall j :: k <= j < |wires| ==>
          Framed(wires[j], picks[j - k].0, picks[j - k].1, source, symbolSize)
        invariant k <= 65536 ==> forall j :: 0 <= j < |wires| ==> TrueWire(wires[j], source, k, symbolSize)
        invariant k <= 65536 ==> forall j :: k <= j < |wires| ==>
          SaysPick(wires[j], picks[j - k].0, picks[j - k].1, source, k, symbolSize)
      {
        var (chosen, coeffs) := picks[i - k];
        assert GoodPick(chosen, coeffs, k);
        PickedWireFramed(chosen, coeffs, source, symbolSize);
        if k <= 65536 {
          PickedWireIsTrue(chosen, coeffs, source, k, symbolSize);
          PickedWireSays(chosen, coeffs, source, k, symbolSize);
        }
        var wire := RepairSymbol(chosen, coeffs);
        wires := wires + [wire];
        i := i + 1;
      }
    }
  }

  // --------------------------------------------------------------------- the decoder

  /** What a decode of these symbols may answer. */
  ghost predicate DecodeOutcome(syms: seq<ParsedSym>, k: nat, s: nat, r: Result<seq<Vec>, FountainError>) {
    && (r.Err? ==> r.error.Underdetermined?)
    && (forall x :: ExplainsAll(x, syms, k, s) ==> r == Ok(x) || (r.Err? && Ambiguous(x, syms, k, s)))
  }

  /**
    What one attempt does: sound and complete on symbols no peel has spent, never the
    whole source once one has, and nothing is spent exactly when there are too few
    symbols or none covers a single source.  Symbols without bytes are decoded exactly
    if nothing stops the peeling, and an attempt does not change what does.
   */
  ghost predicate Attempt(syms: seq<ParsedSym>, k: nat, s: nat, r: Result<seq<Vec>, FountainError>,
                          left: seq<ParsedSym>)
  {
    && |left| == |syms| && HeldAny(left, k, s)
    && (r.Err? ==> r.error.Underdetermined?)
    && if s == 0 then
         && (if Peelable(CoverSets(syms), k) then r == Ok(Empties(k)) else r.Err?)
         && SameStops(CoverSets(syms), CoverSets(left), k)
       else
         && (if AllLive(syms) then DecodeOutcome(syms, k, s, r) else r.Ok? ==> !Shape(r.value, k, s))
         && (if |syms| < k || !HasSingle(syms) then left == syms else !AllLive(left))
  }

  /** Decodes the symbols collected so far; a peel spends the ones that reveal a source. */
  method DecodeSymbols(syms: seq<ParsedSym>, k: nat, s: nat, width: nat)
      returns (r: Result<seq<Vec>, FountainError>, left: seq<ParsedSym>)
    requires HeldAny(syms, k, s)
    ensures Attempt(syms, k, s, r, left)
    ensures |syms| < k ==> r == Err(Underdetermined(|syms|, k)) && left == syms
  {
    hide ExplainsAll, Ambiguous, Held, AllLive, HasSingle, Blanked, Peelable, SameStops;
    left := syms;
    if |syms| < k {
      if s == 0 {
        TooFewToPeel(syms, k);
      } else {
        FreshIsHeld(syms, k, s);
        forall x | AllLive(syms) && ExplainsAll(x, syms, k, s) ensures Ambiguous(x, syms, k, s) {
          TooFewIsAmbiguous(syms, k, s, x);
        }
      }
      return Err(Underdetermined(|syms|, k)), left;
    }
    var work := new ParsedSym[|syms|](i requires 0 <= i < |syms| => syms[i]);
    assert work[..] == syms;
    r := PeelSymbols(work, k, s, width);
    left := work[..];
    if s > 0 && !AllLive(syms) && r.Ok? {
      SpentSpoils(syms, k, s, r.value);
    }
  }

  lemma {:induction false} TooFewToPeel(syms: seq<ParsedSym>, k: nat)
    requires |syms| < k
    ensures !Peelable(CoverSets(syms), k) && SameStops(CoverSets(syms), CoverSets(syms), k)
  {
    hide Stops;
    if Peelable(CoverSets(syms), k) {
      SourcesCount(k);
      PeelableCount(CoverSets(syms), k, Sources(k), {});
    }
  }

  /** A source that comes out empty is not a symbol of the source. */
  lemma {:induction false} SpentSpoils(syms: seq<ParsedSym>, k: nat, s: nat, out: seq<Vec>)
    requires s > 0 && Held(syms, k, s) && !AllLive(syms) && Blanked(syms, out)
    ensures !Shape(out, k, s)
  {
    var i :| 0 <= i < |syms| && !Live(syms[i]);
    assert SymbolOk(syms[i], |syms[i].cover|, k, s) && BlankedBy(syms[i].cover, out);
    assert |syms[i].cover.Keys| == 1;
    var t :| t in syms[i].cover.Keys;
    assert t in syms[i].cover && out[t] == [];
  }

  /** A symbol that arrives goes behind the ones held. */
  lemma {:induction false} HeldSnoc(syms: seq<ParsedSym>, sym: ParsedSym, k: nat, s: nat)
    requires HeldAny(syms, k, s) && CoverOk(sym.cover, k) && |sym.payload| == s
    ensures HeldAny(syms + [sym], k, s) && (s > 0 ==> (AllLive(syms + [sym]) <==> AllLive(syms)))
    ensures CoverSets(syms + [sym]) == CoverSets(syms) + [sym.cover.Keys]
  {
    hide Ahead;
    var all := syms + [sym];
    assert forall i :: 0 <= i < |syms| ==> all[i] == syms[i];
    assert all[|syms|] == sym;
  }

  /** Decoder for one generation. */
  class FountainDecoder {
    const k: nat
    const symbolSize: nat
    var syms: seq<ParsedSym>
    /** Every symbol ever kept, as parsed. */
    ghost var received: seq<ParsedSym>

    /** No failed peel has spent a symbol. */
    predicate Untouched()
      reads this
    {
      AllLive(syms)
    }

    ghost predicate Valid()
      reads this
    {
      && |syms| == |received| && HeldAny(syms, k, symbolSize)
      && (symbolSize > 0 && Untouched() ==> syms == received)
      && (symbolSize == 0 ==> SameStops(CoverSets(received), CoverSets(syms), k))
    }

    constructor (k: nat, symbolSize: nat)
      ensures Valid() && this.k == k && this.symbolSize == symbolSize && received == [] && Untouched()
    {
      this.k, this.symbolSize, syms, received := k, symbolSize, [], [];
    }

    /** Ingests one wire symbol. */
    method Ingest(wire: Vec) returns (r: Result<bool, FountainError>)
      requires Valid()
      modifies this
      ensures Valid() && (symbolSize > 0 ==> (Untouched() <==> old(Untouched())))
      ensures var p := ParseWire(wire, k, symbolSize);
        match p
        case Err(e) => r == Err(e) && syms == old(syms) && received == old(received)
        case Ok(None) => r == Ok(false) && syms == old(syms) && received == old(received)
        case Ok(Some(sym)) => r == Ok(true) && syms == old(syms) + [sym] && received == old(received) + [sym]
    {
      hide U16, HeldAny, AllLive, SameStops, CoverSets;
      if |wire| < 2 {
        return Err(SizeMismatch(|wire|, 2));
      }
      var count := U16(wire[0], wire[1]);
      var header := 2 + count * 3;
      if |wire| < header + symbolSize {
        return Err(SizeMismatch(|wire|, header + symbolSize));
      }
      var cover: map<nat, bv8> := map[];
      var p := 2;
      for i := 0 to count
        invariant p == 2 + 3 * i && cover == CoverOf(wire, k, i)
      {
        var idx, c := U16(wire[p], wire[p + 1]), wire[p + 2];
        if idx < k && c != 0 {
          cover := cover[idx := c];
        }
        p := p + 3;
      }
      if |cover| == 0 {
        return Ok(false);
      }
      var sym := ParsedSym(cover, wire[header..header + symbolSize]);
      HeldSnoc(syms, sym, k, symbolSize);
      KeptSnoc(received, syms, sym, k, symbolSize);
      syms := syms + [sym];
      received := received + [sym];
      r := Ok(true);
    }

    /**
      Attempts to decode.  Until an attempt spends a symbol the answer is the one
      explanation of everything received, or there are several; afterwards it is
      never the source.  Symbols without bytes are decoded exactly if nothing stops
      the peeling of everything received.
     */
    method Decode(width: nat) returns (r: Result<seq<Vec>, FountainError>)
      requires Valid()
      modifies this
      ensures Valid() && received == old(received)
      ensures symbolSize > 0 ==>
        if old(Untouched()) then DecodeOutcome(received, k, symbolSize, r) else r.Ok? ==> !Shape(r.value, k, symbolSize)
      ensures symbolSize > 0 ==>
        (Untouched() <==> old(Untouched()) && (|received| < k || !HasSingle(received)))
      ensures symbolSize == 0 ==> if Peelable(CoverSets(received), k) then r == Ok(Empties(k)) else r.Err?
    {
      hide HeldAny, Held, AllLive, HasSingle, DecodeOutcome, SameStops, Peelable, CoverSets;
      ghost var before := syms;
      r, syms := DecodeSymbols(syms, k, symbolSize, width);
      if symbolSize == 0 {
        SamePeelable(CoverSets(received), CoverSets(before), k);
        SameStopsBoth(CoverSets(received), CoverSets(before), CoverSets(syms), k);
      } else if !AllLive(before) {
        assert Held(before, k, symbolSize) by { HeldWithBytes(before, k, symbolSize); }
        SpentIsSingle(before, k, symbolSize);
      }
    }
  }

  lemma {:induction false} HeldWithBytes(syms: seq<ParsedSym>, k: nat, s: nat)
    requires HeldAny(syms, k, s) && s > 0
    ensures Held(syms, k, s)
  {
  }

  lemma {:induction false} KeptSnoc(received: seq<ParsedSym>, syms: seq<ParsedSym>, sym: ParsedSym, k: nat, s: nat)
    requires s == 0 ==> SameStops(CoverSets(received), CoverSets(syms), k)
    ensures s == 0 ==> SameStops(CoverSets(received + [sym]), CoverSets(syms + [sym]), k)
  {
    hide SameStops;
    if s == 0 {
      StopsSnoc(CoverSets(received), CoverSets(syms), k, sym.cover.Keys);
      assert CoverSets(received + [sym]) == CoverSets(received) + [sym.cover.Keys];
      assert CoverSets(syms + [sym]) == CoverSets(syms) + [sym.cover.Keys];
    }
  }

  lemma {:induction false} SpentIsSingle(syms: seq<ParsedSym>, k: nat, s: nat)
    requires Held(syms, k, s) && !AllLive(syms)
    ensures HasSingle(syms)
  {
    var i :| 0 <= i < |syms| && !Live(syms[i]);
    assert SymbolOk(syms[i], |syms[i].cover|, k, s);
  }

  // ------------------------------------------------------------- whole transmissions

  /** The symbols a list of wires parses to. */
  function ParseAll(wires: seq<Vec>, k: nat, s: nat): (syms: seq<ParsedSym>)
    ensures Fresh(syms, k, s)
  {
    if wires == [] then []
    else
      var rest, p := ParseAll(wires[..|wires| - 1], k, s), ParseWire(wires[|wires| - 1], k, s);
      if p.Ok? && p.value.Some? then rest + [p.value.value] else rest
  }

  lemma {:induction false} TrueWiresExplained(wires: seq<Vec>, x: seq<Vec>, k: nat, s: nat)
    requires Shape(x, k, s) && forall i :: 0 <= i < |wires| ==> TrueWire(wires[i], x, k, s)
    ensures ExplainsAll(x, ParseAll(wires, k, s), k, s)
  {
    hide ParseWire, Explains;
    if wires != [] {
      var n := |wires| - 1;
      TrueWiresExplained(wires[..n], x, k, s);
      assert TrueWire(wires[n], x, k, s);
    }
  }

  lemma {:induction false} ParsedWire(wires: seq<Vec>, k: nat, s: nat, i: nat)
    requires i < |wires| && ParseWire(wires[i], k, s).Ok? && ParseWire(wires[i], k, s).value.Some?
    ensures ParseWire(wires[i], k, s).value.value in ParseAll(wires, k, s)
  {
    hide ParseWire;
    var n := |wires| - 1;
    if i < n {
      ParsedWire(wires[..n], k, s, i);
    }
  }

  /** With every systematic symbol present the source is the only explanation. */
  lemma {:induction false} AllSystematicDetermine(wires: seq<Vec>, x: seq<Vec>, k: nat, s: nat, y: seq<Vec>)
    requires Shape(x, k, s) && k <= 65536
    requires forall i :: 0 <= i < k ==> SystematicWire(x, i) in wires
    requires ExplainsAll(y, ParseAll(wires, k, s), k, s)
    ensures y == x
  {
    hide ParseWire, SystematicWire, Explains;
    forall i | 0 <= i < k ensures y[i] == x[i] {
      SystematicPins(x, k, s, i, y);
      var j :| 0 <= j < |wires| && wires[j] == SystematicWire(x, i);
      ParsedWire(wires, k, s, j);
    }
  }

  /** A decode of true symbols that include every systematic one returns the source. */
  lemma {:induction false} WholeTransmissionDecodes(wires: seq<Vec>, x: seq<Vec>, k: nat, s: nat,
                                                    r: Result<seq<Vec>, FountainError>)
    requires Shape(x, k, s) && k <= 65536
    requires forall i :: 0 <= i < |wires| ==> TrueWire(wires[i], x, k, s)
    requires forall i :: 0 <= i < k ==> SystematicWire(x, i) in wires
    requires DecodeOutcome(ParseAll(wires, k, s), k, s, r)
    ensures r == Ok(x)
  {
    hide ParseWire, SystematicWire, ExplainsAll, ParseAll, TrueWire;
    TrueWiresExplained(wires, x, k, s);
    var syms := ParseAll(wires, k, s);
    if Ambiguous(x, syms, k, s) {
      var y :| y != x && ExplainsAll(y, syms, k, s);
      AllSystematicDetermine(wires, x, k, s, y);
    }
  }

  /** Ingests a list of wires. */
  method IngestAll(d: FountainDecoder, wires: seq<Vec>)
    requires d.Valid()
    modifies d
    ensures d.Valid() && (d.symbolSize > 0 ==> (d.Untouched() <==> old(d.Untouched())))
    ensures d.received == old(d.received) + ParseAll(wires, d.k, d.symbolSize)
  {
    hide ParseWire, HeldAny, AllLive, SameStops;
    for i := 0 to |wires|
      invariant d.Valid() && (d.symbolSize > 0 ==> (d.Untouched() <==> old(d.Untouched())))
      invariant d.received == old(d.received) + ParseAll(wires[..i], d.k, d.symbolSize)
    {
      assert wires[..i + 1][..i] == wires[..i];
      var _ := d.Ingest(wires[i]);
    }
    assert wires[..|wires|] == wires;
  }

  lemma {:induction false} ParseAllConcat(a: seq<Vec>, b: seq<Vec>, k: nat, s: nat)
    ensures ParseAll(a + b, k, s) == ParseAll(a, k, s) + ParseAll(b, k, s)
  {
    hide ParseWire;
    if b == [] {
      assert a + b == a;
    } else {
      var n := |b| - 1;
      assert (a + b)[..|a + b| - 1] == a + b[..n];
      ParseAllConcat(a, b[..n], k, s);
    }
  }

  /** With every systematic symbol present nothing stops the peeling. */
  lemma {:induction false} SystematicPeels(wires: seq<Vec>, x: seq<Vec>, k: nat, s: nat)
    requires Shape(x, k, s) && k <= 65536 && forall i :: 0 <= i < k ==> SystematicWire(x, i) in wires
    ensures Peelable(CoverSets(ParseAll(wires, k, s)), k)
  {
    hide ParseWire, SystematicWire, Explains, ParseAll;
    var sets := CoverSets(ParseAll(wires, k, s));
    forall u: set<nat> | u != {} && u <= Sources(k) ensures !Stops(sets, k, u) {
      var t: nat :| t in u;
      SystematicPins(x, k, s, t, x);
      assert SystematicWire(x, t) in wires;
      var j :| 0 <= j < |wires| && wires[j] == SystematicWire(x, t);
      ParsedWire(wires, k, s, j);
      var i :| 0 <= i < |sets| && sets[i] == map[t := 1 as bv8].Keys;
      assert sets[i] * u == {t};
    }
  }

  /**
    A second attempt on the same decoder, once all systematic symbols are there: it
    gives the source if and only if the symbols have no bytes, or the first one found
    too few symbols or none that covers a single source.
   */
  method RetryExactly(x: seq<Vec>, k: nat, s: nat, first: seq<Vec>, more: seq<Vec>, width: nat)
      returns (r: Result<seq<Vec>, FountainError>)
    requires Shape(x, k, s) && k <= 65536
    requires forall i :: 0 <= i < |first + more| ==> TrueWire((first + more)[i], x, k, s)
    requires forall i :: 0 <= i < k ==> SystematicWire(x, i) in first + more
    ensures r == Ok(x) <==> s == 0 || |ParseAll(first, k, s)| < k || !HasSingle(ParseAll(first, k, s))
  {
    hide ParseAll, TrueWire, SystematicWire, HasSingle, AllLive, DecodeOutcome, HeldAny, Peelable, SameStops, CoverSets;
    var d := new FountainDecoder(k, s);
    IngestAll(d, first);
    assert d.received == ParseAll(first, k, s);
    var _ := d.Decode(width);
    ghost var whole := d.Untouched();
    IngestAll(d, more);
    ParseAllConcat(first, more, k, s);
    r := d.Decode(width);
    if s == 0 {
      SystematicPeels(first + more, x, k, s);
      assert x == Empties(k);
    } else if whole {
      WholeTransmissionDecodes(first + more, x, k, s, r);
    }
  }
}
