/**
  What a lossy link costs the fountain code of `crates/coding/src/fountain.rs`.  The
  symbols that arrive determine the source exactly if no nonzero vector is missed by
  all of them: zero at every source whose own symbol arrived, and with sum zero under
  every pick that arrived.
 */
module Loss {
  import opened Gf256
  import opened GfLinear
  import opened LinearSystems
  import opened Peeling
  import opened StoppingSets
  import opened Fountain
  import opened Results

  /** No symbol sees z. */
  ghost predicate Unseen(syms: seq<ParsedSym>, k: nat, z: Vec) {
    |z| == k && forall i :: 0 <= i < |syms| ==> Dot(Dense(syms[i].cover, k), z) == 0
  }

  /** Two sources with the same symbols differ by something no symbol sees. */
  lemma {:induction false} DifferenceUnseen(syms: seq<ParsedSym>, k: nat, s: nat, x: seq<Vec>, y: seq<Vec>, t: nat)
    requires ExplainsAll(x, syms, k, s) && ExplainsAll(y, syms, k, s) && t < s
    ensures Unseen(syms, k, Axpy(1, Column(x, s, t), Column(y, s, t)))
  {
    hide DotTo, Add, Mul, Dense, CombTo;
    var cx, cy := Column(x, s, t), Column(y, s, t);
    var z := Axpy(1, cx, cy);
    forall i | 0 <= i < |syms| ensures Dot(Dense(syms[i].cover, k), z) == 0 {
      var row := Dense(syms[i].cover, k);
      assert Explains(x, syms[i], k, s) && Explains(y, syms[i], k, s);
      CombColumn(row, x, s, t, k);
      CombColumn(row, y, s, t, k);
      DotToCommutes(row, z, k);
      DotToCommutes(row, cx, k);
      DotToCommutes(row, cy, k);
      DotToAxpy(1, cx, cy, row, k);
      MulUnits(DotTo(cx, row, k));
      AddLaws(DotTo(cy, row, k), DotTo(cx, row, k), 0);
    }
  }

  lemma {:induction false} DifferentByte(x: seq<Vec>, y: seq<Vec>, k: nat, s: nat) returns (t: nat)
    requires Shape(x, k, s) && Shape(y, k, s) && x != y
    ensures t < s && Axpy(1, Column(x, s, t), Column(y, s, t)) != Zeros(k)
  {
    hide Add, Mul;
    var j :| 0 <= j < k && x[j] != y[j];
    t :| 0 <= t < s && x[j][t] != y[j][t];
    MulUnits(x[j][t]);
    AddLaws(y[j][t], x[j][t], 0);
    assert Axpy(1, Column(x, s, t), Column(y, s, t))[j] != 0;
  }

  /** What no symbol sees makes a rival. */
  lemma {:induction false} UnseenRival(syms: seq<ParsedSym>, k: nat, s: nat, x: seq<Vec>, z: Vec)
    requires s > 0 && Fresh(syms, k, s) && ExplainsAll(x, syms, k, s) && Unseen(syms, k, z) && z != Zeros(k)
    ensures Ambiguous(x, syms, k, s)
  {
    hide DotTo, Add, Mul, Dense, ExplainsAll, SolvedBy;
    var rows := DenseRows(syms, k, s);
    var zz := z + Zeros(s);
    ExplainsShape(x, syms, k, s);
    ExplainsIffSolved(syms, k, s, x);
    forall i | 0 <= i < |rows| ensures Dot(rows[i], zz) == 0 {
      DotToAppend(Dense(syms[i].cover, k), z, syms[i].payload, Zeros(s), s);
      DotToCommutes(syms[i].payload, Zeros(s), s);
      DotZeros(syms[i].payload, s);
      AddLaws(0, 0, 0);
    }
    assert exists c :: 0 <= c < k && z[c] != 0;
    var c :| 0 <= c < k && z[c] != 0;
    assert zz[c] != 0;
    var y := KernelRival(rows, k, s, x, zz);
    SolvedShape(rows, k, s, y);
    ExplainsIffSolved(syms, k, s, y);
  }

  /** A decode of true symbols gives the source exactly if they see every nonzero vector. */
  lemma {:induction false} DecodesExactly(syms: seq<ParsedSym>, k: nat, s: nat, x: seq<Vec>,
                                          r: Result<seq<Vec>, FountainError>)
    requires s > 0 && Fresh(syms, k, s) && ExplainsAll(x, syms, k, s) && DecodeOutcome(syms, k, s, r)
    ensures r == Ok(x) <==> forall z :: Unseen(syms, k, z) ==> z == Zeros(k)
  {
    hide ExplainsAll, Unseen;
    if Ambiguous(x, syms, k, s) {
      var y :| y != x && ExplainsAll(y, syms, k, s);
      ExplainsShape(x, syms, k, s);
      ExplainsShape(y, syms, k, s);
      var t := DifferentByte(x, y, k, s);
      DifferenceUnseen(syms, k, s, x, y, t);
      assert r == Ok(y) || r.Err?;
    } else {
      forall z | Unseen(syms, k, z) ensures z == Zeros(k) {
        if z != Zeros(k) {
          UnseenRival(syms, k, s, x, z);
        }
      }
    }
  }

  // ------------------------------------------------------------- lossy transmissions

  /** Symbol i of a transmission, its source or its pick, does not see z. */
  predicate Misses(i: nat, k: nat, picks: seq<(seq<nat>, Vec)>, z: Vec)
    requires |z| == k && Picks(picks, k) && i < k + |picks|
  {
    && (i < k ==> z[i] == 0)
    && (k <= i && |picks[i - k].0| < 65536 ==> PickDot(picks[i - k].0, picks[i - k].1, z, |picks[i - k].0|) == 0)
  }

  /** Wire i of a transmission of x. */
  ghost predicate Sent(wire: Vec, i: nat, x: seq<Vec>, k: nat, s: nat, picks: seq<(seq<nat>, Vec)>)
    requires Shape(x, k, s) && Picks(picks, k) && i < k + |picks|
  {
    if i < k then wire == SystematicWire(x, i) else SaysPick(wire, picks[i - k].0, picks[i - k].1, x, k, s)
  }

  lemma {:induction false} SymbolMisses(sym: ParsedSym, chosen: seq<nat>, coeffs: Vec, k: nat, z: Vec)
    requires GoodPick(chosen, coeffs, k) && |z| == k && SymbolOf(sym, chosen, coeffs)
    ensures Dot(Dense(sym.cover, k), z) == PickDot(chosen, coeffs, z, |chosen|)
  {
    hide DotTo, Dense, PickDot;
    var cover := CoverMap(chosen, coeffs, |chosen|);
    CoverMapKeys(chosen, coeffs, |chosen|);
    forall j | j in sym.cover ensures j in cover && cover[j] == sym.cover[j] {
      var i :| 0 <= i < |chosen| && chosen[i] == j;
      CoverMapValues(chosen, coeffs, |chosen|, i);
    }
    assert sym.cover == cover;
    PickSees(chosen, coeffs, k, z);
  }

  /** A symbol on the wire is true and sees what its source or pick sees. */
  lemma {:induction false} SentSees(wire: Vec, i: nat, x: seq<Vec>, k: nat, s: nat, picks: seq<(seq<nat>, Vec)>)
    requires Shape(x, k, s) && Picks(picks, k) && i < k + |picks| && k <= 65536 && Sent(wire, i, x, k, s, picks)
    ensures var p := ParseWire(wire, k, s);
      && p.Ok? && (p.value.Some? ==> Explains(x, p.value.value, k, s))
      && forall z: Vec :: |z| == k ==>
        (Misses(i, k, picks, z) <==> (p.value.Some? ==> Dot(Dense(p.value.value.cover, k), z) == 0))
  {
    hide ParseWire, SystematicWire, DotTo, PickDot, Explains, SymbolOf;
    var p := ParseWire(wire, k, s);
    if i < k {
      SystematicPins(x, k, s, i, x);
      assert Dense(map[i := 1], k) == Unit(k, i);
      forall z: Vec | |z| == k ensures Dot(Unit(k, i), z) == z[i] {
        DotUnit(k, i, z);
      }
    } else {
      var (chosen, coeffs) := picks[i - k];
      assert GoodPick(chosen, coeffs, k);
      forall z: Vec | |z| == k && p.value.Some?
        ensures Dot(Dense(p.value.value.cover, k), z) == PickDot(chosen, coeffs, z, |chosen|)
      {
        SymbolMisses(p.value.value, chosen, coeffs, k, z);
      }
    }
  }

  /** What arrives is true of x, and together sees what its sources and picks see. */
  lemma {:induction false} ArrivedSees(arrived: seq<Vec>, keep: seq<nat>, x: seq<Vec>, k: nat, s: nat,
                                       picks: seq<(seq<nat>, Vec)>)
    requires Shape(x, k, s) && Picks(picks, k) && k <= 65536 && |arrived| == |keep|
    requires forall i :: 0 <= i < |keep| ==> keep[i] < k + |picks| && Sent(arrived[i], keep[i], x, k, s, picks)
    ensures ExplainsAll(x, ParseAll(arrived, k, s), k, s)
    ensures forall z: Vec :: |z| == k ==>
      (Unseen(ParseAll(arrived, k, s), k, z) <==> forall i :: 0 <= i < |keep| ==> Misses(keep[i], k, picks, z))
  {
    hide ParseWire, Sent, DotTo, Misses, Explains, Dense;
    if arrived != [] {
      var n := |arrived| - 1;
      ArrivedSees(arrived[..n], keep[..n], x, k, s, picks);
      SentSees(arrived[n], keep[n], x, k, s, picks);
      var rest, p := ParseAll(arrived[..n], k, s), ParseWire(arrived[n], k, s);
      forall z: Vec | |z| == k
        ensures Unseen(ParseAll(arrived, k, s), k, z) <==> forall i :: 0 <= i < |keep| ==> Misses(keep[i], k, picks, z)
      {
        AllMiss(keep, k, picks, z);
        if p.value.Some? {
          UnseenSnoc(rest, p.value.value, k, z);
        }
      }
    }
  }

  lemma {:induction false} AllMiss(keep: seq<nat>, k: nat, picks: seq<(seq<nat>, Vec)>, z: Vec)
    requires keep != [] && |z| == k && Picks(picks, k) && forall i :: 0 <= i < |keep| ==> keep[i] < k + |picks|
    ensures (forall i :: 0 <= i < |keep| ==> Misses(keep[i], k, picks, z)) <==>
      var n := |keep| - 1;
      (forall i :: 0 <= i < n ==> Misses(keep[..n][i], k, picks, z)) && Misses(keep[n], k, picks, z)
  {
    hide Misses;
    var n := |keep| - 1;
    assert forall i :: 0 <= i < n ==> keep[..n][i] == keep[i];
  }

  lemma {:induction false} UnseenSnoc(syms: seq<ParsedSym>, sym: ParsedSym, k: nat, z: Vec)
    requires |z| == k
    ensures Unseen(syms + [sym], k, z) <==> Unseen(syms, k, z) && Dot(Dense(sym.cover, k), z) == 0
  {
    hide DotTo, Dense;
    var all := syms + [sym];
    assert all[|syms|] == sym;
    assert forall i :: 0 <= i < |syms| ==> all[i] == syms[i];
  }

  /** The symbols that arrived are decoded exactly if they see every nonzero vector. */
  lemma {:induction false} ArrivedDecodes(arrived: seq<Vec>, keep: seq<nat>, x: seq<Vec>, k: nat, s: nat,
                                          picks: seq<(seq<nat>, Vec)>, r: Result<seq<Vec>, FountainError>)
    requires Shape(x, k, s) && Picks(picks, k) && k <= 65536 && |arrived| == |keep| && s > 0
    requires forall i :: 0 <= i < |keep| ==> keep[i] < k + |picks| && Sent(arrived[i], keep[i], x, k, s, picks)
    requires DecodeOutcome(ParseAll(arrived, k, s), k, s, r)
    ensures r == Ok(x) <==> forall z: Vec ::
      (|z| == k && forall i :: 0 <= i < |keep| ==> Misses(keep[i], k, picks, z)) ==> z == Zeros(k)
    ensures r.Ok? ==> r == Ok(x)
  {
    hide Sent, Misses, ExplainsAll, ParseAll;
    ArrivedSees(arrived, keep, x, k, s, picks);
    var syms := ParseAll(arrived, k, s);
    assert forall z :: Unseen(syms, k, z) ==> |z| == k;
    hide Unseen;
    DecodesExactly(syms, k, s, x, r);
  }

  /**
    One generation over a link that drops, repeats and reorders: encode, keep the
    wires `keep`, decode.  The source comes back exactly if only the zero vector is
    missed by all that arrives: on the sources whose own symbols are lost, the picks
    that arrived have full rank.
   */
  method Transmit(x: seq<Vec>, s: nat, picks: seq<(seq<nat>, Vec)>, keep: seq<nat>, width: nat)
      returns (r: Result<seq<Vec>, FountainError>)
    requires 0 < |x| <= 65536 && s > 0 && Rectangular(x, s) && Picks(picks, |x|)
    requires forall i :: 0 <= i < |keep| ==> keep[i] < |x| + |picks|
    ensures r == Ok(x) <==> forall z: Vec ::
      (|z| == |x| && forall i :: 0 <= i < |keep| ==> Misses(keep[i], |x|, picks, z)) ==> z == Zeros(|x|)
    ensures r.Ok? ==> r == Ok(x)
  {
    hide ParseAll, SystematicWire, DecodeOutcome, SaysPick, Framed, TrueWire, HeldAny, AllLive, SameStops, Misses,
      Peelable, HasSingle, CoverSets, Zeros;
    var k := |x|;
    var e := new FountainEncoder(x, s);
    var wires := e.Produce(k + |picks|, picks);
    var arrived := seq(|keep|, i requires 0 <= i < |keep| => wires[keep[i]]);
    var d := new FountainDecoder(k, s);
    IngestAll(d, arrived);
    assert d.received == ParseAll(arrived, k, s);
    r := d.Decode(width);
    ArrivedDecodes(arrived, keep, x, k, s, picks, r);
  }
}
