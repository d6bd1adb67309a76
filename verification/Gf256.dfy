/**
  Arithmetic in GF(2^8) as `crates/coding/src/gf256.rs` builds it: the powers of
  the generator 3, walked one at a time, give the exp and log tables, and a
  product is the power at the sum of the logarithms.  The reference it is held
  to is the product of polynomials modulo x^8 + x^4 + x^3 + x + 1, section 4.2
  of FIPS 197.
 */
module Gf256 {

  /** Addition is XOR; every element is its own opposite. */
  function Add(a: bv8, b: bv8): bv8 { a ^ b }

  lemma {:induction false} AddLaws(a: bv8, b: bv8, c: bv8)
    ensures Add(a, b) == Add(b, a)
    ensures Add(Add(a, b), c) == Add(a, Add(b, c))
    ensures Add(a, 0) == a && Add(0, a) == a
    ensures Add(a, a) == 0
    ensures Add(a, b) == 0 <==> a == b
  {
    assert (a ^ b) ^ c == a ^ (b ^ c);
  }

  lemma {:induction false} AddSwap(a: bv8, b: bv8, c: bv8, d: bv8)
    ensures Add(Add(a, b), Add(c, d)) == Add(Add(a, c), Add(b, d))
  {
    assert (a ^ b) ^ (c ^ d) == (a ^ c) ^ (b ^ d);
  }

  // ---------------------------------------------------------------- reference

  /** Multiplication by x. */
  function Xtime(g: bv8): bv8 {
    (g << 1) ^ (if g & 0x80 != 0 then 0x1B else 0)
  }

  function Select(v: bv8, b: bv8, mask: bv8): bv8 { if b & mask != 0 then v else 0 }

  /** The polynomial product: the multiples of `a` by x^i, for the bits of `b`. */
  function PolyMul(a: bv8, b: bv8): bv8 {
    var a1 := Xtime(a);
    var a2 := Xtime(a1);
    var a3 := Xtime(a2);
    var a4 := Xtime(a3);
    var a5 := Xtime(a4);
    var a6 := Xtime(a5);
    var a7 := Xtime(a6);
    var low := Add(Add(Add(Select(a, b, 0x01), Select(a1, b, 0x02)), Select(a2, b, 0x04)), Select(a3, b, 0x08));
    Add(Add(Add(Add(low, Select(a4, b, 0x10)), Select(a5, b, 0x20)), Select(a6, b, 0x40)), Select(a7, b, 0x80))
  }

  lemma {:induction false} XtimeLinear(x: bv8, y: bv8)
    ensures Xtime(Add(x, y)) == Add(Xtime(x), Xtime(y))
  {
    assert (x ^ y) << 1 == (x << 1) ^ (y << 1);
    assert (x ^ y) & 0x80 == (x & 0x80) ^ (y & 0x80);
    assert x & 0x80 == 0 || x & 0x80 == 0x80;
    assert y & 0x80 == 0 || y & 0x80 == 0x80;
    if x & 0x80 == 0 && y & 0x80 == 0 {
    } else if x & 0x80 == 0 {
    } else if y & 0x80 == 0 {
    } else {
    }
  }

  lemma {:induction false} SelectLinear(w: bv8, u: bv8, v: bv8, i: bv8)
    requires i in {0x01, 0x02, 0x04, 0x08, 0x10, 0x20, 0x40, 0x80}
    ensures Select(w, Add(u, v), i) == Add(Select(w, u, i), Select(w, v, i))
  {
    assert (u ^ v) & i == (u & i) ^ (v & i);
    assert u & i == 0 || u & i == i;
    assert v & i == 0 || v & i == i;
  }

  lemma {:induction false} PolyMulLinear(x: bv8, u: bv8, v: bv8)
    ensures PolyMul(x, Add(u, v)) == Add(PolyMul(x, u), PolyMul(x, v))
  {
    hide Xtime, Select, Add;
    var x1 := Xtime(x);
    var x2 := Xtime(x1);
    var x3 := Xtime(x2);
    var x4 := Xtime(x3);
    var x5 := Xtime(x4);
    var x6 := Xtime(x5);
    var x7 := Xtime(x6);
    var w := Add(u, v);
    var su, sv, sw := Select(x, u, 0x01), Select(x, v, 0x01), Select(x, w, 0x01);
    SelectLinear(x, u, v, 0x01);
    su, sv, sw := AddTerm(su, sv, sw, x1, u, v, 0x02);
    su, sv, sw := AddTerm(su, sv, sw, x2, u, v, 0x04);
    su, sv, sw := AddTerm(su, sv, sw, x3, u, v, 0x08);
    su, sv, sw := AddTerm(su, sv, sw, x4, u, v, 0x10);
    su, sv, sw := AddTerm(su, sv, sw, x5, u, v, 0x20);
    su, sv, sw := AddTerm(su, sv, sw, x6, u, v, 0x40);
    su, sv, sw := AddTerm(su, sv, sw, x7, u, v, 0x80);
  }

  /** One more bit of the three sums of `PolyMulLinear`. */
  lemma {:induction false} AddTerm(su: bv8, sv: bv8, sw: bv8, x: bv8, u: bv8, v: bv8, i: bv8)
      returns (tu: bv8, tv: bv8, tw: bv8)
    requires sw == Add(su, sv)
    requires i in {0x01, 0x02, 0x04, 0x08, 0x10, 0x20, 0x40, 0x80}
    ensures tu == Add(su, Select(x, u, i)) && tv == Add(sv, Select(x, v, i)) && tw == Add(sw, Select(x, Add(u, v), i))
    ensures tw == Add(tu, tv)
  {
    hide Select, Add;
    SelectLinear(x, u, v, i);
    AddSwap(su, sv, Select(x, u, i), Select(x, v, i));
    tu, tv, tw := Add(su, Select(x, u, i)), Add(sv, Select(x, v, i)), Add(sw, Select(x, Add(u, v), i));
  }

  /** x^8 = x^4 + x^3 + x + 1: the reducing polynomial 0x11B. */
  lemma {:induction false} ReducingPolynomial(x: bv8)
    ensures
      var x1 := Xtime(x); var x3 := Xtime(Xtime(x1)); var x4 := Xtime(x3);
      Xtime(Xtime(Xtime(Xtime(x4)))) == x ^ x1 ^ x3 ^ x4
  {
  }

  lemma {:induction false} XtimeSelect(v: bv8, b: bv8, i: bv8)
    ensures Xtime(Select(v, b, i)) == Select(Xtime(v), b, i)
  {
  }

  lemma {:induction false} PolyMulXtimeLow(x: bv8, y: bv8)
    requires y & 0x80 == 0
    ensures PolyMul(x, Xtime(y)) == Xtime(PolyMul(x, y))
  {
    var z := Xtime(y);
    ShiftedBits(y);
    assert forall v, w :: Add(Select(v, z, 0x01), w) == w;
    assert forall v, w :: Add(w, Select(v, y, 0x80)) == w;
    hide Xtime, Select, Add;
    var x1 := Xtime(x);
    var x2 := Xtime(x1);
    var x3 := Xtime(x2);
    var x4 := Xtime(x3);
    var x5 := Xtime(x4);
    var x6 := Xtime(x5);
    XtimeSelect(x, y, 0x01);
    var s := XtimeTerm(Select(x, y, 0x01), x1, y, 0x02);
    s := XtimeTerm(s, x2, y, 0x04);
    s := XtimeTerm(s, x3, y, 0x08);
    s := XtimeTerm(s, x4, y, 0x10);
    s := XtimeTerm(s, x5, y, 0x20);
    s := XtimeTerm(s, x6, y, 0x40);
  }

  /** One more bit of the sum of `PolyMulXtimeLow`. */
  lemma {:induction false} XtimeTerm(s: bv8, v: bv8, y: bv8, i: bv8) returns (t: bv8)
    ensures t == Add(s, Select(v, y, i))
    ensures Xtime(t) == Add(Xtime(s), Select(Xtime(v), y, i))
  {
    t := Add(s, Select(v, y, i));
    XtimeLinear(s, Select(v, y, i));
    XtimeSelect(v, y, i);
    hide Xtime, Select, Add;
  }

  lemma {:induction false} ShiftedBits(y: bv8)
    requires y & 0x80 == 0
    ensures Xtime(y) & 0x01 == 0
    ensures forall v :: Select(v, Xtime(y), 0x02) == Select(v, y, 0x01)
    ensures forall v :: Select(v, Xtime(y), 0x04) == Select(v, y, 0x02)
    ensures forall v :: Select(v, Xtime(y), 0x08) == Select(v, y, 0x04)
    ensures forall v :: Select(v, Xtime(y), 0x10) == Select(v, y, 0x08)
    ensures forall v :: Select(v, Xtime(y), 0x20) == Select(v, y, 0x10)
    ensures forall v :: Select(v, Xtime(y), 0x40) == Select(v, y, 0x20)
    ensures forall v :: Select(v, Xtime(y), 0x80) == Select(v, y, 0x40)
  {
  }

  lemma {:induction false} PolyMulXtime(x: bv8, y: bv8)
    ensures PolyMul(x, Xtime(y)) == Xtime(PolyMul(x, y))
  {
    if y & 0x80 == 0 {
      PolyMulXtimeLow(x, y);
    } else {
      var low := y & 0x7f;
      assert y == Add(low, 0x80) && low & 0x80 == 0;
      PolyMulLeading(x);
      hide Add, PolyMul, Xtime;
      PolyMulXtimeLow(x, low);
      XtimeLinear(low, 0x80);
      PolyMulLinear(x, low, 0x80);
      PolyMulLinear(x, Xtime(low), Xtime(0x80));
      XtimeLinear(PolyMul(x, low), PolyMul(x, 0x80));
    }
  }

  lemma {:induction false} LeadingReduced()
    ensures Xtime(0x80) == 0x1B
  {
  }

  lemma {:induction false} PolyMulReduced(x: bv8)
    ensures PolyMul(x, 0x1B) == Xtime(PolyMul(x, 0x80))
  {
    hide Xtime, Select, Add;
    var x1 := Xtime(x); var x2 := Xtime(x1); var x3 := Xtime(x2); var x4 := Xtime(x3);
    var x5 := Xtime(x4); var x6 := Xtime(x5); var x7 := Xtime(x6);
    ReducingSum(x);
    Selected(x, x1, x2, x3, x4, x5, x6, x7);
    AddZero(0);
    AddZero(x7);
    AddZero(Add(x, x1));
    AddZero(Add(Add(Add(x, x1), x3), x4));
    assert PolyMul(x, 0x80) == x7;
    assert PolyMul(x, 0x1B) == Add(Add(Add(x, x1), x3), x4);
  }

  lemma {:induction false} AddZero(a: bv8)
    ensures Add(a, 0) == a && Add(0, a) == a
  {
  }

  lemma {:induction false} ReducingSum(x: bv8)
    ensures
      var x1 := Xtime(x); var x3 := Xtime(Xtime(x1)); var x4 := Xtime(x3);
      Xtime(Xtime(Xtime(Xtime(x4)))) == Add(Add(Add(x, x1), x3), x4)
  {
    ReducingPolynomial(x);
    hide Xtime;
  }

  /** The terms of the products with 0x1B and with 0x80. */
  lemma {:induction false} Selected(a: bv8, a1: bv8, a2: bv8, a3: bv8, a4: bv8, a5: bv8, a6: bv8, a7: bv8)
    ensures Select(a, 0x1B, 0x01) == a && Select(a1, 0x1B, 0x02) == a1 && Select(a2, 0x1B, 0x04) == 0
    ensures Select(a3, 0x1B, 0x08) == a3 && Select(a4, 0x1B, 0x10) == a4 && Select(a5, 0x1B, 0x20) == 0
    ensures Select(a6, 0x1B, 0x40) == 0 && Select(a7, 0x1B, 0x80) == 0
    ensures Select(a, 0x80, 0x01) == 0 && Select(a1, 0x80, 0x02) == 0 && Select(a2, 0x80, 0x04) == 0
    ensures Select(a3, 0x80, 0x08) == 0 && Select(a4, 0x80, 0x10) == 0 && Select(a5, 0x80, 0x20) == 0
    ensures Select(a6, 0x80, 0x40) == 0 && Select(a7, 0x80, 0x80) == a7
  {
  }

  lemma {:induction false} PolyMulLeading(x: bv8)
    ensures PolyMul(x, Xtime(0x80)) == Xtime(PolyMul(x, 0x80))
  {
    hide PolyMul, Xtime;
    LeadingReduced();
    PolyMulReduced(x);
  }

  // ------------------------------------------------------------ the generator

  /** One step of the table walk: multiplication by 3. */
  function Times3(g: bv8): bv8 { Add(Xtime(g), g) }

  lemma {:induction false} Times3Linear(x: bv8, y: bv8)
    ensures Times3(Add(x, y)) == Add(Times3(x), Times3(y))
  {
    hide Xtime, Add;
    XtimeLinear(x, y);
    AddSwap(Xtime(x), Xtime(y), x, y);
  }

  lemma {:induction false} Times3Injective(x: bv8, y: bv8)
    requires Times3(x) == Times3(y)
    ensures x == y
  {
  }

  /** The walk of n steps from x. */
  function Walk(x: bv8, n: nat): bv8 {
    if n == 0 then x else Times3(Walk(x, n - 1))
  }

  /** The n-th power of the generator. */
  function Exp(n: nat): bv8 { Walk(1, n) }

  lemma {:induction false} WalkLinear(x: bv8, y: bv8, n: nat)
    ensures Walk(Add(x, y), n) == Add(Walk(x, n), Walk(y, n))
  {
    hide Times3, Add;
    if n > 0 {
      WalkLinear(x, y, n - 1);
      Times3Linear(Walk(x, n - 1), Walk(y, n - 1));
    }
  }

  lemma {:induction false} WalkAdd(x: bv8, m: nat, n: nat)
    ensures Walk(x, m + n) == Walk(Walk(x, m), n)
  {
    hide Times3;
    if n > 0 {
      WalkAdd(x, m, n - 1);
    }
  }

  lemma {:induction false} WalkInjective(x: bv8, y: bv8, n: nat)
    requires Walk(x, n) == Walk(y, n)
    ensures x == y
  {
    hide Times3;
    if n > 0 {
      Times3Injective(Walk(x, n - 1), Walk(y, n - 1));
      WalkInjective(x, y, n - 1);
    }
  }

  lemma {:induction false} WalkZero(n: nat)
    ensures Walk(0, n) == 0
  {
    if n > 0 {
      WalkZero(n - 1);
    }
  }

  /** Walking n steps is multiplying by the n-th power. */
  lemma {:induction false} WalkIsPolyMul(x: bv8, n: nat)
    ensures Walk(x, n) == PolyMul(x, Exp(n))
  {
    if n == 0 {
      assert PolyMul(x, 1) == x by {
        hide Xtime;
      }
    } else {
      hide PolyMul, Xtime, Add;
      WalkIsPolyMul(x, n - 1);
      PolyMulXtime(x, Exp(n - 1));
      PolyMulLinear(x, Xtime(Exp(n - 1)), Exp(n - 1));
    }
  }

  lemma {:induction false} ExpAdd(m: nat, n: nat)
    ensures Exp(m + n) == PolyMul(Exp(m), Exp(n))
  {
    hide PolyMul, Times3;
    WalkAdd(1, m, n);
    WalkIsPolyMul(Exp(m), n);
  }

  // ------------------------------------------------- the generator has order 255

  lemma {:induction false} KeyPowers()
    ensures Exp(15) == 0x35 && Exp(51) == 0x0c && Exp(85) == 0xbd && Exp(255) == 1
  {
    assert Exp(1) == 0x03;
    assert Exp(2) == 0x05 by { ExpAdd(1, 1); }
    assert Exp(4) == 0x11 by { ExpAdd(2, 2); }
    assert Exp(5) == 0x33 by { ExpAdd(4, 1); }
    assert Exp(10) == 0x72 by { ExpAdd(5, 5); }
    assert Exp(15) == 0x35 by { ExpAdd(10, 5); }
    assert Exp(17) == 0xe1 by { ExpAdd(15, 2); }
    assert Exp(34) == 0x5c by { ExpAdd(17, 17); }
    assert Exp(51) == 0x0c by { ExpAdd(34, 17); }
    assert Exp(85) == 0xbd by { ExpAdd(51, 34); }
    assert Exp(170) == 0xbc by { ExpAdd(85, 85); }
    assert Exp(255) == 1 by { ExpAdd(170, 85); }
  }

  /** Every proper divisor of 255 divides 15, 51 or 85. */
  lemma {:induction false} ProperDivisors(d: nat)
    requires 0 < d < 255 && 255 % d == 0
    ensures d in {1, 3, 5, 15, 17, 51, 85}
    ensures 15 % d == 0 || 51 % d == 0 || 85 % d == 0
  {
    var q := 255 / d;
    if d >= 16 {
      assert q in {1, 2, 3, 4, 5, 6, 7, 8, 9, 10, 11, 12, 13, 14, 15};
    }
  }

  lemma {:induction false} Periodic(d: nat, q: nat, r: nat)
    requires Exp(d) == 1
    ensures Exp(d * q + r) == Exp(r)
  {
    hide Times3;
    if q > 0 {
      Periodic(d, q - 1, r);
      assert d * q + r == d + (d * (q - 1) + r);
      WalkAdd(1, d, d * (q - 1) + r);
    }
  }

  lemma {:induction false} RemainderOfPeriod(d: nat, n: nat)
    requires 0 < d && Exp(d) == 1
    ensures Exp(n % d) == Exp(n)
  {
    hide Walk;
    Periodic(d, n / d, n % d);
  }

  /** No power before the 255-th is 1. */
  lemma {:induction false} NoShortPeriod(d: nat)
    requires 0 < d < 255
    ensures Exp(d) != 1
    decreases d
  {
    KeyPowers();
    if Exp(d) == 1 {
      RemainderOfPeriod(d, 255);
      if 255 % d > 0 {
        NoShortPeriod(255 % d);
      } else {
        ProperDivisors(d);
        RemainderOfPeriod(d, 15);
        RemainderOfPeriod(d, 51);
        RemainderOfPeriod(d, 85);
      }
    }
  }

  lemma {:induction false} PowersDistinct(i: nat, j: nat)
    requires i < j < 255
    ensures Exp(i) != Exp(j)
  {
    hide Times3;
    if Exp(i) == Exp(j) {
      WalkAdd(1, j - i, i);
      WalkInjective(1, Exp(j - i), i);
      NoShortPeriod(j - i);
    }
  }

  lemma {:induction false} PowerNonzero(n: nat)
    ensures Exp(n) != 0
  {
    hide Times3;
    WalkZero(n);
    if Exp(n) == 0 {
      WalkInjective(1, 0, n);
    }
  }

  ghost function Powers(n: nat): set<bv8> {
    if n == 0 then {} else Powers(n - 1) + {Exp(n - 1)}
  }

  ghost function NonzeroBytes(n: nat): set<bv8>
    requires n <= 256
  {
    if n <= 1 then {} else NonzeroBytes(n - 1) + {ByteAt(n - 1)}
  }

  lemma {:induction false} PowersCount(n: nat)
    requires n <= 255
    ensures |Powers(n)| == n
    ensures forall a :: a in Powers(n) <==> exists i: nat {:trigger Exp(i)} :: i < n && Exp(i) == a
  {
    hide Walk, Exp;
    if n > 0 {
      PowersCount(n - 1);
      forall i: nat | i < n - 1 ensures Exp(i) != Exp(n - 1) {
        PowersDistinct(i, n - 1);
      }
    }
  }

  lemma {:induction false} BytesCount(n: nat)
    requires 1 <= n <= 256
    ensures |NonzeroBytes(n)| <= n - 1
    ensures forall a: bv8 :: 0 < Index(a) < n ==> a in NonzeroBytes(n)
  {
    hide Index, ByteAt;
    if n > 1 {
      BytesCount(n - 1);
      forall a: bv8 | 0 < Index(a) < n ensures a in NonzeroBytes(n) {
        ByteOfIndex(a);
      }
    }
  }

  /** The table walk meets every nonzero byte. */
  lemma {:induction false} LogExists(a: bv8)
    requires a != 0
    ensures exists i: nat :: i < 255 && Exp(i) == a
  {
    hide Walk, Exp, Powers, NonzeroBytes, Index;
    PowersCount(255);
    BytesCount(256);
    forall b | b in Powers(255) ensures b in NonzeroBytes(256) {
      var i: nat :| i < 255 && Exp(i) == b;
      PowerNonzero(i);
      NonzeroIndex(b);
    }
    SubsetCount(Powers(255), NonzeroBytes(256));
    NonzeroIndex(a);
    assert a in Powers(255);
  }

  lemma {:induction false} SubsetCount(s: set<bv8>, t: set<bv8>)
    requires s <= t && |t| <= |s|
    ensures s == t
  {
    var missing := t - s;
    assert t == missing + s;
  }

  // ------------------------------------------------------ the field operations

  function LogFrom(a: bv8, i: nat): (n: nat)
    requires exists j: nat :: i <= j < 255 && Exp(j) == a
    ensures n < 255 && Exp(n) == a
    decreases 255 - i
  {
    if Exp(i) == a then i else LogFrom(a, i + 1)
  }

  /** The discrete logarithm: the walk position where `a` was met. */
  function Log(a: bv8): (n: nat)
    requires a != 0
    ensures n < 255 && Exp(n) == a
  {
    LogExists(a);
    LogFrom(a, 0)
  }

  /** The multiply-table entry. */
  function Mul(a: bv8, b: bv8): bv8 {
    if a == 0 || b == 0 then 0 else Exp(Log(a) + Log(b))
  }

  function Inv(a: bv8): bv8 {
    if a == 0 then 0 else Exp(255 - Log(a))
  }

  lemma {:induction false} MulWalk(a: bv8, b: bv8)
    requires b != 0
    ensures Mul(a, b) == Walk(a, Log(b))
  {
    hide Times3, Log;
    if a == 0 {
      WalkZero(Log(b));
    } else {
      WalkAdd(1, Log(a), Log(b));
    }
  }

  /** The table product is the polynomial product modulo 0x11B. */
  lemma {:induction false} MulIsPolyMul(a: bv8, b: bv8)
    ensures Mul(a, b) == PolyMul(a, b)
  {
    if b == 0 {
      hide Xtime;
    } else {
      hide PolyMul, Walk, Log;
      MulWalk(a, b);
      WalkIsPolyMul(a, Log(b));
    }
  }

  lemma {:induction false} MulCommutes(a: bv8, b: bv8)
    ensures Mul(a, b) == Mul(b, a)
  {
    hide Walk, Log;
  }

  lemma {:induction false} MulNonzero(a: bv8, b: bv8)
    ensures Mul(a, b) == 0 <==> a == 0 || b == 0
  {
    hide Walk, Log;
    if a != 0 && b != 0 {
      PowerNonzero(Log(a) + Log(b));
    }
  }

  lemma {:induction false} MulAssociates(a: bv8, b: bv8, c: bv8)
    ensures Mul(Mul(a, b), c) == Mul(a, Mul(b, c))
  {
    MulNonzero(a, b);
    MulNonzero(b, c);
    if a != 0 && b != 0 && c != 0 {
      MulWalk(Mul(a, b), c);
      WalkAdd(1, Log(a) + Log(b), Log(c));
      MulCommutes(a, Mul(b, c));
      MulWalk(Mul(b, c), a);
      WalkAdd(1, Log(b) + Log(c), Log(a));
      hide Walk, Log;
    }
  }

  lemma {:induction false} MulDistributes(a: bv8, b: bv8, c: bv8)
    ensures Mul(Add(a, b), c) == Add(Mul(a, c), Mul(b, c))
    ensures Mul(c, Add(a, b)) == Add(Mul(c, a), Mul(c, b))
  {
    MulCommutes(Add(a, b), c);
    MulCommutes(a, c);
    MulCommutes(b, c);
    if c != 0 {
      MulWalk(Add(a, b), c);
      MulWalk(a, c);
      MulWalk(b, c);
      WalkLinear(a, b, Log(c));
      hide Walk, Log, Mul, Add;
    } else {
      hide Walk, Log;
    }
  }

  lemma {:induction false} MulUnits(a: bv8)
    ensures Mul(a, 1) == a && Mul(1, a) == a
    ensures Mul(a, 0) == 0 && Mul(0, a) == 0
  {
    MulCommutes(a, 1);
    if a != 0 {
      MulWalk(1, a);
      hide Walk, Log;
    }
  }

  /** `Inv` is the multiplicative inverse. */
  lemma {:induction false} MulInverse(a: bv8)
    requires a != 0
    ensures Mul(a, Inv(a)) == 1 && Mul(Inv(a), a) == 1
    ensures Inv(a) != 0
  {
    KeyPowers();
    MulCommutes(a, Inv(a));
    MulWalk(Inv(a), a);
    WalkAdd(1, 255 - Log(a), Log(a));
    PowerNonzero(255 - Log(a));
    hide Walk, Log;
  }

  // ------------------------------------------------------------------ the tables

  /** The 16-bit step of the table walk. */
  function WideStep(g: bv16): bv16 {
    (((g << 1) ^ (if g & 0x80 != 0 then 0x11B else 0)) ^ g) & 0xFF
  }

  lemma {:induction false} WideStepIsTimes3(g: bv8)
    ensures WideStep(g as bv16) == Times3(g) as bv16
  {
  }

  lemma {:induction false} ExpStep(n: nat)
    ensures Exp(0) == 1 && Exp(n + 1) == Times3(Exp(n))
  {
  }

  // --------------------------------------------------------- bytes and their numbers

  function Bit(on: bool, value: nat): nat { if on then value else 0 }

  function Flag(on: bool, mask: bv8): bv8 { if on then mask else 0 }

  function Nibble(a: bool, b: bool, c: bool, d: bool): (n: nat)
    ensures n < 16
  {
    Bit(a, 8) + Bit(b, 4) + Bit(c, 2) + Bit(d, 1)
  }

  /** The number of a byte, bit by bit. */
  function Index(b: bv8): (i: nat)
    ensures i < 256
  {
    16 * Nibble(b & 0x80 != 0, b & 0x40 != 0, b & 0x20 != 0, b & 0x10 != 0)
    + Nibble(b & 0x08 != 0, b & 0x04 != 0, b & 0x02 != 0, b & 0x01 != 0)
  }

  type Four = (bool, bool, bool, bool)

  function NibbleDigits(n: nat): Four
    requires n < 16
  {
    var a := n >= 8; var r3 := n - Bit(a, 8);
    var b := r3 >= 4; var r2 := r3 - Bit(b, 4);
    var c := r2 >= 2; var r1 := r2 - Bit(c, 2);
    (a, b, c, r1 >= 1)
  }

  /** The eight binary digits of a number below 256, highest first. */
  function Digits(i: nat): (Four, Four)
    requires i < 256
  {
    (NibbleDigits(i / 16), NibbleDigits(i % 16))
  }

  function FromDigits(d: (Four, Four)): bv8 {
    Flag(d.0.0, 0x80) | Flag(d.0.1, 0x40) | Flag(d.0.2, 0x20) | Flag(d.0.3, 0x10)
    | Flag(d.1.0, 0x08) | Flag(d.1.1, 0x04) | Flag(d.1.2, 0x02) | Flag(d.1.3, 0x01)
  }

  /** The byte of a number below 256. */
  function ByteAt(i: nat): bv8
    requires i < 256
  {
    FromDigits(Digits(i))
  }

  function DigitsOf(b: bv8): (Four, Four) {
    ((b & 0x80 != 0, b & 0x40 != 0, b & 0x20 != 0, b & 0x10 != 0),
     (b & 0x08 != 0, b & 0x04 != 0, b & 0x02 != 0, b & 0x01 != 0))
  }

  function NumberOf(d: (Four, Four)): (i: nat)
    ensures i < 256
  {
    16 * Nibble(d.0.0, d.0.1, d.0.2, d.0.3) + Nibble(d.1.0, d.1.1, d.1.2, d.1.3)
  }

  lemma {:induction false} IndexIsNumber(b: bv8)
    ensures Index(b) == NumberOf(DigitsOf(b))
  {
    hide Nibble;
  }

  lemma {:induction false} DigitsRoundTrip(d: (Four, Four))
    ensures DigitsOf(FromDigits(d)) == d
  {
  }

  lemma {:induction false} ByteRoundTrip(b: bv8)
    ensures FromDigits(DigitsOf(b)) == b
  {
  }

  lemma {:induction false} NibbleRoundTrip(n: nat)
    requires n < 16
    ensures var d := NibbleDigits(n); Nibble(d.0, d.1, d.2, d.3) == n
  {
  }

  lemma {:induction false} DigitsOfNibble(a: bool, b: bool, c: bool, d: bool)
    ensures NibbleDigits(Nibble(a, b, c, d)) == (a, b, c, d)
  {
  }

  lemma {:induction false} NumberRoundTrip(i: nat)
    requires i < 256
    ensures NumberOf(Digits(i)) == i
  {
    hide Nibble, NibbleDigits;
    NibbleRoundTrip(i / 16);
    NibbleRoundTrip(i % 16);
  }

  lemma {:induction false} DigitsOfNumber(d: (Four, Four))
    ensures Digits(NumberOf(d)) == d
  {
    hide Nibble, NibbleDigits;
    DigitsOfNibble(d.0.0, d.0.1, d.0.2, d.0.3);
    DigitsOfNibble(d.1.0, d.1.1, d.1.2, d.1.3);
  }

  lemma {:induction false} ZeroByte()
    ensures Index(0) == 0
  {
  }

  lemma {:induction false} IndexOfByte(i: nat)
    requires i < 256
    ensures Index(ByteAt(i)) == i
    ensures ByteAt(i) == 0 <==> i == 0
  {
    hide Index, Digits, FromDigits, DigitsOf, NumberOf;
    IndexIsNumber(ByteAt(i));
    DigitsRoundTrip(Digits(i));
    NumberRoundTrip(i);
    ZeroByte();
    if i == 0 {
      ByteOfIndex(0);
    }
  }

  lemma {:induction false} ByteOfIndex(b: bv8)
    ensures ByteAt(Index(b)) == b
  {
    hide Index, Digits, FromDigits, DigitsOf, NumberOf;
    IndexIsNumber(b);
    DigitsOfNumber(DigitsOf(b));
    ByteRoundTrip(b);
  }

  lemma {:induction false} IndexIsNat(b: bv8)
    ensures Index(b) == b as nat
  {
  }

  lemma {:induction false} NonzeroIndex(b: bv8)
    requires b != 0
    ensures Index(b) > 0
  {
    hide Index, ByteAt;
    ByteOfIndex(b);
    IndexOfByte(0);
  }

  lemma {:induction false} IndexInjective(a: bv8, b: bv8)
    requires a != b
    ensures Index(a) != Index(b)
  {
    hide Index, ByteAt;
    ByteOfIndex(a);
    ByteOfIndex(b);
  }

  /** A power below the order is none of the earlier ones. */
  lemma {:induction false} NewPower(i: nat)
    requires i < 255
    ensures forall j: nat :: j < i ==> Index(Exp(j)) != Index(Exp(i))
  {
    hide Index, Exp;
    forall j: nat | j < i ensures Index(Exp(j)) != Index(Exp(i)) {
      PowersDistinct(j, i);
      IndexInjective(Exp(j), Exp(i));
    }
  }

  lemma {:induction false} NarrowWide(e: bv8)
    ensures (e as bv16) as bv8 == e
  {
  }

  /** Walks the powers of 3 through the exp and log tables. */
  method WalkTables() returns (exp: array<bv8>, log: array<nat>)
    ensures fresh(exp) && fresh(log)
    ensures exp.Length == 512 && log.Length == 256
    ensures forall i: nat :: i < 255 ==> exp[i] == Exp(i)
    ensures forall i: nat :: i < 255 ==> log[Index(Exp(i))] == i
  {
    hide Walk, WideStep, Times3, Index, Exp;
    exp := new bv8[512](_ => 0);
    log := new nat[256](_ => 0);
    var g: bv16 := 1;
    ExpStep(0);
    for i := 0 to 255
      invariant g == Exp(i) as bv16
      invariant forall j: nat :: j < i ==> exp[j] == Exp(j)
      invariant forall j: nat :: j < i ==> log[Index(Exp(j))] == j
    {
      ghost var e := Exp(i);
      NewPower(i);
      var byte := g as bv8;
      NarrowWide(e);
      exp[i] := byte;
      log[Index(byte)] := i;
      WideStepIsTimes3(e);
      ExpStep(i);
      g := WideStep(g);
    }
  }

  /** Builds the exp, log and multiply tables: the multiply table holds every product. */
  method BuildTables() returns (exp: array<bv8>, log: array<nat>, mul: array2<bv8>)
    ensures exp.Length == 512 && log.Length == 256 && mul.Length0 == mul.Length1 == 256
    ensures forall i: nat :: i <= 510 ==> exp[i] == Exp(i)
    ensures forall a: nat :: 0 < a < 256 ==> ByteAt(a) != 0 && log[a] == Log(ByteAt(a))
    ensures forall a: nat, b: nat :: a < 256 && b < 256 ==> mul[a, b] == Mul(ByteAt(a), ByteAt(b))
  {
    hide Exp, Log, Index, ByteAt, Mul;
    exp, log := WalkTables();
    for i := 0 to 256
      invariant forall j: nat :: j < 255 + i ==> exp[j] == Exp(j)
      invariant forall j: nat :: j < 255 ==> log[Index(Exp(j))] == j
    {
      DoubledPower(i);
      exp[255 + i] := exp[i];
    }
    forall a: nat | 0 < a < 256 ensures ByteAt(a) != 0 && log[a] == Log(ByteAt(a)) {
      IndexOfByte(a);
      assert log[Index(Exp(Log(ByteAt(a))))] == Log(ByteAt(a));
    }
    log[0] := 0;
    mul := FillProducts(exp, log);
  }

  /** Fills the multiply table, row by row, from the other two. */
  method FillProducts(exp: array<bv8>, log: array<nat>) returns (mul: array2<bv8>)
    requires exp.Length == 512 && log.Length == 256
    requires forall i: nat :: i <= 510 ==> exp[i] == Exp(i)
    requires forall a: nat :: 0 < a < 256 ==> ByteAt(a) != 0 && log[a] == Log(ByteAt(a))
    ensures mul.Length0 == mul.Length1 == 256
    ensures forall a: nat, b: nat :: a < 256 && b < 256 ==> mul[a, b] == Mul(ByteAt(a), ByteAt(b))
  {
    hide Exp, Log, ByteAt, Mul;
    mul := new bv8[256, 256]((_, _) => 0);
    for a := 1 to 256
      invariant forall c: nat, d: nat :: 0 < c < a && 0 < d < 256 ==> mul[c, d] == Mul(ByteAt(c), ByteAt(d))
      invariant forall c: nat, d: nat :: c < 256 && d < 256 && (c == 0 || d == 0) ==> mul[c, d] == 0
    {
      var la := log[a];
      for b := 1 to 256
        invariant forall c: nat, d: nat :: 0 < c < a && 0 < d < 256 ==> mul[c, d] == Mul(ByteAt(c), ByteAt(d))
        invariant forall d: nat :: 0 < d < b ==> mul[a, d] == Mul(ByteAt(a), ByteAt(d))
        invariant forall c: nat, d: nat :: c < 256 && d < 256 && (c == 0 || d == 0) ==> mul[c, d] == 0
      {
        assert la == Log(ByteAt(a)) && log[b] == Log(ByteAt(b));
        mul[a, b] := exp[la + log[b]];
        MulByLogs(ByteAt(a), ByteAt(b));
      }
    }
    forall a: nat | a < 256 ensures Mul(ByteAt(a), ByteAt(0)) == 0 && Mul(ByteAt(0), ByteAt(a)) == 0 {
      IndexOfByte(0);
      MulUnits(ByteAt(a));
    }
  }

  lemma {:induction false} DoubledPower(i: nat)
    ensures Exp(255 + i) == Exp(i)
  {
    KeyPowers();
    WalkAdd(1, 255, i);
    hide Walk;
  }

  lemma {:induction false} MulByLogs(a: bv8, b: bv8)
    requires a != 0 && b != 0
    ensures Mul(a, b) == Exp(Log(a) + Log(b))
  {
  }
}
