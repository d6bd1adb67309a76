/**
  The homomorphic hash over GF(1321) (`crates/coding/src/homohash.rs`): products of
  powers of generators in the order-1321 subgroup modulo the Mersenne number 2^61 - 1.
 */
module HomoHash {
  import opened Results
  import opened Modular

  const P: nat := 0x1FFF_FFFF_FFFF_FFFF
  const Q: nat := 1321

  // ------------------------------------------------------------------ modular arithmetic

  function Mul(a: nat, b: nat): (r: nat)
    ensures r < P
  {
    a * b % P
  }

  /** Splits at bit 61 and folds the high part onto the low one. */
  function MReduce(x: nat): nat {
    var lo, hi := x % (P + 1), x / (P + 1);
    var s := lo + hi;
    if s >= P then s - P else s
  }

  lemma {:induction false} ModUnique(x: int, q: int, r: int)
    requires x == q * P + r && 0 <= r < P
    ensures x % P == r
  {
    Euclid(P, x, q, r);
  }

  /** Folding the part above m + 1 onto the part below it, for a product of two residues mod m. */
  lemma {:induction false} Fold(m: nat, a: nat, b: nat)
    requires a < m && b < m
    ensures
      var lo, hi := a * b % (m + 1), a * b / (m + 1);
      var s := lo + hi;
      a * b % m == if s >= m then s - m else s
  {
    var x := a * b;
    var lo, hi := x % (m + 1), x / (m + 1);
    assert x == hi * (m + 1) + lo;
    FoldBound(m, a, b, hi, lo);
    assert x == hi * m + (lo + hi);
    if lo + hi >= m {
      assert x == (hi + 1) * m + (lo + hi - m);
      Euclid(m, x, hi + 1, lo + hi - m);
    } else {
      Euclid(m, x, hi, lo + hi);
    }
  }

  lemma {:induction false} FoldBound(m: nat, a: nat, b: nat, hi: nat, lo: nat)
    requires a < m && b < m && a * b == hi * (m + 1) + lo
    ensures hi < m
  {
    MulLe(a, m, b);
    MulLe(b, m, m);
    assert b * m == m * b && m * (m + 1) == m * m + m;
    if hi >= m {
      MulLe(m, hi, m + 1);
      assert false;
    }
  }

  /** One fold is enough for a product of two residues. */
  lemma {:induction false} MersenneReduction(a: nat, b: nat)
    requires a < P && b < P
    ensures MReduce(a * b) == Mul(a, b)
  {
    Fold(P, a, b);
  }

  function Product(a: nat, b: nat): nat { a * b }

  function MulMod(a: nat, b: nat): (r: nat)
    requires a < P && b < P
    ensures r == Mul(a, b)
  {
    MersenneReduction(a, b);
    var x: nat := Product(a, b);
    MReduce(x)
  }

  lemma {:induction false} MulCommutes(a: nat, b: nat)
    ensures Mul(a, b) == Mul(b, a)
  {
    assert a * b == b * a;
  }

  /** Reducing a factor first makes no difference. */
  lemma {:induction false} MulReduced(a: nat, b: nat)
    ensures Mul(a % P, b) == Mul(a, b)
  {
    var d := a / P;
    assert a == d * P + a % P;
    assert a * b == (a % P) * b + (d * b) * P by {
      assert (d * P + a % P) * b == d * P * b + (a % P) * b;
      assert d * P * b == (d * b) * P;
    }
    ModAdd(P, (a % P) * b, d * b);
  }

  lemma {:induction false} MulAssociates(a: nat, b: nat, c: nat)
    ensures Mul(Mul(a, b), c) == Mul(a, Mul(b, c))
  {
    MulReduced(a * b, c);
    MulReduced(b * c, a);
    MulCommutes(a, b * c);
    MulCommutes(a, Mul(b, c));
    assert a * b * c == a * (b * c);
  }

  lemma {:induction false} MulOne(a: nat)
    requires a < P
    ensures Mul(1, a) == a && Mul(a, 1) == a
  {
  }

  /** (ab)(cd) = (ac)(bd) */
  lemma {:induction false} MulSwap(a: nat, b: nat, c: nat, d: nat)
    ensures Mul(Mul(a, b), Mul(c, d)) == Mul(Mul(a, c), Mul(b, d))
  {
    hide Mul;
    MulAssociates(a, b, Mul(c, d));
    MulAssociates(b, c, d);
    MulCommutes(b, c);
    MulAssociates(c, b, d);
    MulAssociates(a, c, Mul(b, d));
  }

  // ------------------------------------------------------------------------------ powers

  function Pow(b: nat, e: nat): (r: nat)
    ensures r < P
  {
    if e == 0 then 1 else Mul(b, Pow(b, e - 1))
  }

  lemma {:induction false} PowZero(b: nat)
    ensures Pow(b, 0) == 1
  {
  }

  lemma {:induction false} PowStep(b: nat, e: nat)
    ensures Pow(b, e + 1) == Mul(b, Pow(b, e))
  {
  }

  lemma {:induction false} PowAdd(b: nat, x: nat, y: nat)
    ensures Pow(b, x + y) == Mul(Pow(b, x), Pow(b, y))
    decreases x
  {
    hide Mul, Pow;
    if x == 0 {
      PowZero(b);
      MulOne(Pow(b, y));
    } else {
      PowAdd(b, x - 1, y);
      PowStep(b, x - 1);
      PowStep(b, x - 1 + y);
      MulAssociates(b, Pow(b, x - 1), Pow(b, y));
    }
  }

  lemma {:induction false} PowOfOne(e: nat)
    ensures Pow(1, e) == 1
  {
    hide Mul;
    if e > 0 {
      PowOfOne(e - 1);
      MulOne(1);
    }
  }

  lemma {:induction false} PowMul(b: nat, x: nat, y: nat)
    ensures Pow(b, x * y) == Pow(Pow(b, x), y)
    decreases y
  {
    hide Mul, Pow;
    if y == 0 {
      PowZero(b);
      PowZero(Pow(b, x));
    } else {
      PowMul(b, x, y - 1);
      assert x * y == x + x * (y - 1);
      PowAdd(b, x, x * (y - 1));
      PowStep(Pow(b, x), y - 1);
    }
  }

  lemma {:induction false} PowOfProduct(a: nat, b: nat, e: nat)
    ensures Pow(Mul(a, b), e) == Mul(Pow(a, e), Pow(b, e))
  {
    hide Mul, Pow;
    if e == 0 {
      PowZero(a);
      PowZero(b);
      PowZero(Mul(a, b));
      MulOne(1);
    } else {
      PowOfProduct(a, b, e - 1);
      PowStep(Mul(a, b), e - 1);
      PowStep(a, e - 1);
      PowStep(b, e - 1);
      MulSwap(a, b, Pow(a, e - 1), Pow(b, e - 1));
    }
  }

  lemma {:induction false} PowReduced(b: nat, e: nat)
    ensures Pow(b % P, e) == Pow(b, e)
  {
    hide Mul;
    if e > 0 {
      PowReduced(b, e - 1);
      MulReduced(b, Pow(b, e - 1));
    }
  }

  /** In the subgroup exponents count modulo Q. */
  lemma {:induction false} PowModQ(b: nat, e: nat)
    requires Pow(b, Q) == 1
    ensures Pow(b, e % Q) == Pow(b, e)
  {
    hide Mul, Pow;
    var d := e / Q;
    assert e == Q * d + e % Q;
    PowAdd(b, Q * d, e % Q);
    PowMul(b, Q, d);
    PowOfOne(d);
    MulOne(Pow(b, e % Q));
  }

  /** Square-and-multiply. */
  method PowMod(base0: nat, exp0: nat) returns (result: nat)
    ensures result == Pow(base0, exp0)
  {
    hide Mul, Pow;
    result := 1;
    var base: nat, exp: nat := base0 % P, exp0;
    PowReduced(base0, exp0);
    MulOne(Pow(base, exp));
    while exp > 0
      invariant base < P && result < P && Mul(result, Pow(base, exp)) == Pow(base0, exp0)
    {
      var half := exp / 2;
      SquarePower(base, half);
      if exp % 2 == 1 {
        PowStep(base, 2 * half);
        MulAssociates(result, base, Pow(base, 2 * half));
        result := MulMod(result, base);
      }
      base := MulMod(base, base);
      exp := half;
    }
    PowZero(base);
    MulOne(result);
  }

  lemma {:induction false} SquarePower(b: nat, e: nat)
    ensures Pow(b, 2 * e) == Pow(Mul(b, b), e)
  {
    hide Mul, Pow;
    PowOfProduct(b, b, e);
    PowAdd(b, e, e);
  }

  // -------------------------------------------------------------------------- generator

  /** The generator the search ends at: 3^((P-1)/Q). */
  const G: nat := 234060095121088422

  const COFACTOR: nat := 1745528394559950

  /** Squaring, on literals: q is the quotient. */
  lemma {:induction false} Square(b: nat, e: nat, v: nat, q: nat, w: nat)
    requires Pow(b, e) == v && v * v == q * 0x1FFF_FFFF_FFFF_FFFF + w && w < 0x1FFF_FFFF_FFFF_FFFF
    ensures Pow(b, 2 * e) == w
  {
    hide Pow;
    PowAdd(b, e, e);
    ModUnique(v * v, q, w);
  }

  /** One more factor, on literals. */
  lemma {:induction false} Times(b: nat, e: nat, v: nat, q: nat, w: nat)
    requires Pow(b, e) == v && v * b == q * 0x1FFF_FFFF_FFFF_FFFF + w && w < 0x1FFF_FFFF_FFFF_FFFF
    ensures Pow(b, e + 1) == w
  {
    hide Pow;
    PowStep(b, e);
    MulCommutes(b, v);
    ModUnique(v * b, q, w);
  }

  lemma {:induction false} PowersOfThree0()
    ensures Pow(3, 1587) == 1570832954473770471
  {
    hide Pow;
    PowZero(3);
    Times(3, 0, 1, 0, 3);
    Square(3, 1, 3, 0, 9);
    Times(3, 2, 9, 0, 27);
    Square(3, 3, 27, 0, 729);
    Square(3, 6, 729, 0, 531441);
    Square(3, 12, 531441, 0, 282429536481);
    Square(3, 24, 282429536481, 34593, 415859143195016418);
    Times(3, 48, 415859143195016418, 0, 1247577429585049254);
    Square(3, 49, 1247577429585049254, 675002346903398665, 1155415700553981101);
    Times(3, 98, 1155415700553981101, 1, 1160404092448249352);
    Square(3, 99, 1160404092448249352, 583967621555390495, 1328180634344024159);
    Square(3, 198, 1328180634344024159, 765040720637807234, 1464718860165815747);
    Square(3, 396, 1464718860165815747, 930419517179983991, 766299625799629568);
    Times(3, 792, 766299625799629568, 0, 2298898877398888704);
    Square(3, 793, 2298898877398888704, 2291975658094808909, 523610984824590157);
    Times(3, 1586, 523610984824590157, 0, 1570832954473770471);
  }

  lemma {:induction false} PowersOfThree1()
    requires Pow(3, 1587) == 1570832954473770471
    ensures Pow(3, 3251299) == 951799204475654422
  {
    hide Pow;
    Square(3, 1587, 1570832954473770471, 1070114557236154686, 668161418293057455);
    Times(3, 3174, 668161418293057455, 0, 2004484254879172365);
    Square(3, 3175, 2004484254879172365, 1742511138877862240, 264425218880382985);
    Square(3, 6350, 264425218880382985, 30323268366731445, 581067495839521030);
    Square(3, 12700, 581067495839521030, 146427763456606191, 1816030946806410259);
    Square(3, 25400, 1816030946806410259, 1430265801522720984, 1960474614478879297);
    Times(3, 50800, 1960474614478879297, 2, 1269737825009249989);
    Square(3, 50801, 1269737825009249989, 699195104704462116, 1100251171398639805);
    Times(3, 101602, 1100251171398639805, 1, 994910504982225464);
    Square(3, 101603, 994910504982225464, 429277669368102604, 1553077619307866892);
    Square(3, 203206, 1553077619307866892, 1046059979780459906, 1170198575279511058);
    Square(3, 406412, 1170198575279511058, 593867275488611403, 1420812678333556111);
    Square(3, 812824, 1420812678333556111, 875475328913118301, 1988333700714347070);
    Times(3, 1625648, 1988333700714347070, 2, 1353315083715653308);
    Square(3, 1625649, 1353315083715653308, 794269908443092556, 1854495074301014108);
    Times(3, 3251298, 1854495074301014108, 2, 951799204475654422);
  }

  lemma {:induction false} PowersOfThree2()
    requires Pow(3, 3251299) == 951799204475654422
    ensures Pow(3, 832332799) == 1685946526559247591
  {
    hide Pow;
    Square(3, 3251299, 951799204475654422, 392880921216493945, 1807254482693527389);
    Times(3, 6502598, 1807254482693527389, 2, 810077429653194265);
    Square(3, 6502599, 810077429653194265, 284592419957203697, 522441735905153378);
    Times(3, 13005198, 522441735905153378, 0, 1567325207715460134);
    Square(3, 13005199, 1567325207715460134, 1065340657158612917, 1764770998429932889);
    Times(3, 26010398, 1764770998429932889, 2, 682626976862410765);
    Square(3, 26010399, 682626976862410765, 202086433325404953, 557518177506345922);
    Times(3, 52020798, 557518177506345922, 0, 1672554532519037766);
    Square(3, 52020799, 1672554532519037766, 1213195630869909059, 16864261705868647);
    Times(3, 104041598, 16864261705868647, 0, 50592785117605941);
    Square(3, 104041599, 50592785117605941, 1110062521918653, 256389829298327478);
    Times(3, 208083198, 256389829298327478, 0, 769169487894982434);
    Square(3, 208083199, 769169487894982434, 256575013452618361, 259119855311330045);
    Times(3, 416166398, 259119855311330045, 0, 777359565933990135);
    Square(3, 416166399, 777359565933990135, 262068099317458428, 561982175519749197);
    Times(3, 832332798, 561982175519749197, 0, 1685946526559247591);
  }

  lemma {:induction false} PowersOfThree3()
    requires Pow(3, 832332799) == 1685946526559247591
    ensures Pow(3, 1704617572812) == 1427416772757662333
  {
    hide Pow;
    Square(3, 832332799, 1685946526559247591, 1232701306662881718, 885532318674215463);
    Square(3, 1664665598, 885532318674215463, 340078437379801507, 361022523921720212);
    Square(3, 3329331196, 361022523921720212, 56524777384239535, 1152443494844772159);
    Times(3, 6658662392, 1152443494844772159, 1, 1151487475320622526);
    Square(3, 6658662393, 1151487475320622526, 575027614855882561, 2126996615126532165);
    Times(3, 13317324786, 2126996615126532165, 2, 1769303826952208593);
    Square(3, 13317324787, 1769303826952208593, 1357610218717894423, 366215019931304376);
    Times(3, 26634649574, 366215019931304376, 0, 1098645059793913128);
    Square(3, 26634649575, 1098645059793913128, 523461902040404828, 2116530637475948956);
    Square(3, 53269299150, 2116530637475948956, 1942761029902877738, 1793048620614327098);
    Square(3, 106538598300, 1793048620614327098, 1394294122817703454, 170359913505494850);
    Times(3, 213077196600, 170359913505494850, 0, 511079740516484550);
    Square(3, 213077196601, 511079740516484550, 113278527689302131, 322248238582592919);
    Times(3, 426154393202, 322248238582592919, 0, 966744715747778757);
    Square(3, 426154393203, 966744715747778757, 405316121562393818, 2236428989434070131);
    Square(3, 852308786406, 2236428989434070131, 2169104576849174228, 1427416772757662333);
  }

  lemma {:induction false} PowersOfThree4()
    requires Pow(3, 1704617572812) == 1427416772757662333
    ensures Pow(3, 1745528394559950) == 234060095121088422
  {
    hide Pow;
    Square(3, 1704617572812, 1427416772757662333, 883632855753135460, 1397450625761400429);
    Square(3, 3409235145624, 1397450625761400429, 846921600316089694, 2256729561700143047);
    Times(3, 6818470291248, 2256729561700143047, 2, 2158502666673041239);
    Square(3, 6818470291249, 2158502666673041239, 2020577178679402910, 941680097235857711);
    Times(3, 13636940582498, 941680097235857711, 1, 519197282493879182);
    Square(3, 13636940582499, 519197282493879182, 116905538266003856, 2014996537443114068);
    Times(3, 27273881164998, 2014996537443114068, 2, 1433303593901954302);
    Square(3, 27273881164999, 1433303593901954302, 890936279739533056, 1561548161264562948);
    Square(3, 54547762329998, 1561548161264562948, 1057501594950411386, 810415277304724618);
    Square(3, 109095524659996, 810415277304724618, 284829851409900249, 1648701719090552125);
    Times(3, 218191049319992, 1648701719090552125, 2, 334419138844268473);
    Square(3, 218191049319993, 334419138844268473, 48501203238237326, 1287074940033136703);
    Times(3, 436382098639986, 1287074940033136703, 1, 1555381810885716158);
    Square(3, 436382098639987, 1555381810885716158, 1049166212950072191, 1773394061312264323);
    Times(3, 872764197279974, 1773394061312264323, 2, 708496165509405067);
    Square(3, 872764197279975, 708496165509405067, 217693405203983917, 234060095121088422);
  }

  lemma {:induction false} ThreeSucceeds()
    ensures Pow(3, COFACTOR) == G
  {
    hide Pow;
    PowersOfThree0();
    PowersOfThree1();
    PowersOfThree2();
    PowersOfThree3();
    PowersOfThree4();
  }

  lemma {:induction false} PowersOfG0()
    ensures Pow(G, 1321) == 1
  {
    hide Pow;
    PowZero(G);
    Times(G, 0, 1, 0, 234060095121088422);
    Square(G, 1, 234060095121088422, 23758828293681047, 1138144871675203387);
    Square(G, 2, 1138144871675203387, 561778813104147651, 925218022786712668);
    Times(G, 4, 925218022786712668, 93916462463353220, 1232610417245157676);
    Square(G, 5, 1232610417245157676, 658903678450937406, 2052015042159889870);
    Square(G, 10, 2052015042159889870, 1826128542327064373, 1413654373430909177);
    Square(G, 20, 1413654373430909177, 866675953018071667, 1399396648900431012);
    Times(G, 40, 1399396648900431012, 142049095035945800, 1189989421339087264);
    Square(G, 41, 1189989421339087264, 614124559755620835, 606841734917936611);
    Square(G, 82, 606841734917936611, 159705968605290702, 1236305722200221719);
    Times(G, 164, 1236305722200221719, 125494161476156449, 2270811616122897419);
    Square(G, 165, 2270811616122897419, 2236312435544825414, 2278904677273990847);
    Square(G, 330, 2278904677273990847, 2252281056147120177, 1173230281344828082);
    Square(G, 660, 1173230281344828082, 596948399160031538, 125558427495972086);
    Times(G, 1320, 125558427495972086, 12745107696201341, 1);
  }

  /** The generator's Q-th power is one. */
  lemma {:induction false} GeneratorPowers()
    ensures Pow(G, Q) == 1
  {
    hide Pow;
    PowersOfG0();
  }

  /** Two has order 61, which divides the exponent, so the search passes it over. */
  lemma {:induction false} TwoFails()
    ensures Pow(2, COFACTOR) == 1
  {
    hide Pow, Mul;
    SixtyOneTwos();
    PowMul(2, 61, 28615219582950);
    PowOfOne(28615219582950);
  }

  lemma {:induction false} PowersOfTwo0()
    ensures Pow(2, 61) == 1
  {
    hide Pow;
    PowZero(2);
    Times(2, 0, 1, 0, 2);
    Square(2, 1, 2, 0, 4);
    Times(2, 2, 4, 0, 8);
    Square(2, 3, 8, 0, 64);
    Times(2, 6, 64, 0, 128);
    Square(2, 7, 128, 0, 16384);
    Times(2, 14, 16384, 0, 32768);
    Square(2, 15, 32768, 0, 1073741824);
    Square(2, 30, 1073741824, 0, 1152921504606846976);
    Times(2, 60, 1152921504606846976, 1, 1);
  }

  lemma {:induction false} SixtyOneTwos()
    ensures Pow(2, 61) == 1
  {
    hide Pow;
    PowersOfTwo0();
  }

  /** The search finds a generator of the subgroup of order Q. */
  method SubgroupGen() returns (g: nat)
    ensures g == G && g != 1 && Pow(g, Q) == 1
  {
    hide Pow;
    TwoFails();
    ThreeSucceeds();
    GeneratorPowers();
    assert (P - 1) / Q == COFACTOR;
    var bases: seq<nat> := [2, 3, 5, 7, 11, 13, 37, 41, 61];
    g := 1;
    for i := 0 to |bases|
      invariant i <= 1
    {
      assert bases[i] == if i == 0 then 2 else 3;
      g := PowMod(bases[i], (P - 1) / Q);
      if g != 1 {
        return;
      }
    }
  }

  // -------------------------------------------------------------------------------- hash

  /** g_i = g^(i+1) */
  predicate Generators(gens: seq<nat>) { forall i :: 0 <= i < |gens| ==> gens[i] == Pow(G, i + 1) }

  /** The product of g_i^(c_i) over the first n coordinates. */
  function HashTo(gens: seq<nat>, c: seq<nat>, n: nat): (r: nat)
    requires n <= |gens| && n <= |c|
    ensures r < P
  {
    if n == 0 then 1 else Mul(HashTo(gens, c, n - 1), Pow(gens[n - 1], c[n - 1]))
  }

  function HashOf(gens: seq<nat>, c: seq<nat>): (r: nat)
    requires |gens| == |c|
  {
    HashTo(gens, c, |c|)
  }

  lemma {:induction false} GeneratorOrder(gens: seq<nat>, i: nat)
    requires Generators(gens) && i < |gens|
    ensures gens[i] < P && Pow(gens[i], Q) == 1
  {
    hide Pow, Mul;
    GeneratorPowers();
    PowMul(G, i + 1, Q);
    assert (i + 1) * Q == Q * (i + 1);
    PowMul(G, Q, i + 1);
    PowOfOne(i + 1);
  }

  /** A linear combination over GF(Q). */
  function LinComb(a: nat, c: seq<nat>, b: nat, d: seq<nat>): (r: seq<nat>)
    requires |c| == |d|
    ensures |r| == |c|
  {
    seq(|c|, i requires 0 <= i < |c| => (a * c[i] + b * d[i]) % Q)
  }

  /** One coordinate of the combination. */
  lemma {:induction false} PowLinear(g: nat, a: nat, x: nat, b: nat, y: nat)
    requires Pow(g, Q) == 1
    ensures Pow(g, (a * x + b * y) % Q) == Mul(Pow(Pow(g, x), a), Pow(Pow(g, y), b))
  {
    hide Pow, Mul;
    PowModQ(g, a * x + b * y);
    PowAdd(g, a * x, b * y);
    assert a * x == x * a && b * y == y * b;
    PowMul(g, x, a);
    PowMul(g, y, b);
  }

  lemma {:induction false} HashToLinear(gens: seq<nat>, a: nat, c: seq<nat>, b: nat, d: seq<nat>, n: nat)
    requires Generators(gens) && |gens| == |c| == |d| && n <= |c|
    ensures HashTo(gens, LinComb(a, c, b, d), n) == Mul(Pow(HashTo(gens, c, n), a), Pow(HashTo(gens, d, n), b))
  {
    if n == 0 {
      PowOfOne(a);
      PowOfOne(b);
      MulOne(1);
    } else {
      hide Pow, Mul, Generators;
      var g, x, y := gens[n - 1], c[n - 1], d[n - 1];
      var hc, hd := HashTo(gens, c, n - 1), HashTo(gens, d, n - 1);
      HashToLinear(gens, a, c, b, d, n - 1);
      GeneratorOrder(gens, n - 1);
      PowLinear(g, a, x, b, y);
      MulSwap(Pow(hc, a), Pow(hd, b), Pow(Pow(g, x), a), Pow(Pow(g, y), b));
      PowOfProduct(hc, Pow(g, x), a);
      PowOfProduct(hd, Pow(g, y), b);
    }
  }

  /** A hash lies in the subgroup. */
  lemma {:induction false} HashOrder(gens: seq<nat>, c: seq<nat>, n: nat)
    requires Generators(gens) && n <= |gens| && n <= |c|
    ensures Pow(HashTo(gens, c, n), Q) == 1
  {
    if n == 0 {
      PowOfOne(Q);
    } else {
      hide Pow, Mul, Generators;
      HashOrder(gens, c, n - 1);
      var g, x := gens[n - 1], c[n - 1];
      PowOfProduct(HashTo(gens, c, n - 1), Pow(g, x), Q);
      GeneratorOrder(gens, n - 1);
      PowMul(g, x, Q);
      assert x * Q == Q * x;
      PowMul(g, Q, x);
      PowOfOne(x);
      MulOne(1);
    }
  }

  /** What `combine` computes. */
  function Combined(a: nat, h1: nat, b: nat, h2: nat): nat { Mul(Pow(h1, a % Q), Pow(h2, b % Q)) }

  method Combine(a: nat, h1: nat, b: nat, h2: nat) returns (r: nat)
    ensures r == Combined(a, h1, b, h2)
  {
    hide Pow, Mul;
    var lhs := PowMod(h1, a % Q);
    var rhs := PowMod(h2, b % Q);
    r := MulMod(lhs, rhs);
  }

  /** The hash of a linear combination is the combination of the hashes. */
  lemma {:induction false} HashIsLinear(gens: seq<nat>, a: nat, c: seq<nat>, b: nat, d: seq<nat>)
    requires Generators(gens) && |gens| == |c| == |d|
    ensures HashOf(gens, LinComb(a, c, b, d)) == Combined(a, HashOf(gens, c), b, HashOf(gens, d))
  {
    hide Pow, Mul, Generators, LinComb, HashTo;
    var h1, h2 := HashOf(gens, c), HashOf(gens, d);
    HashToLinear(gens, a, c, b, d, |c|);
    HashOrder(gens, c, |c|);
    HashOrder(gens, d, |c|);
    PowModQ(h1, a);
    PowModQ(h2, b);
  }

  /** The product of the hashes raised to the coefficients, over the first n of both lists. */
  function CombinedMany(coeffs: seq<nat>, hashes: seq<nat>, n: nat): (r: nat)
    requires n <= |coeffs| && n <= |hashes|
    ensures r < P
  {
    if n == 0 then 1 else Mul(CombinedMany(coeffs, hashes, n - 1), Pow(hashes[n - 1], coeffs[n - 1] % Q))
  }

  /** The sum of a_j times vector j over GF(Q), for the first n vectors of length k. */
  function LinSum(coeffs: seq<nat>, vectors: seq<seq<nat>>, k: nat, n: nat): (r: seq<nat>)
    requires n <= |coeffs| && n <= |vectors| && forall j :: 0 <= j < |vectors| ==> |vectors[j]| == k
    ensures |r| == k
  {
    if n == 0 then seq(k, _ => 0)
    else LinComb(1, LinSum(coeffs, vectors, k, n - 1), coeffs[n - 1], vectors[n - 1])
  }

  lemma {:induction false} HashOfZeros(gens: seq<nat>, c: seq<nat>, n: nat)
    requires n <= |gens| && n <= |c| && forall i :: 0 <= i < |c| ==> c[i] == 0
    ensures HashTo(gens, c, n) == 1
  {
    hide Mul;
    if n > 0 {
      HashOfZeros(gens, c, n - 1);
      MulOne(1);
    }
  }

  /** The hash of a whole combination is the combination of all the hashes. */
  lemma {:induction false} HashIsLinearMany(gens: seq<nat>, coeffs: seq<nat>, vectors: seq<seq<nat>>, hashes: seq<nat>,
                                            n: nat)
    requires Generators(gens) && n <= |coeffs| && n <= |vectors| && |hashes| == |vectors|
    requires forall j :: 0 <= j < |vectors| ==> |vectors[j]| == |gens| && hashes[j] == HashOf(gens, vectors[j])
    ensures HashOf(gens, LinSum(coeffs, vectors, |gens|, n)) == CombinedMany(coeffs, hashes, n)
  {
    hide Pow, Mul, Generators, LinComb, HashTo;
    if n == 0 {
      HashOfZeros(gens, LinSum(coeffs, vectors, |gens|, 0), |gens|);
    } else {
      HashIsLinearMany(gens, coeffs, vectors, hashes, n - 1);
      var before := LinSum(coeffs, vectors, |gens|, n - 1);
      HashIsLinear(gens, 1, before, coeffs[n - 1], vectors[n - 1]);
      assert 1 % Q == 1;
      PowOnce(HashOf(gens, before));
    }
  }

  lemma {:induction false} PowOnce(b: nat)
    requires b < P
    ensures Pow(b, 1) == b
  {
    hide Mul;
    PowZero(b);
    PowStep(b, 0);
    MulOne(b);
  }

  // --------------------------------------------------------------- the generator's order

  /** Q has no divisor from 2 to 36. */
  lemma {:induction false} NoSmallDivisor(d: nat)
    requires 2 <= d <= 36
    ensures Q % d != 0
  {
    if d <= 9 {
      assert d == 2 || d == 3 || d == 4 || d == 5 || d == 6 || d == 7 || d == 8 || d == 9;
    } else if d <= 18 {
      assert d == 10 || d == 11 || d == 12 || d == 13 || d == 14 || d == 15 || d == 16 || d == 17 || d == 18;
    } else if d <= 27 {
      assert d == 19 || d == 20 || d == 21 || d == 22 || d == 23 || d == 24 || d == 25 || d == 26 || d == 27;
    } else {
      assert d == 28 || d == 29 || d == 30 || d == 31 || d == 32 || d == 33 || d == 34 || d == 35 || d == 36;
    }
  }

  /** Q is prime. */
  lemma {:induction false} QIsPrime(d: nat)
    requires 1 < d < Q
    ensures Q % d != 0
  {
    var e := Q / d;
    assert Q == d * e + Q % d;
    if Q % d == 0 {
      Factors(Q, d, e);
      if d <= 36 {
        NoSmallDivisor(d);
      } else {
        assert Q == e * d + 0;
        Euclid(e, Q, d, 0);
        NoSmallDivisor(e);
      }
      assert false;
    }
  }

  /** One of two factors of a number below 37 * 37 is at most 36. */
  lemma {:induction false} Factors(n: nat, d: nat, e: nat)
    requires n < 37 * 37 && 1 < d < n && d * e == n
    ensures e >= 2 && (d > 36 ==> e <= 36)
  {
    assert d * 0 == 0 && d * 1 == d;
    if d > 36 {
      MulLe(37, d, e);
    }
  }

  /** Descent on the exponent: a power of one below Q would leave a smaller one. */
  lemma {:induction false} NoSmallerOrder(r: nat)
    requires 0 < r < Q
    ensures Pow(G, r) != 1
    decreases r
  {
    hide Mul, Pow;
    if r == 1 {
      PowOnce(G);
    } else {
      var q, s := Q / r, Q % r;
      QIsPrime(r);
      NoSmallerOrder(s);
      if Pow(G, r) == 1 {
        assert Q == r * q + s;
        PowAdd(G, r * q, s);
        PowMul(G, r, q);
        PowOfOne(q);
        MulOne(Pow(G, s));
        GeneratorPowers();
        assert false;
      }
    }
  }

  /** The generator has order exactly Q. */
  lemma {:induction false} GeneratorHasOrderQ(e: nat)
    ensures Pow(G, e) == 1 <==> e % Q == 0
  {
    hide Mul, Pow;
    GeneratorPowers();
    PowModQ(G, e);
    if e % Q == 0 {
      PowZero(G);
    } else {
      NoSmallerOrder(e % Q);
    }
  }

  /** Powers of the generator agree exactly when the exponents agree modulo Q. */
  lemma {:induction false} PowersAgree(a: nat, b: nat)
    ensures Pow(G, a) == Pow(G, b) <==> a % Q == b % Q
  {
    hide Mul, Pow;
    GeneratorPowers();
    PowModQ(G, a);
    PowModQ(G, b);
    if a % Q <= b % Q {
      SmallPowersAgree(a % Q, b % Q);
    } else {
      SmallPowersAgree(b % Q, a % Q);
    }
  }

  lemma {:induction false} SmallPowersAgree(x: nat, y: nat)
    requires x <= y < Q
    ensures Pow(G, x) == Pow(G, y) <==> x == y
  {
    hide Mul, Pow;
    if x < y && Pow(G, x) == Pow(G, y) {
      // multiply both sides by the power that completes y to Q
      GeneratorPowers();
      PowAdd(G, y, Q - y);
      PowAdd(G, x, Q - y);
      NoSmallerOrder(x + (Q - y));
      assert false;
    }
  }

  /** Which generators are trivial: those of the coordinates before a multiple of Q, and no others. */
  lemma {:induction false} TrivialGenerators(gens: seq<nat>, i: nat)
    requires Generators(gens) && i < |gens|
    ensures gens[i] == 1 <==> (i + 1) % Q == 0
  {
    hide Mul, Pow;
    GeneratorHasOrderQ(i + 1);
  }

  /** The order of each generator, to the exponent. */
  lemma {:induction false} GeneratorOrderExactly(gens: seq<nat>, i: nat, e: nat)
    requires Generators(gens) && i < |gens|
    ensures Pow(gens[i], e) == 1 <==> (i + 1) * e % Q == 0
  {
    hide Mul, Pow;
    PowMul(G, i + 1, e);
    GeneratorHasOrderQ((i + 1) * e);
  }

  /** Coordinate 1320 has a generator of order one. */
  lemma {:induction false} FirstTrivialGenerator(gens: seq<nat>)
    requires Generators(gens) && |gens| > 1320
    ensures gens[1320] == 1 && forall i :: 0 <= i < 1320 ==> gens[i] != 1
  {
    hide Mul, Pow, Generators;
    TrivialGenerators(gens, 1320);
    forall i | 0 <= i < 1320 ensures gens[i] != 1 {
      TrivialGenerators(gens, i);
      assert (i + 1) % Q == i + 1;
    }
  }

  // ---------------------------------------------------------- what the hash distinguishes

  /** The sum of (i + 1) c_i over the first n coordinates. */
  function Weight(c: seq<nat>, n: nat): nat
    requires n <= |c|
  {
    if n == 0 then 0 else Weight(c, n - 1) + n * c[n - 1]
  }

  lemma {:induction false} HashIsPower(gens: seq<nat>, c: seq<nat>, n: nat)
    requires Generators(gens) && n <= |gens| && n <= |c|
    ensures HashTo(gens, c, n) == Pow(G, Weight(c, n))
  {
    hide Mul, Pow;
    if n == 0 {
      PowZero(G);
    } else {
      HashIsPower(gens, c, n - 1);
      PowMul(G, n, c[n - 1]);
      PowAdd(G, Weight(c, n - 1), n * c[n - 1]);
    }
  }

  /** Two rows have the same hash exactly when their weights agree modulo Q. */
  lemma {:induction false} SameHashExactly(gens: seq<nat>, c: seq<nat>, d: seq<nat>)
    requires Generators(gens) && |c| == |d| == |gens|
    ensures HashOf(gens, c) == HashOf(gens, d) <==> Weight(c, |c|) % Q == Weight(d, |d|) % Q
  {
    hide Mul, Pow, Generators, Weight, HashTo;
    HashIsPower(gens, c, |c|);
    HashIsPower(gens, d, |d|);
    PowersAgree(Weight(c, |c|), Weight(d, |d|));
  }

  /** Q divides a product only with a factor, by the same descent. */
  lemma {:induction false} NoZeroDivisor(r: nat, b: nat)
    requires 0 < r < Q && r * b % Q == 0
    ensures b % Q == 0
    decreases r
  {
    if r > 1 {
      var q, s, k := Q / r, Q % r, r * b / Q;
      QIsPrime(r);
      assert Q == r * q + s && r * b == k * Q;
      assert s * b == (b - q * k) * Q by {
        assert s * b == Q * b - (r * q) * b;
        assert (r * q) * b == q * (r * b);
        assert q * (k * Q) == (q * k) * Q;
      }
      Euclid(Q, s * b, b - q * k, 0);
      NoZeroDivisor(s, b);
    }
  }

  lemma {:induction false} DifferenceVanishes(x: nat, y: nat)
    requires x <= y
    ensures x % Q == y % Q <==> (y - x) % Q == 0
  {
  }

  lemma {:induction false} FactorReduced(a: nat, d: nat)
    ensures a * d % Q == (a % Q) * d % Q
  {
    var r, m := a % Q, a / Q;
    assert a * d == r * d + (m * d) * Q by {
      assert (m * Q + r) * d == (m * Q) * d + r * d;
      assert (m * Q) * d == (m * d) * Q;
    }
    ModAdd(Q, r * d, m * d);
  }

  lemma {:induction false} MultipleVanishes(r: nat, d: nat)
    requires d % Q == 0
    ensures r * d % Q == 0
  {
    var k := d / Q;
    assert r * (k * Q) == (r * k) * Q;
    Euclid(Q, r * d, r * k, 0);
  }

  lemma {:induction false} ProductsAgree(a: nat, x: nat, y: nat)
    requires x <= y
    ensures a * x % Q == a * y % Q <==> a % Q == 0 || x % Q == y % Q
  {
    var d := y - x;
    MulLe(x, y, a);
    var ax, ay, ad := a * x, a * y, a * d;
    assert ay == ax + ad;
    DifferenceVanishes(ax, ay);
    DifferenceVanishes(x, y);
    FactorReduced(a, d);
    if d % Q == 0 {
      MultipleVanishes(a, d);
    } else if a % Q == 0 {
      MultipleVanishes(d, a);
      assert a * d == d * a;
    } else if ad % Q == 0 {
      NoZeroDivisor(a % Q, d);
      assert false;
    }
  }

  /** One tampered coefficient goes unnoticed exactly where the generator is trivial or nothing changed modulo Q. */
  lemma {:induction false} OneTamperedExactly(gens: seq<nat>, c: seq<nat>, i: nat, x: nat)
    requires Generators(gens) && |c| == |gens| && i < |c|
    ensures HashOf(gens, c[i := x]) == HashOf(gens, c) <==> (i + 1) % Q == 0 || x % Q == c[i] % Q
  {
    hide Mul, Pow, Generators, HashTo;
    SameHashExactly(gens, c[i := x], c);
    var rest := WeightBut(c, i, x, |c|);
    hide Weight;
    SumsAgree(rest, (i + 1) * x, (i + 1) * c[i]);
    if x <= c[i] {
      ProductsAgree(i + 1, x, c[i]);
    } else {
      ProductsAgree(i + 1, c[i], x);
    }
  }

  lemma {:induction false} WeightBut(c: seq<nat>, i: nat, x: nat, n: nat) returns (rest: nat)
    requires i < n <= |c|
    ensures Weight(c, n) == rest + (i + 1) * c[i] && Weight(c[i := x], n) == rest + (i + 1) * x
  {
    if i == n - 1 {
      rest := Weight(c, n - 1);
      WeightAgrees(c, c[i := x], n - 1);
    } else {
      rest := WeightBut(c, i, x, n - 1);
      rest := rest + n * c[n - 1];
    }
  }

  lemma {:induction false} WeightAgrees(c: seq<nat>, d: seq<nat>, n: nat)
    requires n <= |c| && n <= |d| && forall i :: 0 <= i < n ==> c[i] == d[i]
    ensures Weight(c, n) == Weight(d, n)
  {
    if n > 0 {
      WeightAgrees(c, d, n - 1);
    }
  }

  lemma {:induction false} SumsAgree(r: nat, x: nat, y: nat)
    ensures (r + x) % Q == (r + y) % Q <==> x % Q == y % Q
  {
  }

  datatype HomoHashError = Length(a: nat, b: nat)

  /** Generators, their power table and the index of each unit hash. */
  class HomomorphicHash {
    var gens: seq<nat>
    var table: seq<nat>
    var unitIndex: map<nat, nat>

    ghost predicate Valid()
      reads this
    {
      && Generators(gens) && TableOf(gens, table, |gens|)
      && (forall h :: h in unitIndex ==> unitIndex[h] < |gens| && gens[unitIndex[h]] == h)
      && (forall i :: 0 <= i < |gens| ==> gens[i] in unitIndex)
    }

    constructor (k: nat)
      ensures Valid() && |gens| == k
    {
      hide Pow, Mul, TableOf, Generators;
      var gs, t, index := BuildTables(k);
      gens, table, unitIndex := gs, t, index;
    }

    /** The hash of a coefficient vector, by table look-ups. */
    method Hash(c: seq<nat>) returns (r: Result<nat, HomoHashError>)
      requires Valid()
      ensures |c| != |gens| ==> r == Err(Length(|c|, |gens|))
      ensures |c| == |gens| ==> r == Ok(HashOf(gens, c))
    {
      if |c| != |gens| {
        return Err(Length(|c|, |gens|));
      }
      hide Pow, Mul, TableOf, Generators;
      var acc := 1;
      for i := 0 to |c|
        invariant acc == HashTo(gens, c, i)
      {
        var e := c[i] % Q;
        GeneratorOrder(gens, i);
        PowModQ(gens[i], c[i]);
        TableEntry(gens, table, |gens|, i, e);
        if e != 0 {
          acc := MulMod(acc, table[i * Q + e]);
        } else {
          PowZero(gens[i]);
          MulOne(acc);
        }
      }
      r := Ok(acc);
    }

    /** The combination of any hashes, by table look-ups for unit hashes and by exponentiation for others. */
    method CombineMany(coeffs: seq<nat>, hashes: seq<nat>) returns (acc: nat)
      requires Valid()
      ensures acc == CombinedMany(coeffs, hashes, if |coeffs| < |hashes| then |coeffs| else |hashes|)
    {
      hide Pow, Mul, TableOf, Generators;
      acc := 1;
      var n := if |coeffs| < |hashes| then |coeffs| else |hashes|;
      for j := 0 to n
        invariant acc == CombinedMany(coeffs, hashes, j)
      {
        var e, h := coeffs[j] % Q, hashes[j];
        if e != 0 {
          if h in unitIndex {
            var i := unitIndex[h];
            TableEntry(gens, table, |gens|, i, e);
            acc := MulMod(acc, table[i * Q + e]);
          } else {
            var p := PowMod(h, e);
            acc := MulMod(acc, p);
          }
        } else {
          PowZero(h);
          MulOne(acc);
        }
      }
    }

    /** Does a coefficient row have the claimed hash, given the hashes of the sources? */
    method VerifyCoded(sourceHashes: seq<nat>, coded: seq<nat>, expected: nat) returns (r: Result<bool, HomoHashError>)
      requires Valid()
      ensures |coded| != |sourceHashes| ==> r == Err(Length(|coded|, |sourceHashes|))
      ensures |coded| == |sourceHashes| ==> r == Ok(CombinedMany(coded, sourceHashes, |coded|) == expected)
      ensures sourceHashes == gens && |coded| == |gens| ==> r == Ok(HashOf(gens, coded) == expected)
      // a row passes for the hash of another exactly when their weights agree
      ensures sourceHashes == gens && |coded| == |gens| ==> forall d: seq<nat> ::
        |d| == |gens| && expected == HashOf(gens, d) ==>
          r == Ok(Weight(coded, |coded|) % Q == Weight(d, |d|) % Q)
    {
      hide Pow, Mul, TableOf, Generators, HashTo, Weight, CombinedMany;
      if |coded| != |sourceHashes| {
        return Err(Length(|coded|, |sourceHashes|));
      }
      var computed := CombineMany(coded, sourceHashes);
      if sourceHashes == gens {
        UnitsCombine(gens, coded, |coded|);
        forall d: seq<nat> | |d| == |gens| && expected == HashOf(gens, d)
          ensures (HashOf(gens, coded) == expected) == (Weight(coded, |coded|) % Q == Weight(d, |d|) % Q)
        {
          SameHashExactly(gens, coded, d);
        }
      }
      r := Ok(computed == expected);
    }
  }

  /** Combining the generators is hashing. */
  lemma {:induction false} UnitsCombine(gens: seq<nat>, c: seq<nat>, n: nat)
    requires Generators(gens) && |c| == |gens| && n <= |c|
    ensures CombinedMany(c, gens, n) == HashTo(gens, c, n)
  {
    hide Pow, Mul, Generators;
    if n > 0 {
      UnitsCombine(gens, c, n - 1);
      GeneratorOrder(gens, n - 1);
      PowModQ(gens[n - 1], c[n - 1]);
    }
  }

  /** Row i of the table holds the powers of generator i, for the first n rows. */
  ghost predicate TableOf(gens: seq<nat>, table: seq<nat>, n: nat) {
    && n <= |gens| && |table| >= n * Q
    && forall i :: 0 <= i < n ==> Row(gens[i], table, i * Q, Q)
  }

  ghost predicate Row(g: nat, table: seq<nat>, at: nat, n: nat) {
    at + n <= |table| && forall e :: 0 <= e < n ==> table[at + e] == Pow(g, e)
  }

  lemma {:induction false} TableEntry(gens: seq<nat>, table: seq<nat>, n: nat, i: nat, e: nat)
    requires TableOf(gens, table, n) && i < n && e < Q
    ensures i * Q + e < |table| && table[i * Q + e] == Pow(gens[i], e)
  {
    hide Pow;
    assert Row(gens[i], table, i * Q, Q);
  }

  /** Appends the powers of one generator. */
  method PowerRow(table0: seq<nat>, g: nat) returns (table: seq<nat>)
    requires g < P
    ensures |table| == |table0| + Q && table[..|table0|] == table0 && Row(g, table, |table0|, Q)
  {
    hide Mul, Pow;
    table := table0;
    var p := 1;
    PowZero(g);
    for e := 0 to Q
      invariant |table| == |table0| + e && table[..|table0|] == table0 && Row(g, table, |table0|, e) && p == Pow(g, e)
    {
      table := table + [p];
      PowStep(g, e);
      MulCommutes(p, g);
      p := MulMod(p, g);
    }
  }

  method BuildTables(k: nat) returns (gens: seq<nat>, table: seq<nat>, unitIndex: map<nat, nat>)
    ensures |gens| == k && Generators(gens) && TableOf(gens, table, k)
    ensures forall h :: h in unitIndex ==> unitIndex[h] < |gens| && gens[unitIndex[h]] == h
    ensures forall i :: 0 <= i < |gens| ==> gens[i] in unitIndex
  {
    hide Pow, Mul;
    var g := SubgroupGen();
    gens := [];
    var acc := 1;
    PowZero(G);
    for i := 0 to k
      invariant |gens| == i && Generators(gens) && acc == Pow(G, i)
    {
      PowStep(G, i);
      MulCommutes(acc, g);
      acc := MulMod(acc, g);
      gens := gens + [acc];
    }
    table, unitIndex := [], map[];
    for i := 0 to k
      invariant |table| == i * Q && TableOf(gens, table, i)
      invariant forall h :: h in unitIndex ==> unitIndex[h] < i && gens[unitIndex[h]] == h
      invariant forall j :: 0 <= j < i ==> gens[j] in unitIndex
    {
      ghost var before := table;
      table := PowerRow(table, gens[i]);
      RowsStay(gens, before, table, i);
      unitIndex := unitIndex[gens[i] := i];
    }
  }

  lemma {:induction false} RowsStay(gens: seq<nat>, before: seq<nat>, table: seq<nat>, n: nat)
    requires TableOf(gens, before, n) && n < |gens| && |before| == n * Q && |table| == |before| + Q
    requires table[..|before|] == before && Row(gens[n], table, n * Q, Q)
    ensures TableOf(gens, table, n + 1)
  {
    hide Pow;
    forall i | 0 <= i < n + 1 ensures Row(gens[i], table, i * Q, Q) {
      if i < n {
        assert Row(gens[i], before, i * Q, Q);
        forall e | 0 <= e < Q ensures table[i * Q + e] == Pow(gens[i], e) {
          assert table[i * Q + e] == table[..|before|][i * Q + e];
        }
      }
    }
  }
}
