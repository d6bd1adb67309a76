/**
  The peeling decoder of `crates/coding/src/fountain.rs`: a symbol that covers a
  single unknown source reveals it, the value is substituted into the symbols
  that cover it, and what is left over is solved by elimination.

  The whole run is followed by one invariant, quantified over every candidate
  source vector y: y explains the received symbols exactly when it agrees with
  the sources revealed so far and explains the symbols that remain.

  What the peeling phase reveals is the least set that `StoppingSets.dfy` speaks of.

  A peel takes the payload out of every symbol that reveals a source.  After a failed
  peel such spent symbols stay behind without it, and in the next attempt they reveal
  the same sources again, as nothing.
 */
module Peeling {
  import opened Gf256
  import opened GfLinear
  import opened Gauss
  import opened LinearSystems
  import opened StoppingSets
  import opened Results

  /** A sparse cover (source index to coefficient) and a payload. */
  datatype ParsedSym = ParsedSym(cover: map<nat, bv8>, payload: Vec)

  datatype FountainError = Empty | Underdetermined(have: nat, need: nat) | SizeMismatch(a: nat, b: nat)

  predicate CoverOk(cover: map<nat, bv8>, k: nat) {
    forall i :: i in cover ==> i < k && cover[i] != 0
  }

  /** The cover as a row of k coefficients. */
  function Dense(cover: map<nat, bv8>, k: nat): (row: Vec)
    ensures |row| == k && forall i: nat :: i < k ==> row[i] == if i in cover then cover[i] else 0
  {
    seq(k, i => if i in cover then cover[i] else 0)
  }

  /** The payload is the combination of the sources y that the cover names. */
  ghost predicate Explains(y: seq<Vec>, sym: ParsedSym, k: nat, s: nat)
    requires Shape(y, k, s)
  {
    sym.payload == Comb(Dense(sym.cover, k), y, s)
  }

  predicate Fresh(syms: seq<ParsedSym>, k: nat, s: nat) {
    forall i :: 0 <= i < |syms| ==> CoverOk(syms[i].cover, k) && |syms[i].payload| == s
  }

  ghost predicate ExplainsAll(y: seq<Vec>, syms: seq<ParsedSym>, k: nat, s: nat) {
    Shape(y, k, s) && forall i :: 0 <= i < |syms| ==> Explains(y, syms[i], k, s)
  }

  // ---------------------------------------------------------- the algebra of one step

  lemma {:induction false} AxpyCommutes(a: bv8, u: Vec, b: bv8, v: Vec, w: Vec)
    requires |u| == |v| == |w|
    ensures Axpy(a, u, Axpy(b, v, w)) == Axpy(b, v, Axpy(a, u, w))
  {
    hide Add, Mul;
    forall i | 0 <= i < |w| ensures Axpy(a, u, Axpy(b, v, w))[i] == Axpy(b, v, Axpy(a, u, w))[i] {
      var p, q := Mul(a, u[i]), Mul(b, v[i]);
      AddLaws(w[i], q, p);
      AddLaws(w[i], p, q);
      AddLaws(p, q, 0);
    }
  }

  /** Giving the coefficient of an absent source adds that source's multiple. */
  lemma {:induction false} CombUpdate(cs: Vec, rows: seq<Vec>, m: nat, p: nat, c: bv8, n: nat)
    requires |cs| == |rows| && n <= |cs| && p < |cs| && cs[p] == 0 && Rectangular(rows, m)
    ensures CombTo(cs[p := c], rows, m, n) ==
      if p < n then Axpy(c, rows[p], CombTo(cs, rows, m, n)) else CombTo(cs, rows, m, n)
  {
    hide Axpy;
    if n > 0 {
      CombUpdate(cs, rows, m, p, c, n - 1);
      if p == n - 1 {
        AxpyZero(rows[p], CombTo(cs, rows, m, n - 1));
      } else if p < n {
        AxpyCommutes(cs[n - 1], rows[n - 1], c, rows[p], CombTo(cs, rows, m, n - 1));
      }
    }
  }

  lemma {:induction false} CombZero(rows: seq<Vec>, m: nat, n: nat)
    requires n <= |rows| && Rectangular(rows, m)
    ensures CombTo(Zeros(|rows|), rows, m, n) == Zeros(m)
  {
    hide Axpy;
    if n > 0 {
      CombZero(rows, m, n - 1);
      AxpyZero(rows[n - 1], Zeros(m));
    }
  }

  lemma {:induction false} DenseWithout(cover: map<nat, bv8>, k: nat, target: nat)
    requires target in cover && target < k
    ensures Dense(cover, k) == Dense(cover - {target}, k)[target := cover[target]]
    ensures Dense(cover - {target}, k)[target] == 0
  {
  }

  lemma {:induction false} AxpyTwice(a: bv8, u: Vec, w: Vec)
    requires |u| == |w|
    ensures Axpy(a, u, Axpy(a, u, w)) == w
  {
    hide Add, Mul;
    forall i | 0 <= i < |w| ensures Axpy(a, u, Axpy(a, u, w))[i] == w[i] {
      var p := Mul(a, u[i]);
      AddLaws(w[i], p, p);
      AddLaws(p, p, 0);
      AddLaws(w[i], 0, 0);
    }
  }

  /** Substituting a source's value into a symbol that covers it keeps what the symbol says. */
  lemma {:induction false} SubstituteKeepsMeaning(sym: ParsedSym, k: nat, s: nat, target: nat, y: seq<Vec>)
    requires Shape(y, k, s) && target in sym.cover && target < k && |sym.payload| == s
    ensures Explains(y, sym, k, s) <==>
      Explains(y, ParsedSym(sym.cover - {target}, Axpy(sym.cover[target], y[target], sym.payload)), k, s)
  {
    hide Axpy, Add, Mul;
    var c := sym.cover[target];
    var rest := Dense(sym.cover - {target}, k);
    DenseWithout(sym.cover, k, target);
    CombUpdate(rest, y, s, target, c, k);
    AxpyTwice(c, y[target], sym.payload);
    AxpyTwice(c, y[target], Comb(rest, y, s));
  }

  lemma {:induction false} ScaleInverse(c: bv8, u: Vec, v: Vec)
    requires c != 0 && |u| == |v|
    ensures Scale(Inv(c), u) == v <==> u == Scale(c, v)
  {
    hide Mul, Inv;
    MulInverse(c);
    forall i | 0 <= i < |u| ensures Mul(Inv(c), u[i]) == v[i] <==> u[i] == Mul(c, v[i]) {
      MulAssociates(c, Inv(c), u[i]);
      MulAssociates(Inv(c), c, v[i]);
      MulUnits(u[i]);
      MulUnits(v[i]);
    }
    if Scale(Inv(c), u) == v {
      assert forall i :: 0 <= i < |u| ==> u[i] == Mul(c, v[i]);
    }
    if u == Scale(c, v) {
      assert forall i :: 0 <= i < |u| ==> Scale(Inv(c), u)[i] == v[i];
    }
  }

  lemma {:induction false} AxpyOfZeros(c: bv8, v: Vec)
    ensures Axpy(c, v, Zeros(|v|)) == Scale(c, v)
  {
    hide Add, Mul;
    forall i | 0 <= i < |v| ensures Axpy(c, v, Zeros(|v|))[i] == Scale(c, v)[i] {
      AddLaws(Mul(c, v[i]), 0, 0);
    }
  }

  /** A symbol that covers one source says exactly what that source is. */
  lemma {:induction false} SingleCoverReveals(sym: ParsedSym, k: nat, s: nat, target: nat, y: seq<Vec>)
    requires Shape(y, k, s) && target < k && |sym.payload| == s
    requires sym.cover.Keys == {target} && sym.cover[target] != 0
    ensures Explains(y, sym, k, s) <==> y[target] == Scale(Inv(sym.cover[target]), sym.payload)
  {
    hide Axpy, Add, Mul, Inv, Scale;
    var c := sym.cover[target];
    assert Dense(sym.cover, k) == Zeros(k)[target := c];
    CombUpdate(Zeros(k), y, s, target, c, k);
    CombZero(y, s, k);
    AxpyOfZeros(c, y[target]);
    ScaleInverse(c, sym.payload, y[target]);
  }

  // -------------------------------------------------------------- the peeling state

  /** A symbol not yet spent on a reveal; symbols are never empty to begin with. */
  predicate Live(sym: ParsedSym) { sym.payload != [] }

  predicate AllLive(syms: seq<ParsedSym>) { forall i :: 0 <= i < |syms| ==> Live(syms[i]) }

  /** What precedes a spent symbol does not cover its source and reveals nothing ahead of it. */
  predicate Ahead(before: ParsedSym, spent: ParsedSym) {
    before.cover.Keys !! spent.cover.Keys && (Live(before) ==> |before.cover| != 1)
  }

  /** The symbols a decoder holds: what failed peels have left, then what arrived since. */
  predicate Held(syms: seq<ParsedSym>, k: nat, s: nat) {
    && (forall i :: 0 <= i < |syms| ==> SymbolOk(syms[i], |syms[i].cover|, k, s))
    && (forall i, j :: 0 <= i < j < |syms| && !Live(syms[j]) ==> Ahead(syms[i], syms[j]))
  }

  lemma {:induction false} FreshIsHeld(syms: seq<ParsedSym>, k: nat, s: nat)
    requires s > 0
    ensures Fresh(syms, k, s) <==> Held(syms, k, s) && AllLive(syms)
  {
    if Held(syms, k, s) && AllLive(syms) {
      forall i | 0 <= i < |syms| ensures CoverOk(syms[i].cover, k) && |syms[i].payload| == s {
        assert SymbolOk(syms[i], |syms[i].cover|, k, s);
      }
    }
  }

  /** A live symbol has its full payload; a spent one keeps the source it revealed. */
  predicate SymbolOk(sym: ParsedSym, degree: nat, k: nat, s: nat) {
    && CoverOk(sym.cover, k)
    && (Live(sym) ==> |sym.payload| == s && degree == |sym.cover|)
    && (!Live(sym) ==> degree <= 1 && |sym.cover| == 1)
  }

  /** Symbols that may still reveal cover unrevealed sources only, and the reverse index knows them. */
  predicate Indexed(si: nat, sym: ParsedSym, degree: nat, covers: seq<seq<nat>>, revealed: seq<Option<Vec>>) {
    Live(sym) || degree > 0 ==> forall idx :: idx in sym.cover ==>
      idx < |covers| && idx < |revealed| && revealed[idx].None? && si in covers[idx]
  }

  /** The cover names unrevealed sources only. */
  predicate Unrevealed(cover: map<nat, bv8>, revealed: seq<Option<Vec>>) {
    forall idx :: idx in cover ==> idx < |revealed| && revealed[idx].None?
  }

  /** The cover names revealed sources only. */
  predicate Revealed(cover: map<nat, bv8>, revealed: seq<Option<Vec>>) {
    forall idx :: idx in cover ==> idx < |revealed| && revealed[idx].Some?
  }

  /** Two spent symbols revealed different sources, and one that is done has revealed its own. */
  ghost predicate SpentOk(syms: seq<ParsedSym>, degree: seq<nat>, revealed: seq<Option<Vec>>)
    requires |degree| == |syms|
  {
    && (forall i :: 0 <= i < |syms| && !Live(syms[i]) && degree[i] == 0 ==> Revealed(syms[i].cover, revealed))
    && (forall i, j :: 0 <= i < j < |syms| && !Live(syms[i]) && !Live(syms[j]) ==>
          syms[i].cover.Keys !! syms[j].cover.Keys)
  }

  ghost predicate PeelState(syms: seq<ParsedSym>, degree: seq<nat>, covers: seq<seq<nat>>,
                            revealed: seq<Option<Vec>>, k: nat, s: nat)
  {
    && |degree| == |syms| && |covers| == |revealed| == k
    && (forall i :: 0 <= i < |syms| ==> SymbolOk(syms[i], degree[i], k, s))
    && (forall i :: 0 <= i < |syms| ==> Indexed(i, syms[i], degree[i], covers, revealed))
    && (forall idx, i :: 0 <= idx < k && 0 <= i < |covers[idx]| ==> covers[idx][i] < |syms|)
    && SpentOk(syms, degree, revealed)
  }

  ghost predicate Agrees(y: seq<Vec>, revealed: seq<Option<Vec>>)
    requires |y| == |revealed|
  {
    forall j :: 0 <= j < |y| && revealed[j].Some? ==> y[j] == revealed[j].value
  }

  ghost predicate ExplainsLive(y: seq<Vec>, syms: seq<ParsedSym>, k: nat, s: nat)
    requires Shape(y, k, s)
  {
    forall i :: 0 <= i < |syms| && Live(syms[i]) ==> Explains(y, syms[i], k, s)
  }

  /** y explains the received symbols iff it agrees with the reveals and explains the rest. */
  ghost predicate SameMeaning(received: seq<ParsedSym>, syms: seq<ParsedSym>, revealed: seq<Option<Vec>>,
                              k: nat, s: nat)
    requires |revealed| == k
  {
    forall y :: Shape(y, k, s) ==>
      (ExplainsAll(y, received, k, s) <==> Agrees(y, revealed) && ExplainsLive(y, syms, k, s))
  }

  /** No spent symbol waits to reveal its source again. */
  predicate NoneWaits(syms: seq<ParsedSym>, degree: seq<nat>)
    requires |degree| == |syms|
  {
    forall i :: 0 <= i < |syms| && !Live(syms[i]) ==> degree[i] == 0
  }

  /** Starting from live symbols only, the meaning is kept. */
  ghost predicate Means(received: seq<ParsedSym>, syms: seq<ParsedSym>, degree: seq<nat>,
                        revealed: seq<Option<Vec>>, k: nat, s: nat)
    requires |degree| == |syms| && |revealed| == k
  {
    AllLive(received) ==> NoneWaits(syms, degree) && SameMeaning(received, syms, revealed, k, s)
  }

  /** dst + a * src over the length of the shorter. */
  function AxpyShort(a: bv8, src: Vec, dst: Vec): (r: Vec)
    ensures |r| == |dst|
    ensures |src| == |dst| ==> r == Axpy(a, src, dst)
  {
    seq(|dst|, i requires 0 <= i < |dst| => if i < |src| then Add(dst[i], Mul(a, src[i])) else dst[i])
  }

  /** A symbol after the value x of source `target` is substituted into it. */
  function Substituted(sym: ParsedSym, target: nat, x: Vec): ParsedSym {
    if Live(sym) && target in sym.cover
    then ParsedSym(sym.cover - {target}, AxpyShort(sym.cover[target], x, sym.payload))
    else sym
  }

  ghost predicate AfterReveal(syms: seq<ParsedSym>, next: seq<ParsedSym>, si: nat, target: nat, x: Vec) {
    && |next| == |syms|
    && (forall i :: 0 <= i < |syms| ==>
          next[i] == if i == si then ParsedSym(syms[i].cover, []) else Substituted(syms[i], target, x))
  }

  /** One reveal with its ripple keeps the meaning of the state. */
  lemma {:induction false} RevealKeepsMeaning(syms: seq<ParsedSym>, next: seq<ParsedSym>, revealed: seq<Option<Vec>>,
                           si: nat, target: nat, x: Vec, k: nat, s: nat, y: seq<Vec>)
    requires |revealed| == k && Shape(y, k, s) && si < |syms| && target < k && revealed[target].None? && s > 0
    requires forall i :: 0 <= i < |syms| && Live(syms[i]) ==> |syms[i].payload| == s
    requires Live(syms[si]) && syms[si].cover.Keys == {target} && syms[si].cover[target] != 0
    requires x == Scale(Inv(syms[si].cover[target]), syms[si].payload)
    requires AfterReveal(syms, next, si, target, x)
    ensures Agrees(y, revealed) && ExplainsLive(y, syms, k, s) <==>
            Agrees(y, revealed[target := Some(x)]) && ExplainsLive(y, next, k, s)
  {
    hide Explains, Scale, Inv, Axpy, AxpyShort;
    var revealed' := revealed[target := Some(x)];
    SingleCoverReveals(syms[si], k, s, target, y);
    if y[target] == x {
      forall i | 0 <= i < |syms| && i != si && Live(syms[i])
        ensures Live(next[i]) && (Explains(y, syms[i], k, s) <==> Explains(y, next[i], k, s))
      {
        if target in syms[i].cover {
          SubstituteKeepsMeaning(syms[i], k, s, target, y);
        }
      }
      assert Agrees(y, revealed) <==> Agrees(y, revealed') by {
        if Agrees(y, revealed') {
          forall j | 0 <= j < k && revealed[j].Some? ensures y[j] == revealed[j].value {
            assert revealed'[j] == revealed[j];
          }
        }
      }
    } else {
      assert !Agrees(y, revealed') by {
        assert revealed'[target] == Some(x);
      }
    }
  }

  // ------------------------------------------------------ what the covers go through

  function CoverSets(syms: seq<ParsedSym>): (sets: seq<set<nat>>)
    ensures |sets| == |syms| && forall i :: 0 <= i < |syms| ==> sets[i] == syms[i].cover.Keys
  {
    seq(|syms|, i requires 0 <= i < |syms| => syms[i].cover.Keys)
  }

  function RevealedSet(revealed: seq<Option<Vec>>): (r: set<nat>)
    ensures forall j: nat :: j in r <==> j < |revealed| && revealed[j].Some?
  {
    set j: nat | j < |revealed| && revealed[j].Some?
  }

  /** A symbol with something left covers its sources less the revealed ones; one without, only revealed ones. */
  predicate Tallied(si: nat, sources: set<nat>, sym: ParsedSym, degree: nat, covers: seq<seq<nat>>, r: set<nat>) {
    if degree > 0 then
      && degree == |sym.cover| && sym.cover.Keys == sources - r
      && forall idx :: idx in sym.cover ==> idx < |covers| && si in covers[idx]
    else sources <= r && sym.cover.Keys <= r
  }

  /** Some symbol has revealed j and covers nothing else. */
  predicate RevealedBy(syms: seq<ParsedSym>, degree: seq<nat>, j: nat)
    requires |degree| == |syms|
  {
    exists i :: 0 <= i < |syms| && degree[i] == 0 && syms[i].cover.Keys == {j}
  }

  ghost predicate Tally(sets: seq<set<nat>>, syms: seq<ParsedSym>, degree: seq<nat>, covers: seq<seq<nat>>,
                        revealed: seq<Option<Vec>>, k: nat)
  {
    var r := RevealedSet(revealed);
    && |degree| == |syms| == |sets| && |covers| == |revealed| == k
    && (forall i :: 0 <= i < |syms| ==> CoverOk(syms[i].cover, k))
    && (forall i :: 0 <= i < |syms| ==> Tallied(i, sets[i], syms[i], degree[i], covers, r))
    && (forall idx, i :: 0 <= idx < k && 0 <= i < |covers[idx]| ==> covers[idx][i] < |syms|)
    && (forall j :: j in r ==> RevealedBy(syms, degree, j))
    && Least(sets, r)
  }

  /** A symbol and its degree after the value x of source `target` is substituted into it. */
  function Rippled(sym: ParsedSym, degree: nat, target: nat, x: Vec): (ParsedSym, nat) {
    if degree > 0 && target in sym.cover
    then (ParsedSym(sym.cover - {target}, AxpyShort(sym.cover[target], x, sym.payload)), degree - 1)
    else (sym, degree)
  }

  /** Symbol si is spent on `target`, and the others are substituted into. */
  ghost predicate Changed(syms: seq<ParsedSym>, next: seq<ParsedSym>, degree: seq<nat>, degree': seq<nat>,
                          si: nat, target: nat, x: Vec)
  {
    && |degree| == |syms| == |next| == |degree'| && si < |syms|
    && (forall i :: 0 <= i < |syms| ==>
          (next[i], degree'[i]) ==
          if i == si then (ParsedSym(syms[i].cover, []), 0) else Rippled(syms[i], degree[i], target, x))
  }

  /** The queue knows every symbol with one source left. */
  ghost predicate Queued(degree: seq<nat>, queue: seq<nat>) {
    && (forall q :: q in queue ==> q < |degree| && degree[q] <= 1)
    && (forall i: nat :: i < |degree| && degree[i] == 1 ==> i in queue)
  }

  /** Removes `target` from every other symbol that covers it, noting new degree-1 symbols. */
  method Ripple(syms: array<ParsedSym>, degree: array<nat>, dependents: seq<nat>, si: nat, target: nat, x: Vec,
                queue: seq<nat>) returns (queue': seq<nat>)
    requires degree.Length == syms.Length
    requires forall i :: 0 <= i < |dependents| ==> dependents[i] < syms.Length
    requires forall i: nat :: i < syms.Length && degree[i] > 0 && target in syms[i].cover ==> i in dependents
    requires si < syms.Length && degree[si] == 0
    requires forall q :: q in queue ==> q < syms.Length && degree[q] <= 1
    modifies syms, degree
    ensures forall i :: 0 <= i < syms.Length ==>
      (syms[i], degree[i]) == Rippled(old(syms[i]), old(degree[i]), target, x)
    ensures queue <= queue' && forall q :: q in queue' ==> q < syms.Length && degree[q] <= 1
    ensures forall i: nat :: i < syms.Length && degree[i] == 1 && old(degree[i]) != 1 ==> i in queue'
  {
    hide Axpy, AxpyShort, Rippled;
    queue' := queue;
    for d := 0 to |dependents|
      invariant forall i: nat :: i < syms.Length ==>
        (syms[i], degree[i]) ==
        if i in dependents[..d] then Rippled(old(syms[i]), old(degree[i]), target, x)
        else (old(syms[i]), old(degree[i]))
      invariant forall i :: 0 <= i < syms.Length ==> degree[i] <= old(degree[i])
      invariant queue <= queue' && forall q :: q in queue' ==> q < syms.Length && degree[q] <= 1
      invariant forall i: nat :: i < syms.Length && degree[i] == 1 && old(degree[i]) != 1 ==> i in queue'
    {
      var sj := dependents[d];
      assert dependents[..d + 1] == dependents[..d] + [sj];
      RippledOnce(old(syms[sj]), old(degree[sj]), target, x);
      RippledParts(syms[sj], degree[sj], target, x);
      if sj != si && degree[sj] != 0 && target in syms[sj].cover {
        var c := syms[sj].cover[target];
        syms[sj] := ParsedSym(syms[sj].cover - {target}, AxpyShort(c, x, syms[sj].payload));
        degree[sj] := degree[sj] - 1;
        if degree[sj] == 1 {
          queue' := queue' + [sj];
        }
      }
    }
    forall i: nat | i < syms.Length && i !in dependents
      ensures Rippled(old(syms[i]), old(degree[i]), target, x) == (old(syms[i]), old(degree[i]))
    {
      RippledParts(old(syms[i]), old(degree[i]), target, x);
    }
    assert dependents[..|dependents|] == dependents;
  }

  lemma {:induction false} RippledParts(sym: ParsedSym, degree: nat, target: nat, x: Vec)
    ensures Rippled(sym, degree, target, x) ==
            if degree > 0 && target in sym.cover
            then (ParsedSym(sym.cover - {target}, AxpyShort(sym.cover[target], x, sym.payload)), degree - 1)
            else (sym, degree)
  {
  }

  /** Substituting once is enough. */
  lemma {:induction false} RippledOnce(sym: ParsedSym, degree: nat, target: nat, x: Vec)
    ensures
      var (next, d) := Rippled(sym, degree, target, x);
      Rippled(next, d, target, x) == (next, d)
  {
    hide AxpyShort;
  }

  /** One reveal with its ripple keeps the tally. */
  lemma {:induction false} RevealKeepsTally(sets: seq<set<nat>>, syms: seq<ParsedSym>, degree: seq<nat>,
                                            covers: seq<seq<nat>>, revealed: seq<Option<Vec>>, next: seq<ParsedSym>,
                                            degree': seq<nat>, si: nat, target: nat, x: Vec, k: nat)
    requires Tally(sets, syms, degree, covers, revealed, k) && Changed(syms, next, degree, degree', si, target, x)
    requires degree[si] == 1 && syms[si].cover.Keys == {target} && target < k && revealed[target].None?
    ensures Tally(sets, next, degree', covers[target := []], revealed[target := Some(x)], k)
  {
    hide RevealedSet, CoverOk, Tallied, RevealedBy, Changed, Least;
    var r := RevealedSet(revealed);
    RevealedMore(revealed, target, x);
    ChangedLengths(syms, next, degree, degree', si, target, x);
    OneLeftOver(si, sets[si], syms[si], degree[si], covers, r, target);
    LeastGrows(sets, r, si, target);
    forall i | 0 <= i < |next|
      ensures CoverOk(next[i].cover, k) && Tallied(i, sets[i], next[i], degree'[i], covers[target := []], r + {target})
    {
      ChangedTally(syms, next, degree, degree', si, target, x, i, sets[i], covers, r, k);
    }
    forall j | j in r + {target} ensures RevealedBy(next, degree', j) {
      ChangedReveals(syms, next, degree, degree', si, target, x, j);
    }
  }

  lemma {:induction false} OneLeftOver(si: nat, sources: set<nat>, sym: ParsedSym, degree: nat, covers: seq<seq<nat>>,
                                       r: set<nat>, target: nat)
    requires Tallied(si, sources, sym, degree, covers, r) && degree == 1 && sym.cover.Keys == {target}
    ensures sources - r == {target}
  {
  }

  lemma {:induction false} ChangedLengths(syms: seq<ParsedSym>, next: seq<ParsedSym>, degree: seq<nat>,
                                          degree': seq<nat>, si: nat, target: nat, x: Vec)
    requires Changed(syms, next, degree, degree', si, target, x)
    ensures |degree| == |syms| == |next| == |degree'| && si < |syms|
  {
  }

  lemma {:induction false} ChangedTally(syms: seq<ParsedSym>, next: seq<ParsedSym>, degree: seq<nat>,
                                        degree': seq<nat>, si: nat, target: nat, x: Vec, i: nat, sources: set<nat>,
                                        covers: seq<seq<nat>>, r: set<nat>, k: nat)
    requires Changed(syms, next, degree, degree', si, target, x) && i < |syms| && target < |covers| && target !in r
    requires degree[si] == 1 && syms[si].cover.Keys == {target} && CoverOk(syms[i].cover, k)
    requires Tallied(i, sources, syms[i], degree[i], covers, r)
    ensures CoverOk(next[i].cover, k) && Tallied(i, sources, next[i], degree'[i], covers[target := []], r + {target})
  {
    hide Tallied, CoverOk, Rippled;
    TallyOne(i, sources, syms[i], degree[i], covers, r, target, x, k);
  }

  lemma {:induction false} ChangedReveals(syms: seq<ParsedSym>, next: seq<ParsedSym>, degree: seq<nat>,
                                          degree': seq<nat>, si: nat, target: nat, x: Vec, j: nat)
    requires Changed(syms, next, degree, degree', si, target, x) && degree[si] == 1
    requires syms[si].cover.Keys == {target} && (j == target || RevealedBy(syms, degree, j))
    ensures RevealedBy(next, degree', j)
  {
    hide AxpyShort;
    if j == target {
      assert next[si].cover.Keys == {target};
    } else {
      var i :| 0 <= i < |syms| && degree[i] == 0 && syms[i].cover.Keys == {j};
      assert next[i] == syms[i] && degree'[i] == 0;
    }
  }

  lemma {:induction false} RevealedMore(revealed: seq<Option<Vec>>, target: nat, x: Vec)
    requires target < |revealed|
    ensures RevealedSet(revealed[target := Some(x)]) == RevealedSet(revealed) + {target}
    ensures target in RevealedSet(revealed) <==> revealed[target].Some?
  {
  }

  lemma {:induction false} TallyOne(i: nat, sources: set<nat>, sym: ParsedSym, degree: nat, covers: seq<seq<nat>>,
                                    r: set<nat>, target: nat, x: Vec, k: nat)
    requires Tallied(i, sources, sym, degree, covers, r) && target !in r && target < |covers| && CoverOk(sym.cover, k)
    ensures
      var (next, d) := Rippled(sym, degree, target, x);
      CoverOk(next.cover, k) && Tallied(i, sources, next, d, covers[target := []], r + {target})
    ensures sym.cover.Keys == {target} && degree == 1 ==>
      Tallied(i, sources, ParsedSym(sym.cover, []), 0, covers[target := []], r + {target})
  {
    hide AxpyShort;
    if target in sym.cover {
      CoverShrinks(sym.cover, target);
      assert (sym.cover - {target}).Keys == sym.cover.Keys - {target};
      if degree == 1 {
        SingleKey(sym.cover, target);
      }
    }
  }

  /** For each source, at least the symbols that cover it, and only symbols. */
  predicate ReverseIndex(syms: seq<ParsedSym>, covers: seq<seq<nat>>, k: nat)
    requires |covers| == k
  {
    && (forall si: nat, idx :: si < |syms| && idx in syms[si].cover ==> idx < k && si in covers[idx])
    && (forall idx, i :: 0 <= idx < k && 0 <= i < |covers[idx]| ==> covers[idx][i] < |syms|)
  }

  lemma {:induction false} StartTally(syms: seq<ParsedSym>, degree: seq<nat>, covers: seq<seq<nat>>,
                                      revealed: seq<Option<Vec>>, k: nat)
    requires |degree| == |syms| && |covers| == |revealed| == k
    requires forall i :: 0 <= i < |syms| ==> CoverOk(syms[i].cover, k) && degree[i] == |syms[i].cover|
    requires forall j :: 0 <= j < k ==> revealed[j] == None
    requires ReverseIndex(syms, covers, k)
    ensures Tally(CoverSets(syms), syms, degree, covers, revealed, k)
  {
    hide CoverOk;
    assert RevealedSet(revealed) == {};
    forall i | 0 <= i < |syms| ensures Tallied(i, syms[i].cover.Keys, syms[i], degree[i], covers, {}) {
      assert |syms[i].cover.Keys| == |syms[i].cover|;
    }
  }

  /** When no symbol has one source left, the least closed set is revealed, and the covers are as after a peel. */
  lemma {:induction false} EndTally(sets: seq<set<nat>>, syms: seq<ParsedSym>, degree: seq<nat>,
                                    covers: seq<seq<nat>>, revealed: seq<Option<Vec>>, k: nat)
    requires Tally(sets, syms, degree, covers, revealed, k) && Queued(degree, [])
    ensures
      var r := RevealedSet(revealed);
      Closed(sets, r) && Least(sets, r) && After(sets, CoverSets(syms), r) && r <= Sources(k)
  {
    hide Least;
    var r, next := RevealedSet(revealed), CoverSets(syms);
    forall i | 0 <= i < |sets|
      ensures |sets[i] - r| != 1 && (next[i] == sets[i] - r || (sets[i] <= r && next[i] <= r))
    {
      assert Tallied(i, sets[i], syms[i], degree[i], covers, r);
      assert |syms[i].cover.Keys| == |syms[i].cover|;
      if degree[i] == 0 {
        assert sets[i] - r == {};
      }
    }
    forall j | j in r ensures {j} in next {
      assert RevealedBy(syms, degree, j);
      var i :| 0 <= i < |syms| && degree[i] == 0 && syms[i].cover.Keys == {j};
      assert next[i] == {j};
    }
  }

  lemma {:induction false} CoverShrinks(cover: map<nat, bv8>, target: nat)
    requires target in cover
    ensures |cover - {target}| == |cover| - 1
  {
    assert (cover - {target}).Keys == cover.Keys - {target};
    assert |cover.Keys| == |cover|;
    assert |(cover - {target}).Keys| == |cover - {target}|;
  }

  /** The reverse index: for each source, the symbols that cover it. */
  method BuildCovers(syms: array<ParsedSym>, k: nat) returns (covers: array<seq<nat>>)
    requires forall i :: 0 <= i < syms.Length ==> CoverOk(syms[i].cover, k)
    ensures fresh(covers) && covers.Length == k && ReverseIndex(syms[..], covers[..], k)
  {
    covers := new seq<nat>[k](_ => []);
    for si := 0 to syms.Length
      invariant forall i :: 0 <= i < syms.Length ==> CoverOk(syms[i].cover, k)
      invariant forall sj: nat, idx :: sj < si && idx in syms[sj].cover ==> sj in covers[idx]
      invariant forall idx, i :: 0 <= idx < k && 0 <= i < |covers[idx]| ==> covers[idx][i] < syms.Length
    {
      var keys := syms[si].cover.Keys;
      while keys != {}
        invariant keys <= syms[si].cover.Keys
        invariant forall i :: 0 <= i < syms.Length ==> CoverOk(syms[i].cover, k)
        invariant forall sj: nat, idx :: sj < si && idx in syms[sj].cover ==> sj in covers[idx]
        invariant forall idx :: idx in syms[si].cover && idx !in keys ==> si in covers[idx]
        invariant forall idx, i :: 0 <= idx < k && 0 <= i < |covers[idx]| ==> covers[idx][i] < syms.Length
        decreases |keys|
      {
        var idx :| idx in keys;
        covers[idx] := covers[idx] + [si];
        keys := keys - {idx};
      }
    }
  }

  lemma {:induction false} SingleKey(cover: map<nat, bv8>, target: nat)
    requires target in cover && |cover| == 1
    ensures cover.Keys == {target}
  {
    assert |cover.Keys| == |cover|;
    assert |cover.Keys - {target}| == 0;
  }

  /** The sources of the cover are revealed as nothing. */
  predicate EmptiedBy(cover: map<nat, bv8>, revealed: seq<Option<Vec>>) {
    forall t :: t in cover ==> t < |revealed| && revealed[t] == Some([])
  }

  /** Spent symbols reveal their sources as nothing. */
  predicate Emptied(spent: seq<ParsedSym>, revealed: seq<Option<Vec>>) {
    forall i :: 0 <= i < |spent| && !Live(spent[i]) ==> EmptiedBy(spent[i].cover, revealed)
  }

  /** Payloads without bytes reveal sources without bytes. */
  predicate NoBytes(syms: seq<ParsedSym>, revealed: seq<Option<Vec>>) {
    && (forall i :: 0 <= i < |syms| ==> syms[i].payload == [])
    && (forall j :: 0 <= j < |revealed| && revealed[j].Some? ==> revealed[j].value == [])
  }

  /** Symbols as a decoder holds them, of any size. */
  predicate HeldAny(syms: seq<ParsedSym>, k: nat, s: nat) { if s > 0 then Held(syms, k, s) else Fresh(syms, k, 0) }

  lemma {:induction false} HeldCovers(syms: seq<ParsedSym>, k: nat, s: nat)
    requires HeldAny(syms, k, s)
    ensures forall i :: 0 <= i < |syms| ==> CoverOk(syms[i].cover, k)
  {
    forall i | 0 <= i < |syms| ensures CoverOk(syms[i].cover, k) {
      assert s > 0 ==> SymbolOk(syms[i], |syms[i].cover|, k, s);
    }
  }

  /** Peels: reveals sources from degree-1 symbols until none is left. */
  method Peel(syms: array<ParsedSym>, k: nat, s: nat) returns (revealed: array<Option<Vec>>)
    requires HeldAny(syms[..], k, s)
    modifies syms
    ensures fresh(revealed) && revealed.Length == k
    // the least closed set is revealed
    ensures
      var sets, r := CoverSets(old(syms[..])), RevealedSet(revealed[..]);
      Closed(sets, r) && Least(sets, r) && After(sets, CoverSets(syms[..]), r) && r <= Sources(k)
    ensures Peeled(syms[..], revealed[..], k, s) && HeldAny(syms[..], k, s)
    ensures s > 0 && AllLive(old(syms[..])) ==> SameMeaning(old(syms[..]), syms[..], revealed[..], k, s)
    ensures s > 0 ==> Emptied(old(syms[..]), revealed[..])
    ensures s == 0 ==> NoBytes(syms[..], revealed[..])
    ensures if HasSingle(old(syms[..])) then !AllLive(syms[..]) else syms[..] == old(syms[..])
  {
    hide HeldAny, Tally, Queued, Sound, Peeled, Emptied, AllLive, HasSingle, NoBytes, SameMeaning, Least, Closed, After,
         SpentFirst, RevealedSet, Live, ReverseIndex;
    ghost var received := syms[..];
    HeldCovers(received, k, s);
    revealed := new Option<Vec>[k](_ => None);
    var covers := BuildCovers(syms, k);
    var degree := Degrees(syms);
    assert forall i :: 0 <= i < |received| ==> degree[..][i] == |received[i].cover|;
    var queue: seq<nat>, ahead := StartQueue(syms[..], degree[..], k, s);
    StartPeel(received, degree[..], covers[..], revealed[..], k, s, queue, ahead);
    PeelLoop(syms, degree, covers, revealed, k, s, queue, ahead, received);
    EndTally(CoverSets(received), syms[..], degree[..], covers[..], revealed[..], k);
    EndPeel(received, syms[..], degree[..], covers[..], revealed[..], k, s);
  }

  lemma {:induction false} StartPeel(syms: seq<ParsedSym>, degree: seq<nat>, covers: seq<seq<nat>>,
                                     revealed: seq<Option<Vec>>, k: nat, s: nat, queue: seq<nat>, ahead: nat)
    requires HeldAny(syms, k, s) && |degree| == |syms| && |covers| == |revealed| == k
    requires forall i :: 0 <= i < |syms| ==> CoverOk(syms[i].cover, k) && degree[i] == |syms[i].cover|
    requires forall j :: 0 <= j < k ==> revealed[j] == None
    requires ReverseIndex(syms, covers, k)
    requires Queued(degree, queue) && (s > 0 ==> SpentFirst(syms, degree, queue, ahead))
    requires forall q :: q in queue ==> q < |syms| && degree[q] == 1
    ensures Tally(CoverSets(syms), syms, degree, covers, revealed, k)
    ensures Sound(syms, syms, degree, covers, revealed, k, s, queue, ahead)
    ensures s > 0 ==> forall i :: 0 <= i < |syms| && !Live(syms[i]) ==> degree[i] == 1
    ensures HasSingle(syms) <==> queue != []
  {
    hide Tally, Held, PeelState, Means, SpentFirst, Queued, HasSingle, CoverOk, ReverseIndex;
    StartTally(syms, degree, covers, revealed, k);
    SinglesQueued(syms, degree, queue);
    if s > 0 {
      StartState(syms, degree, covers, revealed, k, s);
    } else {
      assert NoBytes(syms, revealed);
    }
  }

  lemma {:induction false} EndPeel(received: seq<ParsedSym>, syms: seq<ParsedSym>, degree: seq<nat>,
                                   covers: seq<seq<nat>>, revealed: seq<Option<Vec>>, k: nat, s: nat)
    requires |degree| == |syms| && |revealed| == k && Tally(CoverSets(received), syms, degree, covers, revealed, k)
    requires Sound(received, syms, degree, covers, revealed, k, s, [], 0)
    ensures Peeled(syms, revealed, k, s) && HeldAny(syms, k, s)
    ensures s > 0 && AllLive(received) ==> SameMeaning(received, syms, revealed, k, s)
    ensures s == 0 ==> NoBytes(syms, revealed)
  {
    hide Tally, Held, PeelState, Means, SpentFirst, Peeled, AllLive, NoBytes, Fresh, SameMeaning;
    if s > 0 {
      EndState(syms, degree, covers, revealed, k, s);
      MeansSame(received, syms, degree, revealed, k, s);
    } else {
      EndEmpty(CoverSets(received), syms, degree, covers, revealed, k);
    }
  }

  lemma {:induction false} EndEmpty(sets: seq<set<nat>>, syms: seq<ParsedSym>, degree: seq<nat>,
                                    covers: seq<seq<nat>>, revealed: seq<Option<Vec>>, k: nat)
    requires Tally(sets, syms, degree, covers, revealed, k) && NoBytes(syms, revealed)
    ensures Peeled(syms, revealed, k, 0) && Fresh(syms, k, 0)
  {
    hide Tallied, Least, CoverOk;
  }

  lemma {:induction false} MeansSame(received: seq<ParsedSym>, syms: seq<ParsedSym>, degree: seq<nat>,
                                     revealed: seq<Option<Vec>>, k: nat, s: nat)
    requires |degree| == |syms| && |revealed| == k && Means(received, syms, degree, revealed, k, s)
    ensures AllLive(received) ==> SameMeaning(received, syms, revealed, k, s)
  {
  }

  /** The first `ahead` entries of the queue are spent symbols, and all that wait are among them. */
  ghost predicate SpentFirst(syms: seq<ParsedSym>, degree: seq<nat>, queue: seq<nat>, ahead: nat)
    requires |degree| == |syms|
  {
    && ahead <= |queue|
    && (forall q :: q in queue ==> q < |syms| && degree[q] <= 1)
    && (forall q :: 0 <= q < ahead ==> queue[q] < |syms| && !Live(syms[queue[q]]))
    && (forall i: nat :: i < |syms| && !Live(syms[i]) && degree[i] > 0 ==> i in queue[..ahead])
    && (forall i: nat :: i < |syms| && degree[i] == 1 ==> i in queue)
  }

  /** A symbol that has nothing left to reveal leaves the queue. */
  lemma {:induction false} PopFirst(received: seq<ParsedSym>, syms: seq<ParsedSym>, degree: seq<nat>,
                                    covers: seq<seq<nat>>, revealed: seq<Option<Vec>>, k: nat, s: nat,
                                    queue: seq<nat>, ahead: nat)
    requires |degree| == |syms| && |revealed| == k && queue != [] && Queued(degree, queue)
    requires Sound(received, syms, degree, covers, revealed, k, s, queue, ahead)
    ensures queue[0] < |syms| && degree[queue[0]] <= 1
    ensures degree[queue[0]] == 0 ==>
      && Queued(degree, queue[1..])
      && Sound(received, syms, degree, covers, revealed, k, s, queue[1..], if ahead > 0 then ahead - 1 else 0)
  {
    hide PeelState, Means, NoBytes;
    assert queue[0] in queue;
    assert queue == [queue[0]] + queue[1..];
    assert forall i :: i in queue <==> i == queue[0] || i in queue[1..];
    if ahead > 0 && s > 0 {
      assert queue[..ahead] == [queue[0]] + queue[1..][..ahead - 1];
    }
  }

  /** What holds besides the tally: of symbols with bytes, their meaning; of others, that there are none. */
  ghost predicate Sound(received: seq<ParsedSym>, syms: seq<ParsedSym>, degree: seq<nat>, covers: seq<seq<nat>>,
                        revealed: seq<Option<Vec>>, k: nat, s: nat, queue: seq<nat>, ahead: nat)
    requires |degree| == |syms| && |revealed| == k
  {
    if s == 0 then NoBytes(syms, revealed)
    else
      && PeelState(syms, degree, covers, revealed, k, s) && Means(received, syms, degree, revealed, k, s)
      && SpentFirst(syms, degree, queue, ahead)
  }

  /** Reveals from the queue until it is empty. */
  method PeelLoop(syms: array<ParsedSym>, degree: array<nat>, covers: array<seq<nat>>, revealed: array<Option<Vec>>,
                  k: nat, s: nat, start: seq<nat>, ghost ahead: nat, ghost received: seq<ParsedSym>)
    requires degree.Length == syms.Length && revealed.Length == k && received == syms[..]
    requires Tally(CoverSets(received), syms[..], degree[..], covers[..], revealed[..], k)
    requires Queued(degree[..], start)
    requires Sound(received, syms[..], degree[..], covers[..], revealed[..], k, s, start, ahead)
    requires forall q :: q in start ==> q < syms.Length && degree[q] == 1
    requires s > 0 ==> forall i :: 0 <= i < syms.Length && !Live(syms[i]) ==> degree[i] == 1
    modifies syms, degree, covers, revealed
    ensures Tally(CoverSets(received), syms[..], degree[..], covers[..], revealed[..], k)
    ensures Queued(degree[..], [])
    ensures Sound(received, syms[..], degree[..], covers[..], revealed[..], k, s, [], 0)
    ensures s > 0 ==> Emptied(received, revealed[..])
    ensures if start == [] then syms[..] == received else !AllLive(syms[..])
  {
    hide Sound, Tally, Queued;
    var queue: seq<nat> := start;
    ghost var first, moved := ahead, false;
    ghost var waiting := set i: nat | i < syms.Length && degree[i] > 0;
    while queue != []
      invariant Tally(CoverSets(received), syms[..], degree[..], covers[..], revealed[..], k)
      invariant Queued(degree[..], queue)
      invariant Sound(received, syms[..], degree[..], covers[..], revealed[..], k, s, queue, first)
      invariant forall i: nat :: i in waiting <==> i < syms.Length && degree[i] > 0
      invariant s > 0 ==> forall i :: 0 <= i < syms.Length && !Live(received[i]) ==>
        !Live(syms[i]) && syms[i].cover == received[i].cover
      invariant s > 0 ==> forall i :: 0 <= i < syms.Length && !Live(received[i]) && degree[i] == 0 ==>
        EmptiedBy(received[i].cover, revealed[..])
      invariant if moved then start != [] && !AllLive(syms[..])
        else queue == start && syms[..] == received && degree[..] == old(degree[..])
      decreases waiting, |queue|
    {
      var si := queue[0];
      PopFirst(received, syms[..], degree[..], covers[..], revealed[..], k, s, queue, first);
      assert si in queue;
      ghost var was := waiting;
      if degree[si] != 0 {
        ghost var revealedWas := revealed[..];
        queue := Reveal(syms, degree, covers, revealed, k, s, queue, first, received);
        StayEmptied(received, revealedWas, revealed[..]);
        waiting := set i: nat | i in waiting && degree[i] > 0;
        moved := true;
        assert si in was && si !in waiting;
        assert !Live(syms[..][si]);
      } else {
        queue := queue[1..];
      }
      first := if first > 0 then first - 1 else 0;
    }
    LoopDone(received, syms[..], degree[..], covers[..], revealed[..], k, s, first);
    assert s > 0 ==> forall i :: 0 <= i < |received| && !Live(received[i]) ==> degree[..][i] == 0;
  }

  lemma {:induction false} LoopDone(received: seq<ParsedSym>, syms: seq<ParsedSym>, degree: seq<nat>,
                                    covers: seq<seq<nat>>, revealed: seq<Option<Vec>>, k: nat, s: nat, ahead: nat)
    requires |degree| == |syms| && |revealed| == k
    requires Sound(received, syms, degree, covers, revealed, k, s, [], ahead)
    ensures Sound(received, syms, degree, covers, revealed, k, s, [], 0)
    ensures s > 0 ==> NoneWaits(syms, degree)
  {
    hide PeelState, Means, NoBytes;
    if s > 0 {
      NothingWaits(syms, degree, ahead);
    }
  }

  lemma {:induction false} StayEmptied(spent: seq<ParsedSym>, revealed: seq<Option<Vec>>, revealed': seq<Option<Vec>>)
    requires |revealed'| == |revealed|
    requires forall j :: 0 <= j < |revealed| && revealed[j].Some? ==> revealed'[j] == revealed[j]
    ensures forall i :: 0 <= i < |spent| && EmptiedBy(spent[i].cover, revealed) ==> EmptiedBy(spent[i].cover, revealed')
  {
  }

  lemma {:induction false} NothingWaits(syms: seq<ParsedSym>, degree: seq<nat>, ahead: nat)
    requires |degree| == |syms| && SpentFirst(syms, degree, [], ahead)
    ensures SpentFirst(syms, degree, [], 0)
    ensures NoneWaits(syms, degree) && forall i :: 0 <= i < |syms| ==> degree[i] != 1
  {
  }

  /** How many sources each symbol covers. */
  method Degrees(syms: array<ParsedSym>) returns (degree: array<nat>)
    ensures fresh(degree) && degree.Length == syms.Length
    ensures forall i :: 0 <= i < syms.Length ==> degree[i] == |syms[i].cover|
  {
    degree := new nat[syms.Length](_ => 0);
    for si := 0 to syms.Length
      invariant forall i :: 0 <= i < si ==> degree[i] == |syms[i].cover|
    {
      degree[si] := |syms[si].cover|;
    }
  }

  /** The symbols of degree 1 in order; the spent ones come first. */
  method StartQueue(syms: seq<ParsedSym>, degree: seq<nat>, ghost k: nat, ghost s: nat)
      returns (queue: seq<nat>, ghost ahead: nat)
    requires HeldAny(syms, k, s) && |degree| == |syms|
    requires forall i :: 0 <= i < |syms| ==> degree[i] == |syms[i].cover|
    ensures Queued(degree, queue)
    ensures s > 0 ==> SpentFirst(syms, degree, queue, ahead)
    ensures forall q :: q in queue ==> q < |syms| && degree[q] == 1
  {
    hide SymbolOk, CoverOk, Held;
    queue, ahead := [], 0;
    for si := 0 to |syms|
      invariant ahead <= |queue|
      invariant forall q :: 0 <= q < |queue| ==>
        queue[q] < si && degree[queue[q]] == 1 && (s > 0 ==> (Live(syms[queue[q]]) <==> q >= ahead))
      invariant s > 0 ==> forall i: nat :: i < si && !Live(syms[i]) && degree[i] > 0 ==> i in queue[..ahead]
      invariant forall i: nat :: i < si && degree[i] == 1 ==> i in queue
    {
      if degree[si] == 1 {
        if s > 0 && !Live(syms[si]) {
          NoLiveQueued(syms, queue, ahead, si, k, s);
          assert queue[..ahead] == queue && (queue + [si])[..ahead + 1] == queue + [si];
          ahead := ahead + 1;
        } else {
          assert (queue + [si])[..ahead] == queue[..ahead];
        }
        queue := queue + [si];
      } else if s > 0 {
        HeldLive(syms, k, s, si);
      }
    }
  }

  lemma {:induction false} HeldLive(syms: seq<ParsedSym>, k: nat, s: nat, i: nat)
    requires Held(syms, k, s) && i < |syms|
    ensures Live(syms[i]) || |syms[i].cover| == 1
  {
    assert SymbolOk(syms[i], |syms[i].cover|, k, s);
  }

  lemma {:induction false} SinglesQueued(syms: seq<ParsedSym>, degree: seq<nat>, queue: seq<nat>)
    requires |degree| == |syms| && Queued(degree, queue)
    requires forall i :: 0 <= i < |syms| ==> degree[i] == |syms[i].cover|
    requires forall q :: q in queue ==> q < |syms| && degree[q] == 1
    ensures HasSingle(syms) <==> queue != []
  {
    if queue != [] {
      assert queue[0] in queue;
    }
  }

  /** A spent symbol finds only spent ones in the queue. */
  lemma {:induction false} NoLiveQueued(syms: seq<ParsedSym>, queue: seq<nat>, ahead: nat, si: nat, k: nat, s: nat)
    requires Held(syms, k, s) && ahead <= |queue| && si < |syms| && !Live(syms[si])
    requires ahead < |queue| ==> queue[ahead] < si && Live(syms[queue[ahead]]) && |syms[queue[ahead]].cover| == 1
    ensures ahead == |queue|
  {
    hide SymbolOk;
    var i := if ahead < |queue| then queue[ahead] else si;
    assert i < si ==> Ahead(syms[i], syms[si]);
  }

  lemma {:induction false} StartState(syms: seq<ParsedSym>, degree: seq<nat>, covers: seq<seq<nat>>,
                                      revealed: seq<Option<Vec>>, k: nat, s: nat)
    requires s > 0 && Held(syms, k, s) && |degree| == |syms| && |covers| == |revealed| == k
    requires forall i :: 0 <= i < |syms| ==> degree[i] == |syms[i].cover|
    requires forall j :: 0 <= j < k ==> revealed[j] == None
    requires ReverseIndex(syms, covers, k)
    ensures PeelState(syms, degree, covers, revealed, k, s)
    ensures Means(syms, syms, degree, revealed, k, s)
    ensures forall i :: 0 <= i < |syms| && !Live(syms[i]) ==> degree[i] == 1
  {
    hide Explains;
    forall i | 0 <= i < |syms| ensures SymbolOk(syms[i], degree[i], k, s) {
    }
    assert SpentOk(syms, degree, revealed) by {
      forall i, j | 0 <= i < j < |syms| && !Live(syms[i]) && !Live(syms[j])
        ensures syms[i].cover.Keys !! syms[j].cover.Keys
      {
        assert Ahead(syms[i], syms[j]);
      }
    }
    forall y | Shape(y, k, s) && AllLive(syms)
      ensures ExplainsAll(y, syms, k, s) <==> Agrees(y, revealed) && ExplainsLive(y, syms, k, s)
    {
    }
  }

  lemma {:induction false} StateFacts(syms: seq<ParsedSym>, degree: seq<nat>, covers: seq<seq<nat>>,
                                      revealed: seq<Option<Vec>>, k: nat, s: nat)
    requires PeelState(syms, degree, covers, revealed, k, s)
    ensures |revealed| == |covers| == k && |degree| == |syms| && SpentOk(syms, degree, revealed)
    ensures forall i :: 0 <= i < |syms| ==> SymbolOk(syms[i], degree[i], k, s)
    ensures forall i :: 0 <= i < |syms| && (Live(syms[i]) || degree[i] > 0) ==> Unrevealed(syms[i].cover, revealed)
    ensures forall i, idx :: 0 <= i < |syms| && Live(syms[i]) && idx in syms[i].cover ==> i in covers[idx]
    ensures forall idx, i :: 0 <= idx < k && 0 <= i < |covers[idx]| ==> covers[idx][i] < |syms|
  {
    hide SymbolOk, SpentOk;
    forall i | 0 <= i < |syms| && (Live(syms[i]) || degree[i] > 0)
      ensures Unrevealed(syms[i].cover, revealed) && forall idx :: idx in syms[i].cover ==> i in covers[idx]
    {
      assert Indexed(i, syms[i], degree[i], covers, revealed);
    }
  }

  /** When nothing is left to reveal, spent symbols are apart from all others. */
  lemma {:induction false} EndState(syms: seq<ParsedSym>, degree: seq<nat>, covers: seq<seq<nat>>,
                                    revealed: seq<Option<Vec>>, k: nat, s: nat)
    requires PeelState(syms, degree, covers, revealed, k, s) && SpentFirst(syms, degree, [], 0)
    ensures Peeled(syms, revealed, k, s) && Held(syms, k, s)
  {
    StateFacts(syms, degree, covers, revealed, k, s);
    NothingWaits(syms, degree, 0);
    hide PeelState, SpentFirst;
    forall i, j | 0 <= i < j < |syms| && !Live(syms[j]) ensures Ahead(syms[i], syms[j]) {
      assert Revealed(syms[j].cover, revealed);
      if Live(syms[i]) {
        assert Unrevealed(syms[i].cover, revealed);
      }
    }
    forall i | 0 <= i < |syms| ensures SymbolOk(syms[i], |syms[i].cover|, k, s) {
    }
  }

  /** One reveal with its ripple keeps the bookkeeping. */
  lemma {:induction false} RevealKeepsState(syms: seq<ParsedSym>, degree: seq<nat>, covers: seq<seq<nat>>,
                                            revealed: seq<Option<Vec>>, next: seq<ParsedSym>, degree': seq<nat>,
                                            si: nat, target: nat, x: Vec, queue: seq<nat>, queue': seq<nat>,
                                            k: nat, s: nat)
    requires PeelState(syms, degree, covers, revealed, k, s)
    requires queue != [] && Counted(syms, next, degree, degree', si, queue[1..], queue', k, s)
    requires target < k && AfterReveal(syms, next, si, target, x)
    requires syms[si].cover.Keys == {target} && revealed[target].None?
    requires forall j :: 0 <= j < |syms| && j != si && !Live(syms[j]) && degree[j] > 0 ==> target !in syms[j].cover
    ensures PeelState(next, degree', covers[target := []], revealed[target := Some(x)], k, s)
  {
    hide SymbolOk, AxpyShort;
    StateFacts(syms, degree, covers, revealed, k, s);
    var revealed' := revealed[target := Some(x)];
    forall i | 0 <= i < |next| ensures Indexed(i, next[i], degree'[i], covers[target := []], revealed') {
      if Live(next[i]) || degree'[i] > 0 {
        assert i != si && Indexed(i, syms[i], degree[i], covers, revealed);
        forall idx | idx in next[i].cover ensures idx in syms[i].cover && idx != target {
        }
      }
    }
    RevealKeepsSpent(syms, degree, revealed, next, degree', si, target, x);
  }

  lemma {:induction false} RevealKeepsSpent(syms: seq<ParsedSym>, degree: seq<nat>, revealed: seq<Option<Vec>>,
                                            next: seq<ParsedSym>, degree': seq<nat>, si: nat, target: nat, x: Vec)
    requires |degree| == |syms| && |degree'| == |next| && SpentOk(syms, degree, revealed)
    requires si < |syms| && target < |revealed| && AfterReveal(syms, next, si, target, x)
    requires syms[si].cover.Keys == {target} && revealed[target].None?
    requires forall j :: 0 <= j < |syms| && j != si && !Live(syms[j]) && degree[j] > 0 ==> target !in syms[j].cover
    requires degree'[si] == 0 && forall i :: 0 <= i < |next| && i != si && !Live(next[i]) ==> degree'[i] == degree[i]
    ensures SpentOk(next, degree', revealed[target := Some(x)])
  {
    hide AxpyShort;
    var revealed' := revealed[target := Some(x)];
    forall i | 0 <= i < |next| && !Live(next[i]) && degree'[i] == 0 ensures Revealed(next[i].cover, revealed') {
      if i != si {
        assert Revealed(syms[i].cover, revealed);
      }
    }
    forall i | 0 <= i < |next| && i != si && !Live(next[i])
      ensures next[i] == syms[i] && next[i].cover.Keys !! {target}
    {
      if degree[i] == 0 {
        assert Revealed(syms[i].cover, revealed);
      }
    }
  }

  /** How the degrees and the queue change when symbol si is spent. */
  ghost predicate Counted(syms: seq<ParsedSym>, next: seq<ParsedSym>, degree: seq<nat>, degree': seq<nat>,
                          si: nat, rest: seq<nat>, queue': seq<nat>, k: nat, s: nat)
  {
    && |degree| == |syms| == |next| == |degree'| && si < |syms| && degree'[si] == 0 && rest <= queue'
    && (forall i :: 0 <= i < |next| ==> SymbolOk(next[i], degree'[i], k, s) && degree'[i] <= degree[i])
    && (forall i :: 0 <= i < |next| && i != si && !Live(next[i]) ==> degree'[i] == degree[i])
    && (forall q :: q in queue' ==> q < |next| && degree'[q] <= 1)
    && (forall i: nat :: i < |next| && degree'[i] == 1 && degree[i] != 1 ==> i in queue')
  }

  /** Takes the payload of symbol si as the value of `target` and ripples it. */
  method Spend(syms: array<ParsedSym>, degree: array<nat>, covers: array<seq<nat>>, revealed: array<Option<Vec>>,
               si: nat, target: nat, rest: seq<nat>) returns (x: Vec, queue': seq<nat>)
    requires degree.Length == syms.Length && covers.Length == revealed.Length && target < covers.Length
    requires forall i :: 0 <= i < |covers[target]| ==> covers[target][i] < syms.Length
    requires forall i: nat :: i < syms.Length && degree[i] > 0 && target in syms[i].cover ==> i in covers[target]
    requires si < syms.Length && target in syms[si].cover
    requires forall q :: q in rest ==> q < syms.Length && degree[q] <= 1
    modifies syms, degree, covers, revealed
    ensures x == Scale(Inv(old(syms[si].cover[target])), old(syms[si].payload))
    ensures Changed(old(syms[..]), syms[..], old(degree[..]), degree[..], si, target, x)
    ensures covers[..] == old(covers[..])[target := []] && revealed[..] == old(revealed[..])[target := Some(x)]
    ensures rest <= queue' && forall q :: q in queue' ==> q < syms.Length && degree[q] <= 1
    ensures forall i: nat :: i < syms.Length && degree[i] == 1 && old(degree[i]) != 1 ==> i in queue'
  {
    hide Scale, Inv, Rippled;
    var coeff := syms[si].cover[target];
    x := Scale(Inv(coeff), syms[si].payload);
    syms[si] := ParsedSym(syms[si].cover, []);
    degree[si] := 0;
    RippledParts(syms[si], 0, target, x);
    var dependents := covers[target];
    covers[target] := [];
    queue' := Ripple(syms, degree, dependents, si, target, x, rest);
    revealed[target] := Some(x);
  }

  /** For symbols with bytes, how a reveal changes live and spent ones. */
  lemma {:induction false} ChangedLive(syms: seq<ParsedSym>, next: seq<ParsedSym>, degree: seq<nat>, degree': seq<nat>,
                                       si: nat, target: nat, x: Vec, rest: seq<nat>, queue': seq<nat>, k: nat, s: nat)
    requires Changed(syms, next, degree, degree', si, target, x) && s > 0 && rest <= queue'
    requires forall i :: 0 <= i < |syms| ==> SymbolOk(syms[i], degree[i], k, s)
    requires syms[si].cover.Keys == {target} && |syms[si].cover| == 1
    requires forall j :: 0 <= j < |syms| && j != si && !Live(syms[j]) && degree[j] > 0 ==> target !in syms[j].cover
    requires forall q :: q in queue' ==> q < |next| && degree'[q] <= 1
    requires forall i: nat :: i < |next| && degree'[i] == 1 && degree[i] != 1 ==> i in queue'
    ensures AfterReveal(syms, next, si, target, x)
    ensures Counted(syms, next, degree, degree', si, rest, queue', k, s)
  {
    hide AxpyShort, SymbolOk;
    forall i | 0 <= i < |syms|
      ensures next[i] == if i == si then ParsedSym(syms[i].cover, []) else Substituted(syms[i], target, x)
      ensures SymbolOk(next[i], degree'[i], k, s) && degree'[i] <= degree[i]
      ensures i != si && !Live(next[i]) ==> degree'[i] == degree[i]
    {
      if i == si {
        SpentIsOk(syms[i], degree[i], k, s);
      } else {
        ChangedOne(syms[i], degree[i], target, x, k, s);
      }
    }
  }

  lemma {:induction false} ChangedOne(sym: ParsedSym, degree: nat, target: nat, x: Vec, k: nat, s: nat)
    requires s > 0 && SymbolOk(sym, degree, k, s) && (!Live(sym) && degree > 0 ==> target !in sym.cover)
    ensures
      var (next, d) := Rippled(sym, degree, target, x);
      && next == Substituted(sym, target, x) && SymbolOk(next, d, k, s) && (!Live(next) ==> d == degree)
  {
    if target in sym.cover {
      CoverShrinks(sym.cover, target);
    }
  }

  lemma {:induction false} SpentIsOk(sym: ParsedSym, degree: nat, k: nat, s: nat)
    requires SymbolOk(sym, degree, k, s) && |sym.cover| == 1
    ensures SymbolOk(ParsedSym(sym.cover, []), 0, k, s)
  {
  }

  /** Reveals the one source that the first symbol of the queue covers, and ripples its value. */
  method Reveal(syms: array<ParsedSym>, degree: array<nat>, covers: array<seq<nat>>, revealed: array<Option<Vec>>,
                k: nat, s: nat, queue: seq<nat>, ghost ahead: nat, ghost received: seq<ParsedSym>)
      returns (queue': seq<nat>)
    requires degree.Length == syms.Length && revealed.Length == k
    requires Tally(CoverSets(received), syms[..], degree[..], covers[..], revealed[..], k)
    requires Queued(degree[..], queue)
    requires Sound(received, syms[..], degree[..], covers[..], revealed[..], k, s, queue, ahead)
    requires queue != [] && queue[0] < syms.Length && degree[queue[0]] == 1
    modifies syms, degree, covers, revealed
    ensures Tally(CoverSets(received), syms[..], degree[..], covers[..], revealed[..], k)
    ensures Queued(degree[..], queue')
    ensures
      var first := if ahead > 0 then ahead - 1 else 0;
      Sound(received, syms[..], degree[..], covers[..], revealed[..], k, s, queue', first)
    ensures !Live(syms[queue[0]]) && degree[queue[0]] == 0
    ensures forall i :: 0 <= i < syms.Length ==> degree[i] <= old(degree[i])
    ensures s > 0 ==> forall i :: 0 <= i < syms.Length && !old(Live(syms[i])) ==>
      !Live(syms[i]) && syms[i].cover == old(syms[i].cover) && (i != queue[0] ==> degree[i] == old(degree[i]))
    ensures forall j :: 0 <= j < k && old(revealed[j]).Some? ==> revealed[j] == old(revealed[j])
    ensures old(Live(syms[queue[0]])) || EmptiedBy(syms[queue[0]].cover, revealed[..])
  {
    hide Scale, Inv, Tally, Queued, Sound, Changed;
    var si := queue[0];
    ghost var was, degreeWas, coversWas, revealedWas := syms[..], degree[..], covers[..], revealed[..];
    ghost var t := TallyFacts(CoverSets(received), was, degreeWas, coversWas, revealedWas, k, si);
    QueueRest(degreeWas, queue);
    var target :| target in syms[si].cover && revealed[target].None?;
    assert target == t;
    var x;
    x, queue' := Spend(syms, degree, covers, revealed, si, target, queue[1..]);
    RevealKeepsTally(CoverSets(received), was, degreeWas, coversWas, revealedWas, syms[..], degree[..], si, target, x,
                     k);
    RevealKeepsQueue(was, syms[..], degreeWas, degree[..], target, x, queue, queue');
    RevealKeepsSound(received, was, degreeWas, coversWas, revealedWas, syms[..], degree[..], target, x, queue, queue',
                     ahead, k, s);
    RevealEffect(was, syms[..], degreeWas, degree[..], revealedWas, si, target, x);
  }

  /** The symbol has one source left, unrevealed, and the index knows all that wait for it. */
  lemma {:induction false} TallyFacts(sets: seq<set<nat>>, syms: seq<ParsedSym>, degree: seq<nat>,
                                      covers: seq<seq<nat>>, revealed: seq<Option<Vec>>, k: nat, si: nat)
      returns (t: nat)
    requires Tally(sets, syms, degree, covers, revealed, k) && si < |syms| && degree[si] == 1
    ensures |covers| == |revealed| == k && |degree| == |syms| && t < k
    ensures syms[si].cover.Keys == {t} && revealed[t].None? && CoverOk(syms[si].cover, k)
    ensures forall i :: 0 <= i < |covers[t]| ==> covers[t][i] < |syms|
    ensures forall i: nat :: i < |syms| && degree[i] > 0 && t in syms[i].cover ==> i in covers[t]
  {
    hide Least;
    var r := RevealedSet(revealed);
    assert Tallied(si, sets[si], syms[si], degree[si], covers, r);
    assert |syms[si].cover.Keys| == 1;
    t :| t in syms[si].cover;
    SingleKey(syms[si].cover, t);
    assert t in syms[si].cover.Keys;
    forall i: nat | i < |syms| && degree[i] > 0 && t in syms[i].cover ensures i in covers[t] {
      assert Tallied(i, sets[i], syms[i], degree[i], covers, r);
    }
  }

  lemma {:induction false} QueueRest(degree: seq<nat>, queue: seq<nat>)
    requires queue != [] && Queued(degree, queue)
    ensures forall q :: q in queue[1..] ==> q < |degree| && degree[q] <= 1
  {
    assert forall q :: q in queue[1..] ==> q in queue;
  }

  lemma {:induction false} RevealKeepsQueue(syms: seq<ParsedSym>, next: seq<ParsedSym>, degree: seq<nat>,
                                            degree': seq<nat>, target: nat, x: Vec, queue: seq<nat>, queue': seq<nat>)
    requires queue != [] && Queued(degree, queue) && Changed(syms, next, degree, degree', queue[0], target, x)
    requires queue[1..] <= queue' && forall q :: q in queue' ==> q < |next| && degree'[q] <= 1
    requires forall i: nat :: i < |next| && degree'[i] == 1 && degree[i] != 1 ==> i in queue'
    ensures Queued(degree', queue')
  {
    hide Rippled;
    assert queue == [queue[0]] + queue[1..];
    assert forall q :: q in queue[1..] ==> q in queue';
  }

  lemma {:induction false} RevealEffect(syms: seq<ParsedSym>, next: seq<ParsedSym>, degree: seq<nat>,
                                        degree': seq<nat>, revealed: seq<Option<Vec>>, si: nat, target: nat, x: Vec)
    requires Changed(syms, next, degree, degree', si, target, x) && target < |revealed| && revealed[target].None?
    requires syms[si].cover.Keys == {target} && x == Scale(Inv(syms[si].cover[target]), syms[si].payload)
    ensures !Live(next[si]) && degree'[si] == 0
    ensures forall i :: 0 <= i < |syms| ==> degree'[i] <= degree[i]
    ensures forall j :: 0 <= j < |revealed| && revealed[j].Some? ==> revealed[target := Some(x)][j] == revealed[j]
    ensures Live(syms[si]) || EmptiedBy(next[si].cover, revealed[target := Some(x)])
  {
    hide Inv, AxpyShort;
  }

  lemma {:induction false} RevealKeepsSound(received: seq<ParsedSym>, syms: seq<ParsedSym>, degree: seq<nat>,
                                            covers: seq<seq<nat>>, revealed: seq<Option<Vec>>, next: seq<ParsedSym>,
                                            degree': seq<nat>, target: nat, x: Vec, queue: seq<nat>,
                                            queue': seq<nat>, ahead: nat, k: nat, s: nat)
    requires |degree| == |syms| && |revealed| == |covers| == k && queue != [] && queue[0] < |syms|
    requires Sound(received, syms, degree, covers, revealed, k, s, queue, ahead)
    requires Changed(syms, next, degree, degree', queue[0], target, x) && degree[queue[0]] == 1
    requires syms[queue[0]].cover.Keys == {target} && target < k && revealed[target].None?
    requires x == Scale(Inv(syms[queue[0]].cover[target]), syms[queue[0]].payload)
    requires queue[1..] <= queue' && forall q :: q in queue' ==> q < |next| && degree'[q] <= 1
    requires forall i: nat :: i < |next| && degree'[i] == 1 && degree[i] != 1 ==> i in queue'
    ensures
      var first := if ahead > 0 then ahead - 1 else 0;
      Sound(received, next, degree', covers[target := []], revealed[target := Some(x)], k, s, queue', first)
    ensures s > 0 ==> forall i :: 0 <= i < |syms| && !Live(syms[i]) ==>
      !Live(next[i]) && next[i].cover == syms[i].cover && (i != queue[0] ==> degree'[i] == degree[i])
  {
    hide PeelState, Means, SpentFirst, NoBytes, Inv, Scale, AfterReveal, Counted, SymbolOk, SpentOk, Changed;
    if s == 0 {
      NoBytesKept(syms, next, degree, degree', revealed, queue[0], target, x);
    } else {
      var si := queue[0];
      StateFacts(syms, degree, covers, revealed, k, s);
      OneSource(syms[si], degree[si], k, s);
      OnlyOneWaits(syms, degree, revealed, queue, ahead, target);
      ChangedLive(syms, next, degree, degree', si, target, x, queue[1..], queue', k, s);
      RevealKeepsState(syms, degree, covers, revealed, next, degree', si, target, x, queue, queue', k, s);
      RevealKeepsMeans(received, syms, next, degree, degree', revealed, si, target, x, queue, queue', k, s);
      QueueAfter(syms, next, degree, degree', queue, queue', ahead, target, x, k, s);
      SpentChanges(syms, next, degree, degree', si, target, x, queue, queue', k, s);
    }
  }

  lemma {:induction false} NoBytesKept(syms: seq<ParsedSym>, next: seq<ParsedSym>, degree: seq<nat>,
                                       degree': seq<nat>, revealed: seq<Option<Vec>>, si: nat, target: nat, x: Vec)
    requires Changed(syms, next, degree, degree', si, target, x) && NoBytes(syms, revealed) && target < |revealed|
    requires target in syms[si].cover && x == Scale(Inv(syms[si].cover[target]), syms[si].payload)
    ensures NoBytes(next, revealed[target := Some(x)])
  {
    hide Inv;
    forall i | 0 <= i < |next| ensures next[i].payload == [] {
      assert (next[i], degree'[i]) ==
        if i == si then (ParsedSym(syms[i].cover, []), 0) else Rippled(syms[i], degree[i], target, x);
    }
  }

  /** A symbol of degree 1 covers one source. */
  lemma {:induction false} OneSource(sym: ParsedSym, degree: nat, k: nat, s: nat)
    requires SymbolOk(sym, degree, k, s) && degree == 1
    ensures |sym.cover| == 1 && CoverOk(sym.cover, k) && exists t :: t in sym.cover
  {
    assert |sym.cover.Keys| == 1;
    assert sym.cover.Keys != {};
  }

  lemma {:induction false} SpentChanges(syms: seq<ParsedSym>, next: seq<ParsedSym>, degree: seq<nat>,
                                        degree': seq<nat>, si: nat, target: nat, x: Vec, queue: seq<nat>,
                                        queue': seq<nat>, k: nat, s: nat)
    requires queue != [] && Counted(syms, next, degree, degree', si, queue[1..], queue', k, s)
    requires AfterReveal(syms, next, si, target, x)
    ensures forall i :: 0 <= i < |syms| && !Live(syms[i]) ==>
      !Live(next[i]) && next[i].cover == syms[i].cover && (i != si ==> degree'[i] == degree[i])
  {
    hide SymbolOk, AxpyShort;
  }

  /** No other spent symbol that waits covers the source. */
  lemma {:induction false} OnlyOneWaits(syms: seq<ParsedSym>, degree: seq<nat>, revealed: seq<Option<Vec>>,
                                        queue: seq<nat>, ahead: nat, target: nat)
    requires |degree| == |syms| && SpentFirst(syms, degree, queue, ahead) && SpentOk(syms, degree, revealed)
    requires queue != [] && queue[0] < |syms| && target in syms[queue[0]].cover
    ensures forall j :: 0 <= j < |syms| && j != queue[0] && !Live(syms[j]) && degree[j] > 0 ==>
      !Live(syms[queue[0]]) && target !in syms[j].cover
  {
    forall j: nat | j < |syms| && j != queue[0] && !Live(syms[j]) && degree[j] > 0
      ensures !Live(syms[queue[0]]) && target !in syms[j].cover
    {
      assert j in queue[..ahead];
      assert target in syms[queue[0]].cover.Keys;
    }
  }

  lemma {:induction false} RevealKeepsMeans(received: seq<ParsedSym>, syms: seq<ParsedSym>, next: seq<ParsedSym>,
                                            degree: seq<nat>, degree': seq<nat>, revealed: seq<Option<Vec>>,
                                            si: nat, target: nat, x: Vec, queue: seq<nat>, queue': seq<nat>,
                                            k: nat, s: nat)
    requires queue != [] && Counted(syms, next, degree, degree', si, queue[1..], queue', k, s)
    requires |revealed| == k && target < k && revealed[target].None? && s > 0 && degree[si] == 1
    requires forall i :: 0 <= i < |syms| ==> SymbolOk(syms[i], degree[i], k, s)
    requires syms[si].cover.Keys == {target} && x == Scale(Inv(syms[si].cover[target]), syms[si].payload)
    requires AfterReveal(syms, next, si, target, x)
    requires Means(received, syms, degree, revealed, k, s)
    ensures Means(received, next, degree', revealed[target := Some(x)], k, s)
  {
    hide SameMeaning, Scale, Inv, AxpyShort;
    if AllLive(received) {
      assert SymbolOk(syms[si], degree[si], k, s);
      RevealKeepsAllMeanings(received, syms, next, revealed, si, target, x, k, s);
      forall i | 0 <= i < |next| && !Live(next[i]) ensures degree'[i] == 0 {
        assert i == si || syms[i] == next[i];
      }
    }
  }

  /** The queue after a reveal: the rest of it, and what the ripple has added. */
  lemma {:induction false} QueueAfter(syms: seq<ParsedSym>, next: seq<ParsedSym>, degree: seq<nat>, degree': seq<nat>,
                                      queue: seq<nat>, queue': seq<nat>, ahead: nat, target: nat, x: Vec,
                                      k: nat, s: nat)
    requires queue != [] && Counted(syms, next, degree, degree', queue[0], queue[1..], queue', k, s)
    requires SpentFirst(syms, degree, queue, ahead) && AfterReveal(syms, next, queue[0], target, x)
    ensures SpentFirst(next, degree', queue', if ahead > 0 then ahead - 1 else 0)
  {
    hide SymbolOk, AxpyShort;
    var rest := queue[1..];
    assert queue == [queue[0]] + rest;
    assert forall q :: q in rest ==> q in queue';
    if ahead > 0 {
      assert queue[..ahead] == [queue[0]] + rest[..ahead - 1];
      assert queue'[..ahead - 1] == rest[..ahead - 1];
      forall q | 0 <= q < ahead - 1 ensures queue'[q] < |next| && !Live(next[queue'[q]]) {
        assert queue'[q] == rest[q] == queue[q + 1];
        assert queue[q + 1] < |syms| && !Live(syms[queue[q + 1]]);
      }
    }
  }

  lemma {:induction false} RevealKeepsAllMeanings(received: seq<ParsedSym>, syms: seq<ParsedSym>, next: seq<ParsedSym>,
                               revealed: seq<Option<Vec>>, si: nat, target: nat, x: Vec, k: nat, s: nat)
    requires |revealed| == k && si < |syms| && target < k && revealed[target].None? && s > 0
    requires forall i :: 0 <= i < |syms| && Live(syms[i]) ==> |syms[i].payload| == s
    requires Live(syms[si]) && syms[si].cover.Keys == {target} && syms[si].cover[target] != 0
    requires x == Scale(Inv(syms[si].cover[target]), syms[si].payload)
    requires AfterReveal(syms, next, si, target, x)
    requires SameMeaning(received, syms, revealed, k, s)
    ensures SameMeaning(received, next, revealed[target := Some(x)], k, s)
  {
    hide Explains, Scale, Inv, AfterReveal, ExplainsLive, Agrees, ExplainsAll;
    forall y | Shape(y, k, s)
      ensures ExplainsAll(y, received, k, s) <==>
              Agrees(y, revealed[target := Some(x)]) && ExplainsLive(y, next, k, s)
    {
      RevealKeepsMeaning(syms, next, revealed, si, target, x, k, s, y);
    }
  }

  // ---------------------------------------------------------- the residual system

  /** The unrevealed sources below n, in order. */
  function Unknowns(revealed: seq<Option<Vec>>, n: nat): (u: seq<nat>)
    requires n <= |revealed|
    ensures forall i :: 0 <= i < |u| ==> u[i] < n && revealed[u[i]].None?
  {
    if n == 0 then []
    else if revealed[n - 1].None? then Unknowns(revealed, n - 1) + [n - 1]
    else Unknowns(revealed, n - 1)
  }

  lemma {:induction false} UnknownsIncrease(revealed: seq<Option<Vec>>, n: nat)
    requires n <= |revealed|
    ensures forall i, j :: 0 <= i < j < |Unknowns(revealed, n)| ==> Unknowns(revealed, n)[i] < Unknowns(revealed, n)[j]
  {
    if n > 0 {
      UnknownsIncrease(revealed, n - 1);
    }
  }

  /** The coordinates of v at the unknowns. */
  function Restrict<T>(v: seq<T>, u: seq<nat>): (r: seq<T>)
    requires forall i :: 0 <= i < |u| ==> u[i] < |v|
    ensures |r| == |u| && forall i :: 0 <= i < |u| ==> r[i] == v[u[i]]
  {
    seq(|u|, i requires 0 <= i < |u| => v[u[i]])
  }

  /** A combination of unknown sources only is the combination of the restricted vectors. */
  lemma {:induction false} CombRestrict(cs: Vec, y: seq<Vec>, s: nat, revealed: seq<Option<Vec>>, n: nat)
    requires |cs| == |y| == |revealed| && Rectangular(y, s) && n <= |cs|
    requires forall j :: 0 <= j < n && revealed[j].Some? ==> cs[j] == 0
    ensures
      var u := Unknowns(revealed, n);
      CombTo(cs, y, s, n) == Comb(Restrict(cs, u), Restrict(y, u), s)
  {
    hide Axpy, Comb, Restrict, CombTo;
    if n == 0 {
      EmptyComb(cs, y, s);
    } else {
      CombRestrict(cs, y, s, revealed, n - 1);
      CombToStep(cs, y, s, n);
      if revealed[n - 1].Some? {
        AxpyZero(y[n - 1], CombTo(cs, y, s, n - 1));
      } else {
        RestrictOneMore(cs, y, s, Unknowns(revealed, n - 1), n);
      }
    }
  }

  lemma {:induction false} EmptyComb(cs: Vec, y: seq<Vec>, s: nat)
    requires |cs| == |y| && Rectangular(y, s)
    ensures CombTo(cs, y, s, 0) == Comb(Restrict(cs, []), Restrict(y, []), s)
  {
  }

  lemma {:induction false} RestrictOneMore(cs: Vec, y: seq<Vec>, s: nat, u: seq<nat>, n: nat)
    requires |cs| == |y| && Rectangular(y, s) && 0 < n <= |cs|
    requires forall i :: 0 <= i < |u| ==> u[i] < n
    ensures
      var v := u + [n - 1];
      Comb(Restrict(cs, v), Restrict(y, v), s) == Axpy(cs[n - 1], y[n - 1], Comb(Restrict(cs, u), Restrict(y, u), s))
  {
    hide Axpy, Comb;
    var v := u + [n - 1];
    assert Restrict(cs, v) == Restrict(cs, u) + [cs[n - 1]];
    assert Restrict(y, v) == Restrict(y, u) + [y[n - 1]];
    CombSnoc(Restrict(cs, u), Restrict(y, u), cs[n - 1], y[n - 1], s);
  }

  lemma {:induction false} CombSnoc(cs: Vec, rows: seq<Vec>, c: bv8, row: Vec, m: nat)
    requires |cs| == |rows| && Rectangular(rows, m) && |row| == m
    ensures Rectangular(rows + [row], m)
    ensures Comb(cs + [c], rows + [row], m) == Axpy(c, row, Comb(cs, rows, m))
  {
    hide Axpy;
    CombPrefix(cs + [c], rows + [row], cs, rows, m, |rows|);
  }

  lemma {:induction false} CombToStep(cs: Vec, rows: seq<Vec>, m: nat, n: nat)
    requires 0 < n <= |cs| && n <= |rows| && Rectangular(rows, m)
    ensures CombTo(cs, rows, m, n) == Axpy(cs[n - 1], rows[n - 1], CombTo(cs, rows, m, n - 1))
  {
  }

  lemma {:induction false} CombPrefix(cs: Vec, rows: seq<Vec>, cs': Vec, rows': seq<Vec>, m: nat, n: nat)
    requires n <= |cs| && n <= |rows| && n <= |cs'| && n <= |rows'| && Rectangular(rows, m) && Rectangular(rows', m)
    requires forall i :: 0 <= i < n ==> cs[i] == cs'[i] && rows[i] == rows'[i]
    ensures CombTo(cs, rows, m, n) == CombTo(cs', rows', m, n)
  {
    hide Axpy;
    if n > 0 {
      CombPrefix(cs, rows, cs', rows', m, n - 1);
    }
  }

  /** The residual row of a symbol: its coefficients at the unknowns, then its payload. */
  function ResidualRow(sym: ParsedSym, u: seq<nat>, k: nat, s: nat): (row: Vec)
    requires forall i :: 0 <= i < |u| ==> u[i] < k
    requires |sym.payload| == s
    ensures |row| == |u| + s
  {
    Restrict(Dense(sym.cover, k), u) + sym.payload
  }

  lemma {:induction false} ResidualRowSolved(sym: ParsedSym, revealed: seq<Option<Vec>>, k: nat, s: nat, y: seq<Vec>)
    requires |revealed| == k && Shape(y, k, s) && |sym.payload| == s
    requires Unrevealed(sym.cover, revealed)
    ensures
      var u := Unknowns(revealed, k);
      Explains(y, sym, k, s) <==> RowSolvedBy(ResidualRow(sym, u, k, s), |u|, s, Restrict(y, u))
  {
    hide CombTo, RowSolvedBy, Comb;
    var u := Unknowns(revealed, k);
    CombRestrict(Dense(sym.cover, k), y, s, revealed, k);
    RowSolvedIffComb(Restrict(Dense(sym.cover, k), u), sym.payload, |u|, s, Restrict(y, u));
    assert Comb(Dense(sym.cover, k), y, s) == CombTo(Dense(sym.cover, k), y, s, k) by {
      CombIsCombTo(Dense(sym.cover, k), y, s);
    }
  }

  lemma {:induction false} CombIsCombTo(cs: Vec, rows: seq<Vec>, m: nat)
    requires |cs| == |rows| && Rectangular(rows, m)
    ensures Comb(cs, rows, m) == CombTo(cs, rows, m, |rows|)
  {
  }

  /** What peeling leaves: live symbols of full size that cover unrevealed sources only. */
  predicate Peeled(syms: seq<ParsedSym>, revealed: seq<Option<Vec>>, k: nat, s: nat) {
    && |revealed| == k
    && (forall i :: 0 <= i < |syms| && Live(syms[i]) ==> |syms[i].payload| == s)
    && (forall i :: 0 <= i < |syms| && Live(syms[i]) ==> Unrevealed(syms[i].cover, revealed))
  }

  /** The rows of the live symbols that still cover something. */
  function ResidualRows(syms: seq<ParsedSym>, revealed: seq<Option<Vec>>, k: nat, s: nat, n: nat): (rows: seq<Vec>)
    requires n <= |syms| && Peeled(syms, revealed, k, s)
    ensures Rectangular(rows, |Unknowns(revealed, k)| + s)
  {
    if n == 0 then []
    else
      var rows := ResidualRows(syms, revealed, k, s, n - 1);
      if Live(syms[n - 1]) && |syms[n - 1].cover| > 0
      then rows + [ResidualRow(syms[n - 1], Unknowns(revealed, k), k, s)]
      else rows
  }

  lemma {:induction false} EmptyCoverSays(sym: ParsedSym, k: nat, s: nat, x: seq<Vec>, y: seq<Vec>)
    requires Shape(x, k, s) && Shape(y, k, s) && |sym.cover| == 0
    ensures Explains(x, sym, k, s) <==> Explains(y, sym, k, s)
  {
    assert sym.cover == map[];
    assert Dense(sym.cover, k) == Zeros(k);
    CombZero(x, s, k);
    CombZero(y, s, k);
  }

  /** Once some x explains the rest, explaining it is solving the residual rows. */
  lemma {:induction false} ResidualMeaning(syms: seq<ParsedSym>, revealed: seq<Option<Vec>>, k: nat, s: nat,
                                           x: seq<Vec>, y: seq<Vec>, n: nat)
    requires Peeled(syms, revealed, k, s) && Shape(x, k, s) && Shape(y, k, s) && n <= |syms|
    requires ExplainsLive(x, syms, k, s)
    ensures
      var u := Unknowns(revealed, k);
      ExplainsLive(y, syms[..n], k, s) <==> SolvedBy(ResidualRows(syms, revealed, k, s, n), |u|, s, Restrict(y, u))
  {
    hide Explains, RowSolvedBy, ResidualRow, SolvedBy, Unknowns, Restrict;
    var u := Unknowns(revealed, k);
    var yr := Restrict(y, u);
    if n == 0 {
      SolvedNone(|u|, s, yr);
    } else {
      ResidualMeaning(syms, revealed, k, s, x, y, n - 1);
      var sym := syms[n - 1];
      assert syms[..n] == syms[..n - 1] + [sym];
      LiveSnoc(y, syms[..n - 1], sym, k, s);
      hide ExplainsLive;
      if Live(sym) {
        if |sym.cover| > 0 {
          ResidualRowSolved(sym, revealed, k, s, y);
          SolvedSnoc(ResidualRows(syms, revealed, k, s, n - 1), ResidualRow(sym, u, k, s), |u|, s, yr);
        } else {
          LiveAt(x, syms, k, s, n - 1);
          EmptyCoverSays(sym, k, s, x, y);
        }
      }
    }
  }

  lemma {:induction false} SolvedNone(k: nat, s: nat, x: seq<Vec>)
    requires Shape(x, k, s)
    ensures SolvedBy([], k, s, x)
  {
  }

  lemma {:induction false} LiveAt(x: seq<Vec>, syms: seq<ParsedSym>, k: nat, s: nat, i: nat)
    requires Shape(x, k, s) && ExplainsLive(x, syms, k, s) && i < |syms| && Live(syms[i])
    ensures Explains(x, syms[i], k, s)
  {
  }

  lemma {:induction false} LiveSnoc(y: seq<Vec>, syms: seq<ParsedSym>, sym: ParsedSym, k: nat, s: nat)
    requires Shape(y, k, s)
    ensures ExplainsLive(y, syms + [sym], k, s) <==>
            ExplainsLive(y, syms, k, s) && (Live(sym) ==> Explains(y, sym, k, s))
  {
    hide Explains;
    var all := syms + [sym];
    assert all[|syms|] == sym && forall i :: 0 <= i < |syms| ==> all[i] == syms[i];
  }

  lemma {:induction false} SolvedSnoc(rows: seq<Vec>, row: Vec, k: nat, s: nat, x: seq<Vec>)
    requires Rectangular(rows, k + s) && |row| == k + s && Shape(x, k, s)
    ensures SolvedBy(rows + [row], k, s, x) <==> SolvedBy(rows, k, s, x) && RowSolvedBy(row, k, s, x)
  {
    hide RowSolvedBy;
    var all := rows + [row];
    assert all[|rows|] == row && forall i :: 0 <= i < |rows| ==> all[i] == rows[i];
  }

  /** An unknown's place among the unknowns is the number of unknowns before it. */
  lemma {:induction false} UnknownPlace(revealed: seq<Option<Vec>>, j: nat, n: nat)
    requires j < n <= |revealed| && revealed[j].None?
    ensures |Unknowns(revealed, j)| < |Unknowns(revealed, n)|
    ensures Unknowns(revealed, n)[|Unknowns(revealed, j)|] == j
  {
    if j < n - 1 {
      UnknownPlace(revealed, j, n - 1);
    }
  }

  /** x with the unknown sources replaced by xr. */
  ghost function Merge(x: seq<Vec>, revealed: seq<Option<Vec>>, xr: seq<Vec>): (y: seq<Vec>)
    requires |x| == |revealed| && |xr| == |Unknowns(revealed, |x|)|
    ensures |y| == |x|
  {
    seq(|x|, j requires 0 <= j < |x| =>
      if revealed[j].Some? then x[j] else UnknownPlace(revealed, j, |x|); xr[|Unknowns(revealed, j)|])
  }

  lemma {:induction false} MergeFacts(x: seq<Vec>, revealed: seq<Option<Vec>>, xr: seq<Vec>, k: nat, s: nat)
    requires Shape(x, k, s) && |revealed| == k && Shape(xr, |Unknowns(revealed, k)|, s)
    ensures Shape(Merge(x, revealed, xr), k, s)
    ensures Restrict(Merge(x, revealed, xr), Unknowns(revealed, k)) == xr
    ensures Agrees(x, revealed) ==> Agrees(Merge(x, revealed, xr), revealed)
  {
    hide Unknowns;
    var u := Unknowns(revealed, k);
    var y := Merge(x, revealed, xr);
    UnknownsIncrease(revealed, k);
    forall i | 0 <= i < |u| ensures y[u[i]] == xr[i] {
      UnknownPlace(revealed, u[i], k);
      assert u[|Unknowns(revealed, u[i])|] == u[i];
    }
    forall j | 0 <= j < k ensures |y[j]| == s {
      if revealed[j].None? {
        UnknownPlace(revealed, j, k);
      }
    }
  }

  /** Where each unknown sits among the unknowns. */
  method ColumnIndex(revealed: array<Option<Vec>>, k: nat) returns (unknowns: seq<nat>, col: array<nat>)
    requires revealed.Length == k
    ensures unknowns == Unknowns(revealed[..], k)
    ensures fresh(col) && col.Length == k && forall i :: 0 <= i < |unknowns| ==> col[unknowns[i]] == i
  {
    unknowns := [];
    for i := 0 to k
      invariant unknowns == Unknowns(revealed[..], i)
    {
      if revealed[i].None? {
        unknowns := unknowns + [i];
      }
    }
    UnknownsIncrease(revealed[..], k);
    col := new nat[k](_ => 0);
    for c := 0 to |unknowns|
      invariant forall i :: 0 <= i < c ==> col[unknowns[i]] == i
    {
      col[unknowns[c]] := c;
    }
  }

  /** The coefficients written so far, when those of `keys` are still to come. */
  predicate WrittenBut(head: Vec, cover: map<nat, bv8>, keys: set<nat>, u: seq<nat>) {
    && |head| == |u|
    && (forall i :: 0 <= i < |u| ==> head[i] == if u[i] in cover && u[i] !in keys then cover[u[i]] else 0)
  }

  lemma {:induction false} WriteOne(head: Vec, cover: map<nat, bv8>, keys: set<nat>, u: seq<nat>, idx: nat, c: nat)
    requires WrittenBut(head, cover, keys, u) && idx in keys && idx in cover && c < |u| && u[c] == idx
    requires forall i :: 0 <= i < |u| && i != c ==> u[i] != idx
    ensures WrittenBut(head[c := Add(head[c], cover[idx])], cover, keys - {idx}, u)
  {
    hide Add;
    AddLaws(cover[idx], 0, 0);
  }

  /** One residual row, coefficient by coefficient in whatever order the cover yields them. */
  method BuildResidualRow(sym: ParsedSym, u: seq<nat>, col: array<nat>, k: nat, s: nat)
      returns (row: Vec, has: bool)
    requires |sym.payload| == s && col.Length == k
    requires forall i :: 0 <= i < |u| ==> u[i] < k && col[u[i]] == i
    requires forall idx :: idx in sym.cover ==> idx in u
    ensures row == ResidualRow(sym, u, k, s)
    ensures has <==> |sym.cover| > 0
  {
    hide Add, WrittenBut;
    var head := Zeros(|u|);
    has := false;
    var keys := sym.cover.Keys;
    assert WrittenBut(head, sym.cover, keys, u) by { WriteNone(sym.cover, u); }
    while keys != {}
      invariant keys <= sym.cover.Keys && WrittenBut(head, sym.cover, keys, u) && |head| == |u|
      invariant has <==> keys != sym.cover.Keys
      decreases |keys|
    {
      var idx :| idx in keys;
      assert idx in u;
      var c := col[idx];
      WriteOne(head, sym.cover, keys, u, idx, c);
      head := head[c := Add(head[c], sym.cover[idx])];
      has := true;
      keys := keys - {idx};
    }
    WroteAll(head, sym.cover, u, k);
    assert |sym.cover.Keys| == |sym.cover|;
    row := head + sym.payload;
  }

  lemma {:induction false} WriteNone(cover: map<nat, bv8>, u: seq<nat>)
    ensures WrittenBut(Zeros(|u|), cover, cover.Keys, u)
  {
  }

  lemma {:induction false} WroteAll(head: Vec, cover: map<nat, bv8>, u: seq<nat>, k: nat)
    requires WrittenBut(head, cover, {}, u) && forall i :: 0 <= i < |u| ==> u[i] < k
    ensures head == Restrict(Dense(cover, k), u)
  {
  }

  // ------------------------------------------------------------------- the decoder

  /** The residual rows, as the decoder lays them out. */
  method BuildResidual(syms: array<ParsedSym>, revealed: array<Option<Vec>>, u: seq<nat>, col: array<nat>,
                       k: nat, s: nat) returns (rows: seq<Vec>)
    requires revealed.Length == col.Length == k
    requires Peeled(syms[..], revealed[..], k, s) && u == Unknowns(revealed[..], k)
    requires forall i :: 0 <= i < |u| ==> u[i] < k && col[u[i]] == i
    ensures rows == ResidualRows(syms[..], revealed[..], k, s, syms.Length)
  {
    hide Unknowns, ResidualRow;
    rows := [];
    for n := 0 to syms.Length
      invariant rows == ResidualRows(syms[..], revealed[..], k, s, n)
    {
      if syms[n].payload != [] {
        forall idx | idx in syms[n].cover ensures idx in u {
          assert Unrevealed(syms[..][n].cover, revealed[..]);
          UnknownPlace(revealed[..], idx, k);
        }
        var row, has := BuildResidualRow(syms[n], u, col, k, s);
        if has {
          rows := rows + [row];
        }
      }
    }
  }

  /** A rival of the residual system is a rival of the received symbols. */
  lemma {:induction false} ResidualRival(received: seq<ParsedSym>, syms: seq<ParsedSym>, revealed: seq<Option<Vec>>,
                                         k: nat, s: nat,
                      x: seq<Vec>, xr: seq<Vec>) returns (y: seq<Vec>)
    requires Peeled(syms, revealed, k, s) && SameMeaning(received, syms, revealed, k, s)
    requires ExplainsAll(x, received, k, s)
    requires SolvedBy(ResidualRows(syms, revealed, k, s, |syms|), |Unknowns(revealed, k)|, s, xr)
    requires xr != Restrict(x, Unknowns(revealed, k))
    ensures ExplainsAll(y, received, k, s) && y != x
  {
    hide Explains, RowSolvedBy, Unknowns, Restrict;
    y := Merge(x, revealed, xr);
    MergeFacts(x, revealed, xr, k, s);
    ResidualMeaning(syms, revealed, k, s, x, y, |syms|);
    assert syms[..|syms|] == syms;
  }

  /** The true source solves the residual system. */
  lemma {:induction false} ResidualTruth(received: seq<ParsedSym>, syms: seq<ParsedSym>, revealed: seq<Option<Vec>>,
                                         k: nat, s: nat,
                      x: seq<Vec>)
    requires Peeled(syms, revealed, k, s) && SameMeaning(received, syms, revealed, k, s)
    requires ExplainsAll(x, received, k, s)
    ensures Agrees(x, revealed)
    ensures
      var u := Unknowns(revealed, k);
      SolvedBy(ResidualRows(syms, revealed, k, s, |syms|), |u|, s, Restrict(x, u))
  {
    hide Explains, RowSolvedBy, Unknowns, Restrict;
    ResidualMeaning(syms, revealed, k, s, x, x, |syms|);
    assert syms[..|syms|] == syms;
  }

  /** All k sources, from the revealed ones and the solved unknowns. */
  method Assemble(revealed: array<Option<Vec>>, u: seq<nat>, solved: seq<Vec>, k: nat) returns (out: seq<Vec>)
    requires revealed.Length == k && u == Unknowns(revealed[..], k) && |solved| == |u|
    modifies revealed
    ensures |out| == k
    ensures forall x: seq<Vec> :: |x| == k && Agrees(x, old(revealed[..])) && Restrict(x, u) == solved ==> out == x
    ensures forall j :: 0 <= j < k && old(revealed[j]).Some? ==> out[j] == old(revealed[j]).value
  {
    hide Unknowns;
    ghost var was := revealed[..];
    UnknownsIncrease(was, k);
    for i := 0 to |u|
      invariant forall j: nat :: j < k && was[j].Some? ==> revealed[j] == was[j]
      invariant forall j :: 0 <= j < i ==> revealed[u[j]] == Some(solved[j])
    {
      revealed[u[i]] := Some(solved[i]);
    }
    forall j: nat | j < k && was[j].None? ensures j in u {
      UnknownPlace(was, j, k);
    }
    assert forall j: nat :: j < k ==> revealed[j].Some?;
    var all := revealed[..];
    out := seq(k, j requires 0 <= j < k => all[j].value);
    forall x: seq<Vec> | |x| == k && Agrees(x, was) && Restrict(x, u) == solved ensures out == x {
      forall j: nat | j < k ensures out[j] == x[j] {
        if was[j].None? {
          var i :| 0 <= i < |u| && u[i] == j;
          assert Restrict(x, u)[i] == x[j];
        }
      }
    }
  }

  ghost predicate Ambiguous(x: seq<Vec>, received: seq<ParsedSym>, k: nat, s: nat) {
    exists y :: y != x && ExplainsAll(y, received, k, s)
  }

  lemma {:induction false} UnsolvedIsAmbiguous(received: seq<ParsedSym>, syms: seq<ParsedSym>,
                                               revealed: seq<Option<Vec>>, k: nat, s: nat,
                            x: seq<Vec>)
    requires Peeled(syms, revealed, k, s) && SameMeaning(received, syms, revealed, k, s)
    requires forall xr :: SolvedBy(ResidualRows(syms, revealed, k, s, |syms|), |Unknowns(revealed, k)|, s, xr) ==>
      HasRival(ResidualRows(syms, revealed, k, s, |syms|), |Unknowns(revealed, k)|, s, xr)
    requires ExplainsAll(x, received, k, s)
    ensures Ambiguous(x, received, k, s)
  {
    hide ExplainsAll, SameMeaning, Unknowns, SolvedBy, Restrict;
    var u := Unknowns(revealed, k);
    ExplainsShape(x, received, k, s);
    ResidualTruth(received, syms, revealed, k, s, x);
    var xr :| xr != Restrict(x, u) && SolvedBy(ResidualRows(syms, revealed, k, s, |syms|), |u|, s, xr);
    var y := ResidualRival(received, syms, revealed, k, s, x, xr);
  }

  /** Some symbol covers a single source. */
  predicate HasSingle(syms: seq<ParsedSym>) { exists i :: 0 <= i < |syms| && |syms[i].cover| == 1 }

  /**
    Peels, then eliminates what is left.  Of live symbols, a source that explains them
    is returned, unless another source explains them too.  Of a spent symbol, the
    source it revealed comes back empty.  Symbols are spent unless none covers a
    single source.  Symbols without bytes are skipped by the elimination, so they are
    decoded exactly if nothing stops the peeling.
   */
  method PeelSymbols(syms: array<ParsedSym>, k: nat, s: nat, width: nat)
      returns (r: Result<seq<Vec>, FountainError>)
    requires HeldAny(syms[..], k, s)
    modifies syms
    ensures HeldAny(syms[..], k, s)
    ensures r.Err? ==> r.error.Underdetermined?
    ensures s > 0 && AllLive(old(syms[..])) ==> forall x :: ExplainsAll(x, old(syms[..]), k, s) ==>
      r == Ok(x) || (r.Err? && Ambiguous(x, old(syms[..]), k, s))
    ensures s > 0 && r.Ok? ==> |r.value| == k && Blanked(old(syms[..]), r.value)
    ensures if HasSingle(old(syms[..])) then !AllLive(syms[..]) else syms[..] == old(syms[..])
    ensures Peelable(CoverSets(old(syms[..])), k) ==> r.Ok?
    ensures s == 0 ==> if Peelable(CoverSets(old(syms[..])), k) then r == Ok(Empties(k)) else r.Err?
    ensures SameStops(CoverSets(old(syms[..])), CoverSets(syms[..]), k)
  {
    hide ExplainsAll, SameMeaning, Agrees, Ambiguous, SolvedBy, HasRival, HeldAny, AllLive, Emptied, HasSingle, NoBytes,
         Closed, Least, After, SameStops, Peelable;
    ghost var received := syms[..];
    HeldCovers(received, k, s);
    var revealed := Peel(syms, k, s);
    ghost var known := revealed[..];
    PeeledStops(received, syms[..], known, k);
    hide Peeled;
    var u: seq<nat>, col := ColumnIndex(revealed, k);
    NoneUnknown(known, k);
    hide Unknowns, Restrict;
    if |u| == 0 {
      var out := Assemble(revealed, u, [], k);
      if s > 0 {
        BlankedByEmptied(received, known, out);
      } else {
        AllEmpty(syms[..], known, out);
      }
      forall x | s > 0 && AllLive(received) && ExplainsAll(x, received, k, s) ensures out == x {
        ExplainsShape(x, received, k, s);
        ResidualTruth(received, syms[..], known, k, s, x);
      }
      return Ok(out);
    }
    var rows := BuildResidual(syms, revealed, u, col, k, s);
    if s == 0 {
      NoRows(syms[..], known, k, syms.Length);
    }
    var rank, solved := SolveSystem(rows, |u|, s, width);
    if rank < |u| {
      forall x | s > 0 && AllLive(received) && ExplainsAll(x, received, k, s) ensures Ambiguous(x, received, k, s) {
        UnsolvedIsAmbiguous(received, syms[..], known, k, s, x);
      }
      return Err(Underdetermined(rank, |u|));
    }
    var out := Assemble(revealed, u, solved, k);
    BlankedByEmptied(received, known, out);
    forall x | AllLive(received) && ExplainsAll(x, received, k, s) ensures out == x {
      ExplainsShape(x, received, k, s);
      ResidualTruth(received, syms[..], known, k, s, x);
    }
    r := Ok(out);
  }

  function Empties(k: nat): (x: seq<Vec>)
    ensures |x| == k && forall j :: 0 <= j < k ==> x[j] == []
  {
    seq(k, _ => [])
  }

  /** The peel reveals everything exactly if nothing stops it, and what stops it stays the same. */
  lemma {:induction false} PeeledStops(received: seq<ParsedSym>, syms: seq<ParsedSym>, revealed: seq<Option<Vec>>,
                                       k: nat)
    requires |revealed| == k && forall i :: 0 <= i < |received| ==> CoverOk(received[i].cover, k)
    requires
      var sets, r := CoverSets(received), RevealedSet(revealed);
      Closed(sets, r) && Least(sets, r) && After(sets, CoverSets(syms), r) && r <= Sources(k)
    ensures SameStops(CoverSets(received), CoverSets(syms), k)
    ensures (forall j :: 0 <= j < k ==> revealed[j].Some?) <==> Peelable(CoverSets(received), k)
  {
    hide Closed, Least, After, SameStops, Peelable;
    var sets, r := CoverSets(received), RevealedSet(revealed);
    forall i | 0 <= i < |sets| ensures sets[i] <= Sources(k) {
      assert CoverOk(received[i].cover, k);
    }
    AfterStops(sets, CoverSets(syms), k, r);
    PeelableExactly(sets, k, r);
    if forall j :: 0 <= j < k ==> revealed[j].Some? {
      assert r == Sources(k);
    }
    if r == Sources(k) {
      forall j: nat | j < k ensures revealed[j].Some? {
        assert j in r;
      }
    }
  }

  lemma {:induction false} NoneUnknown(revealed: seq<Option<Vec>>, k: nat)
    requires |revealed| == k
    ensures Unknowns(revealed, k) == [] <==> forall j :: 0 <= j < k ==> revealed[j].Some?
  {
    forall j: nat | j < k && revealed[j].None? ensures Unknowns(revealed, k) != [] {
      UnknownPlace(revealed, j, k);
    }
    if Unknowns(revealed, k) != [] {
      assert revealed[Unknowns(revealed, k)[0]].None?;
    }
  }

  lemma {:induction false} AllEmpty(syms: seq<ParsedSym>, revealed: seq<Option<Vec>>, out: seq<Vec>)
    requires NoBytes(syms, revealed) && |out| == |revealed| && forall j :: 0 <= j < |out| ==> revealed[j].Some?
    requires forall j :: 0 <= j < |out| && revealed[j].Some? ==> out[j] == revealed[j].value
    ensures out == Empties(|out|)
  {
  }

  lemma {:induction false} NoRows(syms: seq<ParsedSym>, revealed: seq<Option<Vec>>, k: nat, n: nat)
    requires NoBytes(syms, revealed) && Peeled(syms, revealed, k, 0) && n <= |syms|
    ensures ResidualRows(syms, revealed, k, 0, n) == []
  {
    if n > 0 {
      NoRows(syms, revealed, k, n - 1);
    }
  }

  /** The sources of spent symbols come out empty. */
  predicate Blanked(syms: seq<ParsedSym>, out: seq<Vec>) {
    forall i :: 0 <= i < |syms| && !Live(syms[i]) ==> BlankedBy(syms[i].cover, out)
  }

  predicate BlankedBy(cover: map<nat, bv8>, out: seq<Vec>) {
    forall t :: t in cover ==> t < |out| && out[t] == []
  }

  lemma {:induction false} BlankedByEmptied(syms: seq<ParsedSym>, revealed: seq<Option<Vec>>, out: seq<Vec>)
    requires |out| == |revealed| && Emptied(syms, revealed)
    requires forall j :: 0 <= j < |out| && revealed[j].Some? ==> out[j] == revealed[j].value
    ensures Blanked(syms, out)
  {
    forall i | 0 <= i < |syms| && !Live(syms[i]) ensures BlankedBy(syms[i].cover, out) {
      assert EmptiedBy(syms[i].cover, revealed);
    }
  }

  lemma {:induction false} ExplainsShape(x: seq<Vec>, syms: seq<ParsedSym>, k: nat, s: nat)
    requires ExplainsAll(x, syms, k, s)
    ensures Shape(x, k, s)
  {
  }

  // --------------------------------------------------- fewer symbols than sources

  /** The symbols as augmented rows. */
  function DenseRows(syms: seq<ParsedSym>, k: nat, s: nat): (rows: seq<Vec>)
    requires Fresh(syms, k, s)
    ensures |rows| == |syms| && Rectangular(rows, k + s)
  {
    seq(|syms|, i requires 0 <= i < |syms| => Dense(syms[i].cover, k) + syms[i].payload)
  }

  lemma {:induction false} ExplainsIffSolved(syms: seq<ParsedSym>, k: nat, s: nat, y: seq<Vec>)
    requires Fresh(syms, k, s) && Shape(y, k, s)
    ensures ExplainsAll(y, syms, k, s) <==> SolvedBy(DenseRows(syms, k, s), k, s, y)
  {
    hide RowSolvedBy, Comb, Dense;
    var rows := DenseRows(syms, k, s);
    forall i | 0 <= i < |syms| ensures RowSolvedBy(rows[i], k, s, y) <==> Explains(y, syms[i], k, s) {
      RowSolvedIffComb(Dense(syms[i].cover, k), syms[i].payload, k, s, y);
    }
  }

  /** Fewer symbols than sources never determine the sources. */
  lemma {:induction false} TooFewIsAmbiguous(syms: seq<ParsedSym>, k: nat, s: nat, x: seq<Vec>)
    requires Fresh(syms, k, s) && s > 0 && |syms| < k && ExplainsAll(x, syms, k, s)
    ensures Ambiguous(x, syms, k, s)
  {
    hide ExplainsAll, SolvedBy, Dense;
    var rows := DenseRows(syms, k, s);
    ExplainsShape(x, syms, k, s);
    ExplainsIffSolved(syms, k, s, x);
    var after, pivots := EliminationExists(rows, k + s, k);
    var y := RivalSolution(rows, after, k, s, pivots, x);
    SolvedShape(rows, k, s, y);
    ExplainsIffSolved(syms, k, s, y);
  }
}

