/**
  The Merkle mountain range (`crates/core/src/mmr.rs`): a forest of perfect binary
  trees in one shared arena, its bagged root and its inclusion proofs.
 */
module Mmr {
  import opened Blocks
  import opened Results

  /** The domain-separated hashes of leaves and of pairs. */
  datatype TreeHashes = TreeHashes(leaf: Digest -> Digest, parent: (Digest, Digest) -> Digest)

  ghost predicate Injective(t: TreeHashes) {
    && (forall a, b :: t.leaf(a) == t.leaf(b) ==> a == b)
    && (forall a, b, c, d :: t.parent(a, b) == t.parent(c, d) ==> a == c && b == d)
  }

  /** No leaf hashes like a pair. */
  ghost predicate Separated(t: TreeHashes) { forall a, b, c :: t.leaf(a) != t.parent(b, c) }

  /** The hypotheses are met by some hash functions, digests being of any length. */
  lemma {:induction false} InjectiveHashes() returns (t: TreeHashes)
    ensures Injective(t) && Separated(t)
  {
    t := TreeHashes(a => [0] + a, (a, b) => [1] + (Delimited(a) + b));
    forall a, b | t.leaf(a) == t.leaf(b) ensures a == b {
      assert t.leaf(a)[1..] == a && t.leaf(b)[1..] == b;
    }
    forall a, b, c, d | t.parent(a, b) == t.parent(c, d) ensures a == c && b == d {
      assert t.parent(a, b)[1..] == Delimited(a) + b && t.parent(c, d)[1..] == Delimited(c) + d;
      DelimitedInjective(a, c, b, d);
    }
    forall a, b, c ensures t.leaf(a) != t.parent(b, c) {
      assert t.leaf(a)[0] == 0 && t.parent(b, c)[0] == 1;
    }
  }

  function Pow2(h: nat): (p: nat)
    ensures p > 0
  {
    if h == 0 then 1 else 2 * Pow2(h - 1)
  }

  // ------------------------------------------------------------------- perfect trees

  /** The hash of the perfect tree over its leaves. */
  function TreeHash(t: TreeHashes, ids: seq<Digest>, h: nat): Digest
    requires |ids| == Pow2(h)
    decreases h
  {
    if h == 0 then t.leaf(ids[0])
    else
      var half := Pow2(h - 1);
      t.parent(TreeHash(t, ids[..half], h - 1), TreeHash(t, ids[half..], h - 1))
  }

  /** The siblings from leaf i up to the root, each with whether it stands on the left. */
  function Path(t: TreeHashes, ids: seq<Digest>, h: nat, i: nat): seq<(Digest, bool)>
    requires |ids| == Pow2(h) && i < |ids|
    decreases h
  {
    if h == 0 then []
    else
      var half := Pow2(h - 1);
      if i < half then Path(t, ids[..half], h - 1, i) + [(TreeHash(t, ids[half..], h - 1), false)]
      else Path(t, ids[half..], h - 1, i - half) + [(TreeHash(t, ids[..half], h - 1), true)]
  }

  /** The root a proof leads to. */
  function Climb(t: TreeHashes, acc: Digest, path: seq<(Digest, bool)>): Digest {
    if path == [] then acc
    else
      var n := |path| - 1;
      var below := Climb(t, acc, path[..n]);
      if path[n].1 then t.parent(path[n].0, below) else t.parent(below, path[n].0)
  }

  /** Climbing a leaf's path with another leaf gives the tree in which that leaf was replaced. */
  lemma {:induction false} ClimbPath(t: TreeHashes, ids: seq<Digest>, h: nat, i: nat, x: Digest)
    requires |ids| == Pow2(h) && i < |ids|
    ensures Climb(t, t.leaf(x), Path(t, ids, h, i)) == TreeHash(t, ids[i := x], h)
    decreases h
  {
    if h > 0 {
      var half := Pow2(h - 1);
      PathParts(t, ids, h, i);
      hide Path, Climb;
      if i < half {
        ClimbPath(t, ids[..half], h - 1, i, x);
        assert ids[i := x][..half] == ids[..half][i := x] && ids[i := x][half..] == ids[half..];
        ClimbSnoc(t, t.leaf(x), Path(t, ids[..half], h - 1, i), (TreeHash(t, ids[half..], h - 1), false));
      } else {
        ClimbPath(t, ids[half..], h - 1, i - half, x);
        assert ids[i := x][..half] == ids[..half] && ids[i := x][half..] == ids[half..][i - half := x];
        ClimbSnoc(t, t.leaf(x), Path(t, ids[half..], h - 1, i - half), (TreeHash(t, ids[..half], h - 1), true));
      }
    }
  }

  /** A climb that ends in the hash of a pair came up from one of the two. */
  lemma {:induction false} ClimbToPair(t: TreeHashes, id: Digest, path: seq<(Digest, bool)>, x: Digest, y: Digest)
    requires Injective(t) && Separated(t) && Climb(t, t.leaf(id), path) == t.parent(x, y)
    ensures path != []
    ensures
      var n := |path| - 1;
      Climb(t, t.leaf(id), path[..n]) == (if path[n].1 then y else x) && path[n].0 == if path[n].1 then x else y
  {
  }

  /** Whatever path climbs from an id to the tree's hash is the path of a leaf with that id. */
  lemma {:induction false} ClimbOnlyPaths(t: TreeHashes, ids: seq<Digest>, h: nat, id: Digest,
                                          path: seq<(Digest, bool)>) returns (i: nat)
    requires |ids| == Pow2(h) && Injective(t) && Separated(t) && Climb(t, t.leaf(id), path) == TreeHash(t, ids, h)
    ensures i < |ids| && ids[i] == id && path == Path(t, ids, h, i)
    decreases h
  {
    hide Injective, Separated, Climb, TreeHash, Path;
    TreeHashParts(t, ids, h);
    if h == 0 {
      i := 0;
      ClimbToLeaf(t, id, path, ids[0]);
      NoPath(t, ids, 0);
    } else {
      var half, n := Pow2(h - 1), |path| - 1;
      ClimbToPair(t, id, path, TreeHash(t, ids[..half], h - 1), TreeHash(t, ids[half..], h - 1));
      if path[n].1 {
        var j := ClimbOnlyPaths(t, ids[half..], h - 1, id, path[..n]);
        i := j + half;
      } else {
        i := ClimbOnlyPaths(t, ids[..half], h - 1, id, path[..n]);
      }
      PathParts(t, ids, h, i);
      assert path == path[..n] + [path[n]];
    }
  }

  lemma {:induction false} TreeHashParts(t: TreeHashes, ids: seq<Digest>, h: nat)
    requires |ids| == Pow2(h)
    ensures h == 0 ==> TreeHash(t, ids, h) == t.leaf(ids[0])
    ensures h > 0 ==>
      var half := Pow2(h - 1);
      && |ids[..half]| == |ids[half..]| == half
      && TreeHash(t, ids, h) == t.parent(TreeHash(t, ids[..half], h - 1), TreeHash(t, ids[half..], h - 1))
  {
  }

  lemma {:induction false} ClimbToLeaf(t: TreeHashes, id: Digest, path: seq<(Digest, bool)>, x: Digest)
    requires Injective(t) && Separated(t) && Climb(t, t.leaf(id), path) == t.leaf(x)
    ensures path == [] && x == id
  {
  }


  lemma {:induction false} ClimbSnoc(t: TreeHashes, acc: Digest, path: seq<(Digest, bool)>, step: (Digest, bool))
    ensures Climb(t, acc, path + [step]) ==
      if step.1 then t.parent(step.0, Climb(t, acc, path)) else t.parent(Climb(t, acc, path), step.0)
  {
    assert (path + [step])[..|path|] == path;
  }

  /** The root of a perfect tree determines its leaves. */
  lemma {:induction false} TreeInjective(t: TreeHashes, a: seq<Digest>, b: seq<Digest>, h: nat)
    requires Injective(t) && |a| == |b| == Pow2(h) && TreeHash(t, a, h) == TreeHash(t, b, h)
    ensures a == b
    decreases h
  {
    if h > 0 {
      var half := Pow2(h - 1);
      TreeInjective(t, a[..half], b[..half], h - 1);
      TreeInjective(t, a[half..], b[half..], h - 1);
      assert a == a[..half] + a[half..] && b == b[..half] + b[half..];
    }
  }

  // ---------------------------------------------------------------------- tree heights

  function Sum(hs: seq<nat>): nat {
    if hs == [] then 0 else Sum(hs[..|hs| - 1]) + Pow2(hs[|hs| - 1])
  }

  predicate Decreasing(hs: seq<nat>) { forall i, j :: 0 <= i < j < |hs| ==> hs[i] > hs[j] }

  function Bump(hs: seq<nat>): (r: seq<nat>)
    ensures |r| == |hs| && forall i :: 0 <= i < |hs| ==> r[i] == hs[i] + 1
  {
    seq(|hs|, i requires 0 <= i < |hs| => hs[i] + 1)
  }

  /** The positions of the ones in the binary form of n, highest first. */
  function Digits(n: nat): seq<nat> {
    if n == 0 then []
    else if n % 2 == 1 then Digits(n - 1) + [0]
    else Bump(Digits(n / 2))
  }

  lemma {:induction false} SumBump(hs: seq<nat>)
    ensures Sum(Bump(hs)) == 2 * Sum(hs)
  {
    if hs != [] {
      var n := |hs| - 1;
      SumBump(hs[..n]);
      assert Bump(hs)[..n] == Bump(hs[..n]);
    }
  }

  lemma {:induction false} DigitsOdd(n: nat)
    ensures Digits(2 * n + 1) == Bump(Digits(n)) + [0]
  {
    DigitsStep(2 * n);
    hide Digits, Bump;
    DigitsEven(n);
  }

  lemma {:induction false} DigitsStep(n: nat)
    requires n % 2 == 0
    ensures Digits(n + 1) == Digits(n) + [0]
  {
    hide Bump;
  }

  lemma {:induction false} DigitsEven(n: nat)
    ensures Digits(2 * n) == Bump(Digits(n))
  {
    if n == 0 {
      assert Bump([]) == [];
    }
  }

  function Lower(hs: seq<nat>): (r: seq<nat>)
    requires forall i :: 0 <= i < |hs| ==> hs[i] > 0
    ensures |r| == |hs| && forall i :: 0 <= i < |hs| ==> r[i] == hs[i] - 1
    ensures Bump(r) == hs
  {
    seq(|hs|, i requires 0 <= i < |hs| => hs[i] - 1)
  }

  lemma {:induction false} SumPositive(hs: seq<nat>)
    requires hs != []
    ensures Sum(hs) > 0
  {
  }

  /** Strictly decreasing heights, without a last zero and lowered by one. */
  lemma {:induction false} Halved(hs: seq<nat>) returns (low: seq<nat>)
    requires hs != [] && Decreasing(hs)
    ensures Decreasing(low) && hs == Bump(low) + (if hs[|hs| - 1] == 0 then [0] else [])
  {
    var n := |hs| - 1;
    var high := if hs[n] == 0 then hs[..n] else hs;
    forall i | 0 <= i < |high| ensures high[i] > 0 {
      assert i < n ==> hs[i] > hs[n];
    }
    low := Lower(high);
    forall i, j | 0 <= i < j < |low| ensures low[i] > low[j] {
      assert hs[i] > hs[j];
    }
  }

  lemma {:induction false} SumSnoc(hs: seq<nat>, h: nat)
    ensures Sum(hs + [h]) == Sum(hs) + Pow2(h)
  {
    assert (hs + [h])[..|hs|] == hs;
  }

  /** Strictly decreasing heights are the binary digits of the number of leaves. */
  lemma {:induction false} HeightsAreDigits(hs: seq<nat>)
    requires Decreasing(hs)
    ensures hs == Digits(Sum(hs))
    decreases Sum(hs)
  {
    hide Digits, Decreasing, Bump;
    if hs == [] {
      DigitsOfZero();
    } else {
      var low := Halved(hs);
      SumBump(low);
      SumSnoc(Bump(low), 0);
      SumPositive(hs);
      assert Bump(low) + [] == Bump(low);
      hide Sum;
      HeightsAreDigits(low);
      if hs[|hs| - 1] == 0 {
        DigitsOdd(Sum(low));
      } else {
        DigitsEven(Sum(low));
      }
    }
  }

  lemma {:induction false} DigitsOfZero()
    ensures Digits(0) == []
  {
  }

  // ---------------------------------------------------------------------------- forest

  /** The peaks over the leaves, for trees of the given heights from left to right. */
  function Peaks(t: TreeHashes, ids: seq<Digest>, hs: seq<nat>): (p: seq<Digest>)
    requires |ids| == Sum(hs)
    ensures |p| == |hs|
  {
    if hs == [] then []
    else
      var n := |hs| - 1;
      var base := Sum(hs[..n]);
      Peaks(t, ids[..base], hs[..n]) + [TreeHash(t, ids[base..], hs[n])]
  }

  /** The peaks folded into one root; zero for the empty range. */
  function Bag(t: TreeHashes, peaks: seq<Digest>): Digest {
    if peaks == [] then ROOT_ZERO
    else if |peaks| == 1 then peaks[0]
    else t.parent(Bag(t, peaks[..|peaks| - 1]), peaks[|peaks| - 1])
  }

  lemma {:induction false} BagInjective(t: TreeHashes, a: seq<Digest>, b: seq<Digest>)
    requires Injective(t) && |a| == |b| && Bag(t, a) == Bag(t, b)
    ensures a == b
  {
    var n := |a| - 1;
    if n > 0 {
      BagInjective(t, a[..n], b[..n]);
      assert a == a[..n] + [a[n]] && b == b[..n] + [b[n]];
    }
  }

  lemma {:induction false} PeaksInjective(t: TreeHashes, a: seq<Digest>, b: seq<Digest>, hs: seq<nat>)
    requires Injective(t) && |a| == |b| == Sum(hs) && Peaks(t, a, hs) == Peaks(t, b, hs)
    ensures a == b
  {
    if hs != [] {
      var n := |hs| - 1;
      var base := Sum(hs[..n]);
      var pa, pb := Peaks(t, a, hs), Peaks(t, b, hs);
      assert pa[..n] == Peaks(t, a[..base], hs[..n]) && pb[..n] == Peaks(t, b[..base], hs[..n]);
      assert pa[n] == pb[n];
      PeaksInjective(t, a[..base], b[..base], hs[..n]);
      TreeInjective(t, a[base..], b[base..], hs[n]);
      assert a == a[..base] + a[base..] && b == b[..base] + b[base..];
    }
  }

  lemma {:induction false} SumDigits(n: nat)
    ensures Sum(Digits(n)) == n && Decreasing(Digits(n))
  {
    hide Digits, Decreasing, Sum;
    if n == 0 {
      DigitsOfZero();
      NoHeights();
    } else {
      var low := Digits(n / 2);
      SumDigits(n / 2);
      SumBump(low);
      DecreasingBump(low);
      if n % 2 == 1 {
        DigitsOdd(n / 2);
        SumSnoc(Bump(low), 0);
        UnitPower();
      } else {
        DigitsEven(n / 2);
      }
    }
  }

  lemma {:induction false} NoHeights()
    ensures Sum([]) == 0 && Decreasing([])
  {
  }

  lemma {:induction false} UnitPower()
    ensures Pow2(0) == 1
  {
  }

  lemma {:induction false} DecreasingBump(hs: seq<nat>)
    requires Decreasing(hs)
    ensures Decreasing(Bump(hs)) && Decreasing(Bump(hs) + [0])
  {
    var high := Bump(hs);
    forall i, j | 0 <= i < j < |high| ensures high[i] > high[j] {
      assert hs[i] > hs[j];
    }
  }

  /** The root of the range over a list of leaves. */
  function RootOf(t: TreeHashes, ids: seq<Digest>): Digest {
    SumDigits(|ids|);
    Bag(t, Peaks(t, ids, Digits(|ids|)))
  }

  /** At equal leaf counts the root determines the leaves. */
  lemma {:induction false} RootDeterminesLeaves(t: TreeHashes, a: seq<Digest>, b: seq<Digest>)
    requires Injective(t) && |a| == |b| && RootOf(t, a) == RootOf(t, b)
    ensures a == b
  {
    hide Injective, Peaks, Bag, Digits;
    SumDigits(|a|);
    BagInjective(t, Peaks(t, a, Digits(|a|)), Peaks(t, b, Digits(|a|)));
    PeaksInjective(t, a, b, Digits(|a|));
  }

  lemma {:induction false} PeaksLast(t: TreeHashes, ids: seq<Digest>, hs: seq<nat>, h: nat)
    requires |ids| == Sum(hs + [h])
    ensures Sum(hs) <= |ids| && Sum(hs + [h]) == Sum(hs) + Pow2(h)
    ensures Peaks(t, ids, hs + [h]) == Peaks(t, ids[..Sum(hs)], hs) + [TreeHash(t, ids[Sum(hs)..], h)]
  {
    assert (hs + [h])[..|hs|] == hs;
  }

  lemma {:induction false} PairHash(t: TreeHashes, ids: seq<Digest>)
    requires |ids| == 2
    ensures Pow2(1) == 2 && TreeHash(t, ids, 1) == t.parent(t.leaf(ids[0]), t.leaf(ids[1]))
  {
  }

  lemma {:induction false} FourHash(t: TreeHashes, ids: seq<Digest>)
    requires |ids| == 4
    ensures Pow2(2) == 4
    ensures TreeHash(t, ids, 2) ==
            t.parent(t.parent(t.leaf(ids[0]), t.leaf(ids[1])), t.parent(t.leaf(ids[2]), t.leaf(ids[3])))
  {
    PairHash(t, ids[..2]);
    PairHash(t, ids[2..]);
  }

  lemma {:induction false} DigitsOfSeven()
    ensures Digits(7) == [2, 1, 0] && Sum([2]) == 4 && Sum([2, 1]) == 6 && Sum([2, 1, 0]) == 7
  {
    DigitsOdd(0);
    DigitsOdd(1);
    DigitsOdd(3);
    DigitsOfZero();
    hide Digits;
    assert [2, 1, 0][..2] == [2, 1] && [2, 1][..1] == [2] && [2][..0] == [];
    assert Pow2(1) == 2;
  }

  /** Seven leaves make trees of four, two and one, bagged from the left. */
  lemma {:induction false} SevenLeaves(t: TreeHashes, ids: seq<Digest>)
    requires |ids| == 7
    ensures
      var four := t.parent(t.parent(t.leaf(ids[0]), t.leaf(ids[1])), t.parent(t.leaf(ids[2]), t.leaf(ids[3])));
      RootOf(t, ids) == t.parent(t.parent(four, t.parent(t.leaf(ids[4]), t.leaf(ids[5]))), t.leaf(ids[6]))
  {
    DigitsOfSeven();
    assert [2, 1] + [0] == [2, 1, 0] && [2] + [1] == [2, 1] && [] + [2] == [2];
    PeaksLast(t, ids, [2, 1], 0);
    PeaksLast(t, ids[..6], [2], 1);
    PeaksLast(t, ids[..4], [], 2);
    FourHash(t, ids[..4]);
    PairHash(t, ids[4..6]);
    assert ids[..6][4..] == ids[4..6] && ids[..6][..4] == ids[..4] && ids[..4][0..] == ids[..4];
    OneHash(t, ids[6..]);
    assert Peaks(t, ids[..0], []) == [];
    hide Digits, Sum, Peaks, TreeHash, Bag;
    var peaks := Peaks(t, ids, [2, 1, 0]);
    assert peaks == [TreeHash(t, ids[..4], 2), TreeHash(t, ids[4..6], 1), TreeHash(t, ids[6..], 0)];
    BagThree(t, peaks);
  }

  lemma {:induction false} BagThree(t: TreeHashes, peaks: seq<Digest>)
    requires |peaks| == 3
    ensures Bag(t, peaks) == t.parent(t.parent(peaks[0], peaks[1]), peaks[2])
  {
    assert peaks[..2][..1] == peaks[..1];
    assert Bag(t, peaks[..1]) == peaks[0];
    assert Bag(t, peaks[..2]) == t.parent(peaks[0], peaks[1]);
  }

  lemma {:induction false} OneHash(t: TreeHashes, ids: seq<Digest>)
    requires |ids| == 1
    ensures Pow2(0) == 1 && TreeHash(t, ids, 0) == t.leaf(ids[0])
  {
  }

  // ----------------------------------------------------------------------------- arena

  datatype Node = Node(hash: Digest, left: Option<nat>, right: Option<nat>)

  datatype Tree = Tree(root: nat, height: nat, base: nat)

  /** The arena holds the perfect tree over these leaves at this node. */
  ghost predicate Holds(t: TreeHashes, arena: seq<Node>, node: nat, h: nat, ids: seq<Digest>)
    requires |ids| == Pow2(h)
    decreases h
  {
    && node < |arena| && arena[node].hash == TreeHash(t, ids, h)
    && (h > 0 ==>
          && arena[node].left.Some? && arena[node].right.Some?
          && Holds(t, arena, arena[node].left.value, h - 1, ids[..Pow2(h - 1)])
          && Holds(t, arena, arena[node].right.value, h - 1, ids[Pow2(h - 1)..]))
  }

  lemma {:induction false} HoldsMore(t: TreeHashes, arena: seq<Node>, node: nat, h: nat, ids: seq<Digest>, extra: Node)
    requires |ids| == Pow2(h) && Holds(t, arena, node, h, ids)
    ensures Holds(t, arena + [extra], node, h, ids)
    decreases h
  {
    if h > 0 {
      HoldsMore(t, arena, arena[node].left.value, h - 1, ids[..Pow2(h - 1)], extra);
      HoldsMore(t, arena, arena[node].right.value, h - 1, ids[Pow2(h - 1)..], extra);
    }
  }

  ghost predicate TreeOk(t: TreeHashes, arena: seq<Node>, tree: Tree, ids: seq<Digest>) {
    && tree.base + Pow2(tree.height) <= |ids|
    && Holds(t, arena, tree.root, tree.height, ids[tree.base..tree.base + Pow2(tree.height)])
  }

  /** The trees stand side by side over the first n leaves. */
  predicate Covers(trees: seq<Tree>, n: nat) {
    if trees == [] then n == 0
    else
      var last := trees[|trees| - 1];
      last.base + Pow2(last.height) == n && Covers(trees[..|trees| - 1], last.base)
  }

  function Heights(trees: seq<Tree>): (hs: seq<nat>)
    ensures |hs| == |trees|
  {
    seq(|trees|, i requires 0 <= i < |trees| => trees[i].height)
  }

  lemma {:induction false} CoversSum(trees: seq<Tree>, n: nat)
    requires Covers(trees, n)
    ensures Sum(Heights(trees)) == n
  {
    if trees != [] {
      var m := |trees| - 1;
      CoversSum(trees[..m], trees[m].base);
      assert Heights(trees)[..m] == Heights(trees[..m]);
    }
  }

  /** Leaf i lies in exactly one tree. */
  lemma {:induction false} CoveredLeaf(trees: seq<Tree>, n: nat, i: nat)
    requires Covers(trees, n)
    ensures i < n <==> exists j :: 0 <= j < |trees| && trees[j].base <= i < trees[j].base + Pow2(trees[j].height)
  {
    if trees != [] {
      var m := |trees| - 1;
      CoveredLeaf(trees[..m], trees[m].base, i);
      if i < trees[m].base {
        var j :| 0 <= j < m && trees[..m][j].base <= i < trees[..m][j].base + Pow2(trees[..m][j].height);
        assert trees[j].base <= i < trees[j].base + Pow2(trees[j].height);
      } else {
        assert i < n ==> trees[m].base <= i < trees[m].base + Pow2(trees[m].height);
        if exists j :: 0 <= j < |trees| && trees[j].base <= i < trees[j].base + Pow2(trees[j].height) {
          var j :| 0 <= j < |trees| && trees[j].base <= i < trees[j].base + Pow2(trees[j].height);
          if j < m {
            assert trees[..m][j].base <= i < trees[..m][j].base + Pow2(trees[..m][j].height);
          }
        }
      }
    }
  }

  /** The peaks the arena holds are those of the leaves. */
  lemma {:induction false} ArenaPeaks(t: TreeHashes, arena: seq<Node>, trees: seq<Tree>, ids: seq<Digest>, n: nat)
    requires Covers(trees, n) && n <= |ids| && forall i :: 0 <= i < |trees| ==> TreeOk(t, arena, trees[i], ids)
    ensures Sum(Heights(trees)) == n
    ensures Peaks(t, ids[..n], Heights(trees)) == ArenaHashes(arena, trees)
  {
    hide TreeHash, Holds;
    CoversSum(trees, n);
    if trees != [] {
      var m := |trees| - 1;
      var base := trees[m].base;
      ArenaPeaks(t, arena, trees[..m], ids, base);
      assert Heights(trees)[..m] == Heights(trees[..m]);
      assert ids[..n][..base] == ids[..base] && ids[..n][base..] == ids[base..n];
      TreeAt(t, arena, trees[m], ids);
      hide TreeOk;
      assert ArenaHashes(arena, trees) == ArenaHashes(arena, trees[..m]) + [TreeHashAt(arena, trees[m])];
    }
  }

  lemma {:induction false} TreeAt(t: TreeHashes, arena: seq<Node>, tree: Tree, ids: seq<Digest>)
    requires TreeOk(t, arena, tree, ids)
    ensures tree.root < |arena|
    ensures TreeHashAt(arena, tree) == TreeHash(t, ids[tree.base..tree.base + Pow2(tree.height)], tree.height)
  {
  }

  function TreeHashAt(arena: seq<Node>, tree: Tree): Digest {
    if tree.root < |arena| then arena[tree.root].hash else ROOT_ZERO
  }

  function ArenaHashes(arena: seq<Node>, trees: seq<Tree>): (r: seq<Digest>)
    ensures |r| == |trees|
  {
    seq(|trees|, i requires 0 <= i < |trees| => TreeHashAt(arena, trees[i]))
  }

  /** The forest while a tree is on its way into it. */
  ghost predicate Growing(t: TreeHashes, arena: seq<Node>, trees: seq<Tree>, tree: Tree, ids: seq<Digest>) {
    && Covers(trees, tree.base) && tree.base + Pow2(tree.height) == |ids|
    && Decreasing(Heights(trees)) && (trees != [] ==> trees[|trees| - 1].height >= tree.height)
    && TreeOk(t, arena, tree, ids) && forall i :: 0 <= i < |trees| ==> TreeOk(t, arena, trees[i], ids)
  }

  /** Merging the last tree with one of its height goes on growing. */
  lemma {:induction false} MergeStep(t: TreeHashes, arena: seq<Node>, trees: seq<Tree>, tree: Tree, ids: seq<Digest>,
                                     node: Node)
    requires Growing(t, arena, trees, tree, ids) && trees != [] && trees[|trees| - 1].height == tree.height
    requires
      var prev := trees[|trees| - 1];
      node == Node(t.parent(TreeHashAt(arena, prev), TreeHashAt(arena, tree)), Some(prev.root), Some(tree.root))
    ensures
      var prev := trees[|trees| - 1];
      Growing(t, arena + [node], trees[..|trees| - 1], Tree(|arena|, prev.height + 1, prev.base), ids)
  {
    hide TreeOk;
    var m := |trees| - 1;
    var prev := trees[m];
    assert TreeOk(t, arena, prev, ids);
    Merged(t, arena, prev, tree, node, ids);
    GrowAll(t, arena, arena + [node], trees, ids, ids);
    assert Heights(trees[..m]) == Heights(trees)[..m];
    assert m > 0 ==> Heights(trees)[m - 1] > Heights(trees)[m];
  }

  /** A tree lower than all others takes its place at the end. */
  lemma {:induction false} PlaceTree(t: TreeHashes, arena: seq<Node>, trees: seq<Tree>, tree: Tree, ids: seq<Digest>)
    requires Growing(t, arena, trees, tree, ids) && (trees != [] ==> trees[|trees| - 1].height != tree.height)
    ensures Covers(trees + [tree], |ids|) && Decreasing(Heights(trees + [tree]))
    ensures forall i :: 0 <= i < |trees + [tree]| ==> TreeOk(t, arena, (trees + [tree])[i], ids)
  {
    hide TreeOk;
    assert Heights(trees + [tree]) == Heights(trees) + [tree.height];
    assert trees != [] ==> Heights(trees)[|trees| - 1] > tree.height;
    assert (trees + [tree])[..|trees|] == trees;
  }

  class MountainRange {
    const t: TreeHashes
    var trees: seq<Tree>
    var leaves: nat
    var arena: seq<Node>
    /** The ids appended so far. */
    ghost var ids: seq<Digest>

    ghost predicate Valid()
      reads this
    {
      && leaves == |ids| && Covers(trees, leaves) && Decreasing(Heights(trees))
      && (forall i :: 0 <= i < |trees| ==> TreeOk(t, arena, trees[i], ids))
      && |arena| + |trees| == 2 * leaves
    }

    constructor (t: TreeHashes)
      ensures Valid() && ids == [] && this.t == t
    {
      this.t := t;
      trees, leaves, arena, ids := [], 0, [], [];
    }

    /** The tree heights are the binary digits of the leaf count; the arena has 2n nodes less one per peak. */
    lemma {:induction false} Shape()
      requires Valid()
      ensures Heights(trees) == Digits(|ids|)
      ensures |arena| == 2 * |ids| - |Digits(|ids|)|
    {
      CoversSum(trees, leaves);
      HeightsAreDigits(Heights(trees));
    }

    /** Appends a leaf, merging trees of equal height. */
    method Append(id: Digest)
      requires Valid()
      modifies this
      ensures Valid() && ids == old(ids) + [id]
    {
      hide Growing, TreeOk, Covers, Decreasing, Heights;
      ghost var all := ids + [id];
      var tree := Tree(|arena|, 0, leaves);
      arena := arena + [Node(t.leaf(id), None, None)];
      StartGrowing(t, old(arena), arena, trees, ids, tree, id);
      leaves := leaves + 1;
      arena, trees := MergeAll(t, arena, trees, tree, all);
      ids := all;
    }

    /** Bags the peaks into a single root. */
    method Root() returns (acc: Digest)
      requires Valid()
      ensures acc == RootOf(t, ids)
    {
      hide TreeOk, Covers, Decreasing, RootOf;
      ghost var peaks := ArenaHashes(arena, trees);
      PeaksInArena();
      if trees == [] {
        return ROOT_ZERO;
      }
      TreeAt(t, arena, trees[0], ids);
      acc := arena[trees[0].root].hash;
      for i := 1 to |trees|
        invariant acc == Bag(t, peaks[..i])
      {
        TreeAt(t, arena, trees[i], ids);
        assert peaks[..i + 1][..i] == peaks[..i];
        acc := t.parent(acc, arena[trees[i].root].hash);
      }
      assert peaks[..|trees|] == peaks;
    }

    lemma {:induction false} PeaksInArena()
      requires Valid()
      ensures RootOf(t, ids) == Bag(t, ArenaHashes(arena, trees))
    {
      hide Bag, Peaks, TreeOk, Digits, ArenaHashes, Decreasing;
      ArenaPeaks(t, arena, trees, ids, leaves);
      Shape();
      SumDigits(|ids|);
      assert ids[..leaves] == ids;
    }

    /** The tree that covers leaf i, if any. */
    method FindTree(i: nat) returns (tree: Option<Tree>)
      requires Valid()
      ensures tree.Some? <==> i < |ids|
      ensures tree.Some? ==> tree.value in trees && TreeOk(t, arena, tree.value, ids)
      ensures tree.Some? ==> tree.value.base <= i < tree.value.base + Pow2(tree.value.height)
    {
      CoveredLeaf(trees, leaves, i);
      for j := 0 to |trees|
        invariant forall k :: 0 <= k < j ==> !(trees[k].base <= i < trees[k].base + Pow2(trees[k].height))
      {
        if trees[j].base <= i < trees[j].base + Pow2(trees[j].height) {
          return Some(trees[j]);
        }
      }
      tree := None;
    }

    /** The siblings from leaf i up to its peak; empty for a leaf out of range. */
    method InclusionProof(i: nat) returns (proof: seq<(Digest, bool)>)
      requires Valid()
      ensures i >= |ids| ==> proof == []
      ensures forall tree ::
        tree in trees && TreeOk(t, arena, tree, ids) && tree.base <= i < tree.base + Pow2(tree.height) ==>
        proof == Path(t, ids[tree.base..tree.base + Pow2(tree.height)], tree.height, i - tree.base)
    {
      hide Path, Holds, Decreasing;
      CoveredLeaf(trees, leaves, i);
      var found := FindTree(i);
      if found.None? {
        return [];
      }
      var tree := found.value;
      proof := Descend(t, arena, tree, i - tree.base, ids);
      OneTree(i, tree);
    }

    /** Two trees that cover the same leaf are the same range. */
    lemma {:induction false} OneTree(i: nat, tree: Tree)
      requires Valid() && tree.base <= i < tree.base + Pow2(tree.height)
      ensures forall other ::
        other in trees && tree in trees && other.base <= i < other.base + Pow2(other.height) ==> other == tree
    {
      forall other | other in trees && tree in trees && other.base <= i < other.base + Pow2(other.height)
        ensures other == tree
      {
        var j :| 0 <= j < |trees| && trees[j] == other;
        var k :| 0 <= k < |trees| && trees[k] == tree;
        Ordered(trees, leaves, j, k);
        Ordered(trees, leaves, k, j);
      }
    }

    /** A supplied proof leads from the id to one of the peaks. */
    ghost predicate LeadsToPeak(id: Digest, proof: seq<(Digest, bool)>)
      reads this
    {
      exists tree :: tree in trees && tree.root < |arena| && Climb(t, t.leaf(id), proof) == arena[tree.root].hash
    }

    /** The proof is the path of a leaf with this id. */
    ghost predicate PathOfLeaf(id: Digest, proof: seq<(Digest, bool)>, i: nat)
      reads this
    {
      i < |ids| && ids[i] == id && exists tree ::
        && tree in trees && TreeOk(t, arena, tree, ids) && tree.base <= i < tree.base + Pow2(tree.height)
        && proof == Path(t, ids[tree.base..tree.base + Pow2(tree.height)], tree.height, i - tree.base)
    }

    /** A supplied proof leads to a peak exactly if it is the path of a leaf with that id. */
    lemma {:induction false} SuppliedProof(id: Digest, proof: seq<(Digest, bool)>)
      requires Valid() && Injective(t) && Separated(t)
      ensures LeadsToPeak(id, proof) <==> exists i: nat :: PathOfLeaf(id, proof, i)
    {
      hide Path, Climb, TreeHash, Injective, Separated, TreeOk, Pow2, Decreasing, Covers;
      if LeadsToPeak(id, proof) {
        var tree :| tree in trees && tree.root < |arena| && Climb(t, t.leaf(id), proof) == arena[tree.root].hash;
        assert TreeOk(t, arena, tree, ids);
        var i := PeakLeaf(tree, id, proof);
        assert PathOfLeaf(id, proof, i);
      }
      if i: nat :| PathOfLeaf(id, proof, i) {
        LeafPeak(id, proof, i);
      }
    }

    lemma {:induction false} PeakLeaf(tree: Tree, id: Digest, proof: seq<(Digest, bool)>) returns (i: nat)
      requires TreeOk(t, arena, tree, ids) && tree.root < |arena| && Injective(t) && Separated(t)
      requires Climb(t, t.leaf(id), proof) == arena[tree.root].hash
      ensures tree.base <= i < tree.base + Pow2(tree.height) && i < |ids| && ids[i] == id
      ensures proof == Path(t, ids[tree.base..tree.base + Pow2(tree.height)], tree.height, i - tree.base)
    {
      hide Path, Climb, TreeHash, Injective, Separated, Holds, Pow2;
      TreeAt(t, arena, tree, ids);
      var slice := ids[tree.base..tree.base + Pow2(tree.height)];
      var j := ClimbOnlyPaths(t, slice, tree.height, id, proof);
      i := tree.base + j;
      assert ids[i] == slice[j] && i - tree.base == j;
    }

    lemma {:induction false} LeafPeak(id: Digest, proof: seq<(Digest, bool)>, i: nat)
      requires Valid() && PathOfLeaf(id, proof, i)
      ensures LeadsToPeak(id, proof)
    {
      hide Path, Climb, TreeHash, Holds, Pow2, Decreasing, Covers;
      var tree :| tree in trees && TreeOk(t, arena, tree, ids) && tree.base <= i < tree.base + Pow2(tree.height) &&
        proof == Path(t, ids[tree.base..tree.base + Pow2(tree.height)], tree.height, i - tree.base);
      var slice := ids[tree.base..tree.base + Pow2(tree.height)];
      TreeAt(t, arena, tree, ids);
      ClimbPath(t, slice, tree.height, i - tree.base, id);
      assert slice[i - tree.base := id] == slice;
    }

    /** Is this id leaf i?  Rebuilds the peak from the proof and compares. */
    method VerifyInclusion(i: nat, id: Digest) returns (ok: bool)
      requires Valid()
      ensures i < |ids| && ids[i] == id ==> ok
      ensures ok && Injective(t) ==> i < |ids| && ids[i] == id
    {
      hide Path, Climb, TreeHash, Injective, Decreasing, Pow2;
      var found := FindTree(i);
      if found.None? {
        return false;
      }
      var tree := found.value;
      var local := i - tree.base;
      var proof := Descend(t, arena, tree, local, ids);
      var peak := PeakFromProof(t, id, proof);
      ok := peak == arena[tree.root].hash;
      ghost var slice := ids[tree.base..tree.base + Pow2(tree.height)];
      TreeAt(t, arena, tree, ids);
      hide Holds, Covers;
      ClimbPath(t, slice, tree.height, local, id);
      if ok && Injective(t) {
        TreeInjective(t, slice[local := id], slice, tree.height);
        assert slice[local := id][local] == slice[local];
      }
      if ids[i] == id {
        assert slice[local := id] == slice;
      }
    }
  }

  /** Merges a tree with its neighbours of equal height, one after the other, and puts it in its place. */
  method MergeAll(t: TreeHashes, arena0: seq<Node>, trees0: seq<Tree>, tree0: Tree, ghost ids: seq<Digest>)
      returns (arena: seq<Node>, trees: seq<Tree>)
    requires Growing(t, arena0, trees0, tree0, ids)
    ensures Covers(trees, |ids|) && Decreasing(Heights(trees)) && |arena| + |trees| == |arena0| + |trees0| + 1
    ensures forall i :: 0 <= i < |trees| ==> TreeOk(t, arena, trees[i], ids)
  {
    hide Growing, TreeOk, Covers, Decreasing, Heights;
    arena, trees := arena0, trees0;
    var tree := tree0;
    while trees != [] && trees[|trees| - 1].height == tree.height
      invariant Growing(t, arena, trees, tree, ids) && |arena| + |trees| == |arena0| + |trees0|
      decreases |trees|
    {
      var prev := trees[|trees| - 1];
      RootsInArena(t, arena, trees, tree, ids);
      var node := Node(t.parent(arena[prev.root].hash, arena[tree.root].hash), Some(prev.root), Some(tree.root));
      MergeStep(t, arena, trees, tree, ids, node);
      trees, tree, arena := trees[..|trees| - 1], Tree(|arena|, prev.height + 1, prev.base), arena + [node];
    }
    PlaceTree(t, arena, trees, tree, ids);
    trees := trees + [tree];
  }

  /** Walks down from a peak and collects the siblings. */
  method Descend(t: TreeHashes, arena: seq<Node>, tree: Tree, local: nat, ghost ids: seq<Digest>)
      returns (proof: seq<(Digest, bool)>)
    requires TreeOk(t, arena, tree, ids) && local < Pow2(tree.height)
    ensures proof == Path(t, ids[tree.base..tree.base + Pow2(tree.height)], tree.height, local)
  {
    ghost var slice := ids[tree.base..tree.base + Pow2(tree.height)];
    ghost var whole := Path(t, slice, tree.height, local);
    hide Holds, TreeHash, Path;
    var h: nat, leaf: nat, node: nat := tree.height, local, tree.root;
    proof := [];
    assert whole + proof == whole;
    while h > 0
      invariant |slice| == Pow2(h) && leaf < Pow2(h) && Holds(t, arena, node, h, slice)
      invariant whole == Path(t, slice, h, leaf) + proof
    {
      var half := Pow2(h - 1);
      HoldsParts(t, arena, node, h, slice);
      PathParts(t, slice, h, leaf);
      var left, right := arena[node].left.value, arena[node].right.value;
      var onLeft := leaf >= half;
      var step := if onLeft then (arena[left].hash, true) else (arena[right].hash, false);
      ghost var child := if onLeft then slice[half..] else slice[..half];
      Regroup(Path(t, child, h - 1, if onLeft then leaf - half else leaf), step, proof);
      proof := [step] + proof;
      node, leaf := if onLeft then right else left, if onLeft then leaf - half else leaf;
      slice := child;
      h := h - 1;
    }
    NoPath(t, slice, leaf);
    assert [] + proof == proof;
  }

  /** Rebuilds a peak from a leaf and its proof. */
  method PeakFromProof(t: TreeHashes, id: Digest, proof: seq<(Digest, bool)>) returns (acc: Digest)
    ensures acc == Climb(t, t.leaf(id), proof)
  {
    acc := t.leaf(id);
    for i := 0 to |proof|
      invariant acc == Climb(t, t.leaf(id), proof[..i])
    {
      assert proof[..i + 1][..i] == proof[..i];
      acc := if proof[i].1 then t.parent(proof[i].0, acc) else t.parent(acc, proof[i].0);
    }
    assert proof[..|proof|] == proof;
  }

  // --------------------------------------------------------------------------- helpers

  lemma {:induction false} NewLeaf(t: TreeHashes, arena: seq<Node>, tree: Tree, ids: seq<Digest>)
    requires ids != [] && arena != [] && tree == Tree(|arena| - 1, 0, |ids| - 1)
    requires arena[|arena| - 1].hash == t.leaf(ids[|ids| - 1])
    ensures TreeOk(t, arena, tree, ids)
  {
  }

  lemma {:induction false} GrowAll(t: TreeHashes, arena: seq<Node>, more: seq<Node>, trees: seq<Tree>, ids: seq<Digest>,
                                   all: seq<Digest>)
    requires |more| == |arena| + 1 && more[..|arena|] == arena && |ids| <= |all| && all[..|ids|] == ids
    requires forall i :: 0 <= i < |trees| ==> TreeOk(t, arena, trees[i], ids)
    ensures forall i :: 0 <= i < |trees| ==> TreeOk(t, more, trees[i], all)
  {
    hide Holds;
    assert more == arena + [more[|arena|]];
    forall i | 0 <= i < |trees| ensures TreeOk(t, more, trees[i], all) {
      var tree := trees[i];
      assert TreeOk(t, arena, tree, ids);
      var end := tree.base + Pow2(tree.height);
      assert forall k :: 0 <= k < |ids| ==> all[k] == all[..|ids|][k];
      assert all[tree.base..end] == ids[tree.base..end];
      HoldsMore(t, arena, tree.root, tree.height, ids[tree.base..end], more[|arena|]);
    }
  }

  /** Linking two neighbours of equal height gives the tree of twice the leaves. */
  lemma {:induction false} Merged(t: TreeHashes, arena: seq<Node>, a: Tree, b: Tree, node: Node, ids: seq<Digest>)
    requires TreeOk(t, arena, a, ids) && TreeOk(t, arena, b, ids)
    requires a.height == b.height && a.base + Pow2(a.height) == b.base
    requires node == Node(t.parent(TreeHashAt(arena, a), TreeHashAt(arena, b)), Some(a.root), Some(b.root))
    ensures TreeOk(t, arena + [node], Tree(|arena|, a.height + 1, a.base), ids)
  {
    var half := Pow2(a.height);
    var slice := ids[a.base..a.base + 2 * half];
    assert slice[..half] == ids[a.base..a.base + half] && slice[half..] == ids[b.base..b.base + half];
    TreeAt(t, arena, a, ids);
    TreeAt(t, arena, b, ids);
    assert |slice| == Pow2(a.height + 1);
    hide Holds, TreeHash;
    HoldsMore(t, arena, a.root, a.height, slice[..half], node);
    HoldsMore(t, arena, b.root, b.height, slice[half..], node);
    HoldsPair(t, arena + [node], |arena|, a.height, slice);
  }

  /** A node over two held halves holds the whole. */
  lemma {:induction false} HoldsPair(t: TreeHashes, arena: seq<Node>, node: nat, h: nat, ids: seq<Digest>)
    requires |ids| == Pow2(h + 1) && node < |arena| && arena[node].left.Some? && arena[node].right.Some?
    requires
      var half := Pow2(h);
      && arena[node].hash == t.parent(TreeHash(t, ids[..half], h), TreeHash(t, ids[half..], h))
      && Holds(t, arena, arena[node].left.value, h, ids[..half])
      && Holds(t, arena, arena[node].right.value, h, ids[half..])
    ensures Holds(t, arena, node, h + 1, ids)
  {
  }

  lemma {:induction false} PathParts(t: TreeHashes, ids: seq<Digest>, h: nat, i: nat)
    requires h > 0 && |ids| == Pow2(h) && i < |ids|
    ensures
      var half := Pow2(h - 1);
      && |ids[..half]| == |ids[half..]| == half
      && Path(t, ids, h, i) ==
           if i < half then Path(t, ids[..half], h - 1, i) + [(TreeHash(t, ids[half..], h - 1), false)]
           else Path(t, ids[half..], h - 1, i - half) + [(TreeHash(t, ids[..half], h - 1), true)]
  {
  }

  lemma {:induction false} Regroup<T>(a: seq<T>, x: T, b: seq<T>)
    ensures a + [x] + b == a + ([x] + b)
  {
  }

  lemma {:induction false} NoPath(t: TreeHashes, ids: seq<Digest>, i: nat)
    requires |ids| == Pow2(0) && i < |ids|
    ensures Path(t, ids, 0, i) == []
  {
  }

  /** A node's parts. */
  lemma {:induction false} HoldsParts(t: TreeHashes, arena: seq<Node>, node: nat, h: nat, ids: seq<Digest>)
    requires h > 0 && |ids| == Pow2(h) && Holds(t, arena, node, h, ids)
    ensures
      var half := Pow2(h - 1);
      && node < |arena| && arena[node].left.Some? && arena[node].right.Some?
      && arena[node].left.value < |arena| && arena[node].right.value < |arena|
      && Holds(t, arena, arena[node].left.value, h - 1, ids[..half])
      && Holds(t, arena, arena[node].right.value, h - 1, ids[half..])
      && arena[arena[node].left.value].hash == TreeHash(t, ids[..half], h - 1)
      && arena[arena[node].right.value].hash == TreeHash(t, ids[half..], h - 1)
  {
  }

  lemma {:induction false} RootsInArena(t: TreeHashes, arena: seq<Node>, trees: seq<Tree>, tree: Tree, ids: seq<Digest>)
    requires Growing(t, arena, trees, tree, ids) && trees != []
    ensures tree.root < |arena| && trees[|trees| - 1].root < |arena|
  {
    hide Covers, Decreasing;
    TreeAt(t, arena, tree, ids);
    TreeAt(t, arena, trees[|trees| - 1], ids);
  }

  lemma {:induction false} StartGrowing(t: TreeHashes, arena: seq<Node>, more: seq<Node>, trees: seq<Tree>,
                                        ids: seq<Digest>, tree: Tree, id: Digest)
    requires Covers(trees, |ids|) && Decreasing(Heights(trees))
    requires forall i :: 0 <= i < |trees| ==> TreeOk(t, arena, trees[i], ids)
    requires more == arena + [Node(t.leaf(id), None, None)] && tree == Tree(|arena|, 0, |ids|)
    ensures Growing(t, more, trees, tree, ids + [id])
  {
    hide TreeOk;
    NewLeaf(t, more, tree, ids + [id]);
    GrowAll(t, arena, more, trees, ids, ids + [id]);
  }

  lemma {:induction false} EndsWithin(trees: seq<Tree>, n: nat, j: nat)
    requires Covers(trees, n) && j < |trees|
    ensures trees[j].base + Pow2(trees[j].height) <= n
  {
    var m := |trees| - 1;
    if j < m {
      EndsWithin(trees[..m], trees[m].base, j);
    }
  }

  /** Trees on the left end before trees on the right begin. */
  lemma {:induction false} Ordered(trees: seq<Tree>, n: nat, j: nat, k: nat)
    requires Covers(trees, n) && j < |trees| && k < |trees|
    ensures j < k ==> trees[j].base + Pow2(trees[j].height) <= trees[k].base
  {
    var m := |trees| - 1;
    if j < k == m {
      EndsWithin(trees[..m], trees[m].base, j);
    } else if j < k {
      Ordered(trees[..m], trees[m].base, j, k);
    }
  }
}
