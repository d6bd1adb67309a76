/**
  The cuckoo filter in front of the store (`crates/core/src/filter.rs`), as one thread
  uses it.  Bucket indices are 64-bit words under a mask, so the bucket vector is a map
  from those words together with their order; the 64-bit hash is a parameter.

  Moving fingerprints between their two buckets loses nothing.  Growing the table does:
  it has only fingerprints to go by and files each under a hash of its own.
 */
module CuckooFilter {
  import opened Bytes
  import opened Results

  const GOLDEN64: bv64 := 0x9E37_79B9_7F4A_7C15
  const SLOTS: nat := 4
  const KICKS: nat := 500
  /** The mask of 2^24 buckets, which do not grow. */
  const MAX_MASK: bv64 := 0xFF_FFFF

  type Fp = bv16

  /** A bucket index: a machine word. */
  datatype Index = Index(word: bv64)

  /** Four fingerprints; zero is an empty slot. */
  type Bucket = seq<Fp>

  type Buckets = map<Index, Bucket>

  const EMPTY_BUCKET: Bucket := [0, 0, 0, 0]

  function FpOf(h: bv64): (fp: Fp)
    ensures fp != 0
  {
    var low := (h & 0xFFFF) as Fp;
    if low == 0 then 1 else low
  }

  function Delta(fp: Fp): bv64 { (fp as bv64) * GOLDEN64 }

  function Mix(mask: bv64, i: Index, d: bv64): Index { Index((i.word ^ d) & mask) }

  /** An index the mask leaves as it is. */
  predicate InRange(mask: bv64, i: Index) { Within(mask, i.word) }

  predicate Within(mask: bv64, w: bv64) { w & mask == w }

  /** The first bucket of an item. */
  function Home(mask: bv64, h: bv64): (i: Index)
    ensures InRange(mask, i)
  {
    Index(h & mask)
  }

  /** The other bucket of a fingerprint. */
  function AltIndex(mask: bv64, i: Index, fp: Fp): (j: Index)
    ensures InRange(mask, j)
  {
    Mix(mask, i, Delta(fp))
  }

  lemma {:induction false} MixTwice(mask: bv64, i: Index, d: bv64)
    requires InRange(mask, i)
    ensures Mix(mask, Mix(mask, i, d), d) == i
  {
  }

  /** Going to the other bucket twice leads back. */
  lemma {:induction false} AltInvolutive(mask: bv64, i: Index, fp: Fp)
    requires InRange(mask, i)
    ensures AltIndex(mask, AltIndex(mask, i, fp), fp) == i
  {
    hide Delta, Mix, InRange;
    MixTwice(mask, i, Delta(fp));
  }

  /** Bucket i is one of the two for an item with this hash. */
  predicate Candidate(mask: bv64, h: bv64, i: Index) {
    i == Home(mask, h) || i == AltIndex(mask, Home(mask, h), FpOf(h))
  }

  /** The item's fingerprint is in one of its two buckets. */
  ghost predicate Stored(buckets: Buckets, mask: bv64, h: bv64) {
    exists i :: i in buckets && Candidate(mask, h, i) && FpOf(h) in buckets[i]
  }

  /** The item is stored, or its fingerprint is the one being moved to bucket i. */
  ghost predicate Kept(buckets: Buckets, mask: bv64, h: bv64, fp: Fp, i: Index) {
    Stored(buckets, mask, h) || (FpOf(h) == fp && Candidate(mask, h, i))
  }

  /** Every index in range has a bucket of four slots. */
  ghost predicate Table(buckets: Buckets, mask: bv64) {
    && (forall i :: i in buckets <==> InRange(mask, i))
    && (forall i :: i in buckets ==> |buckets[i]| == SLOTS)
  }

  lemma {:induction false} HasBucket(buckets: Buckets, mask: bv64, i: Index)
    requires Table(buckets, mask) && InRange(mask, i)
    ensures i in buckets && |buckets[i]| == SLOTS
  {
  }

  /** A candidate's alternative is a candidate. */
  lemma {:induction false} CandidateAlt(mask: bv64, h: bv64, i: Index)
    requires Candidate(mask, h, i)
    ensures InRange(mask, i) && Candidate(mask, h, AltIndex(mask, i, FpOf(h)))
  {
    hide AltIndex, FpOf, Home, InRange;
    AltInvolutive(mask, Home(mask, h), FpOf(h));
  }

  /** Putting the moved fingerprint into an empty slot of its bucket stores everything. */
  lemma {:induction false} PlaceKeeps(buckets: Buckets, mask: bv64, h: bv64, fp: Fp, i: Index, s: nat)
    requires Table(buckets, mask) && i in buckets && s < SLOTS && buckets[i][s] == 0 && Kept(buckets, mask, h, fp, i)
    ensures Stored(buckets[i := buckets[i][s := fp]], mask, h)
  {
    hide FpOf, Candidate, InRange;
    var after := buckets[i := buckets[i][s := fp]];
    if Stored(buckets, mask, h) {
      var j :| j in buckets && Candidate(mask, h, j) && FpOf(h) in buckets[j];
      if j == i {
        InAfterUpdate(buckets[i], s, fp, FpOf(h));
      }
      assert FpOf(h) in after[j];
    } else {
      assert after[i][s] == fp;
      assert FpOf(h) in after[i];
    }
  }

  lemma {:induction false} InAfterUpdate(b: Bucket, s: nat, fp: Fp, x: Fp)
    requires s < |b| && x in b && (b[s] == x ==> fp == x)
    ensures x in b[s := fp]
  {
    var k :| 0 <= k < |b| && b[k] == x;
    if k == s {
      assert b[s := fp][s] == fp;
    } else {
      assert b[s := fp][k] == x;
    }
  }

  /** Swapping the moved fingerprint with one in its bucket, and going on with that one, loses nothing. */
  lemma {:induction false} KickKeeps(buckets: Buckets, mask: bv64, h: bv64, fp: Fp, i: Index, s: nat)
    requires Table(buckets, mask) && i in buckets && s < SLOTS && Kept(buckets, mask, h, fp, i)
    ensures
      var out := buckets[i][s];
      Kept(buckets[i := buckets[i][s := fp]], mask, h, out, AltIndex(mask, i, out))
  {
    hide FpOf, Candidate, AltIndex, InRange;
    var after, out := buckets[i := buckets[i][s := fp]], buckets[i][s];
    if Stored(buckets, mask, h) {
      var j :| j in buckets && Candidate(mask, h, j) && FpOf(h) in buckets[j];
      if j != i {
        assert FpOf(h) in after[j];
      } else if out == FpOf(h) {
        CandidateAlt(mask, h, i);
      } else {
        InAfterUpdate(buckets[i], s, fp, FpOf(h));
        assert FpOf(h) in after[i];
      }
    } else {
      assert after[i][s] == fp;
      assert FpOf(h) in after[i];
    }
  }

  // ------------------------------------------------------------------ the kick walk

  /** The first empty slot of a bucket. */
  function FirstEmpty(b: Bucket): (slot: Option<nat>)
    requires |b| == SLOTS
    ensures slot.Some? ==> slot.value < SLOTS && b[slot.value] == 0
    ensures slot.None? <==> 0 !in b
  {
    if b[0] == 0 then Some(0)
    else if b[1] == 0 then Some(1)
    else if b[2] == 0 then Some(2)
    else if b[3] == 0 then Some(3)
    else None
  }

  /** The slot a full bucket gives up. */
  function Victim(fp: Fp): (s: nat)
    ensures s < SLOTS
  {
    (fp % 4) as nat
  }

  /** The table with slot s of bucket i changed. */
  function WithSlot(buckets: Buckets, mask: bv64, i: Index, s: nat, fp: Fp): (after: Buckets)
    requires Table(buckets, mask) && i in buckets && s < SLOTS
    ensures Table(after, mask)
  {
    buckets[i := buckets[i][s := fp]]
  }

  /** What up to n kicks lead to: the table, and whether the fingerprint in hand found a slot. */
  datatype Walk = Walk(buckets: Buckets, placed: bool)

  function Walked(buckets: Buckets, mask: bv64, fp: Fp, i: Index, n: nat): (w: Walk)
    requires Table(buckets, mask) && InRange(mask, i)
    ensures Table(w.buckets, mask)
    decreases n
  {
    HasBucket(buckets, mask, i);
    if n == 0 then Walk(buckets, false)
    else
      var slot := FirstEmpty(buckets[i]);
      if slot.Some? then Walk(WithSlot(buckets, mask, i, slot.value, fp), true)
      else
        var out := buckets[i][Victim(fp)];
        Walked(WithSlot(buckets, mask, i, Victim(fp), fp), mask, out, AltIndex(mask, i, out), n - 1)
  }

  lemma {:induction false} WalkRoom(buckets: Buckets, mask: bv64, fp: Fp, i: Index, n: nat, slot: nat)
    requires Table(buckets, mask) && InRange(mask, i) && i in buckets && n > 0
    requires FirstEmpty(buckets[i]) == Some(slot)
    ensures Walked(buckets, mask, fp, i, n) == Walk(WithSlot(buckets, mask, i, slot, fp), true)
  {
  }

  lemma {:induction false} WalkOn(buckets: Buckets, mask: bv64, fp: Fp, i: Index, n: nat)
    requires Table(buckets, mask) && InRange(mask, i) && i in buckets && n > 0
    requires FirstEmpty(buckets[i]) == None
    ensures
      var out := buckets[i][Victim(fp)];
      Walked(buckets, mask, fp, i, n) ==
      Walked(WithSlot(buckets, mask, i, Victim(fp), fp), mask, out, AltIndex(mask, i, out), n - 1)
  {
  }

  lemma {:induction false} WalkEnds(buckets: Buckets, mask: bv64, fp: Fp, i: Index)
    requires Table(buckets, mask) && InRange(mask, i)
    ensures Walked(buckets, mask, fp, i, 0) == Walk(buckets, false)
  {
  }

  /** A walk that ends in a slot has lost nothing. */
  lemma {:induction false} WalkKeeps(buckets: Buckets, mask: bv64, fp: Fp, i: Index, n: nat, h: bv64)
    requires Table(buckets, mask) && InRange(mask, i) && Kept(buckets, mask, h, fp, i)
    ensures Walked(buckets, mask, fp, i, n).placed ==> Stored(Walked(buckets, mask, fp, i, n).buckets, mask, h)
    decreases n
  {
    hide Kept, Stored, InRange, AltIndex, Victim, Table;
    HasBucket(buckets, mask, i);
    if n > 0 {
      var slot := FirstEmpty(buckets[i]);
      if slot.Some? {
        PlaceKeeps(buckets, mask, h, fp, i, slot.value);
      } else {
        var s := Victim(fp);
        KickKeeps(buckets, mask, h, fp, i, s);
        var out := buckets[i][s];
        WalkKeeps(WithSlot(buckets, mask, i, s, fp), mask, out, AltIndex(mask, i, out), n - 1, h);
      }
    }
  }

  // ------------------------------------------------------------------------ growing

  function Meet(a: bv64, b: bv64): bv64 { a & b }

  function Join(a: bv64, b: bv64): bv64 { a | b }

  /** The bit above the mask. */
  function Top(mask: bv64): bv64 { mask + 1 }

  /** The mask is one less than a power of two. */
  predicate PowerMask(mask: bv64) { Meet(mask, Top(mask)) == 0 && Top(mask) != 0 }

  /** The mask of twice as many buckets. */
  function Wider(mask: bv64): bv64 { 2 * mask + 1 }

  function Flip(top: bv64, w: bv64): bv64 { w ^ top }

  /** The index of the same bucket in the upper half of a table twice as wide. */
  function Upper(mask: bv64, i: Index): Index { Index(Flip(Top(mask), i.word)) }

  lemma {:induction false} WiderMask(mask: bv64)
    requires PowerMask(mask) && mask < MAX_MASK
    ensures PowerMask(Wider(mask))
  {
  }

  lemma {:induction false} SingleBit(mask: bv64, w: bv64)
    requires PowerMask(mask)
    ensures Meet(w, Top(mask)) == 0 || Meet(w, Top(mask)) == Top(mask)
  {
  }

  lemma {:induction false} WiderIsUnion(mask: bv64)
    requires PowerMask(mask)
    ensures Wider(mask) == Join(mask, Top(mask))
  {
  }

  lemma {:induction false} LowerHalf(mask: bv64, top: bv64, w: bv64)
    requires Within(Join(mask, top), w) && Meet(w, top) == 0
    ensures Within(mask, w)
  {
  }

  lemma {:induction false} UpperHalf(mask: bv64, top: bv64, w: bv64)
    requires Within(Join(mask, top), w) && Meet(w, top) == top && Meet(mask, top) == 0
    ensures Within(mask, Flip(top, w))
  {
  }

  lemma {:induction false} FromLower(mask: bv64, top: bv64, w: bv64)
    requires Within(mask, w)
    ensures Within(Join(mask, top), w)
  {
  }

  lemma {:induction false} FromUpper(mask: bv64, top: bv64, w: bv64)
    requires Within(mask, w)
    ensures Within(Join(mask, top), Flip(top, w))
  {
  }

  lemma {:induction false} FlipTwice(top: bv64, w: bv64)
    ensures Flip(top, Flip(top, w)) == w
  {
  }

  lemma {:induction false} Halves(mask: bv64, w: bv64)
    requires PowerMask(mask) && Within(Wider(mask), w)
    ensures Within(mask, w) || Within(mask, Flip(Top(mask), w))
  {
    hide Flip, Within, Meet, Join, Wider, Top;
    WiderIsUnion(mask);
    SingleBit(mask, w);
    if Meet(w, Top(mask)) == 0 {
      LowerHalf(mask, Top(mask), w);
    } else {
      UpperHalf(mask, Top(mask), w);
    }
  }

  lemma {:induction false} FromHalf(mask: bv64, w: bv64)
    requires PowerMask(mask) && Within(mask, w)
    ensures Within(Wider(mask), w) && Within(Wider(mask), Flip(Top(mask), w))
  {
    hide Flip, Within, Meet, Join, Wider, Top, PowerMask;
    WiderIsUnion(mask);
    FromLower(mask, Top(mask), w);
    FromUpper(mask, Top(mask), w);
  }

  /** The wider table's indices are the old ones and their uppers. */
  lemma {:induction false} WiderRange(mask: bv64, i: Index)
    requires PowerMask(mask)
    ensures InRange(Wider(mask), i) <==> InRange(mask, i) || InRange(mask, Upper(mask, i))
    ensures Upper(mask, Upper(mask, i)) == i
  {
    hide PowerMask, Wider, Top, Flip, Within;
    var w := i.word;
    FlipTwice(Top(mask), w);
    if InRange(Wider(mask), i) {
      Halves(mask, w);
    }
    if InRange(mask, i) {
      FromHalf(mask, w);
    }
    if InRange(mask, Upper(mask, i)) {
      FromHalf(mask, Flip(Top(mask), w));
    }
  }

  /** The bucket vector's indices in order, for a table twice as wide. */
  function Doubled(order: seq<Index>, mask: bv64): (wider: seq<Index>) {
    order + seq(|order|, j requires 0 <= j < |order| => Upper(mask, order[j]))
  }

  ghost predicate Ordered(order: seq<Index>, mask: bv64) { forall i :: i in order <==> InRange(mask, i) }

  lemma {:induction false} DoubledOrder(order: seq<Index>, mask: bv64)
    requires Ordered(order, mask) && PowerMask(mask)
    ensures Ordered(Doubled(order, mask), Wider(mask))
  {
    hide PowerMask, Wider, Upper, InRange;
    var wider := Doubled(order, mask);
    forall i ensures i in wider <==> InRange(Wider(mask), i) {
      WiderRange(mask, i);
      if InRange(mask, Upper(mask, i)) {
        var j :| 0 <= j < |order| && order[j] == Upper(mask, i);
        assert wider[|order| + j] == i;
      }
      if i in wider {
        var j :| 0 <= j < |wider| && wider[j] == i;
        if j >= |order| {
          assert i == Upper(mask, order[j - |order|]) && order[j - |order|] in order;
          WiderRange(mask, order[j - |order|]);
        } else {
          assert order[j] in order;
        }
      }
    }
  }

  /** The fingerprints of a bucket. */
  function Nonzero(b: Bucket): (fps: seq<Fp>)
    ensures forall fp :: fp in fps <==> fp in b && fp != 0
  {
    if b == [] then [] else Nonzero(b[..|b| - 1]) + if b[|b| - 1] != 0 then [b[|b| - 1]] else []
  }

  /** The fingerprints of the first n buckets. */
  function Fingerprints(buckets: Buckets, order: seq<Index>, n: nat): (fps: seq<Fp>)
    requires n <= |order| && forall i :: i in order ==> i in buckets
    ensures forall fp :: fp in fps ==> fp != 0 && exists i :: i in buckets && fp in buckets[i]
  {
    if n == 0 then [] else Fingerprints(buckets, order, n - 1) + Nonzero(buckets[order[n - 1]])
  }

  /** The bucket a bare fingerprint is filed in first: by a hash of its own two bytes. */
  function Refile(hash: Bytes -> bv64, mask: bv64, fp: Fp): (i: Index)
    ensures InRange(mask, i)
  {
    Home(mask, hash([(fp & 0xFF) as bv8, (fp >> 8) as bv8]))
  }

  /** A fingerprint put into bucket i if there is room. */
  function PutIn(buckets: Buckets, mask: bv64, i: Index, fp: Fp): (after: Buckets)
    requires Table(buckets, mask) && InRange(mask, i)
    ensures Table(after, mask)
  {
    HasBucket(buckets, mask, i);
    var slot := FirstEmpty(buckets[i]);
    if slot.Some? then WithSlot(buckets, mask, i, slot.value, fp) else buckets
  }

  /** One fingerprint refiled: into its first bucket, or, if that is full of others, into its second. */
  function Refiled(hash: Bytes -> bv64, buckets: Buckets, mask: bv64, fp: Fp): (after: Buckets)
    requires Table(buckets, mask)
    ensures Table(after, mask)
  {
    var i := Refile(hash, mask, fp);
    var after := PutIn(buckets, mask, i, fp);
    HasBucket(after, mask, i);
    if fp in after[i] then after else PutIn(after, mask, AltIndex(mask, i, fp), fp)
  }

  function EmptyTable(order: seq<Index>, mask: bv64): (buckets: Buckets)
    requires Ordered(order, mask)
    ensures Table(buckets, mask)
  {
    map i | i in order :: EMPTY_BUCKET
  }

  /** A table refilled from bare fingerprints. */
  function Rehash(hash: Bytes -> bv64, order: seq<Index>, mask: bv64, fps: seq<Fp>): (buckets: Buckets)
    requires Ordered(order, mask)
    ensures Table(buckets, mask)
  {
    if fps == [] then EmptyTable(order, mask)
    else Refiled(hash, Rehash(hash, order, mask, fps[..|fps| - 1]), mask, fps[|fps| - 1])
  }

  /** Bucket i is one of the two a bare fingerprint may be filed in. */
  predicate Files(hash: Bytes -> bv64, mask: bv64, fp: Fp, i: Index) {
    i == Refile(hash, mask, fp) || i == AltIndex(mask, Refile(hash, mask, fp), fp)
  }

  /** The fingerprint is in one of the two buckets it is filed in. */
  predicate Filed(hash: Bytes -> bv64, buckets: Buckets, mask: bv64, fp: Fp)
    requires Table(buckets, mask)
  {
    var i := Refile(hash, mask, fp);
    HasBucket(buckets, mask, i);
    HasBucket(buckets, mask, AltIndex(mask, i, fp));
    fp in buckets[i] || fp in buckets[AltIndex(mask, i, fp)]
  }

  /** Neither of its two buckets has room left. */
  predicate Crowded(hash: Bytes -> bv64, buckets: Buckets, mask: bv64, fp: Fp)
    requires Table(buckets, mask)
  {
    var i := Refile(hash, mask, fp);
    HasBucket(buckets, mask, i);
    HasBucket(buckets, mask, AltIndex(mask, i, fp));
    0 !in buckets[i] && 0 !in buckets[AltIndex(mask, i, fp)]
  }

  /** Fingerprints sit only where they are filed. */
  ghost predicate AllFiled(hash: Bytes -> bv64, buckets: Buckets, mask: bv64, fps: seq<Fp>) {
    forall i, fp :: i in buckets && fp in buckets[i] && fp != 0 ==> Files(hash, mask, fp, i) && fp in fps
  }

  lemma {:induction false} PutInEffect(buckets: Buckets, mask: bv64, i: Index, fp: Fp)
    requires Table(buckets, mask) && InRange(mask, i)
    ensures
      var after := PutIn(buckets, mask, i, fp);
      && i in buckets && after.Keys == buckets.Keys
      && (forall j, x :: j in buckets && x in buckets[j] && x != 0 ==> x in after[j])
      && (forall j, x :: j in buckets && x in after[j] ==> x in buckets[j] || (x == fp && j == i))
      && (forall j :: j in buckets && 0 !in buckets[j] ==> after[j] == buckets[j])
      && (fp in after[i] || 0 !in buckets[i])
  {
    hide InRange;
    HasBucket(buckets, mask, i);
    var slot := FirstEmpty(buckets[i]);
    if slot.Some? {
      var after := PutIn(buckets, mask, i, fp);
      assert after[i][slot.value] == fp;
      forall x | x in buckets[i] && x != 0 ensures x in after[i] {
        InAfterUpdate(buckets[i], slot.value, fp, x);
      }
    }
  }

  /** What refiling one fingerprint does to the table. */
  lemma {:induction false} RefiledEffect(hash: Bytes -> bv64, buckets: Buckets, mask: bv64, fp: Fp)
    requires Table(buckets, mask) && fp != 0
    ensures
      var after := Refiled(hash, buckets, mask, fp);
      && after.Keys == buckets.Keys
      && (forall j, x :: j in buckets && x in buckets[j] && x != 0 ==> x in after[j])
      && (forall j, x :: j in buckets && x in after[j] ==> x in buckets[j] || (x == fp && Files(hash, mask, fp, j)))
      && (forall j :: j in buckets && 0 !in buckets[j] ==> after[j] == buckets[j])
      && (Filed(hash, after, mask, fp) || Crowded(hash, after, mask, fp))
  {
    hide InRange, AltIndex, Refile, PutIn, Table;
    var i := Refile(hash, mask, fp);
    PutInEffect(buckets, mask, i, fp);
    var first := PutIn(buckets, mask, i, fp);
    HasBucket(first, mask, i);
    if fp !in first[i] {
      PutInEffect(first, mask, AltIndex(mask, i, fp), fp);
      assert 0 !in first[i] && first[i] == buckets[i];
    } else {
      HasBucket(first, mask, AltIndex(mask, i, fp));
    }
  }

  /** Refiling others neither takes a fingerprint out of its buckets nor makes room in them. */
  lemma {:induction false} RefiledKeeps(hash: Bytes -> bv64, buckets: Buckets, mask: bv64, fp: Fp, x: Fp)
    requires Table(buckets, mask) && fp != 0 && x != 0
    requires Filed(hash, buckets, mask, x) || Crowded(hash, buckets, mask, x)
    ensures
      var after := Refiled(hash, buckets, mask, fp);
      Filed(hash, after, mask, x) || Crowded(hash, after, mask, x)
  {
    hide InRange, AltIndex, Refile, Refiled, Table;
    RefiledEffect(hash, buckets, mask, fp);
    HasBucket(buckets, mask, Refile(hash, mask, x));
    HasBucket(buckets, mask, AltIndex(mask, Refile(hash, mask, x), x));
  }

  /** A rehashed fingerprint sits where it is filed, or its two buckets are full. */
  lemma {:induction false} RehashFiles(hash: Bytes -> bv64, order: seq<Index>, mask: bv64, fps: seq<Fp>)
    requires Ordered(order, mask) && forall fp :: fp in fps ==> fp != 0
    ensures
      var after := Rehash(hash, order, mask, fps);
      && AllFiled(hash, after, mask, fps)
      && forall fp :: fp in fps ==> Filed(hash, after, mask, fp) || Crowded(hash, after, mask, fp)
  {
    hide Table, Refiled, Files, Filed, Crowded, Ordered;
    if fps != [] {
      var n := |fps| - 1;
      var before, last := fps[..n], fps[n];
      assert fps == before + [last];
      assert forall fp :: fp in before ==> fp in fps;
      RehashFiles(hash, order, mask, before);
      var was := Rehash(hash, order, mask, before);
      RefiledEffect(hash, was, mask, last);
      forall fp | fp in fps
        ensures
          var after := Rehash(hash, order, mask, fps);
          Filed(hash, after, mask, fp) || Crowded(hash, after, mask, fp)
      {
        if fp in before {
          RefiledKeeps(hash, was, mask, last, fp);
        }
      }
    }
  }

  /** After a rehash an item is found exactly when its own buckets are those its fingerprint is filed in. */
  lemma {:induction false} RehashFindsExactly(hash: Bytes -> bv64, order: seq<Index>, mask: bv64, fps: seq<Fp>, h: bv64)
    requires Ordered(order, mask) && forall fp :: fp in fps ==> fp != 0
    ensures
      var after := Rehash(hash, order, mask, fps);
      Stored(after, mask, h) <==>
      Candidate(mask, h, Refile(hash, mask, FpOf(h))) && Filed(hash, after, mask, FpOf(h))
  {
    hide InRange, AltIndex, FpOf, Refile, Home, Rehash, Table, Ordered;
    var after, fp := Rehash(hash, order, mask, fps), FpOf(h);
    var i := Refile(hash, mask, fp);
    RehashFiles(hash, order, mask, fps);
    HasBucket(after, mask, i);
    HasBucket(after, mask, AltIndex(mask, i, fp));
    AltInvolutive(mask, i, fp);
    if Candidate(mask, h, i) {
      CandidateAlt(mask, h, i);
    }
    if Stored(after, mask, h) {
      var j :| j in after && Candidate(mask, h, j) && fp in after[j];
      assert Files(hash, mask, fp, j);
      CandidateAlt(mask, h, j);
    }
  }

  // --------------------------------------------------------------------- the filter

  datatype FilterState = FilterState(mask: bv64, order: seq<Index>, buckets: Buckets, count: nat, saturated: bool)

  ghost predicate Wf(f: FilterState) {
    PowerMask(f.mask) && Ordered(f.order, f.mask) && Table(f.buckets, f.mask)
  }

  /** An item is reported present. */
  ghost predicate Found(f: FilterState, h: bv64) { f.saturated || Stored(f.buckets, f.mask, h) }

  lemma {:induction false} AllBuckets(f: FilterState)
    requires Wf(f)
    ensures forall i :: i in f.order ==> i in f.buckets
  {
  }

  /** The table doubled and refilled from its own fingerprints. */
  function Grown(hash: Bytes -> bv64, f: FilterState): (g: FilterState)
    requires Wf(f) && f.mask < MAX_MASK
    ensures Wf(g)
  {
    WiderMask(f.mask);
    DoubledOrder(f.order, f.mask);
    AllBuckets(f);
    var order, mask := Doubled(f.order, f.mask), Wider(f.mask);
    f.(mask := mask, order := order,
       buckets := Rehash(hash, order, mask, Fingerprints(f.buckets, f.order, |f.order|)))
  }

  /** The state after the kicks of an insert, and whether they found a slot. */
  function Kicked(hash: Bytes -> bv64, f: FilterState, id: Bytes): (w: (FilterState, bool))
    requires Wf(f)
    ensures Wf(w.0)
  {
    var h := hash(id);
    var w := Walked(f.buckets, f.mask, FpOf(h), Home(f.mask, h), KICKS);
    (f.(buckets := w.buckets), w.placed)
  }

  function InsertStep(hash: Bytes -> bv64, f: FilterState, id: Bytes): (r: (FilterState, bool))
    requires Wf(f)
    ensures Wf(r.0)
  {
    if f.saturated then (f, false)
    else
      var (kicked, placed) := Kicked(hash, f, id);
      if placed then (kicked.(count := f.count + 1), true)
      else if kicked.mask >= MAX_MASK then (kicked.(saturated := true), false)
      else
        var g, h := Grown(hash, kicked), hash(id);
        HasBucket(g.buckets, g.mask, Home(g.mask, h));
        if FirstEmpty(g.buckets[Home(g.mask, h)]).Some?
        then (g.(buckets := PutIn(g.buckets, g.mask, Home(g.mask, h), FpOf(h)), count := f.count + 1), true)
        else (g.(saturated := true), false)
  }

  /** An insert that grows the table. */
  predicate Grows(hash: Bytes -> bv64, f: FilterState, id: Bytes)
    requires Wf(f)
  {
    !f.saturated && !Kicked(hash, f, id).1 && f.mask < MAX_MASK
  }

  /** An insert answers false exactly if it leaves the filter latched; it counts if it answers true. */
  lemma {:induction false} InsertAnswers(hash: Bytes -> bv64, f: FilterState, id: Bytes)
    requires Wf(f)
    ensures
      var (g, ok) := InsertStep(hash, f, id);
      && (ok <==> !g.saturated) && g.count == f.count + (if ok then 1 else 0)
      && (f.saturated ==> g == f)
  {
    hide Table, Ordered, PowerMask, FpOf, Home, Walked, Rehash, Fingerprints, Doubled, Wider, PutIn, FirstEmpty;
  }

  /** Where the item's own bucket has room, only that bucket changes: the fingerprint takes its first empty slot. */
  lemma {:induction false} RoomInserts(hash: Bytes -> bv64, f: FilterState, id: Bytes, s: nat)
    requires Wf(f) && !f.saturated && s < SLOTS
    requires
      var i := Home(f.mask, hash(id));
      i in f.buckets && f.buckets[i][s] == 0 && forall k :: 0 <= k < s ==> f.buckets[i][k] != 0
    ensures
      var i := Home(f.mask, hash(id));
      InsertStep(hash, f, id) ==
      (f.(buckets := f.buckets[i := f.buckets[i][s := FpOf(hash(id))]], count := f.count + 1), true)
  {
    hide PowerMask, FpOf, Home, AltIndex, Victim;
    var i := Home(f.mask, hash(id));
    WalkRoom(f.buckets, f.mask, FpOf(hash(id)), i, KICKS, s);
  }

  /**
    Where it has none, the fingerprint takes the victim's slot, and with room in the
    victim's other bucket the victim takes its first empty slot.
   */
  lemma {:induction false} VictimMoves(hash: Bytes -> bv64, f: FilterState, id: Bytes, s: nat)
    requires Wf(f) && !f.saturated && s < SLOTS
    requires
      var i := Home(f.mask, hash(id));
      && i in f.buckets && 0 !in f.buckets[i]
      && var j := AltIndex(f.mask, i, f.buckets[i][Victim(FpOf(hash(id)))]);
         j != i && j in f.buckets && f.buckets[j][s] == 0 && forall k :: 0 <= k < s ==> f.buckets[j][k] != 0
    ensures
      var i, fp := Home(f.mask, hash(id)), FpOf(hash(id));
      var out := f.buckets[i][Victim(fp)];
      var j := AltIndex(f.mask, i, out);
      InsertStep(hash, f, id) ==
      (f.(buckets := f.buckets[i := f.buckets[i][Victim(fp) := fp]][j := f.buckets[j][s := out]], count := f.count + 1),
       true)
  {
    hide PowerMask, FpOf, Home, AltIndex, Victim, Walked, Ordered;
    var i, fp := Home(f.mask, hash(id)), FpOf(hash(id));
    var out := f.buckets[i][Victim(fp)];
    var j := AltIndex(f.mask, i, out);
    WalkOn(f.buckets, f.mask, fp, i, KICKS);
    WalkRoom(WithSlot(f.buckets, f.mask, i, Victim(fp), fp), f.mask, out, j, KICKS - 1, s);
  }

  /** Without growth an insert loses nothing, and what it says it has inserted is found. */
  lemma {:induction false} InsertKeeps(hash: Bytes -> bv64, f: FilterState, id: Bytes, h: bv64)
    requires Wf(f) && !Grows(hash, f, id) && (Found(f, h) || h == hash(id))
    ensures Found(InsertStep(hash, f, id).0, h)
  {
    hide Stored, Table, Ordered, PowerMask, FpOf, Home, AltIndex;
    if !f.saturated {
      WalkKeeps(f.buckets, f.mask, FpOf(hash(id)), Home(f.mask, hash(id)), KICKS, h);
    }
  }

  /**
    After an insert that grew the table and answered true, an item is found exactly if
    it shares fingerprint and bucket with the one inserted, or if its own buckets are
    those its bare fingerprint is filed in and the fingerprint got a place there.
   */
  lemma {:induction false} GrowthFindsExactly(hash: Bytes -> bv64, f: FilterState, id: Bytes, h: bv64)
    requires Wf(f) && Grows(hash, f, id) && InsertStep(hash, f, id).1
    ensures
      var g := Grown(hash, Kicked(hash, f, id).0);
      Found(InsertStep(hash, f, id).0, h) <==>
      || (FpOf(h) == FpOf(hash(id)) && Candidate(g.mask, h, Home(g.mask, hash(id))))
      || (Candidate(g.mask, h, Refile(hash, g.mask, FpOf(h))) && Filed(hash, g.buckets, g.mask, FpOf(h)))
  {
    hide Table, Ordered, PowerMask, FpOf, Home, AltIndex, InRange, Rehash, Fingerprints, Doubled, Wider, Walked, Refile,
         Filed, Candidate, PutIn;
    var kicked := Kicked(hash, f, id).0;
    var g, i, fp := Grown(hash, kicked), Home(Grown(hash, kicked).mask, hash(id)), FpOf(hash(id));
    AllBuckets(kicked);
    RehashFindsExactly(hash, g.order, g.mask, Fingerprints(kicked.buckets, kicked.order, |kicked.order|), h);
    PutInEffect(g.buckets, g.mask, i, fp);
    var after := InsertStep(hash, f, id).0;
    assert after.buckets == PutIn(g.buckets, g.mask, i, fp);
    assert FpOf(h) != 0;
    if Stored(after.buckets, g.mask, h) && !Stored(g.buckets, g.mask, h) {
      var j :| j in after.buckets && Candidate(g.mask, h, j) && FpOf(h) in after.buckets[j];
      assert j == i;
    }
    if FpOf(h) == fp && Candidate(g.mask, h, i) {
      assert FpOf(h) in after.buckets[i];
    }
    if Stored(g.buckets, g.mask, h) {
      var j :| j in g.buckets && Candidate(g.mask, h, j) && FpOf(h) in g.buckets[j];
      assert FpOf(h) in after.buckets[j];
    }
  }

  function Cleared(f: FilterState): (g: FilterState)
    requires Wf(f)
    ensures Wf(g) && forall h :: !Found(g, h)
  {
    f.(buckets := map i | i in f.buckets :: EMPTY_BUCKET, count := 0, saturated := false)
  }

  // ------------------------------------------------------------------------- runs

  datatype Op = Add(id: Bytes) | Clear

  /** The filter, the ids whose insert answered true since the last clear, and whether it has grown since. */
  datatype Run = Run(f: FilterState, members: set<Bytes>, grown: bool)

  function Stepped(hash: Bytes -> bv64, r: Run, op: Op): (next: Run)
    requires Wf(r.f)
    ensures Wf(next.f)
  {
    match op
    case Add(id) =>
      var (f, ok) := InsertStep(hash, r.f, id);
      Run(f, if ok then r.members + {id} else r.members, r.grown || Grows(hash, r.f, id))
    case Clear => Run(Cleared(r.f), {}, false)
  }

  function RunOps(hash: Bytes -> bv64, r: Run, ops: seq<Op>): (end: Run)
    requires Wf(r.f)
    ensures Wf(end.f)
  {
    if ops == [] then r else Stepped(hash, RunOps(hash, r, ops[..|ops| - 1]), ops[|ops| - 1])
  }

  ghost predicate NoneLost(hash: Bytes -> bv64, r: Run) {
    !r.grown ==> forall id :: id in r.members ==> Found(r.f, hash(id))
  }

  /** In every run, until the table grows every id inserted since the last clear is found. */
  lemma {:induction false} NoFalseNegatives(hash: Bytes -> bv64, r: Run, ops: seq<Op>)
    requires Wf(r.f) && NoneLost(hash, r)
    ensures NoneLost(hash, RunOps(hash, r, ops))
  {
    hide Wf, Found, InsertStep, Grows, Cleared;
    if ops != [] {
      var n := |ops| - 1;
      NoFalseNegatives(hash, r, ops[..n]);
      var was := RunOps(hash, r, ops[..n]);
      if ops[n].Add? && !Grows(hash, was.f, ops[n].id) && !was.grown {
        forall id | id in was.members + {ops[n].id} ensures Found(InsertStep(hash, was.f, ops[n].id).0, hash(id)) {
          InsertKeeps(hash, was.f, ops[n].id, hash(id));
        }
      }
    }
  }

  // ------------------------------------------------------------------------ the class

  class Filter {
    const hash: Bytes -> bv64
    var mask: bv64
    /** The indices of the bucket vector, in order. */
    var order: seq<Index>
    var buckets: Buckets
    var count: nat
    var saturated: bool
    /** The ids whose insert answered true since the last clear. */
    ghost var members: set<Bytes>
    /** The table has grown since the last clear. */
    ghost var grown: bool

    function View(): FilterState
      reads this
    {
      FilterState(mask, order, buckets, count, saturated)
    }

    ghost function Track(): Run
      reads this
    {
      Run(View(), members, grown)
    }

    ghost predicate Valid()
      reads this
    {
      Wf(View()) && NoneLost(hash, Track())
    }

    /** An empty filter over the given bucket indices. */
    constructor (hash: Bytes -> bv64, mask: bv64, order: seq<Index>)
      requires PowerMask(mask) && Ordered(order, mask)
      ensures Valid() && this.hash == hash
      ensures Track() == Run(FilterState(mask, order, EmptyTable(order, mask), 0, false), {}, false)
    {
      hide InRange, PowerMask, Ordered, Table, EmptyTable;
      this.hash, this.mask, this.order := hash, mask, order;
      buckets := EmptyTable(order, mask);
      count, saturated, members, grown := 0, false, {}, false;
    }

    /** The first empty slot of a bucket. */
    static method EmptySlot(b: Bucket) returns (slot: Option<nat>)
      requires |b| == SLOTS
      ensures slot == FirstEmpty(b)
    {
      for s := 0 to SLOTS
        invariant forall k :: 0 <= k < s ==> b[k] != 0
      {
        if b[s] == 0 {
          return Some(s);
        }
      }
      slot := None;
    }

    /** Inserts an item, moving fingerprints between their two buckets to make room, and growing once if that fails. */
    method Insert(id: Bytes) returns (ok: bool)
      requires Valid()
      modifies this
      ensures Valid() && Track() == Stepped(hash, old(Track()), Add(id))
      ensures ok == InsertStep(hash, old(View()), id).1
    {
      hide Wf, NoneLost, InsertStep, Grows;
      ghost var track := Track();
      ok := InsertItem(id);
      grown := grown || Grows(hash, track.f, id);
      members := if ok then members + {id} else members;
      RunOne(hash, track, Add(id));
    }

    method InsertItem(id: Bytes) returns (ok: bool)
      requires Wf(View())
      modifies this`mask, this`order, this`buckets, this`count, this`saturated
      ensures Wf(View()) && (View(), ok) == InsertStep(hash, old(View()), id)
    {
      hide PowerMask, Ordered, Table, Kicked, FpOf, Home, InRange, FirstEmpty, Grown, PutIn;
      if saturated {
        return false;
      }
      ok := Kick(id);
      if ok {
        count := count + 1;
        return;
      }
      var grew := Grow();
      if grew {
        ok := Seat(id);
      }
      if !ok {
        saturated := true;
      }
    }

    /** Kicks fingerprints along until one finds an empty slot. */
    method Kick(id: Bytes) returns (placed: bool)
      requires Wf(View())
      modifies this`buckets
      ensures Wf(View()) && (View(), placed) == Kicked(hash, old(View()), id)
    {
      hide FpOf, AltIndex, Home, InRange, Ordered, PowerMask, Victim, Walked, WithSlot, Table, FirstEmpty;
      var i, fp := Home(mask, hash(id)), FpOf(hash(id));
      ghost var want := Walked(buckets, mask, fp, i, KICKS);
      for k := 0 to KICKS
        invariant Table(buckets, mask) && InRange(mask, i)
        invariant Walked(buckets, mask, fp, i, KICKS - k) == want
      {
        HasBucket(buckets, mask, i);
        var slot := EmptySlot(buckets[i]);
        if slot.Some? {
          WalkRoom(buckets, mask, fp, i, KICKS - k, slot.value);
          buckets := WithSlot(buckets, mask, i, slot.value, fp);
          return true;
        }
        WalkOn(buckets, mask, fp, i, KICKS - k);
        var s := Victim(fp);
        var out := buckets[i][s];
        buckets := WithSlot(buckets, mask, i, s, fp);
        fp, i := out, AltIndex(mask, i, out);
      }
      WalkEnds(buckets, mask, fp, i);
      placed := false;
    }

    /** Doubles the table and refills it from its own fingerprints. */
    method Grow() returns (grew: bool)
      requires Wf(View())
      modifies this`mask, this`order, this`buckets
      ensures Wf(View()) && (grew <==> old(mask) < MAX_MASK)
      ensures View() == if grew then Grown(hash, old(View())) else old(View())
    {
      hide InRange, PowerMask, Ordered, Table, Doubled, Wider, Rehash, Fingerprints;
      if mask >= MAX_MASK {
        return false;
      }
      AllBuckets(View());
      var fps := Collect();
      WiderMask(mask);
      DoubledOrder(order, mask);
      var wider, newOrder := Wider(mask), Doubled(order, mask);
      var table := Refill(hash, newOrder, wider, fps);
      mask, order, buckets := wider, newOrder, table;
      grew := true;
    }

    /** A table refilled from fingerprints, one after the other. */
    static method Refill(hash: Bytes -> bv64, order: seq<Index>, mask: bv64, fps: seq<Fp>) returns (table: Buckets)
      requires Ordered(order, mask)
      ensures table == Rehash(hash, order, mask, fps)
    {
      hide Ordered, Table, PutIn, Refile, AltIndex;
      table := EmptyTable(order, mask);
      for n := 0 to |fps|
        invariant table == Rehash(hash, order, mask, fps[..n])
      {
        var fp := fps[n];
        assert fps[..n + 1][..n] == fps[..n];
        var i := Refile(hash, mask, fp);
        ghost var before := table;
        table := PutIn(table, mask, i, fp);
        HasBucket(table, mask, i);
        if fp !in table[i] {
          table := PutIn(table, mask, AltIndex(mask, i, fp), fp);
        }
        assert table == Refiled(hash, before, mask, fp);
      }
      assert fps[..|fps|] == fps;
    }

    /** All fingerprints, bucket by bucket. */
    method Collect() returns (fps: seq<Fp>)
      requires Wf(View()) && forall i :: i in order ==> i in buckets
      ensures fps == Fingerprints(buckets, order, |order|)
    {
      hide Wf;
      fps := [];
      for n := 0 to |order|
        invariant fps == Fingerprints(buckets, order, n)
      {
        var b := buckets[order[n]];
        ghost var sofar := fps;
        for s := 0 to |b|
          invariant fps == sofar + Nonzero(b[..s])
        {
          assert b[..s + 1][..s] == b[..s];
          if b[s] != 0 {
            fps := fps + [b[s]];
          }
        }
        assert b[..|b|] == b;
      }
    }

    /** Puts an item into its first bucket if there is room. */
    method Seat(id: Bytes) returns (ok: bool)
      requires Wf(View())
      modifies this`buckets, this`count
      ensures Wf(View())
      ensures
        var i := Home(mask, hash(id));
        && i in old(buckets) && |old(buckets)[i]| == SLOTS && (ok <==> FirstEmpty(old(buckets)[i]).Some?)
        && View() ==
             if ok
             then old(View()).(buckets := PutIn(old(buckets), mask, i, FpOf(hash(id))), count := old(count) + 1)
             else old(View())
    {
      hide InRange, PowerMask, Ordered, FpOf, Home;
      var i, fp := Home(mask, hash(id)), FpOf(hash(id));
      HasBucket(buckets, mask, i);
      var slot := EmptySlot(buckets[i]);
      ok := slot.Some?;
      if ok {
        buckets := WithSlot(buckets, mask, i, slot.value, fp);
        count := count + 1;
      }
    }

    /** False means definitely absent, until the table grows. */
    method Contains(id: Bytes) returns (maybe: bool)
      requires Valid()
      ensures maybe <==> Found(View(), hash(id))
      ensures id in members && !grown ==> maybe
    {
      if saturated {
        return true;
      }
      hide FpOf, AltIndex, Home, InRange, PowerMask, Ordered;
      var h := hash(id);
      var i1, fp := Home(mask, h), FpOf(h);
      var i2 := AltIndex(mask, i1, fp);
      HasBucket(buckets, mask, i1);
      HasBucket(buckets, mask, i2);
      maybe := fp in buckets[i1] || fp in buckets[i2];
    }

    /** Empties the filter and clears the latch. */
    method Clear()
      requires Valid()
      modifies this
      ensures Valid() && Track() == Stepped(hash, old(Track()), Op.Clear)
      ensures forall id :: !Found(View(), hash(id))
    {
      hide AltIndex, FpOf, Candidate, InRange, PowerMask, Ordered;
      ghost var f := Cleared(View());
      buckets := map i | i in buckets :: EMPTY_BUCKET;
      count, saturated, members, grown := 0, false, {}, false;
      assert View() == f;
    }
  }

  lemma {:induction false} RunOne(hash: Bytes -> bv64, r: Run, op: Op)
    requires Wf(r.f) && NoneLost(hash, r)
    ensures Wf(Stepped(hash, r, op).f) && NoneLost(hash, Stepped(hash, r, op))
  {
    hide Wf, NoneLost, Stepped;
    NoFalseNegatives(hash, r, [op]);
    assert RunOps(hash, r, []) == r && [op][..0] == [];
    assert RunOps(hash, r, [op]) == Stepped(hash, RunOps(hash, r, [op][..0]), op);
  }

  // ------------------------------------------------------- an id lost by growing

  /** A hash under which [7] and [8] are filed under 2 and 1, and their bare fingerprints elsewhere. */
  function DemoHash(b: Bytes): bv64 {
    if b == [1, 0] then 6 else if b == [2, 0] then 5 else if b == [7] then 2 else 1
  }

  /** k ones, then empty slots. */
  function Ones(k: nat): (b: Bucket)
    requires k <= 4
    ensures |b| == 4
  {
    seq(4, i => if i < k then 1 else 0)
  }

  const ORDER4: seq<Index> := [Index(0), Index(1), Index(2), Index(3)]

  /** Four buckets with [7] and m copies of [8]. */
  function Demo(m: nat): FilterState
    requires m <= 8
  {
    var low, high := if m <= 4 then Ones(m) else Ones(4), if m <= 4 then Ones(0) else Ones(m - 4);
    FilterState(3, ORDER4, map[Index(0) := high, Index(1) := low, Index(2) := [2, 0, 0, 0], Index(3) := EMPTY_BUCKET],
                m + 1, false)
  }

  lemma {:induction false} FourIndices(i: Index)
    ensures InRange(3, i) <==> i in ORDER4
    ensures PowerMask(3)
  {
  }

  lemma {:induction false} DemoWf(m: nat)
    requires m <= 8
    ensures Wf(Demo(m))
  {
    hide InRange, PowerMask;
    forall i ensures InRange(3, i) <==> i in ORDER4 {
      FourIndices(i);
    }
    FourIndices(Index(0));
  }

  lemma {:induction false} DemoPlaces()
    ensures FpOf(1) == 1 && Home(3, 1) == Index(1) && Victim(1) == 1
    ensures AltIndex(3, Index(1), 1) == Index(0) && AltIndex(3, Index(0), 1) == Index(1)
    ensures FpOf(2) == 2 && Home(3, 2) == Index(2)
  {
  }

  lemma {:induction false} DemoHashes()
    ensures DemoHash([7]) == 2 && DemoHash([8]) == 1
  {
    assert |[8 as bv8]| == 1 && |[1 as bv8, 0]| == 2 && |[2 as bv8, 0]| == 2;
  }

  /** A bucket full of the fingerprint in hand is left as it is. */
  lemma {:induction false} WalkPast(buckets: Buckets, mask: bv64, fp: Fp, i: Index, n: nat)
    requires Table(buckets, mask) && InRange(mask, i) && n > 0 && fp != 0
    requires i in buckets && buckets[i] == [fp, fp, fp, fp]
    ensures Walked(buckets, mask, fp, i, n) == Walked(buckets, mask, fp, AltIndex(mask, i, fp), n - 1)
  {
    hide InRange, AltIndex, Victim, Table;
    assert FirstEmpty(buckets[i]).None?;
    assert buckets[i][Victim(fp) := fp] == buckets[i];
    assert WithSlot(buckets, mask, i, Victim(fp), fp) == buckets;
  }

  /** Between two buckets full of one fingerprint the walk goes back and forth for nothing. */
  lemma {:induction false} WalkStuck(buckets: Buckets, mask: bv64, fp: Fp, i: Index, j: Index, n: nat)
    requires Table(buckets, mask) && InRange(mask, i) && fp != 0 && j == AltIndex(mask, i, fp)
    requires i in buckets && j in buckets && buckets[i] == buckets[j] == [fp, fp, fp, fp]
    ensures Walked(buckets, mask, fp, i, n) == Walk(buckets, false)
    decreases n
  {
    hide InRange, AltIndex, Table;
    if n > 0 {
      WalkPast(buckets, mask, fp, i, n);
      AltInvolutive(mask, i, fp);
      WalkStuck(buckets, mask, fp, j, i, n - 1);
    }
  }

  lemma {:induction false} OnesFilled(k: nat)
    requires k < 4
    ensures FirstEmpty(Ones(k)) == Some(k) && Ones(k)[k := 1] == Ones(k + 1) && Ones(4) == [1, 1, 1, 1]
  {
  }

  lemma {:induction false} DemoStep(m: nat)
    requires m < 8 && Wf(Demo(m))
    ensures InsertStep(DemoHash, Demo(m), [8]) == (Demo(m + 1), true)
  {
    hide FpOf, Home, AltIndex, InRange, Walked, PowerMask, Ones, DemoHash, Grown, FirstEmpty, PutIn;
    DemoPlaces();
    DemoHashes();
    var f := Demo(m);
    if m < 4 {
      OnesFilled(m);
      WalkRoom(f.buckets, 3, 1, Index(1), KICKS, m);
      assert f.buckets[Index(1) := Ones(m + 1)] == Demo(m + 1).buckets;
    } else {
      OnesFilled(m - 4);
      WalkPast(f.buckets, 3, 1, Index(1), KICKS);
      WalkRoom(f.buckets, 3, 1, Index(0), KICKS - 1, m - 4);
      assert f.buckets[Index(0) := Ones(m - 3)] == Demo(m + 1).buckets;
    }
  }

  lemma {:induction false} DemoGrows()
    requires Wf(Demo(8))
    ensures Grows(DemoHash, Demo(8), [8]) && Kicked(DemoHash, Demo(8), [8]).0 == Demo(8)
  {
    hide FpOf, Home, AltIndex, InRange, Walked, PowerMask, Ones, DemoHash;
    DemoPlaces();
    DemoHashes();
    OnesFilled(0);
    WalkStuck(Demo(8).buckets, 3, 1, Index(1), Index(0), KICKS);
  }

  lemma {:induction false} DemoRefiles()
    ensures Wider(3) == 7 && Home(7, 1) == Index(1)
    ensures Refile(DemoHash, 7, 1) == Index(6) && AltIndex(7, Index(6), 1) == Index(3)
    ensures Refile(DemoHash, 7, 2) == Index(5) && AltIndex(7, Index(5), 2) == Index(7)
    ensures Home(7, 2) == Index(2) && AltIndex(7, Index(2), 2) == Index(0)
  {
  }

  lemma {:induction false} DemoFingerprints(fp: Fp)
    requires Wf(Demo(8)) && fp in Fingerprints(Demo(8).buckets, ORDER4, 4)
    ensures fp == 1 || fp == 2
  {
    hide Wf, Fingerprints;
    OnesFilled(0);
    AllBuckets(Demo(8));
    var i :| i in Demo(8).buckets && fp in Demo(8).buckets[i];
  }

  /** The bucket of [8] in the grown table is free. */
  lemma {:induction false} DemoFree()
    requires Wf(Demo(8))
    ensures
      var g := Grown(DemoHash, Demo(8));
      g.mask == 7 && Index(1) in g.buckets && |g.buckets[Index(1)]| == SLOTS && 0 in g.buckets[Index(1)]
  {
    hide FpOf, Home, AltIndex, InRange, PowerMask, Ones, Wider, Refile, Doubled, Rehash, Fingerprints, DemoHash, Filed,
         Crowded, Ordered, Table;
    DemoRefiles();
    var f := Demo(8);
    AllBuckets(f);
    var g, fps := Grown(DemoHash, f), Fingerprints(f.buckets, f.order, |f.order|);
    RehashFiles(DemoHash, g.order, g.mask, fps);
    HasBucket(g.buckets, 7, Index(1));
    var x := g.buckets[Index(1)][0];
    assert x in g.buckets[Index(1)];
    if x != 0 {
      assert Files(DemoHash, 7, x, Index(1)) && x in fps;
      DemoFingerprints(x);
    }
  }

  /** In the grown table [7] is not where it is looked for. */
  lemma {:induction false} DemoLoses()
    requires Wf(Demo(8))
    ensures InsertStep(DemoHash, Demo(8), [8]).1 && !Found(InsertStep(DemoHash, Demo(8), [8]).0, 2)
  {
    hide FpOf, Home, AltIndex, InRange, Kicked, PowerMask, Ones, Refile, DemoHash, Grown, Filed, Ordered, Table, Stored,
         PutIn;
    DemoGrows();
    DemoPlaces();
    DemoHashes();
    DemoRefiles();
    DemoFree();
    GrowthFindsExactly(DemoHash, Demo(8), [8], 2);
  }

  function EmptyDemo(): FilterState {
    FilterState(3, ORDER4,
                map[Index(0) := EMPTY_BUCKET, Index(1) := EMPTY_BUCKET,
                    Index(2) := EMPTY_BUCKET, Index(3) := EMPTY_BUCKET],
                0, false)
  }

  lemma {:induction false} FirstDemo()
    ensures Wf(EmptyDemo()) && InsertStep(DemoHash, EmptyDemo(), [7]) == (Demo(0), true)
  {
    hide FpOf, Home, AltIndex, InRange, Walked, PowerMask, DemoHash, Grown;
    DemoPlaces();
    DemoHashes();
    forall i ensures InRange(3, i) <==> i in ORDER4 {
      FourIndices(i);
    }
    FourIndices(Index(0));
    var f := EmptyDemo();
    WalkRoom(f.buckets, 3, 2, Index(2), KICKS, 0);
    assert EMPTY_BUCKET[0 := 2] == [2, 0, 0, 0] && Ones(0) == EMPTY_BUCKET;
    assert f.buckets[Index(2) := [2, 0, 0, 0]] == Demo(0).buckets;
  }

  function Adds(n: nat): seq<Op> { [Add([7])] + seq(n, i => Add([8])) }

  lemma {:induction false} DemoRun(n: nat)
    requires n <= 8
    ensures Wf(EmptyDemo())
    ensures RunOps(DemoHash, Run(EmptyDemo(), {}, false), Adds(n)).f == Demo(n)
    ensures [7] in RunOps(DemoHash, Run(EmptyDemo(), {}, false), Adds(n)).members
  {
    hide InsertStep, Wf, EmptyDemo, Demo;
    FirstDemo();
    var r := Run(EmptyDemo(), {}, false);
    if n == 0 {
      assert Adds(0) == [Add([7])] && Adds(0)[..0] == [];
    } else {
      DemoRun(n - 1);
      assert Adds(n) == Adds(n - 1) + [Add([8])];
      DemoWf(n - 1);
      DemoStep(n - 1);
    }
  }

  /** A run in which an id whose insert answered true is then reported absent. */
  lemma {:induction false} FalseNegative()
    ensures Wf(EmptyDemo())
    ensures
      var end := RunOps(DemoHash, Run(EmptyDemo(), {}, false), Adds(9));
      [7] in end.members && !Found(end.f, DemoHash([7]))
  {
    hide InsertStep, Wf, EmptyDemo, Demo, Found, DemoHash;
    DemoHashes();
    DemoRun(8);
    DemoWf(8);
    DemoLoses();
    assert Adds(9) == Adds(8) + [Add([8])];
  }
}
