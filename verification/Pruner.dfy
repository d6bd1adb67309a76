/**
  The incremental pruner (`crates/prune/src/incremental.rs`).  The ordered map is the
  sequence of its entries in key order; its insert, remove and pop-first are functions
  on that sequence.
 */
module Pruner {
  import opened Blocks
  import opened Results

  datatype Budget = MaxBlocks(count: nat) | MaxTokens(size: nat)

  /** A scored block; `seqNo` is its arrival number. */
  datatype Scored = Scored(id: Digest, score: nat, seqNo: nat, size: nat)

  /** Lower score first, earlier arrival first among equals. */
  predicate Before(a: Scored, b: Scored) { a.score < b.score || (a.score == b.score && a.seqNo < b.seqNo) }

  predicate Sorted(s: seq<Scored>) { forall i, j :: 0 <= i < j < |s| ==> Before(s[i], s[j]) }

  function Total(s: seq<Scored>): nat {
    if s == [] then 0 else s[0].size + Total(s[1..])
  }

  lemma {:induction false} TotalConcat(a: seq<Scored>, b: seq<Scored>)
    ensures Total(a + b) == Total(a) + Total(b)
  {
    if a == [] {
      assert a + b == b;
    } else {
      assert (a + b)[1..] == a[1..] + b;
      TotalConcat(a[1..], b);
    }
  }

  /** Into its place in key order. */
  function Inserted(s: seq<Scored>, e: Scored): (r: seq<Scored>)
    ensures |r| == |s| + 1
  {
    if s == [] then [e]
    else if Before(s[0], e) then [s[0]] + Inserted(s[1..], e)
    else [e] + s
  }

  /** The entry's arrival number is new. */
  predicate NewTo(s: seq<Scored>, e: Scored) { forall i :: 0 <= i < |s| ==> s[i].seqNo != e.seqNo }

  lemma {:induction false} SortedCons(x: Scored, s: seq<Scored>)
    requires Sorted(s) && forall y :: y in s ==> Before(x, y)
    ensures Sorted([x] + s)
  {
    hide Before;
    var r := [x] + s;
    forall i, j | 0 <= i < j < |r| ensures Before(r[i], r[j]) {
      assert r[j] == s[j - 1];
      assert i > 0 ==> r[i] == s[i - 1];
    }
  }

  lemma {:induction false} SortedTail(s: seq<Scored>)
    requires s != [] && Sorted(s)
    ensures Sorted(s[1..]) && forall y :: y in s[1..] ==> Before(s[0], y)
  {
    hide Before;
  }

  lemma {:induction false} SortedAt(s: seq<Scored>, i: nat, j: nat)
    requires Sorted(s) && i < j < |s|
    ensures Before(s[i], s[j])
  {
  }

  lemma {:induction false} InsertedSorted(s: seq<Scored>, e: Scored)
    requires Sorted(s) && NewTo(s, e)
    ensures Sorted(Inserted(s, e)) && multiset(Inserted(s, e)) == multiset(s) + multiset{e}
    ensures forall x :: x in Inserted(s, e) <==> x in s || x == e
  {
    if s == [] {
      assert Sorted([e]);
    } else {
      hide Sorted;
      SortedTail(s);
      assert s == [s[0]] + s[1..];
      if Before(s[0], e) {
        InsertedSorted(s[1..], e);
        SortedCons(s[0], Inserted(s[1..], e));
      } else {
        assert Before(e, s[0]);
        forall y | y in s ensures Before(e, y) {
          assert y == s[0] || y in s[1..];
        }
        SortedCons(e, s);
      }
    }
  }

  // ------------------------------------------------------------------- block-count budget

  /** The entries ever inserted, in key order. */
  function Ranked(log: seq<Scored>): (r: seq<Scored>)
    ensures |r| == |log|
  {
    if log == [] then [] else Inserted(Ranked(log[..|log| - 1]), log[|log| - 1])
  }

  /** The n highest. */
  function Top(s: seq<Scored>, n: nat): seq<Scored> { if |s| <= n then s else s[|s| - n..] }

  /** Arrival numbers count up from one. */
  predicate Arrivals(log: seq<Scored>) { forall i :: 0 <= i < |log| ==> log[i].seqNo == i + 1 }

  lemma {:induction false} RankedSorted(log: seq<Scored>)
    requires Arrivals(log)
    ensures Sorted(Ranked(log)) && multiset(Ranked(log)) == multiset(log)
    ensures forall x :: x in Ranked(log) <==> x in log
  {
    if log != [] {
      var n := |log| - 1;
      var front := log[..n];
      RankedSorted(front);
      assert log == front + [log[n]];
      forall i | 0 <= i < n ensures Ranked(front)[i].seqNo != log[n].seqNo {
        assert Ranked(front)[i] in front;
      }
      InsertedSorted(Ranked(front), log[n]);
    }
  }

  /** Past a front that comes before it. */
  lemma {:induction false} InsertedBehind(a: seq<Scored>, b: seq<Scored>, e: Scored)
    requires forall x :: x in a ==> Before(x, e)
    ensures Inserted(a + b, e) == a + Inserted(b, e)
  {
    hide Before;
    if a == [] {
      assert a + b == b;
    } else {
      assert a[0] in a && (a + b)[1..] == a[1..] + b;
      InsertedBehind(a[1..], b, e);
      assert [a[0]] + (a[1..] + Inserted(b, e)) == a + Inserted(b, e);
    }
  }

  /** Into a front whose last entry does not come before it. */
  lemma {:induction false} InsertedAhead(a: seq<Scored>, b: seq<Scored>, e: Scored)
    requires a != [] && !Before(a[|a| - 1], e)
    ensures Inserted(a + b, e) == Inserted(a, e) + b
  {
    hide Before;
    assert (a + b)[0] == a[0] && (a + b)[1..] == a[1..] + b;
    if Before(a[0], e) {
      assert a[1..][|a| - 2] == a[|a| - 1];
      InsertedAhead(a[1..], b, e);
      assert [a[0]] + (Inserted(a[1..], e) + b) == [a[0]] + Inserted(a[1..], e) + b;
    } else {
      assert [e] + (a + b) == [e] + a + b;
    }
  }

  /** Keeping the n highest as entries arrive keeps the n highest of all. */
  lemma {:induction false} TopStep(s: seq<Scored>, e: Scored, n: nat)
    requires Sorted(s) && NewTo(s, e)
    ensures Top(Inserted(Top(s, n), e), n) == Top(Inserted(s, e), n)
  {
    hide Before, Sorted, Inserted, NewTo;
    if |s| > n {
      var a, b := s[..|s| - n], s[|s| - n..];
      var last := s[|a| - 1];
      assert s == a + b;
      if Before(last, e) {
        AllBefore(s, |a| - 1, e);
        forall x | x in a ensures Before(x, e) {
          var i :| 0 <= i < |a| && s[i] == x;
        }
        InsertedBehind(a, b, e);
        assert (a + Inserted(b, e))[|s| + 1 - n..] == Inserted(b, e)[1..];
      } else {
        FirstHere(s, |a| - 1, e);
        InsertedAhead(a, b, e);
        assert (Inserted(a, e) + b)[|s| + 1 - n..] == b;
        assert ([e] + b)[1..] == b;
      }
    }
  }

  lemma {:induction false} AllBefore(s: seq<Scored>, k: nat, e: Scored)
    requires Sorted(s) && k < |s| && Before(s[k], e)
    ensures forall i :: 0 <= i <= k ==> Before(s[i], e)
  {
    forall i | 0 <= i <= k ensures Before(s[i], e) {
      if i < k {
        SortedAt(s, i, k);
      }
    }
  }

  /** What is not behind entry k goes in front of everything after k. */
  lemma {:induction false} FirstHere(s: seq<Scored>, k: nat, e: Scored)
    requires Sorted(s) && NewTo(s, e) && k < |s| && !Before(s[k], e)
    ensures Inserted(s[k + 1..], e) == [e] + s[k + 1..]
  {
    assert s[k].seqNo != e.seqNo;
    if k + 1 < |s| {
      SortedAt(s, k, k + 1);
      assert s[k + 1..][0] == s[k + 1];
    }
  }

  // -------------------------------------------------------------------------- size budget

  /** Drops the lowest entries until the rest fits, but never the last one. */
  function Fitted(s: seq<Scored>, b: nat): (r: seq<Scored>)
    ensures |r| <= |s|
    decreases |s|
  {
    if Total(s) > b && |s| > 1 then Fitted(s[1..], b) else s
  }

  /** It is the longest suffix that fits, or the last entry alone. */
  lemma {:induction false} FittedIsLongest(s: seq<Scored>, b: nat) returns (k: nat)
    ensures k <= |s| && Fitted(s, b) == s[k..]
    ensures Total(s[k..]) <= b || |s[k..]| == 1
    ensures forall j :: 0 <= j < k ==> Total(s[j..]) > b
    decreases |s|
  {
    if Total(s) > b && |s| > 1 {
      var k' := FittedIsLongest(s[1..], b);
      k := k' + 1;
      assert s[1..][k'..] == s[k..];
      forall j | 0 <= j < k ensures Total(s[j..]) > b {
        if j > 0 {
          assert s[1..][j - 1..] == s[j..];
        } else {
          assert s[0..] == s;
        }
      }
    } else {
      k := 0;
      assert s[0..] == s;
    }
  }

  /** Fitting as entries arrive is fitting all arrivals. */
  lemma {:induction false} FittedStep(s: seq<Scored>, e: Scored, b: nat)
    ensures Fitted(Fitted(s, b) + [e], b) == Fitted(s + [e], b)
    decreases |s|
  {
    if Total(s) > b && |s| > 1 {
      FittedStep(s[1..], e, b);
      assert (s + [e])[1..] == s[1..] + [e];
      TotalConcat(s, [e]);
    }
  }

  /** Recency in the high bits, size capped in the low twenty. */
  function DefaultScore(seqNo: nat, size: nat): nat {
    seqNo * 0x10_0000 % 0x1_0000_0000_0000_0000 + if size < 0xF_FFFF then size else 0xF_FFFF
  }

  lemma {:induction false} LaterScoresHigher(a: Scored, b: Scored)
    requires a.seqNo < b.seqNo < 0x1000_0000_0000
    requires a.score == DefaultScore(a.seqNo, a.size) && b.score == DefaultScore(b.seqNo, b.size)
    ensures Before(a, b)
  {
  }

  lemma {:induction false} InsertedLast(s: seq<Scored>, e: Scored)
    requires forall i :: 0 <= i < |s| ==> Before(s[i], e)
    ensures Inserted(s, e) == s + [e]
  {
    if s != [] {
      InsertedLast(s[1..], e);
      assert s == [s[0]] + s[1..];
    }
  }

  // --------------------------------------------------------------------------- the pruner

  /** A slot of the ordered map: key and id. */
  datatype Slot = Slot(score: nat, seqNo: nat, id: Digest)

  function SlotOf(e: Scored): Slot { Slot(e.score, e.seqNo, e.id) }

  function Slots(s: seq<Scored>): (r: seq<Slot>)
    ensures |r| == |s|
  {
    seq(|s|, i requires 0 <= i < |s| => SlotOf(s[i]))
  }

  predicate DistinctIds(s: seq<Scored>) { forall i, j :: 0 <= i < j < |s| ==> s[i].id != s[j].id }

  /** The index holds exactly the kept entries. */
  ghost predicate Indexes(index: map<Digest, (nat, nat, nat)>, kept: seq<Scored>) {
    && (forall i :: 0 <= i < |kept| ==>
          kept[i].id in index && index[kept[i].id] == (kept[i].score, kept[i].seqNo, kept[i].size))
    && (forall id :: id in index ==> exists i :: 0 <= i < |kept| && kept[i].id == id)
  }

  /** The entries with another id. */
  function Without(s: seq<Scored>, id: Digest): (r: seq<Scored>)
    ensures |r| <= |s|
  {
    if s == [] then [] else if s[0].id == id then Without(s[1..], id) else [s[0]] + Without(s[1..], id)
  }

  lemma {:induction false} WithoutKeeps(s: seq<Scored>, id: Digest)
    ensures forall x :: x in Without(s, id) <==> x in s && x.id != id
    ensures Sorted(s) ==> Sorted(Without(s, id))
    ensures DistinctIds(s) ==> DistinctIds(Without(s, id))
  {
    if s != [] {
      assert s == [s[0]] + s[1..];
      WithoutKeeps(s[1..], id);
      var rest := Without(s[1..], id);
      hide Before;
      if Sorted(s) {
        SortedTail(s);
        if s[0].id != id {
          SortedCons(s[0], rest);
        }
      }
      hide Sorted;
      if DistinctIds(s) {
        DistinctTail(s);
        if s[0].id != id {
          DistinctCons(s[0], rest);
        }
      }
    }
  }

  lemma {:induction false} DistinctTail(s: seq<Scored>)
    requires s != [] && DistinctIds(s)
    ensures DistinctIds(s[1..]) && forall y :: y in s[1..] ==> y.id != s[0].id
  {
  }

  lemma {:induction false} DistinctCons(x: Scored, s: seq<Scored>)
    requires DistinctIds(s) && forall y :: y in s ==> y.id != x.id
    ensures DistinctIds([x] + s)
  {
    var r := [x] + s;
    forall i, j | 0 <= i < j < |r| ensures r[i].id != r[j].id {
      assert r[j] == s[j - 1];
      assert i > 0 ==> r[i] == s[i - 1];
    }
  }

  lemma {:induction false} WithoutAbsent(s: seq<Scored>, id: Digest)
    requires forall i :: 0 <= i < |s| ==> s[i].id != id
    ensures Without(s, id) == s
  {
    if s != [] {
      WithoutAbsent(s[1..], id);
      assert s == [s[0]] + s[1..];
    }
  }

  lemma {:induction false} WithoutTotal(s: seq<Scored>, k: nat)
    requires DistinctIds(s) && k < |s|
    ensures Total(Without(s, s[k].id)) == Total(s) - s[k].size
  {
    if k == 0 {
      WithoutAbsent(s[1..], s[0].id);
    } else {
      WithoutTotal(s[1..], k - 1);
    }
  }

  lemma {:induction false} InsertedTotal(s: seq<Scored>, e: Scored)
    ensures Total(Inserted(s, e)) == Total(s) + e.size
  {
    if s != [] && Before(s[0], e) {
      InsertedTotal(s[1..], e);
    }
  }

  // ----------------------------------------------------- the ordered map by its slots

  predicate SlotBefore(a: Slot, b: Slot) { a.score < b.score || (a.score == b.score && a.seqNo < b.seqNo) }

  function InsertSlot(slots: seq<Slot>, x: Slot): seq<Slot> {
    if slots == [] then [x]
    else if SlotBefore(slots[0], x) then [slots[0]] + InsertSlot(slots[1..], x)
    else [x] + slots
  }

  function RemoveSlot(slots: seq<Slot>, score: nat, seqNo: nat): seq<Slot> {
    if slots == [] then []
    else if slots[0].score == score && slots[0].seqNo == seqNo then slots[1..]
    else [slots[0]] + RemoveSlot(slots[1..], score, seqNo)
  }

  lemma {:induction false} SlotsInserted(s: seq<Scored>, e: Scored)
    ensures Slots(Inserted(s, e)) == InsertSlot(Slots(s), SlotOf(e))
  {
    if s != [] {
      assert Slots(s)[1..] == Slots(s[1..]);
      if Before(s[0], e) {
        SlotsInserted(s[1..], e);
        assert Slots(Inserted(s, e)) == [SlotOf(s[0])] + Slots(Inserted(s[1..], e));
      } else {
        assert Slots([e] + s) == [SlotOf(e)] + Slots(s);
      }
    }
  }

  lemma {:induction false} SlotsWithout(s: seq<Scored>, k: nat)
    requires Sorted(s) && DistinctIds(s) && k < |s|
    ensures Slots(Without(s, s[k].id)) == RemoveSlot(Slots(s), s[k].score, s[k].seqNo)
  {
    assert Slots(s)[1..] == Slots(s[1..]);
    if k == 0 {
      DistinctTail(s);
      WithoutAbsent(s[1..], s[0].id);
    } else {
      SortedTail(s);
      DistinctTail(s);
      assert s[k] == s[1..][k - 1] && s[k] in s[1..];
      SlotsWithout(s[1..], k - 1);
      var rest := Without(s[1..], s[k].id);
      assert Slots([s[0]] + rest) == [SlotOf(s[0])] + Slots(rest);
    }
  }

  // ------------------------------------------------------------------------- one insert

  function Evicted(budget: Budget, s: seq<Scored>): seq<Scored> {
    match budget
    case MaxBlocks(b) => if |s| > b then s[1..] else s
    case MaxTokens(b) => Fitted(s, b)
  }

  /** The survivors after an insert. */
  function Survivors(budget: Budget, kept: seq<Scored>, e: Scored): seq<Scored> {
    Evicted(budget, Inserted(Without(kept, e.id), e))
  }

  /** Sorted, each id once, nothing from the future. */
  ghost predicate Window(kept: seq<Scored>, clock: nat) {
    Sorted(kept) && DistinctIds(kept) && forall x :: x in kept ==> x.seqNo <= clock
  }

  lemma {:induction false} WindowInserted(kept: seq<Scored>, e: Scored, clock: nat)
    requires Window(kept, clock) && e.seqNo == clock + 1
    ensures Window(Inserted(Without(kept, e.id), e), clock + 1)
  {
    hide Before;
    WithoutKeeps(kept, e.id);
    var s := Without(kept, e.id);
    forall i | 0 <= i < |s| ensures s[i].seqNo != e.seqNo && s[i].id != e.id {
      assert s[i] in s;
    }
    hide Sorted;
    InsertedSorted(s, e);
    InsertedDistinct(s, e);
  }

  lemma {:induction false} InsertedDistinct(s: seq<Scored>, e: Scored)
    requires DistinctIds(s) && forall i :: 0 <= i < |s| ==> s[i].id != e.id
    ensures DistinctIds(Inserted(s, e)) && forall x :: x in Inserted(s, e) <==> x in s || x == e
  {
    hide Before;
    if s != [] {
      assert s == [s[0]] + s[1..];
      DistinctTail(s);
      if Before(s[0], e) {
        InsertedDistinct(s[1..], e);
        DistinctCons(s[0], Inserted(s[1..], e));
      } else {
        DistinctCons(e, s);
      }
    }
  }

  lemma {:induction false} WindowTail(s: seq<Scored>, clock: nat)
    requires s != [] && Window(s, clock)
    ensures Window(s[1..], clock)
  {
    hide Before;
    SortedTail(s);
    DistinctTail(s);
  }

  /** Updating the index follows the survivors. */
  lemma {:induction false} IndexInserted(index: map<Digest, (nat, nat, nat)>, kept: seq<Scored>, e: Scored)
    requires Indexes(index, kept) && DistinctIds(kept)
    ensures Indexes(index[e.id := (e.score, e.seqNo, e.size)], Inserted(Without(kept, e.id), e))
  {
    hide Before, Sorted;
    WithoutKeeps(kept, e.id);
    var s := Without(kept, e.id);
    forall i | 0 <= i < |s| ensures s[i].id != e.id {
      assert s[i] in s;
    }
    DistinctIndexed(s, kept);
    InsertedDistinct(s, e);
    var next, after := index[e.id := (e.score, e.seqNo, e.size)], Inserted(s, e);
    forall i | 0 <= i < |after|
      ensures after[i].id in next && next[after[i].id] == (after[i].score, after[i].seqNo, after[i].size)
    {
      assert after[i] in after;
      if after[i] != e {
        assert after[i] in kept;
        var j :| 0 <= j < |kept| && kept[j] == after[i];
      }
    }
    forall id | id in next ensures exists i :: 0 <= i < |after| && after[i].id == id {
      if id == e.id {
        assert e in after;
      } else {
        var j :| 0 <= j < |kept| && kept[j].id == id;
        assert kept[j] in s && kept[j] in after;
      }
    }
  }

  lemma {:induction false} DistinctIndexed(s: seq<Scored>, kept: seq<Scored>)
    requires forall x :: x in s ==> x in kept
    ensures forall i :: 0 <= i < |s| ==> s[i] in kept
  {
  }

  lemma {:induction false} IndexTail(index: map<Digest, (nat, nat, nat)>, s: seq<Scored>)
    requires s != [] && Indexes(index, s) && DistinctIds(s)
    ensures s[0].id in index && index[s[0].id].2 == s[0].size && Indexes(index - {s[0].id}, s[1..])
  {
    DistinctTail(s);
    var next := index - {s[0].id};
    forall id | id in next ensures exists i :: 0 <= i < |s[1..]| && s[1..][i].id == id {
      var i :| 0 <= i < |s| && s[i].id == id;
      assert s[1..][i - 1].id == id;
    }
    forall i | 0 <= i < |s[1..]|
      ensures s[1..][i].id in next && next[s[1..][i].id] == (s[1..][i].score, s[1..][i].seqNo, s[1..][i].size)
    {
      assert s[1..][i] == s[i + 1] && s[i + 1] in s[1..];
    }
  }

  class IncrementalPruner {
    const budget: Budget
    const scorer: (nat, nat) -> nat
    var ordered: seq<Slot>
    var index: map<Digest, (nat, nat, nat)>
    var totalSize: nat
    var clock: nat
    /** The survivors in key order. */
    ghost var kept: seq<Scored>
    /** Everything ever inserted, with its size. */
    ghost var arrivals: seq<(Digest, nat)>

    /** The ordered map, the index and the total describe the same survivors: those of all arrivals. */
    ghost predicate Valid()
      reads this
    {
      && Window(kept, clock) && ordered == Slots(kept) && Indexes(index, kept) && totalSize == Total(kept)
      && clock == |arrivals| && kept == KeptAfter(budget, Logged(scorer, arrivals))
    }

    /** All of it but the arrivals. */
    ghost predicate Coherent()
      reads this
    {
      Window(kept, clock) && ordered == Slots(kept) && Indexes(index, kept) && totalSize == Total(kept)
    }

    constructor (budget: Budget, scorer: (nat, nat) -> nat)
      ensures Valid() && arrivals == [] && this.budget == budget && this.scorer == scorer
    {
      this.budget, this.scorer := budget, scorer;
      ordered, index, totalSize, clock, kept, arrivals := [], map[], 0, 0, [], [];
    }

    /** Scores and inserts a block, and evicts the lowest survivors while over budget. */
    method Insert(id: Digest, size: nat) returns (evicted: Option<Digest>)
      requires Valid()
      modifies this
      ensures Valid() && clock == old(clock) + 1 && arrivals == old(arrivals) + [(id, size)]
      ensures
        var e := Scored(id, scorer(clock, size), clock, size);
        var all := Inserted(Without(old(kept), id), e);
        && kept == Survivors(budget, old(kept), e)
        && evicted == if |kept| < |all| then Some(all[0].id) else None
    {
      hide Before, Sorted, DistinctIds, Indexes, Inserted, Without, Slots, Total, InsertSlot, RemoveSlot, Window,
           Logged, KeptAfter;
      if id in index {
        Forget(id);
      } else {
        Unknown(id);
      }
      clock := clock + 1;
      var score := scorer(clock, size);
      ghost var e := Scored(id, score, clock, size);
      ghost var rest := Without(old(kept), id);
      ghost var all := Inserted(rest, e);
      SlotsInserted(rest, e);
      InsertedTotal(rest, e);
      WindowInserted(old(kept), e, old(clock));
      WindowDistinct(old(kept), old(clock));
      IndexInserted(index, old(kept), e);
      ordered := InsertSlot(ordered, Slot(score, clock, id));
      index := index[id := (score, clock, size)];
      totalSize := totalSize + size;
      kept := all;
      FirstSlot(all);
      evicted := Evict();
      arrivals := arrivals + [(id, size)];
      OneMoreArrival(budget, scorer, old(arrivals), id, size);
    }

    /** Takes an id's old entry out of the ordered map and the total; the index keeps it for now. */
    method Forget(id: Digest)
      requires Coherent() && id in index
      modifies this`ordered, this`totalSize
      ensures ordered == Slots(Without(kept, id)) && totalSize == Total(Without(kept, id))
    {
      hide Before, Total, Sorted, DistinctIds;
      var (score, seqNo, size) := index[id];
      ghost var k :| 0 <= k < |kept| && kept[k].id == id;
      SlotsWithout(kept, k);
      WithoutTotal(kept, k);
      WithoutSize(kept, k);
      ordered := RemoveSlot(ordered, score, seqNo);
      totalSize := totalSize - size;
    }

    lemma {:induction false} Unknown(id: Digest)
      requires Coherent() && id !in index
      ensures Without(kept, id) == kept
    {
      hide Before, Sorted, DistinctIds, Total;
      WithoutAbsent(kept, id);
    }

    /** Drops the lowest survivors while over budget; answers the first one dropped. */
    method Evict() returns (evicted: Option<Digest>)
      requires Coherent() && kept != []
      modifies this`ordered, this`index, this`totalSize, this`kept
      ensures Coherent() && kept == Evicted(budget, old(kept))
      ensures evicted == if |kept| < |old(kept)| then Some(old(kept)[0].id) else None
    {
      hide Before, Sorted, DistinctIds, Indexes, Total, Window, Slots;
      evicted := None;
      ghost var all := kept;
      SlotCount(kept);
      while true
        invariant Coherent() && |kept| <= |all| && |ordered| == |kept|
        invariant evicted.None? ==> kept == all
        invariant evicted.Some? ==> |kept| < |all| && evicted.value == all[0].id
        invariant budget.MaxTokens? ==> kept != [] && Fitted(kept, budget.size) == Fitted(all, budget.size)
        invariant budget.MaxBlocks? ==> kept == all
        decreases |kept|
      {
        var over := match budget
          case MaxBlocks(b) => |ordered| > b
          case MaxTokens(b) => totalSize > b && |ordered| > 1;
        if !over {
          break;
        }
        FirstSlot(kept);
        WindowDistinct(kept, clock);
        WindowTail(kept, clock);
        IndexTail(index, kept);
        TotalTail(kept);
        SlotsTail(kept);
        SlotCount(kept[1..]);
        var evId := ordered[0].id;
        var evSize := index[evId].2;
        ordered, index, totalSize := ordered[1..], index - {evId}, totalSize - evSize;
        kept := kept[1..];
        if evicted.None? {
          evicted := Some(evId);
        }
        if budget.MaxBlocks? {
          break;
        }
      }
    }

    /** The surviving ids, highest score first. */
    method HighestFirst() returns (ids: seq<Digest>)
      requires Valid()
      ensures |ids| == |kept| && forall i :: 0 <= i < |ids| ==> ids[i] == kept[|kept| - 1 - i].id
    {
      hide Before, Sorted, DistinctIds, Indexes, Total, Window, KeptAfter, Logged;
      ids := [];
      for i := 0 to |ordered|
        invariant |ids| == i && forall j :: 0 <= j < i ==> ids[j] == kept[|kept| - 1 - j].id
      {
        ids := ids + [ordered[|ordered| - 1 - i].id];
      }
    }
  }

  lemma {:induction false} WithoutSize(s: seq<Scored>, k: nat)
    requires k < |s|
    ensures s[k].size <= Total(s)
  {
    if k > 0 {
      WithoutSize(s[1..], k - 1);
    }
  }

  lemma {:induction false} WindowDistinct(s: seq<Scored>, clock: nat)
    requires Window(s, clock)
    ensures DistinctIds(s) && Sorted(s)
  {
  }

  lemma {:induction false} FirstSlot(s: seq<Scored>)
    requires s != []
    ensures |Slots(s)| == |s| && Slots(s)[0].id == s[0].id
  {
  }

  lemma {:induction false} SlotCount(s: seq<Scored>)
    ensures |Slots(s)| == |s|
  {
  }

  lemma {:induction false} SlotsTail(s: seq<Scored>)
    requires s != []
    ensures Slots(s)[1..] == Slots(s[1..])
  {
  }

  lemma {:induction false} TotalTail(s: seq<Scored>)
    requires s != []
    ensures Total(s) == s[0].size + Total(s[1..])
  {
  }

  // --------------------------------------------------------------------------- whole runs

  /** The arrivals with their numbers and scores. */
  function Logged(scorer: (nat, nat) -> nat, arrivals: seq<(Digest, nat)>): (log: seq<Scored>)
    ensures |log| == |arrivals|
  {
    seq(|arrivals|, i requires 0 <= i < |arrivals| =>
      Scored(arrivals[i].0, scorer(i + 1, arrivals[i].1), i + 1, arrivals[i].1))
  }

  /** The survivors after all arrivals. */
  function KeptAfter(budget: Budget, log: seq<Scored>): seq<Scored> {
    if log == [] then [] else Survivors(budget, KeptAfter(budget, log[..|log| - 1]), log[|log| - 1])
  }

  lemma {:induction false} OneMoreArrival(budget: Budget,
                                          scorer: (nat, nat) -> nat, arrivals: seq<(Digest, nat)>, id: Digest,
                                          size: nat)
    ensures
      var n := |arrivals| + 1;
      KeptAfter(budget, Logged(scorer, arrivals + [(id, size)])) ==
        Survivors(budget, KeptAfter(budget, Logged(scorer, arrivals)), Scored(id, scorer(n, size), n, size))
  {
    hide Survivors;
    var log := Logged(scorer, arrivals + [(id, size)]);
    assert log[..|arrivals|] == Logged(scorer, arrivals);
  }

  lemma {:induction false} TopMember(s: seq<Scored>, n: nat)
    ensures forall x :: x in Top(s, n) ==> x in s
  {
  }

  /** An arrival is new to every part of what came before. */
  lemma {:induction false} NewArrival(log: seq<Scored>, s: seq<Scored>)
    requires log != [] && Arrivals(log) && DistinctIds(log) && forall x :: x in s ==> x in log[..|log| - 1]
    ensures NewTo(s, log[|log| - 1]) && Without(s, log[|log| - 1].id) == s
  {
    var n := |log| - 1;
    var e := log[n];
    forall i | 0 <= i < |s| ensures s[i].id != e.id && s[i].seqNo != e.seqNo {
      assert s[i] in s;
      var j :| 0 <= j < n && log[j] == s[i];
      assert log[j].seqNo == j + 1 && log[n].seqNo == n + 1;
    }
    WithoutAbsent(s, e.id);
  }

  lemma {:induction false} FrontArrivals(log: seq<Scored>)
    requires log != [] && Arrivals(log) && DistinctIds(log)
    ensures Arrivals(log[..|log| - 1]) && DistinctIds(log[..|log| - 1])
  {
  }

  /** With distinct ids a block budget keeps exactly the highest entries ever inserted, whatever the scorer. */
  lemma {:induction false} BlockBudgetKeepsTop(b: nat, log: seq<Scored>)
    requires Arrivals(log) && DistinctIds(log)
    ensures KeptAfter(MaxBlocks(b), log) == Top(Ranked(log), b)
  {
    hide Before, Sorted, Inserted, DistinctIds, Arrivals, NewTo, Without;
    if log != [] {
      var n := |log| - 1;
      var front, e := log[..n], log[n];
      FrontArrivals(log);
      BlockBudgetKeepsTop(b, front);
      RankedSorted(front);
      var ranked := Ranked(front);
      TopMember(ranked, b);
      NewArrival(log, ranked);
      NewArrival(log, Top(ranked, b));
      TopStep(ranked, e, b);
      assert KeptAfter(MaxBlocks(b), log) == Top(Inserted(Top(ranked, b), e), b);
    }
  }

  /** By default score a suffix of earlier arrivals comes before the new one. */
  lemma {:induction false} SuffixBefore(arrivals: seq<(Digest, nat)>, k: nat)
    requires 0 < |arrivals| < 0x1000_0000_0000 && k <= |arrivals| - 1
    requires forall i, j :: 0 <= i < j < |arrivals| ==> arrivals[i].0 != arrivals[j].0
    ensures
      var log, n := Logged(DefaultScore, arrivals), |arrivals| - 1;
      var kept := log[..n][k..];
      Inserted(Without(kept, log[n].id), log[n]) == kept + [log[n]]
  {
    hide DefaultScore, Before;
    var log, n := Logged(DefaultScore, arrivals), |arrivals| - 1;
    var kept, e := log[..n][k..], log[n];
    forall i | 0 <= i < |kept| ensures kept[i].id != e.id && Before(kept[i], e) {
      assert kept[i] == log[k + i] && arrivals[k + i].0 != arrivals[n].0;
      LaterScoresHigher(log[k + i], e);
    }
    WithoutAbsent(kept, e.id);
    InsertedLast(kept, e);
  }

  /** With distinct ids a size budget keeps the longest suffix of arrivals that fits, or the last alone. */
  lemma {:induction false} SizeBudgetKeepsSuffix(b: nat, arrivals: seq<(Digest, nat)>)
    requires |arrivals| < 0x1000_0000_0000
    requires forall i, j :: 0 <= i < j < |arrivals| ==> arrivals[i].0 != arrivals[j].0
    ensures var log := Logged(DefaultScore, arrivals); KeptAfter(MaxTokens(b), log) == Fitted(log, b)
  {
    hide DefaultScore, Before, Fitted, Inserted, Without;
    var log := Logged(DefaultScore, arrivals);
    if arrivals == [] {
      FittedNothing(b);
    } else {
      var n := |arrivals| - 1;
      SizeBudgetKeepsSuffix(b, arrivals[..n]);
      var front, e := log[..n], log[n];
      assert Logged(DefaultScore, arrivals[..n]) == front;
      assert log == front + [e];
      hide Logged;
      var k := FittedIsLongest(front, b);
      SuffixBefore(arrivals, k);
      FittedStep(front, e, b);
    }
  }

  lemma {:induction false} FittedNothing(b: nat)
    ensures Fitted([], b) == []
  {
  }

  // ------------------------------------------------------------------- re-inserted ids

  /** The last insertion of each id, oldest first. */
  function Latest(log: seq<Scored>): seq<Scored> {
    if log == [] then [] else Without(Latest(log[..|log| - 1]), log[|log| - 1].id) + [log[|log| - 1]]
  }

  /** It is what its name says: an entry is in it exactly if no later one has its id; ids occur once. */
  lemma {:induction false} LatestExactly(log: seq<Scored>, x: Scored)
    ensures x in Latest(log) <==> exists i: nat :: IsLast(log, x, i)
    ensures DistinctIds(Latest(log))
  {
    if log != [] {
      var n := |log| - 1;
      var front, e := log[..n], log[n];
      LatestExactly(front, x);
      WithoutKeeps(Latest(front), e.id);
      var rest := Without(Latest(front), e.id);
      DistinctEnd(rest, e);
      assert Latest(log) == rest + [e];
      hide Latest, Without, DistinctIds, Sorted;
      assert x in rest <==> x in Latest(front) && x.id != e.id;
      assert x in rest + [e] <==> x in rest || x == e;
      LastOf(log, x);
    }
  }

  /** x is the last entry with its id. */
  ghost predicate IsLast(log: seq<Scored>, x: Scored, i: nat) {
    i < |log| && log[i] == x && forall j :: i < j < |log| ==> log[j].id != x.id
  }

  lemma {:induction false} LastOf(log: seq<Scored>, x: Scored)
    requires log != []
    ensures
      var n := |log| - 1;
      (exists i: nat :: IsLast(log, x, i)) <==>
        x == log[n] || ((exists i: nat :: IsLast(log[..n], x, i)) && x.id != log[n].id)
  {
    var n := |log| - 1;
    var front := log[..n];
    if x == log[n] {
      assert IsLast(log, x, n);
    }
    forall i: nat | IsLast(log, x, i) && i < n ensures IsLast(front, x, i) && x.id != log[n].id {
      assert forall j :: i < j < n ==> front[j] == log[j];
    }
    forall i: nat | IsLast(front, x, i) && x.id != log[n].id ensures IsLast(log, x, i) {
      assert forall j :: i < j < n ==> front[j] == log[j];
    }
  }

  lemma {:induction false} DistinctEnd(s: seq<Scored>, e: Scored)
    requires DistinctIds(s) && forall x :: x in s ==> x.id != e.id
    ensures DistinctIds(s + [e])
  {
    var r := s + [e];
    forall i, j | 0 <= i < j < |r| ensures r[i].id != r[j].id {
      assert r[i] == s[i] && s[i] in s;
    }
  }

  lemma {:induction false} WithoutConcat(a: seq<Scored>, b: seq<Scored>, id: Digest)
    ensures Without(a + b, id) == Without(a, id) + Without(b, id)
  {
    if a == [] {
      assert a + b == b && Without(a, id) + Without(b, id) == Without(b, id);
    } else {
      assert (a + b)[1..] == a[1..] + b;
      WithoutConcat(a[1..], b, id);
    }
  }

  /** What each arrival finds in the window came before it and scores lower. */
  ghost predicate AllEarlier(s: seq<Scored>, n: nat) {
    forall x :: x in s ==> x.seqNo <= n && x.score == DefaultScore(x.seqNo, x.size)
  }

  lemma {:induction false} PlacedLast(s: seq<Scored>, e: Scored, n: nat)
    requires AllEarlier(s, n) && e.seqNo == n + 1 < 0x1000_0000_0000 && e.score == DefaultScore(e.seqNo, e.size)
    ensures Inserted(Without(s, e.id), e) == Without(s, e.id) + [e]
  {
    hide DefaultScore, Before;
    WithoutKeeps(s, e.id);
    var rest := Without(s, e.id);
    forall i | 0 <= i < |rest| ensures Before(rest[i], e) {
      assert rest[i] in rest;
      LaterScoresHigher(rest[i], e);
    }
    InsertedLast(rest, e);
  }

  /** One arrival of a log scored by default. */
  lemma {:induction false} DefaultArrival(arrivals: seq<(Digest, nat)>)
    requires arrivals != []
    ensures
      var log, n := Logged(DefaultScore, arrivals), |arrivals| - 1;
      && log[..n] == Logged(DefaultScore, arrivals[..n]) && log[n].seqNo == n + 1
      && log[n].score == DefaultScore(n + 1, log[n].size)
  {
    hide DefaultScore;
  }

  lemma {:induction false} LatestEarlier(arrivals: seq<(Digest, nat)>)
    ensures AllEarlier(Latest(Logged(DefaultScore, arrivals)), |arrivals|)
  {
    hide DefaultScore;
    if arrivals != [] {
      var n := |arrivals| - 1;
      DefaultArrival(arrivals);
      LatestEarlier(arrivals[..n]);
      var log := Logged(DefaultScore, arrivals);
      WithoutKeeps(Latest(log[..n]), log[n].id);
    }
  }

  lemma {:induction false} SuffixEarlier(s: seq<Scored>, k: nat, n: nat)
    requires AllEarlier(s, n) && k <= |s|
    ensures AllEarlier(s[k..], n)
  {
    hide DefaultScore;
  }

  /** Without one id, the highest of the latest are the highest without it, or with one more behind. */
  lemma {:induction false} TopWithout(s: seq<Scored>, e: Scored, b: nat)
    requires DistinctIds(s)
    ensures Evicted(MaxBlocks(b), Without(Top(s, b), e.id) + [e]) == Top(Without(s, e.id) + [e], b)
  {
    hide Evicted, Without, DistinctIds;
    var k := if |s| <= b then 0 else |s| - b;
    var a, t := s[..k], s[k..];
    assert s == a + t && Top(s, b) == t;
    WithoutConcat(a, t, e.id);
    if exists i :: 0 <= i < |t| && t[i].id == e.id {
      var i :| 0 <= i < |t| && t[i].id == e.id;
      OneOfTheTop(s, k, i);
      TopOfReplaced(a, Without(t, e.id), e, b);
    } else {
      WithoutAbsent(t, e.id);
      if k == 0 {
        WithoutAbsent(a, e.id);
        assert [] + t == t;
        TopOfShort(t + [e], b);
      } else {
        TopOfAdded(Without(a, e.id), t, e, b);
      }
    }
  }

  /** An id among the highest is not below them and stands among them once. */
  lemma {:induction false} OneOfTheTop(s: seq<Scored>, k: nat, i: nat)
    requires DistinctIds(s) && k + i < |s|
    ensures Without(s[..k], s[k + i].id) == s[..k] && |Without(s[k..], s[k + i].id)| == |s| - k - 1
  {
    hide Without;
    forall j | 0 <= j < k ensures s[..k][j].id != s[k + i].id {
      assert s[j].id != s[k + i].id;
    }
    WithoutAbsent(s[..k], s[k + i].id);
    DistinctSuffix(s, k);
    WithoutOne(s[k..], i);
  }

  lemma {:induction false} TopOfShort(s: seq<Scored>, b: nat)
    requires |s| <= b + 1
    ensures Evicted(MaxBlocks(b), s) == Top(s, b)
  {
  }

  lemma {:induction false} TopOfReplaced(a: seq<Scored>, t: seq<Scored>, e: Scored, b: nat)
    requires |t| + 1 <= b && (a != [] ==> |t| + 1 == b)
    ensures Evicted(MaxBlocks(b), t + [e]) == Top(a + t + [e], b)
  {
    assert a + t + [e] == a + (t + [e]);
    if a == [] {
      assert [] + (t + [e]) == t + [e];
    } else {
      assert (a + (t + [e]))[|a|..] == t + [e];
    }
  }

  lemma {:induction false} TopOfAdded(a: seq<Scored>, t: seq<Scored>, e: Scored, b: nat)
    requires |t| == b
    ensures Evicted(MaxBlocks(b), t + [e]) == Top(a + t + [e], b)
  {
    assert a + t + [e] == a + (t + [e]);
    assert (a + (t + [e]))[|a| + 1..] == (t + [e])[1..];
  }

  lemma {:induction false} DistinctSuffix(s: seq<Scored>, k: nat)
    requires DistinctIds(s) && k <= |s|
    ensures DistinctIds(s[k..])
  {
  }

  lemma {:induction false} WithoutOne(s: seq<Scored>, i: nat)
    requires DistinctIds(s) && i < |s|
    ensures |Without(s, s[i].id)| == |s| - 1
  {
    DistinctTail(s);
    if i == 0 {
      WithoutAbsent(s[1..], s[0].id);
    } else {
      assert s[1..][i - 1] == s[i] && s[i] in s[1..];
      WithoutOne(s[1..], i - 1);
    }
  }

  /** By default score a block budget keeps the b most recently inserted distinct ids, re-inserts included. */
  lemma {:induction false} BlockBudgetKeepsRecent(b: nat, arrivals: seq<(Digest, nat)>)
    requires |arrivals| < 0x1000_0000_0000
    ensures var log := Logged(DefaultScore, arrivals); KeptAfter(MaxBlocks(b), log) == Top(Latest(log), b)
  {
    hide DefaultScore, Logged, Inserted, Without, Evicted, Top;
    if arrivals == [] {
      NothingLogged();
      NoTop(b);
    } else {
      var n := |arrivals| - 1;
      var log := Logged(DefaultScore, arrivals);
      var front, e := log[..n], log[n];
      DefaultArrival(arrivals);
      BlockBudgetKeepsRecent(b, arrivals[..n]);
      LatestEarlier(arrivals[..n]);
      LatestExactly(front, e);
      TopSuffix(Latest(front), b, n);
      PlacedLast(Top(Latest(front), b), e, n);
      TopWithout(Latest(front), e, b);
    }
  }

  lemma {:induction false} NothingLogged()
    ensures Logged(DefaultScore, []) == []
  {
  }

  lemma {:induction false} NoTop(b: nat)
    ensures Top([], b) == []
  {
  }

  lemma {:induction false} TopSuffix(s: seq<Scored>, b: nat, n: nat)
    requires AllEarlier(s, n)
    ensures AllEarlier(Top(s, b), n)
  {
    hide DefaultScore;
  }

  // ------------------------------------------------- the size budget with re-inserted ids

  /** The entries from x on. */
  function From(s: seq<Scored>, x: Scored): seq<Scored> {
    if s == [] then [] else if s[0] == x then s else From(s[1..], x)
  }

  /** x fits with everything behind it, or is the last. */
  predicate FitsFrom(s: seq<Scored>, x: Scored, b: nat) { |From(s, x)| == 1 || Total(From(s, x)) <= b }

  lemma {:induction false} FromShorter(s: seq<Scored>, x: Scored)
    ensures |From(s, x)| <= |s| && Total(From(s, x)) <= Total(s)
    ensures x in s ==> From(s, x) != []
  {
    if s != [] && s[0] != x {
      FromShorter(s[1..], x);
      assert x in s ==> x in s[1..] by { assert s == [s[0]] + s[1..]; }
    }
  }

  /** Eviction by size keeps exactly the entries that fit with everything behind them. */
  lemma {:induction false} InFitted(s: seq<Scored>, b: nat, x: Scored)
    requires DistinctIds(s) && x in s
    ensures x in Fitted(s, b) <==> FitsFrom(s, x, b)
    decreases |s|
  {
    if Total(s) > b && |s| > 1 {
      DistinctTail(s);
      var k := FittedIsLongest(s[1..], b);
      if s[0] == x {
        assert x !in s[1..];
        assert forall y :: y in s[1..][k..] ==> y in s[1..];
      } else {
        assert x in s[1..] by { assert s == [s[0]] + s[1..]; }
        InFitted(s[1..], b, x);
      }
    } else {
      FromShorter(s, x);
    }
  }

  lemma {:induction false} FromSuffix(a: seq<Scored>, t: seq<Scored>, x: Scored)
    requires x !in a
    ensures From(a + t, x) == From(t, x)
  {
    if a == [] {
      assert a + t == t;
    } else {
      assert (a + t)[1..] == a[1..] + t && (a + t)[0] == a[0];
      assert a[0] in a;
      FromSuffix(a[1..], t, x);
    }
  }

  /** The survivors are the latest entries from some point on. */
  lemma {:induction false} KeptIsSuffix(b: nat, arrivals: seq<(Digest, nat)>) returns (k: nat)
    requires |arrivals| < 0x1000_0000_0000
    ensures
      var log := Logged(DefaultScore, arrivals);
      k <= |Latest(log)| && KeptAfter(MaxTokens(b), log) == Latest(log)[k..]
    ensures arrivals != [] ==>
      var log, n := Logged(DefaultScore, arrivals), |arrivals| - 1;
      KeptAfter(MaxTokens(b), log) ==
        Fitted(Without(KeptAfter(MaxTokens(b), log[..n]), log[n].id) + [log[n]], b)
  {
    hide DefaultScore, Logged, Inserted, Without, Fitted;
    k := 0;
    if arrivals == [] {
      NothingLogged();
    } else {
      var n := |arrivals| - 1;
      var log := Logged(DefaultScore, arrivals);
      var front, e := log[..n], log[n];
      DefaultArrival(arrivals);
      var j := KeptIsSuffix(b, arrivals[..n]);
      var latest := Latest(front);
      LatestEarlier(arrivals[..n]);
      SuffixEarlier(latest, j, n);
      PlacedLast(latest[j..], e, n);
      assert latest == latest[..j] + latest[j..];
      WithoutConcat(latest[..j], latest[j..], e.id);
      var kept := Without(latest[j..], e.id) + [e];
      var i := FittedIsLongest(kept, b);
      k := |Without(latest[..j], e.id)| + i;
      assert Latest(log) == Without(latest[..j], e.id) + kept;
    }
  }

  /** After arrival t, entry i is the latest of its id and fits with everything inserted after it. */
  predicate FitsAt(log: seq<Scored>, i: nat, t: nat, b: nat)
    requires i <= t < |log|
  {
    log[i] in Latest(log[..t + 1]) && FitsFrom(Latest(log[..t + 1]), log[i], b)
  }

  /**
    With re-inserts the size budget keeps an entry exactly if, at every arrival since its own,
    it fitted together with everything inserted after it.
   */
  lemma {:induction false} SizeBudgetKeepsExactly(b: nat, arrivals: seq<(Digest, nat)>, i: nat)
    requires i < |arrivals| < 0x1000_0000_0000
    ensures
      var log := Logged(DefaultScore, arrivals);
      log[i] in KeptAfter(MaxTokens(b), log) <==> forall t :: i <= t < |log| ==> FitsAt(log, i, t, b)
  {
    hide DefaultScore, Without, Fitted, FitsFrom, Latest, KeptAfter, Logged;
    var log, n := Logged(DefaultScore, arrivals), |arrivals| - 1;
    LastStep(b, arrivals, i);
    assert log[..n + 1] == log;
    assert FitsAt(log, i, n, b) <==> log[i] in Latest(log) && FitsFrom(Latest(log), log[i], b);
    if i < n {
      SizeBudgetKeepsExactly(b, arrivals[..n], i);
      DefaultArrival(arrivals);
      var front := log[..n];
      forall t | i <= t < n ensures FitsAt(front, i, t, b) <==> FitsAt(log, i, t, b) {
        assert front[..t + 1] == log[..t + 1] && front[i] == log[i];
      }
    }
  }

  /** The latest entries after an arrival: those already lost, and those among which it is decided. */
  lemma {:induction false} LatestSplit(b: nat, arrivals: seq<(Digest, nat)>) returns (a: seq<Scored>, kept: seq<Scored>)
    requires 0 < |arrivals| < 0x1000_0000_0000
    ensures
      var log, n := Logged(DefaultScore, arrivals), |arrivals| - 1;
      && Latest(log) == a + kept && DistinctIds(a + kept) && KeptAfter(MaxTokens(b), log) == Fitted(kept, b)
      && forall y :: y in kept <==> y == log[n] || (y in KeptAfter(MaxTokens(b), log[..n]) && y.id != log[n].id)
  {
    hide DefaultScore, Logged, Inserted, Without, Fitted, KeptAfter, DistinctIds, Latest, Sorted;
    var log, n := Logged(DefaultScore, arrivals), |arrivals| - 1;
    var front, e := log[..n], log[n];
    DefaultArrival(arrivals);
    var j := KeptIsSuffix(b, arrivals[..n]);
    var _ := KeptIsSuffix(b, arrivals);
    LatestExactly(log, e);
    LatestSteps(log);
    a, kept := SplitWithout(Latest(front), j, e);
  }

  /** Taking an id out and adding an entry, on a list cut in two. */
  lemma {:induction false} SplitWithout(s: seq<Scored>, j: nat, e: Scored) returns (a: seq<Scored>, t: seq<Scored>)
    requires j <= |s|
    ensures Without(s, e.id) + [e] == a + t && t == Without(s[j..], e.id) + [e]
    ensures forall y :: y in t <==> y == e || (y in s[j..] && y.id != e.id)
  {
    hide Without, Sorted, DistinctIds;
    var live := s[j..];
    assert s == s[..j] + live;
    WithoutConcat(s[..j], live, e.id);
    WithoutKeeps(live, e.id);
    var front := Without(live, e.id);
    a, t := Without(s[..j], e.id), front + [e];
    assert a + front + [e] == a + (front + [e]);
    InSnoc(front, e);
  }

  lemma {:induction false} InSnoc(s: seq<Scored>, e: Scored)
    ensures forall y :: y in s + [e] <==> y in s || y == e
  {
  }

  /** How one arrival decides about an entry. */
  lemma {:induction false} LastStep(b: nat, arrivals: seq<(Digest, nat)>, i: nat)
    requires i < |arrivals| < 0x1000_0000_0000
    ensures
      var log, n := Logged(DefaultScore, arrivals), |arrivals| - 1;
      log[i] in KeptAfter(MaxTokens(b), log) <==>
        && (i == n || log[i] in KeptAfter(MaxTokens(b), log[..n]))
        && log[i] in Latest(log) && FitsFrom(Latest(log), log[i], b)
  {
    hide DefaultScore, Logged, Latest, Fitted, FitsFrom, KeptAfter, DistinctIds, From;
    var log, n := Logged(DefaultScore, arrivals), |arrivals| - 1;
    var x := log[i];
    var a, kept := LatestSplit(b, arrivals);
    SuffixOnce(a, kept);
    DistinctTailPart(a, kept);
    AtPlace(arrivals, i);
    if x in kept {
      InFitted(kept, b, x);
      FromSuffix(a, kept, x);
      SameFits(a + kept, kept, x, b);
    } else {
      assert x !in Fitted(kept, b) by {
        if x in Fitted(kept, b) {
          FittedWithin(kept, b, x);
          assert false;
        }
      }
      if x in Latest(log) {
        assert log[n] in kept;
        OneOfId(a, kept, x, log[n]);
      }
    }
  }

  lemma {:induction false} OneOfId(a: seq<Scored>, t: seq<Scored>, x: Scored, e: Scored)
    requires DistinctIds(a + t) && x in a + t && e in t
    ensures x.id == e.id ==> x == e
  {
    var s := a + t;
    var i :| 0 <= i < |s| && s[i] == x;
    var j :| 0 <= j < |t| && t[j] == e;
    assert s[|a| + j] == e;
    assert i < |a| + j ==> s[i].id != s[|a| + j].id;
    assert i > |a| + j ==> s[|a| + j].id != s[i].id;
  }

  lemma {:induction false} SameFits(s: seq<Scored>, t: seq<Scored>, x: Scored, b: nat)
    requires From(s, x) == From(t, x)
    ensures FitsFrom(s, x, b) <==> FitsFrom(t, x, b)
  {
  }

  lemma {:induction false} FittedWithin(s: seq<Scored>, b: nat, x: Scored)
    requires x in Fitted(s, b)
    ensures x in s
  {
    var k := FittedIsLongest(s, b);
  }

  lemma {:induction false} SuffixOnce(a: seq<Scored>, t: seq<Scored>)
    requires DistinctIds(a + t)
    ensures forall x :: x in t ==> x !in a
  {
    var s := a + t;
    forall x | x in t ensures x !in a {
      var j :| 0 <= j < |t| && t[j] == x;
      forall i | 0 <= i < |a| ensures a[i] != x {
        assert s[i].id != s[|a| + j].id;
      }
    }
  }

  lemma {:induction false} DistinctTailPart(a: seq<Scored>, t: seq<Scored>)
    requires DistinctIds(a + t)
    ensures DistinctIds(t)
  {
    assert t == (a + t)[|a|..];
    DistinctSuffix(a + t, |a|);
  }

  /** Entries of a log are told apart by their arrival number. */
  lemma {:induction false} AtPlace(arrivals: seq<(Digest, nat)>, i: nat)
    requires i < |arrivals|
    ensures
      var log, n := Logged(DefaultScore, arrivals), |arrivals| - 1;
      log[i] == log[n] <==> i == n
  {
    hide DefaultScore;
  }

  // -------------------------------------------------------------------- what re-inserts break

  /**
    With re-inserts the survivors need not be the longest fitting suffix of the latest
    entries: an entry evicted for a large block stays out when that block shrinks.
   */
  lemma {:induction false} ShrunkReinsert(p: Digest, q: Digest, r: Digest)
    requires p != q && q != r && p != r
    ensures
      var log := Logged(DefaultScore, [(p, 1), (q, 10), (r, 1), (q, 1)]);
      KeptAfter(MaxTokens(10), log) == [log[2], log[3]] && Fitted(Latest(log), 10) == [log[0], log[2], log[3]]
  {
    hide DefaultScore, Inserted;
    var arrivals := [(p, 1), (q, 10), (r, 1), (q, 1)];
    var log := Logged(DefaultScore, arrivals);
    var e1, e2, e3, e4 := log[0], log[1], log[2], log[3];
    SmallWindows(e1, e2, e3, e4);
    Prefixes(arrivals);
    var one, two, three := arrivals[..1], arrivals[..2], arrivals[..3];
    var _ := KeptIsSuffix(10, one);
    var _ := KeptIsSuffix(10, two);
    var _ := KeptIsSuffix(10, three);
    var _ := KeptIsSuffix(10, arrivals);
    hide KeptAfter, Latest, Fitted, Without, Logged;
    var l1, l2, l3 := Logged(DefaultScore, one), Logged(DefaultScore, two), Logged(DefaultScore, three);
    NothingKept(10);
    LatestSteps(l1);
    LatestSteps(l2);
    LatestSteps(l3);
    LatestSteps(log);
    assert l1[..0] == [] && l2[..1] == l1 && l3[..2] == l2 && log[..3] == l3;
    assert KeptAfter(MaxTokens(10), l1) == [e1];
    assert KeptAfter(MaxTokens(10), l2) == [e2];
    assert KeptAfter(MaxTokens(10), l3) == [e3];
    assert Latest(l1) == [e1] && Latest(l2) == [e1, e2] && Latest(l3) == [e1, e2, e3];
  }

  lemma {:induction false} NothingKept(b: nat)
    ensures KeptAfter(MaxTokens(b), []) == [] && Latest([]) == []
  {
  }

  lemma {:induction false} LatestSteps(log: seq<Scored>)
    requires log != []
    ensures Latest(log) == Without(Latest(log[..|log| - 1]), log[|log| - 1].id) + [log[|log| - 1]]
  {
  }

  lemma {:induction false} Prefixes(arrivals: seq<(Digest, nat)>)
    ensures forall k :: 0 <= k <= |arrivals| ==>
      Logged(DefaultScore, arrivals[..k]) == Logged(DefaultScore, arrivals)[..k]
  {
    hide DefaultScore;
  }

  /** The windows of the example. */
  lemma {:induction false} SmallWindows(a: Scored, x: Scored, c: Scored, y: Scored)
    requires a.size == c.size == y.size == 1 && x.size == 10 && x.id == y.id
    requires a.id != x.id && c.id != x.id && a.id != c.id
    ensures Without([], a.id) + [a] == [a] && Fitted([a], 10) == [a]
    ensures Without([a], x.id) + [x] == [a, x] && Fitted([a, x], 10) == [x]
    ensures Without([x], c.id) + [c] == [x, c] && Fitted([x, c], 10) == [c]
    ensures Without([c], y.id) + [y] == [c, y] && Fitted([c, y], 10) == [c, y]
    ensures Without([a, x], c.id) + [c] == [a, x, c]
    ensures Without([a, x, c], y.id) + [y] == [a, c, y] && Fitted([a, c, y], 10) == [a, c, y]
  {
    OneLeft(a, x.id);
    OneLeft(x, c.id);
    OneLeft(c, y.id);
    assert [a, x][1..] == [x] && [x, c][1..] == [c] && [c, y][1..] == [y];
    assert [a, x, c][1..] == [x, c] && [a, c, y][1..] == [c, y];
    assert [a, x][1..][1..] == [] && [x, c][1..][1..] == [] && [c, y][1..][1..] == [] && [a][1..] == [];
    assert Total([x]) == 10 && Total([c]) == 1 && Total([y]) == 1 && Total([a]) == 1;
    assert Total([a, x]) == 11 && Total([x, c]) == 11 && Total([c, y]) == 2 && Total([a, c, y]) == 3;
    assert Without([x, c], y.id) == [c] && Without([x, c], c.id) == [x];
  }

  lemma {:induction false} OneLeft(a: Scored, id: Digest)
    requires a.id != id
    ensures Without([a], id) == [a]
  {
    assert [a][1..] == [];
  }

  // ---------------------------------------------- updates under any scorer, exactly

  /** Taking an id out of a ranking before or after an insertion is the same. */
  lemma {:induction false} WithoutInserted(s: seq<Scored>, e: Scored, id: Digest)
    requires Sorted(s)
    ensures Without(Inserted(s, e), id) ==
            if e.id == id then Without(s, id) else Inserted(Without(s, id), e)
  {
    hide Sorted;
    if s == [] {
      assert [e][1..] == [];
    } else {
      SortedTail(s);
      if Before(s[0], e) {
        WithoutInserted(s[1..], e, id);
        assert ([s[0]] + Inserted(s[1..], e))[1..] == Inserted(s[1..], e);
        if s[0].id != id && e.id != id {
          assert ([s[0]] + Without(s[1..], id))[1..] == Without(s[1..], id);
        }
      } else {
        assert ([e] + s)[1..] == s;
        if e.id != id {
          WithoutKeeps(s, id);
          var rest := Without(s, id);
          if rest != [] {
            assert rest[0] in s;
            assert s == [s[0]] + s[1..];
          }
        }
      }
    }
  }

  lemma {:induction false} RankedSnoc(l: seq<Scored>, e: Scored)
    ensures Ranked(l + [e]) == Inserted(Ranked(l), e)
  {
    assert (l + [e])[..|l|] == l;
  }

  /** In increasing order of arrival. */
  predicate InOrder(l: seq<Scored>) { forall i, j :: 0 <= i < j < |l| ==> l[i].seqNo < l[j].seqNo }

  lemma {:induction false} RankedInOrder(l: seq<Scored>)
    requires InOrder(l)
    ensures Sorted(Ranked(l)) && forall x :: x in Ranked(l) <==> x in l
  {
    hide Before, Sorted;
    if l == [] {
      assert Sorted([]) by { NothingSorted(); }
    } else {
      var n := |l| - 1;
      var front := l[..n];
      RankedInOrder(front);
      forall i | 0 <= i < n ensures Ranked(front)[i].seqNo != l[n].seqNo {
        assert Ranked(front)[i] in front;
      }
      InsertedSorted(Ranked(front), l[n]);
      assert l == front + [l[n]];
    }
  }

  lemma {:induction false} NothingSorted()
    ensures Sorted([])
  {
  }

  lemma {:induction false} RankedWithout(l: seq<Scored>, id: Digest)
    requires InOrder(l)
    ensures Ranked(Without(l, id)) == Without(Ranked(l), id)
  {
    hide Before, Inserted, Sorted;
    if l != [] {
      var n := |l| - 1;
      var front, e := l[..n], l[n];
      assert l == front + [e];
      RankedWithout(front, id);
      RankedInOrder(front);
      WithoutInserted(Ranked(front), e, id);
      WithoutConcat(front, [e], id);
      assert [e][1..] == [];
      if e.id == id {
        assert Without(front, id) + [] == Without(front, id);
      } else {
        assert Without([e], id) == [e];
        RankedSnoc(Without(front, id), e);
      }
    }
  }

  /** The latest entries are in order and from the log. */
  lemma {:induction false} LatestInOrder(log: seq<Scored>)
    requires Arrivals(log)
    ensures InOrder(Latest(log)) && forall x :: x in Latest(log) ==> x.seqNo <= |log|
  {
    if log != [] {
      var n := |log| - 1;
      LatestInOrder(log[..n]);
      WithoutOrdered(Latest(log[..n]), log[n].id);
    }
  }

  lemma {:induction false} WithoutOrdered(l: seq<Scored>, id: Digest)
    requires InOrder(l)
    ensures InOrder(Without(l, id)) && forall x :: x in Without(l, id) ==> x in l
  {
    if l != [] {
      WithoutOrdered(l[1..], id);
      var rest := Without(l[1..], id);
      forall i | 0 <= i < |rest| ensures l[0].seqNo < rest[i].seqNo {
        assert rest[i] in rest;
      }
    }
  }

  /** The last insertion of each id, ranked. */
  function Ranking(log: seq<Scored>): seq<Scored> { Ranked(Latest(log)) }

  lemma {:induction false} RankingStep(log: seq<Scored>)
    requires log != [] && Arrivals(log)
    ensures
      var n := |log| - 1;
      var s := Ranking(log[..n]);
      && Ranking(log) == Inserted(Without(s, log[n].id), log[n])
      && Sorted(s) && DistinctIds(s) && NewTo(s, log[n])
  {
    hide Before, Inserted, Sorted, Ranked;
    var n := |log| - 1;
    var front, e := log[..n], log[n];
    LatestInOrder(front);
    RankedInOrder(Latest(front));
    RankedWithout(Latest(front), e.id);
    RankedSnoc(Without(Latest(front), e.id), e);
    RankingDistinct(front);
    var s := Ranking(front);
    forall i | 0 <= i < |s| ensures s[i].seqNo != e.seqNo {
      assert s[i] in s;
    }
  }

  lemma {:induction false} RankingDistinct(log: seq<Scored>)
    requires Arrivals(log)
    ensures DistinctIds(Ranking(log))
  {
    hide Inserted, Before, Sorted, Without;
    LatestInOrder(log);
    var l := Latest(log);
    if l != [] {
      LatestExactly(log, l[0]);
    }
    RankedDistinct(l);
  }

  lemma {:induction false} RankedDistinct(l: seq<Scored>)
    requires DistinctIds(l)
    ensures DistinctIds(Ranked(l)) && forall x :: x in Ranked(l) <==> x in l
  {
    hide Inserted, Before;
    if l != [] {
      var n := |l| - 1;
      var front := l[..n];
      RankedDistinct(front);
      forall i | 0 <= i < n ensures Ranked(front)[i].id != l[n].id {
        assert Ranked(front)[i] in front;
      }
      InsertedDistinct(Ranked(front), l[n]);
      assert l == front + [l[n]];
    }
  }

  /** The update of an id among the b highest that falls below the highest of the others. */
  predicate Sinks(s: seq<Scored>, e: Scored, b: nat) {
    |s| > b && (exists i :: |s| - b <= i < |s| && s[i].id == e.id) && Before(e, s[|s| - b - 1])
  }

  lemma {:induction false} InsertedKeepsLast(a: seq<Scored>, e: Scored)
    requires a != [] && !Before(a[|a| - 1], e)
    ensures Inserted(a, e)[|a|] == a[|a| - 1]
  {
    hide Before;
    if Before(a[0], e) {
      assert a[1..][|a| - 2] == a[|a| - 1];
      InsertedKeepsLast(a[1..], e);
    }
  }

  /** One insert keeps the b highest exactly unless it sinks. */
  lemma {:induction false} SinksExactly(s: seq<Scored>, e: Scored, b: nat)
    requires Sorted(s) && DistinctIds(s) && NewTo(s, e)
    ensures Survivors(MaxBlocks(b), Top(s, b), e) == Top(Inserted(Without(s, e.id), e), b) <==> !Sinks(s, e, b)
  {
    hide Before, Inserted, Sorted, DistinctIds, NewTo, Without, Evicted;
    if |s| <= b {
      WithoutShorter(s, e.id);
      TopOfShort(Inserted(Without(s, e.id), e), b);
    } else if i :| |s| - b <= i < |s| && s[i].id == e.id {
      TopUpdated(s, e, b, i);
    } else {
      TopKept(s, e, b);
    }
  }

  lemma {:induction false} TopUpdated(s: seq<Scored>, e: Scored, b: nat, i: nat)
    requires Sorted(s) && DistinctIds(s) && NewTo(s, e) && |s| > b && |s| - b <= i < |s| && s[i].id == e.id
    ensures Survivors(MaxBlocks(b), Top(s, b), e) == Top(Inserted(Without(s, e.id), e), b) <==>
            !Before(e, s[|s| - b - 1])
  {
    hide Before, Inserted, Sorted, DistinctIds, NewTo, Without, Evicted;
    var k := |s| - b;
    var a, t := s[..k], s[k..];
    assert s == a + t;
    WithoutConcat(a, t, e.id);
    OneOfTheTop(s, k, i - k);
    WithoutKeeps(t, e.id);
    UpdateOfTop(s, k, e, Without(t, e.id), b);
  }

  lemma {:induction false} TopKept(s: seq<Scored>, e: Scored, b: nat)
    requires Sorted(s) && NewTo(s, e) && |s| > b && forall i :: |s| - b <= i < |s| ==> s[i].id != e.id
    ensures Survivors(MaxBlocks(b), Top(s, b), e) == Top(Inserted(Without(s, e.id), e), b)
  {
    hide Before, Inserted, Sorted, NewTo, Without;
    var k := |s| - b;
    var a, t := s[..k], s[k..];
    assert s == a + t;
    WithoutConcat(a, t, e.id);
    WithoutAbsent(t, e.id);
    var rest := Without(s, e.id);
    WithoutKeeps(s, e.id);
    NewToRest(s, rest, e);
    assert rest == Without(a, e.id) + t && Top(rest, b) == t;
    TopStep(rest, e, b);
  }

  lemma {:induction false} WithoutShorter(s: seq<Scored>, id: Digest)
    ensures |Without(s, id)| <= |s|
  {
    if s != [] {
      WithoutShorter(s[1..], id);
    }
  }

  lemma {:induction false} NewToRest(s: seq<Scored>, rest: seq<Scored>, e: Scored)
    requires NewTo(s, e) && forall x :: x in rest ==> x in s
    ensures NewTo(rest, e)
  {
    forall i | 0 <= i < |rest| ensures rest[i].seqNo != e.seqNo {
      assert rest[i] in s;
    }
  }

  lemma {:induction false} UpdateOfTop(s: seq<Scored>, k: nat, e: Scored, t: seq<Scored>, b: nat)
    requires Sorted(s) && NewTo(s, e) && 0 < k <= |s| && |t| == b - 1
    requires forall x :: x in t ==> x in s[k..]
    ensures Evicted(MaxBlocks(b), Inserted(t, e)) == Inserted(t, e)
    ensures Inserted(t, e) == Top(Inserted(s[..k] + t, e), b) <==> !Before(e, s[k - 1])
  {
    hide Before, Inserted, Sorted, NewTo;
    var a := s[..k];
    var last := s[k - 1];
    OneOrder(s, k - 1, e);
    if Before(last, e) {
      AllBefore(s, k - 1, e);
      forall x | x in a ensures Before(x, e) {
        var i :| 0 <= i < k && s[i] == x;
      }
      InsertedBehind(a, t, e);
      assert (a + Inserted(t, e))[k..] == Inserted(t, e);
    } else {
      InsertedAhead(a, t, e);
      InsertedKeepsLast(a, e);
      var all := Inserted(a, e) + t;
      assert all[k..] == [last] + t;
      AheadOfRest(s, k, e, t);
      assert Inserted(t, e)[0] == e && last != e by { NewAt(s, k - 1, e); }
    }
  }

  lemma {:induction false} NewAt(s: seq<Scored>, i: nat, e: Scored)
    requires NewTo(s, e) && i < |s|
    ensures s[i] != e
  {
  }

  /** Two entries with different arrival numbers come one before the other. */
  lemma {:induction false} OneOrder(s: seq<Scored>, i: nat, e: Scored)
    requires NewTo(s, e) && i < |s|
    ensures Before(s[i], e) <==> !Before(e, s[i])
  {
  }

  /** What is not behind entry k - 1 goes in front of any entries from k on. */
  lemma {:induction false} AheadOfRest(s: seq<Scored>, k: nat, e: Scored, t: seq<Scored>)
    requires Sorted(s) && NewTo(s, e) && 0 < k <= |s| && !Before(s[k - 1], e)
    requires forall x :: x in t ==> x in s[k..]
    ensures Inserted(t, e) == [e] + t
  {
    if t != [] {
      assert t[0] in s[k..];
      var i :| k <= i < |s| && s[i] == t[0];
      SortedAt(s, k - 1, i);
    } else {
      assert [e] + [] == [e];
    }
  }

  /** Entries in front of u are dropped exactly if u with the last of them does not fit. */
  lemma {:induction false} FittedOver(a: seq<Scored>, u: seq<Scored>, b: nat)
    requires a != [] && u != []
    ensures Fitted(a + u, b) == Fitted(u, b) <==> Total([a[|a| - 1]] + u) > b
  {
    var all, n := a + u, |a| - 1;
    if Total([a[n]] + u) > b {
      FittedDrops(a, u, b);
    } else {
      var k := FittedIsLongest(all, b);
      assert all[n..] == [a[n]] + u;
      assert k <= n;
    }
  }

  lemma {:induction false} FittedDrops(a: seq<Scored>, u: seq<Scored>, b: nat)
    requires u != [] && (a != [] ==> Total([a[|a| - 1]] + u) > b)
    ensures Fitted(a + u, b) == Fitted(u, b)
  {
    if a == [] {
      assert a + u == u;
    } else {
      var n := |a| - 1;
      assert a + u == a[..n] + ([a[n]] + u) && (a + u)[1..] == a[1..] + u;
      TotalConcat(a[..n], [a[n]] + u);
      FittedDrops(a[1..], u, b);
    }
  }

  /** An entry evicted for its size that would fit again, or that outranks the new one. */
  predicate Regrets(s: seq<Scored>, e: Scored, b: nat) {
    var kept := Fitted(s, b);
    var lost, t := Without(s[..|s| - |kept|], e.id), Without(kept, e.id);
    lost != [] &&
    var x := lost[|lost| - 1];
    if Before(x, e) then Total([x] + Inserted(t, e)) <= b
    else t == [] || Total([x] + t) <= b || Total([e] + t) <= b
  }

  /** One insert keeps what fits of the highest exactly unless it regrets an eviction. */
  lemma {:induction false} RegretsExactly(s: seq<Scored>, e: Scored, b: nat)
    requires Sorted(s) && NewTo(s, e)
    ensures Survivors(MaxTokens(b), Fitted(s, b), e) == Fitted(Inserted(Without(s, e.id), e), b) <==> !Regrets(s, e, b)
  {
    hide Before, Inserted, Sorted, NewTo, Without, Total, Fitted;
    var k := FittedIsLongest(s, b);
    var a, kept := s[..k], s[k..];
    assert s == a + kept && a == s[..|s| - |kept|];
    WithoutConcat(a, kept, e.id);
    var lost, t := Without(a, e.id), Without(kept, e.id);
    if lost == [] {
      assert [] + t == t;
    } else {
      WithoutKeeps(s, e.id);
      NewToRest(s, lost + t, e);
      LostExactly(lost, t, e, b);
    }
  }

  lemma {:induction false} LostExactly(lost: seq<Scored>, t: seq<Scored>, e: Scored, b: nat)
    requires lost != [] && Sorted(lost + t) && NewTo(lost + t, e)
    ensures
      var x := lost[|lost| - 1];
      Fitted(Inserted(t, e), b) == Fitted(Inserted(lost + t, e), b) <==>
      !(if Before(x, e) then Total([x] + Inserted(t, e)) <= b
        else t == [] || Total([x] + t) <= b || Total([e] + t) <= b)
  {
    hide Before, Inserted, Sorted, NewTo, Total, Fitted;
    var s, k := lost + t, |lost|;
    var x := lost[k - 1];
    assert s[k - 1] == x && s[..k] == lost && s[k..] == t;
    if Before(x, e) {
      AllBefore(s, k - 1, e);
      forall y | y in lost ensures Before(y, e) {
        var i :| 0 <= i < k && lost[i] == y;
        assert s[i] == y;
      }
      InsertedBehind(lost, t, e);
      FittedOver(lost, Inserted(t, e), b);
    } else {
      InsertedAhead(lost, t, e);
      InsertedKeepsLast(lost, e);
      AheadOfRest(s, k, e, t);
      NewAt(s, k - 1, e);
      AheadExactly(Inserted(lost, e), t, e, x, b);
    }
  }

  lemma {:induction false} AheadExactly(a: seq<Scored>, t: seq<Scored>, e: Scored, x: Scored, b: nat)
    requires a != [] && a[|a| - 1] == x != e
    ensures Fitted([e] + t, b) == Fitted(a + t, b) <==> !(t == [] || Total([x] + t) <= b || Total([e] + t) <= b)
  {
    hide Total, Fitted;
    var all := a + t;
    var j := FittedIsLongest([e] + t, b);
    var k := FittedIsLongest(all, b);
    if t == [] {
      assert all == a && [e] + t == [e];
      FittedNotEmpty(a, b);
      FittedNotEmpty([e], b);
      assert a[k..][|a| - k - 1] == x;
    } else {
      FittedOver([e], t, b);
      FittedOver(a, t, b);
      if Total([e] + t) <= b {
        assert j == 0 by { FittedWhole([e] + t, b); }
        assert all[|a| - 1] == x && ([e] + t)[0] == e;
      }
    }
  }

  lemma {:induction false} FittedNotEmpty(s: seq<Scored>, b: nat)
    requires s != []
    ensures Fitted(s, b) != []
  {
    if |s| > 1 {
      FittedNotEmpty(s[1..], b);
    }
  }

  lemma {:induction false} FittedWhole(s: seq<Scored>, b: nat)
    requires Total(s) <= b
    ensures Fitted(s, b) == s
  {
  }

  /** What the budget allows of a ranking: the highest. */
  function Highest(budget: Budget, s: seq<Scored>): seq<Scored> {
    match budget
    case MaxBlocks(b) => Top(s, b)
    case MaxTokens(b) => Fitted(s, b)
  }

  /** The insert of e into a pruner that keeps the highest of s loses one of the highest. */
  predicate Strays(budget: Budget, s: seq<Scored>, e: Scored) {
    match budget
    case MaxBlocks(b) => Sinks(s, e, b)
    case MaxTokens(b) => Regrets(s, e, b)
  }

  /** After every prefix of the log the highest of the latest insertions are kept. */
  predicate KeepsHighest(budget: Budget, log: seq<Scored>) {
    forall t :: 0 <= t <= |log| ==> KeptAfter(budget, log[..t]) == Highest(budget, Ranking(log[..t]))
  }

  predicate NoneStrays(budget: Budget, log: seq<Scored>) {
    forall t :: 0 <= t < |log| ==> !Strays(budget, Ranking(log[..t]), log[t])
  }

  lemma {:induction false} KeepsStep(budget: Budget, log: seq<Scored>, t: nat)
    requires Arrivals(log) && t < |log| && KeptAfter(budget, log[..t]) == Highest(budget, Ranking(log[..t]))
    ensures KeptAfter(budget, log[..t + 1]) == Highest(budget, Ranking(log[..t + 1])) <==>
            !Strays(budget, Ranking(log[..t]), log[t])
  {
    hide Survivors, Ranking, Sinks, Regrets, Top, Fitted;
    var l := log[..t + 1];
    assert l[..t] == log[..t] && l[t] == log[t];
    RankingStep(l);
    match budget {
      case MaxBlocks(b) => SinksExactly(Ranking(log[..t]), log[t], b);
      case MaxTokens(b) => RegretsExactly(Ranking(log[..t]), log[t], b);
    }
  }

  /** Under any scorer, updates included, the highest are kept throughout exactly if no insert strays. */
  lemma {:induction false} KeepsHighestExactly(budget: Budget, log: seq<Scored>)
    requires Arrivals(log)
    ensures KeepsHighest(budget, log) <==> NoneStrays(budget, log)
  {
    hide Ranking, Strays, Highest, Arrivals;
    if KeepsHighest(budget, log) {
      forall t: nat | t < |log| ensures !Strays(budget, Ranking(log[..t]), log[t]) {
        KeepsStep(budget, log, t);
      }
    }
    if NoneStrays(budget, log) {
      forall t: nat | t <= |log| ensures KeptAfter(budget, log[..t]) == Highest(budget, Ranking(log[..t])) {
        KeepsUpTo(budget, log, t);
      }
    }
  }

  lemma {:induction false} KeepsUpTo(budget: Budget, log: seq<Scored>, t: nat)
    requires Arrivals(log) && t <= |log| && NoneStrays(budget, log)
    ensures KeptAfter(budget, log[..t]) == Highest(budget, Ranking(log[..t]))
  {
    hide Strays, Arrivals;
    if t == 0 {
      assert log[..0] == [];
      FittedNothing(if budget.MaxTokens? then budget.size else 0);
    } else {
      hide Ranking, Highest;
      KeepsUpTo(budget, log, t - 1);
      KeepsStep(budget, log, t - 1);
    }
  }

  /** A scorer that prefers what came first. */
  function Falling(seqNo: nat, size: nat): nat { if seqNo <= 3 then 7 - 2 * seqNo else 0 }

  /** Under it the update of an id sinks: a higher entry evicted before does not come back. */
  lemma {:induction false} LoweredReinsert(p: Digest, q: Digest)
    requires p != q
    ensures !KeepsHighest(MaxBlocks(1), Logged(Falling, [(p, 1), (q, 1), (p, 1)]))
  {
    hide KeptAfter, Latest, Without, Inserted, Ranked;
    var x, y, w := Scored(p, 5, 1, 1), Scored(q, 3, 2, 1), Scored(p, 1, 3, 1);
    var log := [x, y, w];
    assert Logged(Falling, [(p, 1), (q, 1), (p, 1)]) == log;
    SmallLatest(x, y, w);
    SmallKept(x, y, w);
    RankedPairs(x, y, w);
    assert Top([w, y], 1) == [y] && log[..3] == log;
  }

  lemma {:induction false} SmallLatest(x: Scored, y: Scored, w: Scored)
    requires x.id == w.id != y.id
    ensures Latest([x, y]) == [x, y] && Latest([x, y, w]) == [y, w]
  {
    hide Without;
    OneLeft(x, y.id);
    PairWithout(x, y);
    assert [x, y, w][..2] == [x, y] && [x, y][..1] == [x] && [x][..0] == [];
    assert Latest([]) == [] && Without([], x.id) + [x] == [x] by { NoneWithout(x.id); }
    assert Latest([x]) == Without(Latest([]), x.id) + [x];
    assert Latest([x, y]) == Without(Latest([x]), y.id) + [y];
    assert Latest([x, y, w]) == Without(Latest([x, y]), w.id) + [w];
  }

  lemma {:induction false} NoneWithout(id: Digest)
    ensures Without([], id) == []
  {
  }

  lemma {:induction false} PairWithout(x: Scored, y: Scored)
    requires x.id != y.id
    ensures Without([x, y], x.id) == [y] && Without([x], x.id) == []
  {
    OneLeft(y, x.id);
    NoneWithout(x.id);
    assert [x, y][1..] == [y] && [x][1..] == [];
  }

  lemma {:induction false} SmallKept(x: Scored, y: Scored, w: Scored)
    requires x.id == w.id != y.id && !Before(x, y)
    ensures KeptAfter(MaxBlocks(1), [x, y, w]) == [w]
  {
    hide Without, Before;
    OneLeft(x, y.id);
    PairWithout(x, y);
    NoneWithout(x.id);
    assert [x, y, w][..2] == [x, y] && [x, y][..1] == [x] && [x][..0] == [];
    assert Inserted([], x) == [x] && Inserted([], w) == [w] && Inserted([x], y) == [y] + [x];
    assert ([y] + [x])[1..] == [x];
    assert KeptAfter(MaxBlocks(1), []) == [];
    assert KeptAfter(MaxBlocks(1), [x]) == Survivors(MaxBlocks(1), [], x) == [x];
    assert KeptAfter(MaxBlocks(1), [x, y]) == Survivors(MaxBlocks(1), [x], y) == [x];
    assert KeptAfter(MaxBlocks(1), [x, y, w]) == Survivors(MaxBlocks(1), [x], w);
  }

  lemma {:induction false} RankedPairs(x: Scored, y: Scored, w: Scored)
    requires !Before(x, y) && !Before(y, w)
    ensures Ranked([x, y]) == [y, x] && Ranked([y, w]) == [w, y]
  {
    assert [x, y][..1] == [x] && [x][..0] == [] && [y, w][..1] == [y] && [y][..0] == [];
    assert Ranked([x]) == Inserted([], x) == [x];
    assert Ranked([y]) == Inserted([], y) == [y];
  }
}
