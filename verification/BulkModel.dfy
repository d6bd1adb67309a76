/**
  The cold-start transfer: records cut into generations at block boundaries, padded
  and fountain-coded (`bulk_frames_for` in `crates/shim/src/lib.rs`, `encode` in
  `crates/coding/src/bulk.rs`), and what a decoded generation is parsed back into.
 */
module BulkModel {
  import opened Bytes
  import opened Blocks
  import opened Results
  import opened Store
  import opened Frames
  import opened GfLinear
  import opened LinearSystems
  import opened Fountain
  import opened DurableStore
  import opened ReceiverModel

  const BULK_LEVEL: int := 19
  const FOUNTAIN_K: nat := 64
  const SYMBOL_SIZE: nat := 1024

  // ---------------------------------------------------------------------------- records

  function Packed(z: Zstd, b: Block): Bytes { Compress(z, BULK_LEVEL, Canonical(b)) }

  /** length | compressed canonical bytes */
  function RecordOf(z: Zstd, b: Block): (r: Bytes)
    ensures r != []
  {
    LeBytes(|Packed(z, b)|, 4) + Packed(z, b)
  }

  function Stream(z: Zstd, blocks: seq<Block>): Bytes {
    if blocks == [] then [] else Stream(z, blocks[..|blocks| - 1]) + RecordOf(z, blocks[|blocks| - 1])
  }

  /** Every block is one the program can hold. */
  predicate BlocksOk(blocks: seq<Block>) { forall i :: 0 <= i < |blocks| ==> BlockOk(blocks[i]) }

  function PackedAll(z: Zstd, blocks: seq<Block>): (r: seq<Bytes>)
    ensures |r| == |blocks|
  {
    seq(|blocks|, i requires 0 <= i < |blocks| => Packed(z, blocks[i]))
  }

  lemma {:induction false} RecordsOne(z: Zstd, b: Block, tail: Bytes)
    requires BlockOk(b)
    ensures Records(RecordOf(z, b) + tail) == [Packed(z, b)] + Records(tail)
  {
    hide LeBytes, FromLe, Canonical, Compress, Pow256;
    Widths();
    var p := Packed(z, b);
    FromLeBytes(|p|, 4);
    var flat := RecordOf(z, b) + tail;
    assert flat[..4] == LeBytes(|p|, 4);
    assert flat[4..4 + |p|] == p && flat[4 + |p|..] == tail;
  }

  /** The parser reads the records back and goes on behind them. */
  lemma {:induction false} RecordsOfStream(z: Zstd, blocks: seq<Block>, tail: Bytes)
    requires BlocksOk(blocks)
    ensures Records(Stream(z, blocks) + tail) == PackedAll(z, blocks) + Records(tail)
  {
    hide Records, RecordOf, Packed;
    if blocks == [] {
      assert Stream(z, blocks) + tail == tail;
      assert PackedAll(z, blocks) + Records(tail) == Records(tail);
    } else {
      var n := |blocks| - 1;
      var behind := RecordOf(z, blocks[n]) + tail;
      RecordsOfStream(z, blocks[..n], behind);
      RecordsOne(z, blocks[n], tail);
      assert Stream(z, blocks) + tail == Stream(z, blocks[..n]) + behind;
      assert PackedAll(z, blocks) == PackedAll(z, blocks[..n]) + [Packed(z, blocks[n])];
    }
  }

  /** Padding is read as the end of the stream. */
  lemma {:induction false} RecordsOfPadding(n: nat)
    ensures Records(Zeros(n)) == []
  {
    if n >= 4 {
      ZeroLe(Zeros(n)[..4]);
    }
  }

  lemma {:induction false} ZeroLe(b: Bytes)
    requires forall i :: 0 <= i < |b| ==> b[i] == 0
    ensures FromLe(b) == 0
  {
    if b != [] {
      ZeroLe(b[1..]);
    }
  }

  function Fulls(h: Hashes, blocks: seq<Block>): (items: seq<Item>)
    ensures |items| == |blocks| && AllFull(items)
  {
    seq(|blocks|, i requires 0 <= i < |blocks| => Full(BlockId(h, blocks[i]), blocks[i]))
  }

  /** Unpacking the records gives the blocks, each under its id. */
  lemma {:induction false} UnpackStream(h: Hashes, z: Zstd, blocks: seq<Block>)
    requires Lossless(z) && BlocksOk(blocks)
    ensures UnpackAll(h, z, PackedAll(z, blocks)) == Ok(Fulls(h, blocks))
  {
    hide Unpack, Lossless;
    if blocks != [] {
      var n := |blocks| - 1;
      UnpackStream(h, z, blocks[..n]);
      UnpackCompressed(h, z, BULK_LEVEL, blocks[n]);
      assert PackedAll(z, blocks)[..n] == PackedAll(z, blocks[..n]);
      assert Fulls(h, blocks) == Fulls(h, blocks[..n]) + [Full(BlockId(h, blocks[n]), blocks[n])];
    }
  }

  // ------------------------------------------------------------------------ generations

  /** The groups closed so far and the one being filled, after packing whole records in order. */
  function Grouped(z: Zstd, full: nat, blocks: seq<Block>): (seq<seq<Block>>, seq<Block>) {
    if blocks == [] then ([], [])
    else
      var n := |blocks| - 1;
      var (done, cur) := Grouped(z, full, blocks[..n]);
      if cur != [] && |Stream(z, cur)| + |RecordOf(z, blocks[n])| > full then (done + [cur], [blocks[n]])
      else (done, cur + [blocks[n]])
  }

  function Groups(z: Zstd, full: nat, blocks: seq<Block>): seq<seq<Block>> {
    var (done, cur) := Grouped(z, full, blocks);
    if cur == [] then done else done + [cur]
  }

  function Joined(groups: seq<seq<Block>>): seq<Block> {
    if groups == [] then [] else Joined(groups[..|groups| - 1]) + groups[|groups| - 1]
  }

  lemma {:induction false} JoinedSnoc(groups: seq<seq<Block>>, g: seq<Block>)
    ensures Joined(groups + [g]) == Joined(groups) + g
  {
    assert (groups + [g])[..|groups|] == groups;
  }

  lemma {:induction false} StreamSnoc(z: Zstd, blocks: seq<Block>, b: Block)
    ensures Stream(z, blocks + [b]) == Stream(z, blocks) + RecordOf(z, b)
  {
    assert (blocks + [b])[..|blocks|] == blocks;
  }

  /** Records as they stand in a stream: each behind its length. */
  function Prefixed(records: seq<Bytes>): Bytes {
    if records == [] then [] else LeBytes(|records[0]|, 4) + records[0] + Prefixed(records[1..])
  }

  /** No record starts here: too few bytes for a length, a zero length, or one beyond the end. */
  predicate NoRecord(rest: Bytes) {
    |rest| < 4 || FromLe(rest[..4]) == 0 || 4 + FromLe(rest[..4]) > |rest|
  }

  /** A stream is its records behind their lengths, and then something that is none. */
  lemma {:induction false} RecordsExactly(flat: Bytes)
    ensures Prefixed(Records(flat)) <= flat && NoRecord(flat[|Prefixed(Records(flat))|..])
    ensures forall r :: r in Records(flat) ==> r != []
    decreases |flat|
  {
    hide FromLe, LeBytes;
    if !NoRecord(flat) {
      var len := FromLe(flat[..4]);
      var rest := flat[4 + len..];
      RecordsExactly(rest);
      LeBytesFrom(flat[..4]);
      assert Records(flat)[1..] == Records(rest);
      assert flat == flat[..4] + flat[4..4 + len] + rest;
      var head := LeBytes(len, 4) + flat[4..4 + len];
      assert Prefixed(Records(flat)) == head + Prefixed(Records(rest));
      assert flat[|head| + |Prefixed(Records(rest))|..] == rest[|Prefixed(Records(rest))|..];
    } else {
      assert flat[0..] == flat;
    }
  }

  /** A group fits a generation unless it is one record that does not. */
  predicate FitsOrSingle(z: Zstd, full: nat, group: seq<Block>) {
    group != [] && (|Stream(z, group)| <= full || |group| == 1)
  }

  predicate AllFit(z: Zstd, full: nat, groups: seq<seq<Block>>) {
    forall i :: 0 <= i < |groups| ==> FitsOrSingle(z, full, groups[i])
  }

  lemma {:induction false} AllFitSnoc(z: Zstd, full: nat, groups: seq<seq<Block>>, g: seq<Block>)
    requires AllFit(z, full, groups) && FitsOrSingle(z, full, g)
    ensures AllFit(z, full, groups + [g])
  {
    hide FitsOrSingle;
  }

  lemma {:induction false} GroupedStep(z: Zstd, full: nat, blocks: seq<Block>)
    requires blocks != []
    ensures
      var n := |blocks| - 1;
      var (done, cur) := Grouped(z, full, blocks[..n]);
      Grouped(z, full, blocks) ==
        if cur != [] && |Stream(z, cur)| + |RecordOf(z, blocks[n])| > full then (done + [cur], [blocks[n]])
        else (done, cur + [blocks[n]])
  {
    hide Stream, RecordOf;
  }

  /** The first record of each group after the first would not have fitted the group before. */
  ghost predicate Greedy(z: Zstd, full: nat, groups: seq<seq<Block>>) {
    forall i :: 0 < i < |groups| ==>
      groups[i] != [] && |Stream(z, groups[i - 1])| + |RecordOf(z, groups[i][0])| > full
  }

  lemma {:induction false} GroupedPacks(z: Zstd, full: nat, blocks: seq<Block>)
    ensures
      var (done, cur) := Grouped(z, full, blocks);
      Greedy(z, full, done) && (cur != [] ==> Greedy(z, full, done + [cur]))
      && (done != [] ==> cur != [])
  {
    hide RecordOf, Stream;
    if blocks != [] {
      var n := |blocks| - 1;
      GroupedPacks(z, full, blocks[..n]);
      GroupedStep(z, full, blocks);
      hide Grouped;
      var (done, cur) := Grouped(z, full, blocks[..n]);
      if cur != [] {
        var more := cur + [blocks[n]];
        assert more[0] == cur[0];
        var closed := done + [cur];
        forall i | 0 < i < |done + [more]|
          ensures (done + [more])[i] != []
          ensures |Stream(z, (done + [more])[i - 1])| + |RecordOf(z, (done + [more])[i][0])| > full
        {
          assert closed[i - 1] == (done + [more])[i - 1] && closed[i][0] == (done + [more])[i][0];
        }
      }
    }
  }

  /** Grouping keeps every block, in order, and closes groups only where the next record would not fit. */
  lemma {:induction false} GroupedKeeps(z: Zstd, full: nat, blocks: seq<Block>)
    ensures
      var (done, cur) := Grouped(z, full, blocks);
      Joined(done) + cur == blocks && AllFit(z, full, done) && (cur != [] ==> FitsOrSingle(z, full, cur))
  {
    hide RecordOf, Stream, AllFit, Joined;
    if blocks == [] {
      NoGroups(z, full);
    } else {
      var n := |blocks| - 1;
      GroupedKeeps(z, full, blocks[..n]);
      var (done, cur) := Grouped(z, full, blocks[..n]);
      GroupedStep(z, full, blocks);
      hide Grouped;
      StreamSnoc(z, cur, blocks[n]);
      JoinedSnoc(done, cur);
      assert blocks == Joined(done) + cur + [blocks[n]];
      if cur != [] {
        AllFitSnoc(z, full, done, cur);
      }
    }
  }

  lemma {:induction false} NoGroups(z: Zstd, full: nat)
    ensures Grouped(z, full, []) == ([], []) && Joined([]) == [] && AllFit(z, full, [])
  {
  }

  lemma {:induction false} GroupsKeep(z: Zstd, full: nat, blocks: seq<Block>)
    ensures Joined(Groups(z, full, blocks)) == blocks
    ensures forall i :: 0 <= i < |Groups(z, full, blocks)| ==> FitsOrSingle(z, full, Groups(z, full, blocks)[i])
    ensures Greedy(z, full, Groups(z, full, blocks))
  {
    hide Stream, Grouped, Greedy;
    GroupedKeeps(z, full, blocks);
    GroupedPacks(z, full, blocks);
    var (done, cur) := Grouped(z, full, blocks);
    JoinedSnoc(done, cur);
    if cur != [] {
      AllFitSnoc(z, full, done, cur);
    }
  }

  lemma {:induction false} JoinedMember(groups: seq<seq<Block>>, b: Block)
    ensures b in Joined(groups) <==> exists g :: 0 <= g < |groups| && b in groups[g]
  {
    if groups != [] {
      var n := |groups| - 1;
      JoinedMember(groups[..n], b);
      assert Joined(groups) == Joined(groups[..n]) + groups[n];
      hide Joined;
      if b in Joined(groups[..n]) {
        var g :| 0 <= g < n && b in groups[..n][g];
        assert b in groups[g];
      }
      if exists g :: 0 <= g < |groups| && b in groups[g] {
        var g :| 0 <= g < |groups| && b in groups[g];
        if g < n {
          assert b in groups[..n][g];
        }
      }
    }
  }

  // ---------------------------------------------------------------------------- symbols

  function CeilDiv(n: nat, d: nat): nat
    requires d > 0
  {
    (n + d - 1) / d
  }

  lemma {:induction false} CeilCovers(n: nat, d: nat)
    requires d > 0
    ensures n <= CeilDiv(n, d) * d < n + d
  {
    var q := CeilDiv(n, d);
    assert n + d - 1 == q * d + (n + d - 1) % d;
  }

  /** The stream padded with zeros to whole symbols. */
  function Padded(chunk: Bytes, sym: nat): (p: Bytes)
    requires sym > 0
    ensures |p| == CeilDiv(|chunk|, sym) * sym
  {
    CeilCovers(|chunk|, sym);
    chunk + Zeros(CeilDiv(|chunk|, sym) * sym - |chunk|)
  }

  /** k symbols of sym bytes each. */
  function Symbols(p: Bytes, k: nat, sym: nat): (x: seq<Vec>)
    requires |p| == k * sym
    ensures Shape(x, k, sym)
  {
    if k == 0 then []
    else
      assert |p| - sym == (k - 1) * sym;
      Symbols(p[..|p| - sym], k - 1, sym) + [p[|p| - sym..]]
  }

  lemma {:induction false} FlattenSymbols(p: Bytes, k: nat, sym: nat)
    requires |p| == k * sym
    ensures Flat(Symbols(p, k, sym)) == p
  {
    if k > 0 {
      assert |p| - sym == (k - 1) * sym;
      FlattenSymbols(p[..|p| - sym], k - 1, sym);
    }
  }

  /** The source symbols of a group of blocks. */
  function SourceOf(z: Zstd, group: seq<Block>, sym: nat): (x: seq<Vec>)
    requires sym > 0
    ensures Shape(x, CeilDiv(|Stream(z, group)|, sym), sym)
  {
    Symbols(Padded(Stream(z, group), sym), CeilDiv(|Stream(z, group)|, sym), sym)
  }

  /** A decoded generation is parsed back into exactly the blocks that were packed. */
  lemma {:induction false} SourceUnpacks(h: Hashes, z: Zstd, group: seq<Block>, sym: nat)
    requires sym > 0 && Lossless(z) && BlocksOk(group)
    ensures UnpackAll(h, z, Records(Flat(SourceOf(z, group, sym)))) == Ok(Fulls(h, group))
  {
    hide Records, UnpackAll, Stream, CeilDiv, Lossless, Flat, Symbols;
    var chunk := Stream(z, group);
    var k := CeilDiv(|chunk|, sym);
    CeilCovers(|chunk|, sym);
    var p := Padded(chunk, sym);
    FlattenSymbols(p, k, sym);
    var pad := Zeros(k * sym - |chunk|);
    RecordsOfStream(z, group, pad);
    RecordsOfPadding(k * sym - |chunk|);
    assert PackedAll(z, group) + [] == PackedAll(z, group);
    UnpackStream(h, z, group);
  }

  // ----------------------------------------------------------------------------- frames

  /** A whole frame of a generation: its wires are true of the source and include all of it. */
  ghost predicate Codes(z: Zstd, f: BulkFrame, sid: nat, generation: nat, group: seq<Block>, sym: nat)
    requires sym > 0
  {
    var x := SourceOf(z, group, sym);
    && f.sid == sid && f.generation == generation && f.k == |x| && f.symbolSize == sym
    && (forall i :: 0 <= i < f.k ==> SystematicWire(x, i) in f.symbols)
    && (f.k <= 65536 ==> forall i :: 0 <= i < |f.symbols| ==> TrueWire(f.symbols[i], x, f.k, sym))
  }

  ghost predicate CodesAll(z: Zstd, frames: seq<BulkFrame>, sid: nat, groups: seq<seq<Block>>, sym: nat)
    requires sym > 0
  {
    |frames| == |groups| && forall g :: 0 <= g < |frames| ==> Codes(z, frames[g], sid, g, groups[g], sym)
  }

  /** The frame holds each source symbol in place and behind them one symbol for each pick, framed as picked. */
  ghost predicate Repaired(z: Zstd, f: BulkFrame, group: seq<Block>, sym: nat, picks: seq<(seq<nat>, Vec)>)
    requires sym > 0
  {
    var x := SourceOf(z, group, sym);
    && Picks(picks, |x|) && |f.symbols| == |x| + |picks|
    && (forall i :: 0 <= i < |x| ==> f.symbols[i] == SystematicWire(x, i))
    && (forall i :: |x| <= i < |f.symbols| ==>
          Framed(f.symbols[i], picks[i - |x|].0, picks[i - |x|].1, x, sym))
  }

  /** Codes one chunk: pads it, splits it into symbols and adds one repair symbol for each pick. */
  method EncodeGeneration(z: Zstd, sid: nat, generation: nat, ghost group: seq<Block>, chunk: Bytes, sym: nat,
                          picks: seq<(seq<nat>, Vec)>) returns (f: BulkFrame)
    requires sym > 0 && group != [] && chunk == Stream(z, group) && Picks(picks, CeilDiv(|chunk|, sym))
    ensures Codes(z, f, sid, generation, group, sym) && f.k == CeilDiv(|chunk|, sym)
    ensures Repaired(z, f, group, sym, picks)
  {
    hide Stream, TrueWire, SystematicWire, Picks, CeilDiv, Framed, SaysPick;
    var k := CeilDiv(|chunk|, sym);
    StreamNonempty(z, group);
    CeilCovers(|chunk|, sym);
    var padded := Padded(chunk, sym);
    var source := Symbols(padded, k, sym);
    var enc := new FountainEncoder(source, sym);
    var wires := enc.Produce(k + |picks|, picks);
    forall i | 0 <= i < k ensures SystematicWire(source, i) in wires {
      assert wires[i] == SystematicWire(source, i);
    }
    f := BulkFrame(sid, generation, k, sym, wires);
  }

  lemma {:induction false} StreamNonempty(z: Zstd, group: seq<Block>)
    requires group != []
    ensures Stream(z, group) != []
  {
    hide RecordOf;
    var n := |group| - 1;
    assert RecordOf(z, group[n]) != [];
  }

  /** Cuts the stored blocks of a missing set into chunks at record boundaries. */
  method Shard(z: Zstd, store: ContentStore, missing: seq<Digest>, full: nat) returns (chunks: seq<Bytes>)
    ensures var groups := Groups(z, full, Lookup(store.blocks, missing));
      |chunks| == |groups| && forall i :: 0 <= i < |chunks| ==> chunks[i] == Stream(z, groups[i])
  {
    hide RecordOf, Stream;
    chunks := [];
    var cur: Bytes := [];
    ghost var blocks: seq<Block> := [];
    StreamEmpty(z);
    for i := 0 to |missing|
      invariant blocks == Lookup(store.blocks, missing[..i])
      invariant var (done, group) := Grouped(z, full, blocks);
        && cur == Stream(z, group) && (cur == [] <==> group == [])
        && |chunks| == |done| && forall j :: 0 <= j < |chunks| ==> chunks[j] == Stream(z, done[j])
    {
      assert missing[..i + 1][..i] == missing[..i];
      if missing[i] in store.blocks {
        var b := store.blocks[missing[i]];
        var rec := RecordOf(z, b);
        ghost var group := Grouped(z, full, blocks).1;
        assert (blocks + [b])[..|blocks|] == blocks;
        StreamSnoc(z, group, b);
        StreamSnoc(z, [], b);
        assert [] + [b] == [b];
        if cur != [] && |cur| + |rec| > full {
          chunks := chunks + [cur];
          cur := [];
        }
        cur := cur + rec;
        blocks := blocks + [b];
      }
    }
    assert missing[..|missing|] == missing;
    if cur != [] {
      chunks := chunks + [cur];
    }
  }

  lemma {:induction false} StreamEmpty(z: Zstd)
    ensures Stream(z, []) == []
  {
  }

  /** One frame per generation for the missing set; `repairs` picks the repair symbols of each. */
  method BulkFramesFor(z: Zstd, store: ContentStore, sid: nat, missing: seq<Digest>,
                       repairs: nat -> seq<(seq<nat>, Vec)>)
      returns (frames: seq<BulkFrame>)
    requires forall k: nat :: Picks(repairs(k), k)
    ensures
      var groups := Groups(z, FOUNTAIN_K * SYMBOL_SIZE, Lookup(store.blocks, missing));
      && CodesAll(z, frames, sid, groups, SYMBOL_SIZE)
      && forall g :: 0 <= g < |frames| ==> Repaired(z, frames[g], groups[g], SYMBOL_SIZE, repairs(frames[g].k))
  {
    hide Codes, Repaired, Stream, Groups, Lookup, Picks, FitsOrSingle;
    ghost var blocks := Lookup(store.blocks, missing);
    ghost var groups := Groups(z, FOUNTAIN_K * SYMBOL_SIZE, blocks);
    var chunks := Shard(z, store, missing, FOUNTAIN_K * SYMBOL_SIZE);
    frames := [];
    for g := 0 to |chunks|
      invariant |frames| == g && forall i :: 0 <= i < g ==> Codes(z, frames[i], sid, i, groups[i], SYMBOL_SIZE)
      invariant forall i :: 0 <= i < g ==> Repaired(z, frames[i], groups[i], SYMBOL_SIZE, repairs(frames[i].k))
    {
      GroupNonempty(z, FOUNTAIN_K * SYMBOL_SIZE, blocks, g);
      var picks := repairs(CeilDiv(|chunks[g]|, SYMBOL_SIZE));
      var f := EncodeGeneration(z, sid, g, groups[g], chunks[g], SYMBOL_SIZE, picks);
      frames := frames + [f];
    }
  }

  lemma {:induction false} GroupNonempty(z: Zstd, full: nat, blocks: seq<Block>, g: nat)
    requires g < |Groups(z, full, blocks)|
    ensures Groups(z, full, blocks)[g] != []
  {
    hide Groups;
    GroupsKeep(z, full, blocks);
    assert FitsOrSingle(z, full, Groups(z, full, blocks)[g]);
  }
}
