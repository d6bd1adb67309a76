/**
  The client: a session shim that turns new blocks into APPEND frames
  (`crates/shim/src/lib.rs`), and the single-flight chat session around it
  (`crates/sidecar/src/lib.rs`), as functions on their state.  The classes are in
  `ChatSession.dfy`.

  The dedup filter's answers are arguments: nothing below depends on them.
 */
module ChatModel {
  import opened Bytes
  import opened Blocks
  import opened Results
  import opened Store
  import opened Frames
  import opened FrameCodec
  import opened ReceiverModel

  const APPEND_LEVEL: int := 3

  datatype Shim = Shim(sid: nat, store: StoreState, ids: seq<Digest>, root: Digest, baseRoot: Digest, baseLen: nat)

  /** The wire form of new content: its canonical bytes, compressed, in a carrier block. */
  function WireBlock(z: Zstd, b: Block): FrameBlock {
    Inline(Block(b.kind, b.seqNo, Compress(z, APPEND_LEVEL, Canonical(b))))
  }

  function IngestBlock(h: Hashes, z: Zstd, s: Shim, b: Block, maybe: bool): (Shim, FrameBlock) {
    var id := BlockId(h, b);
    var next := s.(ids := s.ids + [id], root := h.append(s.root, id));
    if maybe && id in s.store.blocks then (next.(store := Step(h, s.store, Reference(s.sid, id))), Ref(id))
    else (next.(store := Step(h, s.store, Insert(s.sid, b, id))), WireBlock(z, b))
  }

  /** One turn: the client's new state and the frame's blocks. */
  function Ingest(h: Hashes, z: Zstd, s: Shim, blocks: seq<Block>, maybe: seq<bool>): (r: (Shim, seq<FrameBlock>))
    requires |maybe| == |blocks|
    ensures |r.1| == |blocks|
  {
    if blocks == [] then (s, [])
    else
      var n := |blocks| - 1;
      var (before, sent) := Ingest(h, z, s, blocks[..n], maybe[..n]);
      var (next, fb) := IngestBlock(h, z, before, blocks[n], maybe[n]);
      (next, sent + [fb])
  }

  /** The cold-start manifest. */
  function ResyncOf(s: Shim): ResyncFrame { ResyncFrame(s.sid, s.root, s.ids) }

  /** The first nonempty prefix whose root is `acked`. */
  ghost predicate FirstPrefix(h: Hashes, ids: seq<Digest>, acked: Digest, i: nat) {
    && 1 <= i <= |ids| && RootOver(h, ROOT_ZERO, ids[..i]) == acked
    && forall j :: 1 <= j < i ==> RootOver(h, ROOT_ZERO, ids[..j]) != acked
  }

  // ------------------------------------------------------------------- the chat session

  const MAGIC: Bytes := [0x44, 0x4C, 0x52, 0x31]
  const PROTOCOL_VERSION: nat := 1
  const MAX_METADATA: nat := 2 * 1024 * 1024
  const MAX_REQUEST: nat := 64 * 1024 * 1024

  datatype SidecarError = RequestInFlight | MetadataTooLarge | RequestTooLarge

  /** A message, serialized, with the block kind of its role. */
  datatype Message = Message(kind: BlockKind, payload: Bytes)

  datatype Chat = Chat(shim: Shim, nextSeq: nat, pending: Option<Digest>)

  datatype Prepared = Prepared(body: Bytes, expectedRoot: Digest, frame: AppendFrame)

  function Saturated(n: nat): nat { if n > U64_MAX then U64_MAX else n }

  /** Numbers the messages from the session's next sequence number, which saturates. */
  function Numbered(messages: seq<Message>, from: nat): (blocks: seq<Block>)
    ensures |blocks| == |messages|
  {
    seq(|messages|, i requires 0 <= i < |messages| =>
      Block(messages[i].kind, Saturated(from + i), messages[i].payload))
  }

  /** The bound checked before anything is changed. */
  function WorstCase(metadata: Bytes, messages: seq<Message>): nat {
    if messages == [] then 10 + |metadata| + 53
    else WorstCase(metadata, messages[..|messages| - 1]) + 39 + |messages[|messages| - 1].payload|
  }

  /** magic | version | metadata length | metadata | frame */
  function EncodeParts(metadata: Bytes, frame: Bytes): Result<Bytes, SidecarError> {
    if |metadata| > MAX_METADATA then Err(MetadataTooLarge)
    else if 4 + 2 + 4 + |metadata| + |frame| > MAX_REQUEST then Err(RequestTooLarge)
    else Ok(MAGIC + LeBytes(PROTOCOL_VERSION, 2) + LeBytes(|metadata|, 4) + metadata + frame)
  }

  /** No request is in flight and the bounds hold. */
  predicate Admitted(c: Chat, messages: seq<Message>, metadata: Bytes) {
    c.pending.None? && |metadata| <= MAX_METADATA && WorstCase(metadata, messages) <= MAX_REQUEST
  }

  /** The session with the messages added and their frame in flight. */
  function Advance(h: Hashes, z: Zstd, c: Chat, messages: seq<Message>, maybe: seq<bool>): (Chat, AppendFrame)
    requires |maybe| == |messages|
  {
    var (shim, blocks) := Ingest(h, z, c.shim, Numbered(messages, c.nextSeq), maybe);
    (Chat(shim, Saturated(c.nextSeq + |messages|), Some(shim.root)), AppendFrame(shim.sid, shim.baseRoot, blocks))
  }

  function Prepare(h: Hashes, z: Zstd, c: Chat, messages: seq<Message>, metadata: Bytes, maybe: seq<bool>)
    : (Chat, Result<Prepared, SidecarError>)
    requires |maybe| == |messages|
  {
    if c.pending.Some? then (c, Err(RequestInFlight))
    else if |metadata| > MAX_METADATA then (c, Err(MetadataTooLarge))
    else if WorstCase(metadata, messages) > MAX_REQUEST then (c, Err(RequestTooLarge))
    else
      var (next, frame) := Advance(h, z, c, messages, maybe);
      var body := EncodeParts(metadata, EncodeFrame(Append(frame)));
      if body.Err? then (next.(pending := None), Err(body.error))
      else (next, Ok(Prepared(body.value, next.shim.root, frame)))
  }

  // --------------------------------------------------------------- prepare is atomic

  lemma {:induction false} PayloadBound(metadata: Bytes, messages: seq<Message>, i: nat)
    requires i < |messages|
    ensures |messages[i].payload| + 39 <= WorstCase(metadata, messages)
  {
    var n := |messages| - 1;
    if i < n {
      PayloadBound(metadata, messages[..n], i);
    }
  }

  /** A frame block takes at most 39 bytes more than its message. */
  lemma {:induction false} BlockSize(h: Hashes, z: Zstd, s: Shim, b: Block, maybe: bool)
    requires |BlockId(h, b)| <= 32
    ensures |BlockBytes(IngestBlock(h, z, s, b, maybe).1)| <= 39 + |b.payload|
  {
    hide LeBytes, Compress, BlockId;
  }

  lemma {:induction false} ConcatSnoc<T>(enc: T -> Bytes, ts: seq<T>, t: T)
    ensures Concat(enc, ts + [t]) == Concat(enc, ts) + enc(t)
  {
    if ts == [] {
      assert (ts + [t])[1..] == [] && Concat(enc, (ts + [t])[1..]) == [];
    } else {
      assert (ts + [t])[1..] == ts[1..] + [t];
      ConcatSnoc(enc, ts[1..], t);
    }
  }

  lemma {:induction false} EntriesSize(h: Hashes, z: Zstd, s: Shim, messages: seq<Message>, from: nat,
                                       maybe: seq<bool>, metadata: Bytes)
    requires |maybe| == |messages| && forall b :: |h.block(b)| <= 32
    ensures 63 + |metadata| + |Concat(BlockBytes, Ingest(h, z, s, Numbered(messages, from), maybe).1)|
            <= WorstCase(metadata, messages)
  {
    hide IngestBlock, BlockBytes;
    if messages != [] {
      var n := |messages| - 1;
      var blocks := Numbered(messages, from);
      assert Numbered(messages[..n], from) == blocks[..n];
      EntriesSize(h, z, s, messages[..n], from, maybe[..n], metadata);
      var (before, sent) := Ingest(h, z, s, blocks[..n], maybe[..n]);
      BlockSize(h, z, before, blocks[n], maybe[n]);
      ConcatSnoc(BlockBytes, sent, IngestBlock(h, z, before, blocks[n], maybe[n]).1);
    }
  }

  /**
    A request that passes the worst-case bound always fits once it is compressed and
    framed, so preparing either succeeds or leaves the session as it was.
   */
  lemma {:induction false} PrepareAtomic(h: Hashes, z: Zstd, c: Chat, messages: seq<Message>, metadata: Bytes,
                                         maybe: seq<bool>)
    requires |maybe| == |messages| && |c.shim.baseRoot| <= 32 && forall b :: |h.block(b)| <= 32
    ensures
      var (next, r) := Prepare(h, z, c, messages, metadata, maybe);
      && (r.Err? ==> next == c)
      && (r.Ok? <==> Admitted(c, messages, metadata))
      && (r.Ok? ==> (next, r.value.frame) == Advance(h, z, c, messages, maybe))
      && (r.Ok? ==> next.pending == Some(r.value.expectedRoot) && |r.value.body| <= MAX_REQUEST)
  {
    hide Ingest, Concat, LeBytes, Numbered, WorstCase;
    if Admitted(c, messages, metadata) {
      EntriesSize(h, z, c.shim, messages, c.nextSeq, maybe, metadata);
      var (shim, blocks) := Ingest(h, z, c.shim, Numbered(messages, c.nextSeq), maybe);
      IngestBase(h, z, c.shim, Numbered(messages, c.nextSeq), maybe);
      assert |EncodeFrame(Append(AppendFrame(shim.sid, shim.baseRoot, blocks)))| <= 53 + |Concat(BlockBytes, blocks)|;
    }
  }

  /** Data the compressor cannot shorten. */
  ghost predicate Incompressible(z: Zstd) { forall level, b :: |z.encode(level, b)| >= |b| }

  lemma {:induction false} BlockTight(h: Hashes, z: Zstd, s: Shim, b: Block)
    requires Incompressible(z)
    ensures |BlockBytes(IngestBlock(h, z, s, b, false).1)| == 39 + |b.payload|
  {
    hide LeBytes, BlockId;
  }

  lemma {:induction false} EntriesTight(h: Hashes, z: Zstd, s: Shim, messages: seq<Message>, from: nat,
                                        maybe: seq<bool>, metadata: Bytes)
    requires |maybe| == |messages| && Incompressible(z) && forall i :: 0 <= i < |maybe| ==> !maybe[i]
    ensures 63 + |metadata| + |Concat(BlockBytes, Ingest(h, z, s, Numbered(messages, from), maybe).1)|
            == WorstCase(metadata, messages)
  {
    hide IngestBlock, BlockBytes, Incompressible;
    if messages != [] {
      var n := |messages| - 1;
      var blocks := Numbered(messages, from);
      assert Numbered(messages[..n], from) == blocks[..n];
      EntriesTight(h, z, s, messages[..n], from, maybe[..n], metadata);
      var (before, sent) := Ingest(h, z, s, blocks[..n], maybe[..n]);
      BlockTight(h, z, before, blocks[n]);
      ConcatSnoc(BlockBytes, sent, IngestBlock(h, z, before, blocks[n], maybe[n]).1);
    }
  }

  /** The bound is reached: no smaller one would do. */
  lemma {:induction false} WorstCaseReached(h: Hashes, z: Zstd, c: Chat, messages: seq<Message>, metadata: Bytes,
                                            maybe: seq<bool>)
    requires |maybe| == |messages| && Incompressible(z) && forall i :: 0 <= i < |maybe| ==> !maybe[i]
    requires |c.shim.baseRoot| == 32 && Admitted(c, messages, metadata)
    ensures
      var r := Prepare(h, z, c, messages, metadata, maybe).1;
      r.Ok? && |r.value.body| == WorstCase(metadata, messages)
  {
    hide Ingest, Concat, LeBytes, Numbered, WorstCase, Incompressible;
    EntriesTight(h, z, c.shim, messages, c.nextSeq, maybe, metadata);
    var (shim, blocks) := Ingest(h, z, c.shim, Numbered(messages, c.nextSeq), maybe);
    IngestBase(h, z, c.shim, Numbered(messages, c.nextSeq), maybe);
    assert |EncodeFrame(Append(AppendFrame(shim.sid, shim.baseRoot, blocks)))| == 53 + |Concat(BlockBytes, blocks)|;
  }

  lemma {:induction false} IngestBase(h: Hashes, z: Zstd, s: Shim, blocks: seq<Block>, maybe: seq<bool>)
    requires |maybe| == |blocks|
    ensures
      var t := Ingest(h, z, s, blocks, maybe).0;
      t.sid == s.sid && t.baseRoot == s.baseRoot && t.baseLen == s.baseLen
  {
    if blocks != [] {
      var n := |blocks| - 1;
      IngestBase(h, z, s, blocks[..n], maybe[..n]);
    }
  }

  // -------------------------------------------------------------------- what a turn says

  function BlockIds(h: Hashes, blocks: seq<Block>): (ids: seq<Digest>)
    ensures |ids| == |blocks|
  {
    seq(|blocks|, i requires 0 <= i < |blocks| => BlockId(h, blocks[i]))
  }

  /** The shim's store holds this session alone, and its log is the client's log. */
  ghost predicate ShimOk(h: Hashes, s: Shim) {
    && s.root == RootOver(h, ROOT_ZERO, s.ids)
    && LogOf(s.store, s.sid) == SessionLog(s.ids, s.root)
    && ContentAddressed(h, s.store)
    && (forall id :: id in s.store.blocks <==> id in s.ids)
    && s.baseLen <= |s.ids| && s.baseRoot == RootOver(h, ROOT_ZERO, s.ids[..s.baseLen])
  }

  lemma {:induction false} IngestBlockOk(h: Hashes, z: Zstd, s: Shim, b: Block, maybe: bool)
    requires ShimOk(h, s) && BlockOk(b)
    ensures
      var (next, fb) := IngestBlock(h, z, s, b, maybe);
      && ShimOk(h, next) && next.ids == s.ids + [BlockId(h, b)]
      && next.sid == s.sid && next.baseLen == s.baseLen && next.baseRoot == s.baseRoot
      && (fb == WireBlock(z, b) || (fb == Ref(BlockId(h, b)) && BlockId(h, b) in s.ids))
  {
    hide BlockId, WireBlock, Step, ContentAddressed, RootOver, LogOf;
    var id := BlockId(h, b);
    var item := if maybe && id in s.store.blocks then Known(id) else Full(id, b);
    GrownOne(h, s.store, s.sid, item);
    assert [item][0] == item;
    RootOverAppend(h, ROOT_ZERO, s.ids, [id]);
    RootOne(h, s.root, id);
    var (next, fb) := IngestBlock(h, z, s, b, maybe);
    assert next.store == Step(h, s.store, ItemOp(s.sid, item));
    assert next.ids[..s.baseLen] == s.ids[..s.baseLen];
    assert next.store.blocks.Keys == s.store.blocks.Keys + {id};
    forall x ensures x in next.store.blocks <==> x in next.ids {
      assert x in next.store.blocks <==> x in next.store.blocks.Keys;
      assert x in s.store.blocks <==> x in s.ids;
    }
  }

  /** The items carry the ids, each reference pointing back into the log. */
  ghost predicate SaysItems(past: seq<Digest>, added: seq<Digest>, items: seq<Item>) {
    Ids(items) == added && forall i :: 0 <= i < |items| && items[i].Known? ==> items[i].id in past + added[..i]
  }

  /** A frame the receiver can resolve to the ids, each reference pointing back into the log. */
  ghost predicate Says(h: Hashes, z: Zstd, past: seq<Digest>, added: seq<Digest>, blocks: seq<FrameBlock>) {
    var r := Resolve(h, z, blocks);
    r.Ok? && SaysItems(past, added, r.value)
  }

  lemma {:induction false} SaysNothing(h: Hashes, z: Zstd, past: seq<Digest>)
    ensures Says(h, z, past, [], [])
  {
  }

  lemma {:induction false} SaysItemsSnoc(past: seq<Digest>, added: seq<Digest>, items: seq<Item>, item: Item)
    requires SaysItems(past, added, items) && (item.Known? ==> item.id in past + added)
    ensures SaysItems(past, added + [item.id], items + [item])
  {
    var more, ids := items + [item], added + [item.id];
    assert Ids(more) == ids;
    forall i | 0 <= i < |more| && more[i].Known? ensures more[i].id in past + ids[..i] {
      if i < |items| {
        assert more[i] == items[i] && ids[..i] == added[..i];
      } else {
        assert ids[..i] == added;
      }
    }
  }

  lemma {:induction false} ResolveSnoc(h: Hashes, z: Zstd, blocks: seq<FrameBlock>, fb: FrameBlock)
    requires Resolve(h, z, blocks).Ok? && ResolveOne(h, z, fb).Ok?
    ensures Resolve(h, z, blocks + [fb]) == Ok(Resolve(h, z, blocks).value + [ResolveOne(h, z, fb).value])
  {
    hide ResolveOne;
    assert (blocks + [fb])[..|blocks|] == blocks;
  }

  lemma {:induction false} SaysSnoc(h: Hashes, z: Zstd, past: seq<Digest>, added: seq<Digest>, blocks: seq<FrameBlock>,
                                    b: Block, fb: FrameBlock)
    requires Lossless(z) && BlockOk(b) && Says(h, z, past, added, blocks)
    requires fb == WireBlock(z, b) || (fb == Ref(BlockId(h, b)) && BlockId(h, b) in past + added)
    ensures Says(h, z, past, added + [BlockId(h, b)], blocks + [fb])
  {
    hide Canonical, Unpack, Resolve, SaysItems, Lossless, BlockOk, BlockId;
    UnpackCompressed(h, z, APPEND_LEVEL, b);
    ResolveSnoc(h, z, blocks, fb);
    SaysItemsSnoc(past, added, Resolve(h, z, blocks).value, ResolveOne(h, z, fb).value);
  }

  /** A block goes as a reference exactly if the filter may know it and it is in the log already. */
  lemma {:induction false} ReferencedExactly(h: Hashes, z: Zstd, s: Shim, blocks: seq<Block>, maybe: seq<bool>, i: nat)
    requires |maybe| == |blocks| && i < |blocks| && ShimOk(h, s) && Lossless(z)
    requires forall j :: 0 <= j < |blocks| ==> BlockOk(blocks[j])
    ensures Ingest(h, z, s, blocks, maybe).1[i].Ref? <==>
            maybe[i] && BlockId(h, blocks[i]) in s.ids + BlockIds(h, blocks)[..i]
  {
    hide ShimOk, BlockId, WireBlock, Lossless, Says, Step, BlockOk;
    var n := |blocks| - 1;
    if i < n {
      ReferencedExactly(h, z, s, blocks[..n], maybe[..n], i);
      assert BlockIds(h, blocks[..n])[..i] == BlockIds(h, blocks)[..i];
    } else {
      IngestSays(h, z, s, blocks[..n], maybe[..n]);
      var before := Ingest(h, z, s, blocks[..n], maybe[..n]).0;
      assert BlockIds(h, blocks[..n]) == BlockIds(h, blocks)[..n];
      KnownIds(h, before);
      hide IngestBlock;
      ReferencedOne(h, z, before, blocks[n], maybe[n]);
    }
  }

  lemma {:induction false} KnownIds(h: Hashes, s: Shim)
    requires ShimOk(h, s)
    ensures forall id :: id in s.store.blocks <==> id in s.ids
  {
  }

  lemma {:induction false} ReferencedOne(h: Hashes, z: Zstd, s: Shim, b: Block, maybe: bool)
    ensures IngestBlock(h, z, s, b, maybe).1.Ref? <==> maybe && BlockId(h, b) in s.store.blocks
  {
    hide BlockId, Step;
  }

  /** A turn extends the client's log by its blocks and emits a frame that says so, whatever the filter answers. */
  lemma {:induction false} IngestSays(h: Hashes, z: Zstd, s: Shim, blocks: seq<Block>, maybe: seq<bool>)
    requires |maybe| == |blocks| && ShimOk(h, s) && Lossless(z)
    requires forall i :: 0 <= i < |blocks| ==> BlockOk(blocks[i])
    ensures
      var (next, sent) := Ingest(h, z, s, blocks, maybe);
      && ShimOk(h, next) && next.ids == s.ids + BlockIds(h, blocks)
      && next.sid == s.sid && next.baseLen == s.baseLen && next.baseRoot == s.baseRoot
      && Says(h, z, s.ids, BlockIds(h, blocks), sent)
  {
    hide ShimOk, IngestBlock, BlockId, WireBlock, Lossless, Says;
    if blocks == [] {
      assert s.ids + BlockIds(h, blocks) == s.ids;
      SaysNothing(h, z, s.ids);
      assert BlockIds(h, blocks) == [];
    } else {
      var n := |blocks| - 1;
      IngestSays(h, z, s, blocks[..n], maybe[..n]);
      var (before, sent) := Ingest(h, z, s, blocks[..n], maybe[..n]);
      IngestBlockOk(h, z, before, blocks[n], maybe[n]);
      var fb := IngestBlock(h, z, before, blocks[n], maybe[n]).1;
      assert BlockIds(h, blocks) == BlockIds(h, blocks[..n]) + [BlockId(h, blocks[n])];
      hide Ingest;
      SaysSnoc(h, z, s.ids, BlockIds(h, blocks[..n]), sent, blocks[n], fb);
    }
  }
}
