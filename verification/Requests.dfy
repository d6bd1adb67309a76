/**
  A prepared chat request as the sidecar reads it (`crates/sidecar/src/lib.rs`): the
  envelope reader, and what it finds in the bytes a chat session posts.
 */
module Requests {
  import opened Bytes
  import opened Blocks
  import opened Results
  import opened Store
  import opened Frames
  import opened FrameCodec
  import opened ReceiverModel
  import opened AckSafety
  import opened ChatModel
  import opened Replication

  // ---------------------------------------------------------------------- the envelope

  datatype Envelope = Envelope(metadata: Bytes, frame: Bytes)

  datatype EnvelopeError = BadHeader | UnsupportedVersion(version: nat) | LongMetadata(size: nat) | NoFrame

  /** Splits a request into metadata and frame bytes; the metadata are not parsed here. */
  function DecodeEnvelope(body: Bytes): Result<Envelope, EnvelopeError> {
    if |body| < 10 || body[..4] != MAGIC then Err(BadHeader)
    else
      var version, size := FromLe(body[4..6]), FromLe(body[6..10]);
      if version != PROTOCOL_VERSION then Err(UnsupportedVersion(version))
      else if size > MAX_METADATA then Err(LongMetadata(size))
      else if 10 + size >= |body| then Err(NoFrame)
      else Ok(Envelope(body[10..10 + size], body[10 + size..]))
  }

  lemma {:induction false} HeaderParts(metadata: Bytes, frame: Bytes)
    requires EncodeParts(metadata, frame).Ok?
    ensures
      var body := EncodeParts(metadata, frame).value;
      && |body| == 10 + |metadata| + |frame| && body[..4] == MAGIC
      && FromLe(body[4..6]) == PROTOCOL_VERSION && FromLe(body[6..10]) == |metadata| <= MAX_METADATA
      && body[10..10 + |metadata|] == metadata && body[10 + |metadata|..] == frame
  {
    hide LeBytes, FromLe;
    var body := EncodeParts(metadata, frame).value;
    Widths();
    assert Pow256(2) == 65536 by { assert Pow256(1) == 256; }
    FromLeBytes(PROTOCOL_VERSION, 2);
    FromLeBytes(|metadata|, 4);
    assert body[4..6] == LeBytes(PROTOCOL_VERSION, 2) && body[6..10] == LeBytes(|metadata|, 4);
  }

  /** Reading an encoded request gives metadata and frame back, unless the frame is empty. */
  lemma {:induction false} EnvelopeRoundTrip(metadata: Bytes, frame: Bytes)
    requires EncodeParts(metadata, frame).Ok?
    ensures DecodeEnvelope(EncodeParts(metadata, frame).value) ==
            if frame == [] then Err(NoFrame) else Ok(Envelope(metadata, frame))
  {
    hide EncodeParts, FromLe;
    HeaderParts(metadata, frame);
  }

  /** Any request that can be read, within the bound, is the encoding of what was read. */
  lemma {:induction false} EnvelopeCanonical(body: Bytes)
    requires DecodeEnvelope(body).Ok? && |body| <= MAX_REQUEST
    ensures
      var e := DecodeEnvelope(body).value;
      e.frame != [] && EncodeParts(e.metadata, e.frame) == Ok(body)
  {
    hide LeBytes, FromLe;
    LeBytesFrom(body[4..6]);
    LeBytesFrom(body[6..10]);
    var e := DecodeEnvelope(body).value;
    assert body == body[..4] + body[4..6] + body[6..10] + e.metadata + e.frame;
  }

  // ------------------------------------------------------------------ the frame fits

  lemma {:induction false} CountBound(metadata: Bytes, messages: seq<Message>)
    ensures 39 * |messages| + 63 <= WorstCase(metadata, messages)
  {
    if messages != [] {
      CountBound(metadata, messages[..|messages| - 1]);
    }
  }

  /** The widths the session's types fix. */
  ghost predicate Sized(h: Hashes, s: Shim) {
    && s.sid < 0x1_0000_0000_0000_0000_0000_0000_0000_0000
    && |s.baseRoot| == 32 && forall b :: |h.block(b)| == 32
  }

  lemma {:induction false} EntryFits(h: Hashes, z: Zstd, s: Shim, b: Block, maybe: bool, fb: FrameBlock)
    requires |BlockId(h, b)| == 32 && b.seqNo <= U64_MAX && |b.payload| <= MAX_REQUEST
    requires fb == IngestBlock(h, z, s, b, maybe).1
    ensures EntryOk(fb)
  {
    hide Compress, BlockId, LeBytes, Step;
  }

  predicate AllFit(sent: seq<FrameBlock>) { forall i :: 0 <= i < |sent| ==> EntryOk(sent[i]) }

  lemma {:induction false} EntriesFit(h: Hashes, z: Zstd, s: Shim, blocks: seq<Block>, maybe: seq<bool>)
    requires |maybe| == |blocks| && forall b :: |h.block(b)| == 32
    requires forall i :: 0 <= i < |blocks| ==> blocks[i].seqNo <= U64_MAX && |blocks[i].payload| <= MAX_REQUEST
    ensures AllFit(Ingest(h, z, s, blocks, maybe).1)
  {
    hide IngestBlock, EntryOk;
    if blocks != [] {
      var n := |blocks| - 1;
      EntriesFit(h, z, s, blocks[..n], maybe[..n]);
      var (before, sent) := Ingest(h, z, s, blocks[..n], maybe[..n]);
      var fb := IngestBlock(h, z, before, blocks[n], maybe[n]).1;
      EntryFits(h, z, before, blocks[n], maybe[n], fb);
      assert AllFit(sent + [fb]);
    }
  }

  /** Every admitted request makes a frame the codec can carry. */
  lemma {:induction false} AdmittedFits(h: Hashes, z: Zstd, c: Chat, messages: seq<Message>, metadata: Bytes,
                                        maybe: seq<bool>)
    requires |maybe| == |messages| && Sized(h, c.shim) && Admitted(c, messages, metadata)
    ensures
      var f := Advance(h, z, c, messages, maybe).1;
      FrameFits(Append(f)) && f.sid == c.shim.sid && f.baseRoot == c.shim.baseRoot
  {
    hide Ingest, WorstCase, EntryOk;
    CountBound(metadata, messages);
    var blocks := Numbered(messages, c.nextSeq);
    forall i | 0 <= i < |blocks| ensures |blocks[i].payload| <= MAX_REQUEST {
      PayloadBound(metadata, messages, i);
    }
    EntriesFit(h, z, c.shim, blocks, maybe);
    IngestBase(h, z, c.shim, blocks, maybe);
  }

  // --------------------------------------------------------------- the messages in it

  /** The item stands for the message under this number. */
  ghost predicate Conveys(h: Hashes, item: Item, m: Message, number: nat) {
    var b := Block(m.kind, number, m.payload);
    item.id == BlockId(h, b) && (item.Full? ==> item.block == b)
  }

  /** The items stand for the messages in order, numbered from `next` up to the last 64-bit number. */
  ghost predicate ConveysAll(h: Hashes, items: seq<Item>, messages: seq<Message>, next: nat) {
    && |items| == |messages|
    && forall i :: 0 <= i < |items| ==>
         Conveys(h, items[i], messages[i], if next + i > U64_MAX then U64_MAX else next + i)
  }

  /** What the receiver resolves the blocks of a turn to. */
  lemma {:induction false} IngestConveys(h: Hashes, z: Zstd, s: Shim, blocks: seq<Block>, maybe: seq<bool>)
    requires |maybe| == |blocks| && Lossless(z) && forall i :: 0 <= i < |blocks| ==> BlockOk(blocks[i])
    ensures
      var items := Resolve(h, z, Ingest(h, z, s, blocks, maybe).1);
      && items.Ok? && |items.value| == |blocks|
      && forall i :: 0 <= i < |blocks| ==>
           && items.value[i].id == BlockId(h, blocks[i])
           && (items.value[i].Full? ==> items.value[i].block == blocks[i])
  {
    hide Canonical, Compress, Unpack, BlockId, Lossless, BlockOk, Step;
    if blocks != [] {
      var n := |blocks| - 1;
      IngestConveys(h, z, s, blocks[..n], maybe[..n]);
      var (before, sent) := Ingest(h, z, s, blocks[..n], maybe[..n]);
      var fb := IngestBlock(h, z, before, blocks[n], maybe[n]).1;
      UnpackCompressed(h, z, APPEND_LEVEL, blocks[n]);
      ResolveSnoc(h, z, sent, fb);
    }
  }

  /** An APPEND frame of the session for these messages. */
  ghost predicate FrameConveys(h: Hashes, z: Zstd, f: AppendFrame, s: Shim, messages: seq<Message>, next: nat) {
    && f.sid == s.sid && f.baseRoot == s.baseRoot
    && var items := Resolve(h, z, f.blocks); items.Ok? && ConveysAll(h, items.value, messages, next)
  }

  lemma {:induction false} AdvanceConveys(h: Hashes, z: Zstd, c: Chat, messages: seq<Message>, metadata: Bytes,
                                          maybe: seq<bool>)
    requires |maybe| == |messages| && Lossless(z) && Admitted(c, messages, metadata)
    ensures FrameConveys(h, z, Advance(h, z, c, messages, maybe).1, c.shim, messages, c.nextSeq)
  {
    hide Ingest, WorstCase, Resolve, BlockId, Lossless;
    var blocks := Numbered(messages, c.nextSeq);
    forall i | 0 <= i < |blocks| ensures BlockOk(blocks[i]) {
      PayloadBound(metadata, messages, i);
    }
    IngestConveys(h, z, c.shim, blocks, maybe);
    IngestBase(h, z, c.shim, blocks, maybe);
  }

  /** The bytes read as these metadata and an APPEND frame of the session for these messages. */
  ghost predicate RequestReads(h: Hashes, z: Zstd, body: Bytes, s: Shim, messages: seq<Message>, next: nat,
                               metadata: Bytes)
  {
    var e := DecodeEnvelope(body);
    && e.Ok? && e.value.metadata == metadata
    && var f := DecodeFrame(e.value.frame);
       f.Ok? && f.value.Append? && FrameConveys(h, z, f.value.append, s, messages, next)
  }

  /** Whatever is prepared can be read: the metadata, and each message once, in order, under its number. */
  lemma {:induction false} PreparedReads(h: Hashes, z: Zstd, c: Chat, messages: seq<Message>, metadata: Bytes,
                                         maybe: seq<bool>)
    requires |maybe| == |messages| && Lossless(z) && Sized(h, c.shim)
    ensures
      var r := Prepare(h, z, c, messages, metadata, maybe).1;
      r.Ok? ==>
        && RequestReads(h, z, r.value.body, c.shim, messages, c.nextSeq, metadata)
        && DecodeFrame(DecodeEnvelope(r.value.body).value.frame) == Ok(Append(r.value.frame))
  {
    hide Lossless, DecodeEnvelope, DecodeFrame, EncodeFrame, EncodeParts, FrameConveys, FrameFits, Advance, WorstCase;
    var r := Prepare(h, z, c, messages, metadata, maybe).1;
    if r.Ok? {
      AdmittedFits(h, z, c, messages, metadata, maybe);
      AdvanceConveys(h, z, c, messages, metadata, maybe);
      FrameRoundTrip(Append(r.value.frame));
      EnvelopeRoundTrip(metadata, EncodeFrame(Append(r.value.frame)));
    }
  }

  /** A request is prepared exactly if it is admitted, and then it reads as what was asked. */
  ghost predicate Served(h: Hashes, z: Zstd, c: Chat, messages: seq<Message>, metadata: Bytes,
                         r: Result<Prepared, SidecarError>)
  {
    Sized(h, c.shim) ==>
      && (r.Ok? <==> Admitted(c, messages, metadata))
      && (r.Ok? && Lossless(z) ==> RequestReads(h, z, r.value.body, c.shim, messages, c.nextSeq, metadata))
  }

  lemma {:induction false} PreparedServes(h: Hashes, z: Zstd, c: Chat, messages: seq<Message>, metadata: Bytes,
                                          maybe: seq<bool>)
    requires |maybe| == |messages|
    ensures Served(h, z, c, messages, metadata, Prepare(h, z, c, messages, metadata, maybe).1)
  {
    hide Prepare, Admitted, Lossless, RequestReads, DecodeEnvelope, DecodeFrame;
    if Sized(h, c.shim) {
      PrepareAtomic(h, z, c, messages, metadata, maybe);
      if Lossless(z) {
        PreparedReads(h, z, c, messages, metadata, maybe);
      }
    }
  }

  /**
    At a receiver whose log stands at the frame's base and has the referenced content, the
    frame adds each message once, in order: its block is stored under the id logged for it.
   */
  lemma {:induction false} RequestApplies(h: Hashes, z: Zstd, rs: RState, f: AppendFrame, s: Shim,
                                          messages: seq<Message>, next: nat)
    requires CollisionFree(h) && Inv(h, rs) && SessionOf(rs, f.sid).pending == {} && next <= U64_MAX
    requires FrameConveys(h, z, f, s, messages, next) && RefsOk(rs.store.blocks, Resolve(h, z, f.blocks).value)
    requires f.baseRoot == LogOf(rs.store, f.sid).root
    requires forall i :: 0 <= i < |messages| ==> |messages[i].payload| <= MAX_PAYLOAD
    ensures
      var (after, r) := AppendStep(h, z, rs, f);
      var was, ids := LogOf(rs.store, f.sid).ids, LogOf(after.store, f.sid).ids;
      && r.Ok? && |ids| == |was| + |messages| && ids[..|was|] == was
      && forall i :: 0 <= i < |messages| ==>
           && ids[|was| + i] in after.store.blocks
           && after.store.blocks[ids[|was| + i]] ==
              Block(messages[i].kind, if next + i > U64_MAX then U64_MAX else next + i, messages[i].payload)
  {
    hide CollisionFree, Resolve, Run, RefsOk, ItemOps, RootOver, InlineIds, BlockId, AppendStep;
    var items := Resolve(h, z, f.blocks).value;
    var (after, r) := AppendStep(h, z, rs, f);
    Accepted(h, z, rs, f, Ids(items));
    AppendKeeps(h, z, rs, f);
    assert Complete(after.store, f.sid);
    var was, ids := LogOf(rs.store, f.sid).ids, LogOf(after.store, f.sid).ids;
    forall i | 0 <= i < |messages|
      ensures ids[|was| + i] in after.store.blocks
      ensures after.store.blocks[ids[|was| + i]] ==
              Block(messages[i].kind, if next + i > U64_MAX then U64_MAX else next + i, messages[i].payload)
    {
      var b := Block(messages[i].kind, if next + i > U64_MAX then U64_MAX else next + i, messages[i].payload);
      assert Conveys(h, items[i], messages[i], b.seqNo) && ids[|was| + i] == items[i].id;
      assert ids[|was| + i] in ids;
      SameBlock(h, after.store.blocks[ids[|was| + i]], b);
    }
  }

  // ------------------------------------------------------------- numbers over whole runs

  /** Block i of the client's log carries the number i + 1, up to the last 64-bit number. */
  ghost predicate LogNumbered(c: Chat) {
    var ids := c.shim.ids;
    && c.nextSeq == (if 1 + |ids| > U64_MAX then U64_MAX else 1 + |ids|)
    && forall i :: 0 <= i < |ids| ==>
         && ids[i] in c.shim.store.blocks
         && c.shim.store.blocks[ids[i]].seqNo == if 1 + i > U64_MAX then U64_MAX else 1 + i
  }

  /** Block i of a turn is stored as it was numbered, and what was stored stays. */
  lemma {:induction false} TurnStored(h: Hashes, z: Zstd, s: Shim, blocks: seq<Block>, maybe: seq<bool>)
    requires CollisionFree(h) && Lossless(z) && ShimOk(h, s) && |maybe| == |blocks|
    requires forall i :: 0 <= i < |blocks| ==> BlockOk(blocks[i])
    ensures
      var next := Ingest(h, z, s, blocks, maybe).0;
      && next.ids == s.ids + BlockIds(h, blocks)
      && (forall id :: id in s.ids ==>
            id in s.store.blocks && id in next.store.blocks && next.store.blocks[id] == s.store.blocks[id])
      && (forall i :: 0 <= i < |blocks| ==>
            BlockId(h, blocks[i]) in next.store.blocks && next.store.blocks[BlockId(h, blocks[i])] == blocks[i])
  {
    hide CollisionFree, Lossless, BlockId, RootOver, Says, LogOf, Ingest, BlockOk;
    IngestSays(h, z, s, blocks, maybe);
    var next := Ingest(h, z, s, blocks, maybe).0;
    forall id | id in s.ids ensures id in next.store.blocks && next.store.blocks[id] == s.store.blocks[id] {
      assert id in next.ids;
      SameBlock(h, next.store.blocks[id], s.store.blocks[id]);
    }
    forall i | 0 <= i < |blocks|
      ensures BlockId(h, blocks[i]) in next.store.blocks && next.store.blocks[BlockId(h, blocks[i])] == blocks[i]
    {
      assert BlockIds(h, blocks)[i] == BlockId(h, blocks[i]);
      assert BlockId(h, blocks[i]) in next.ids;
      SameBlock(h, next.store.blocks[BlockId(h, blocks[i])], blocks[i]);
    }
  }

  lemma {:induction false} AdvanceNumbers(h: Hashes, z: Zstd, c: Chat, messages: seq<Message>, metadata: Bytes,
                                          maybe: seq<bool>)
    requires CollisionFree(h) && Lossless(z) && ShimOk(h, c.shim) && LogNumbered(c)
    requires |maybe| == |messages| && Admitted(c, messages, metadata)
    ensures LogNumbered(Advance(h, z, c, messages, maybe).0)
  {
    hide CollisionFree, Lossless, BlockId, WorstCase, ShimOk, Ingest;
    var blocks := Numbered(messages, c.nextSeq);
    forall i | 0 <= i < |blocks| ensures BlockOk(blocks[i]) {
      PayloadBound(metadata, messages, i);
    }
    TurnStored(h, z, c.shim, blocks, maybe);
    var next := Ingest(h, z, c.shim, blocks, maybe).0;
    var n := |c.shim.ids|;
    forall i | 0 <= i < |next.ids|
      ensures next.ids[i] in next.store.blocks
      ensures next.store.blocks[next.ids[i]].seqNo == if 1 + i > U64_MAX then U64_MAX else 1 + i
    {
      if i < n {
        assert next.ids[i] == c.shim.ids[i] && c.shim.ids[i] in c.shim.ids;
      } else {
        assert next.ids[i] == BlockId(h, blocks[i - n]);
      }
    }
  }

  /**
    In every steady run of a new session the client's log is numbered from one without a
    gap, so below the last 64-bit number no block of the log repeats.
   */
  lemma {:induction false} RunNumbers(h: Hashes, z: Zstd, start: Network, moves: seq<Move>)
    requires CollisionFree(h) && Lossless(z) && Initial(h, start) && start.client.nextSeq == 1
    ensures
      var c := RunMoves(h, z, start, moves).client;
      && LogNumbered(c)
      && (|c.shim.ids| <= U64_MAX ==> forall i, j :: 0 <= i < j < |c.shim.ids| ==> c.shim.ids[i] != c.shim.ids[j])
  {
    hide CollisionFree, Lossless, SysInv, Inv, ShimOk, Moved;
    if moves != [] {
      var n := |moves| - 1;
      var s := RunMoves(h, z, start, moves[..n]);
      RunNumbers(h, z, start, moves[..n]);
      InitialInv(h, z, start);
      AllRunsKeep(h, z, start, moves[..n]);
      MoveNumbers(h, z, s, moves[n]);
    }
  }

  lemma {:induction false} MoveNumbers(h: Hashes, z: Zstd, s: Network, m: Move)
    requires CollisionFree(h) && Lossless(z) && SysInv(h, z, s) && LogNumbered(s.client)
    ensures LogNumbered(Moved(h, z, s, m).client)
  {
    hide CollisionFree, Lossless, Inv, ShimOk, Advance, AppendStep, FrameStep, Admitted, InFlight, Settled, PrefixHeld;
    if m.Turn? && |m.maybe| == |m.messages| && Admitted(s.client, m.messages, m.metadata) {
      AdvanceNumbers(h, z, s.client, m.messages, m.metadata, m.maybe);
    }
  }
}
