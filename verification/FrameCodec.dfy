/**
  The wire codec (`crates/core/src/frame.rs`): the bytes of a frame, and the decoder
  as a chain of readers, each taking a value off the front of a moving window.
 */
module FrameCodec {
  import opened Bytes
  import opened Blocks
  import opened Results
  import opened Frames

  const TAG_APPEND: bv8 := 1
  const TAG_RESYNC: bv8 := 2
  const TAG_BULK: bv8 := 3
  const TAG_ACK: bv8 := 4
  const TAG_MISSING: bv8 := 5
  const REF_BIT: bv8 := 0x80

  const MAX_INLINE: nat := 0x4000_0000
  const MAX_COUNT: nat := 0x100_0000

  /** `OutOfBounds` stands for the index panic on an empty window. */
  datatype FrameError = Truncated | UnknownTag(tag: bv8) | UnknownKind(marker: bv8) | TooLarge(size: nat) | OutOfBounds

  /** A value read off the front, and the window behind it. */
  datatype Read<+T> = Read(value: T, rest: Bytes)

  type Reader<!T> = Bytes -> Result<Read<T>, FrameError>

  // --------------------------------------------------------------------------- encoding

  function Concat<T>(enc: T -> Bytes, ts: seq<T>): Bytes {
    if ts == [] then [] else enc(ts[0]) + Concat(enc, ts[1..])
  }

  function IdBytes(id: Digest): Bytes { id }

  function SymbolBytes(s: Bytes): Bytes { LeBytes(|s|, 4) + s }

  function BlockBytes(fb: FrameBlock): Bytes {
    match fb
    case Inline(b) => LeBytes(17 + |b.payload|, 4) + Canonical(b)
    case Ref(id) => LeBytes(33, 4) + [REF_BIT] + id
  }

  function EncodeFrame(f: Frame): (b: Bytes)
    ensures b != []
  {
    match f
    case Append(a) =>
      [TAG_APPEND] + LeBytes(a.sid, 16) + a.baseRoot + LeBytes(|a.blocks|, 4) + Concat(BlockBytes, a.blocks)
    case Resync(r) =>
      [TAG_RESYNC] + LeBytes(r.sid, 16) + r.clientRoot + LeBytes(|r.manifest|, 4) + Concat(IdBytes, r.manifest)
    case Bulk(b) =>
      [TAG_BULK] + LeBytes(b.sid, 16) + LeBytes(b.generation, 4) + LeBytes(b.k, 4) + LeBytes(b.symbolSize, 4)
      + LeBytes(|b.symbols|, 4) + Concat(SymbolBytes, b.symbols)
    case Ack(a) => [TAG_ACK] + LeBytes(a.sid, 16) + a.root
    case Missing(m) => [TAG_MISSING] + LeBytes(m.sid, 16) + LeBytes(|m.missing|, 4) + Concat(IdBytes, m.missing)
  }

  /** `encode_frame` and its loop over the entries of a frame. */
  method EncodeEntries<T>(buf: Bytes, enc: T -> Bytes, ts: seq<T>) returns (out: Bytes)
    ensures out == buf + Concat(enc, ts)
  {
    out := buf;
    for i := 0 to |ts|
      invariant out + Concat(enc, ts[i..]) == buf + Concat(enc, ts)
    {
      assert ts[i..][1..] == ts[i + 1..];
      assert out + (enc(ts[i]) + Concat(enc, ts[i + 1..])) == out + enc(ts[i]) + Concat(enc, ts[i + 1..]);
      out := out + enc(ts[i]);
    }
    assert ts[|ts|..] == [] && out + [] == out;
  }

  /** `encode_frame`: tag and header, then the entries one by one. */
  method EncodeBytes(f: Frame) returns (buf: Bytes)
    ensures buf == EncodeFrame(f)
  {
    hide LeBytes, Concat;
    match f {
      case Append(a) =>
        buf := [TAG_APPEND] + LeBytes(a.sid, 16) + a.baseRoot + LeBytes(|a.blocks|, 4);
        buf := EncodeEntries(buf, BlockBytes, a.blocks);
      case Resync(r) =>
        buf := [TAG_RESYNC] + LeBytes(r.sid, 16) + r.clientRoot + LeBytes(|r.manifest|, 4);
        buf := EncodeEntries(buf, IdBytes, r.manifest);
      case Bulk(b) =>
        buf := [TAG_BULK] + LeBytes(b.sid, 16) + LeBytes(b.generation, 4) + LeBytes(b.k, 4) + LeBytes(b.symbolSize, 4)
          + LeBytes(|b.symbols|, 4);
        buf := EncodeEntries(buf, SymbolBytes, b.symbols);
      case Ack(a) =>
        buf := [TAG_ACK] + LeBytes(a.sid, 16) + a.root;
      case Missing(m) =>
        buf := [TAG_MISSING] + LeBytes(m.sid, 16) + LeBytes(|m.missing|, 4);
        buf := EncodeEntries(buf, IdBytes, m.missing);
    }
  }

  // --------------------------------------------------------------------------- decoding

  function TakeLe(r: Bytes, w: nat): Result<Read<nat>, FrameError> {
    if |r| < w then Err(Truncated) else Ok(Read(FromLe(r[..w]), r[w..]))
  }

  function TakeId(r: Bytes): Result<Read<Digest>, FrameError> {
    if |r| < 32 then Err(Truncated) else Ok(Read(r[..32], r[32..]))
  }

  function TakeCount(r: Bytes): Result<Read<nat>, FrameError> {
    var n :- TakeLe(r, 4);
    if n.value > MAX_COUNT then Err(TooLarge(n.value)) else Ok(n)
  }

  function TakeSymbol(r: Bytes): Result<Read<Bytes>, FrameError> {
    var len :- TakeLe(r, 4);
    if len.value > MAX_INLINE then Err(TooLarge(len.value))
    else if |len.rest| < len.value then Err(Truncated)
    else Ok(Read(len.rest[..len.value], len.rest[len.value..]))
  }

  predicate IsRef(marker: bv8) { marker & REF_BIT != 0 }

  function MarkerKind(marker: bv8): Option<BlockKind> { KindOf(marker & !REF_BIT) }

  /** A block whose announced length is `len`, at the front of the window. */
  function TakeBlockBody(r: Bytes, len: nat): Result<Read<FrameBlock>, FrameError> {
    if |r| < len then Err(Truncated)
    else if r == [] then Err(OutOfBounds)
    else
      var marker := r[0];
      if IsRef(marker) then
        if len != 33 then Err(Truncated) else Ok(Read(Ref(r[1..33]), r[33..]))
      else
        var kind := MarkerKind(marker);
        if kind.None? then Err(UnknownKind(marker))
        else if len < 17 then Err(Truncated)
        else
          var size := FromLe(r[9..17]);
          if size > MAX_INLINE then Err(TooLarge(size))
          else if len < 17 + size then Err(Truncated)
          else Ok(Read(Inline(Block(kind.value, FromLe(r[1..9]), r[17..17 + size])), r[17 + size..]))
  }

  function TakeBlock(r: Bytes): Result<Read<FrameBlock>, FrameError> {
    var len :- TakeLe(r, 4);
    TakeBlockBody(len.rest, len.value)
  }

  function TakeMany<T>(one: Reader<T>, r: Bytes, n: nat): Result<Read<seq<T>>, FrameError>
    decreases n
  {
    if n == 0 then Ok(Read([], r))
    else
      var first :- one(r);
      var more :- TakeMany(one, first.rest, n - 1);
      Ok(Read([first.value] + more.value, more.rest))
  }

  /** The fields of a BULK frame behind its session id. */
  function TakeBulk(sid: nat, r: Bytes): Result<Read<Frame>, FrameError> {
    var generation :- TakeLe(r, 4);
    var k :- TakeLe(generation.rest, 4);
    var size :- TakeLe(k.rest, 4);
    var n :- TakeCount(size.rest);
    var symbols :- TakeMany(TakeSymbol, n.rest, n.value);
    Ok(Read(Bulk(BulkFrame(sid, generation.value, k.value, size.value, symbols.value)), symbols.rest))
  }

  function TakeAppend(r: Bytes): Result<Read<Frame>, FrameError> {
    var sid :- TakeLe(r, 16);
    var root :- TakeId(sid.rest);
    var n :- TakeCount(root.rest);
    var blocks :- TakeMany(TakeBlock, n.rest, n.value);
    Ok(Read(Append(AppendFrame(sid.value, root.value, blocks.value)), blocks.rest))
  }

  function TakeResync(r: Bytes): Result<Read<Frame>, FrameError> {
    var sid :- TakeLe(r, 16);
    var root :- TakeId(sid.rest);
    var n :- TakeCount(root.rest);
    var ids :- TakeMany(TakeId, n.rest, n.value);
    Ok(Read(Resync(ResyncFrame(sid.value, root.value, ids.value)), ids.rest))
  }

  function TakeAck(r: Bytes): Result<Read<Frame>, FrameError> {
    var sid :- TakeLe(r, 16);
    var root :- TakeId(sid.rest);
    Ok(Read(Ack(AckFrame(sid.value, root.value)), root.rest))
  }

  function TakeMissing(r: Bytes): Result<Read<Frame>, FrameError> {
    var sid :- TakeLe(r, 16);
    var n :- TakeCount(sid.rest);
    var ids :- TakeMany(TakeId, n.rest, n.value);
    Ok(Read(Missing(MissingFrame(sid.value, ids.value)), ids.rest))
  }

  function TakeBody(tag: bv8, r: Bytes): Result<Read<Frame>, FrameError> {
    if tag == TAG_APPEND then TakeAppend(r)
    else if tag == TAG_RESYNC then TakeResync(r)
    else if tag == TAG_BULK then
      var sid :- TakeLe(r, 16);
      TakeBulk(sid.value, sid.rest)
    else if tag == TAG_ACK then TakeAck(r)
    else if tag == TAG_MISSING then TakeMissing(r)
    else Err(UnknownTag(tag))
  }

  /** Bytes behind the frame are ignored. */
  function DecodeFrame(buf: Bytes): Result<Frame, FrameError> {
    if buf == [] then Err(Truncated)
    else
      var f :- TakeBody(buf[0], buf[1..]);
      Ok(f.value)
  }

  /** The decoder's loop over the entries of a frame. */
  method DecodeEntries<T>(one: Reader<T>, window: Bytes, n: nat) returns (out: Result<Read<seq<T>>, FrameError>)
    ensures out == TakeMany(one, window, n)
  {
    var r, ts := window, [];
    ghost var whole := TakeMany(one, window, n);
    assert whole.Ok? ==> ts + whole.value.value == whole.value.value;
    for i := 0 to n
      invariant
        var more := TakeMany(one, r, n - i);
        TakeMany(one, window, n) ==
          if more.Err? then more else Ok(Read(ts + more.value.value, more.value.rest))
    {
      var t := one(r);
      if t.Err? {
        return Err(t.error);
      }
      ghost var rest := TakeMany(one, t.value.rest, n - i - 1);
      assert rest.Ok? ==> ts + ([t.value.value] + rest.value.value) == ts + [t.value.value] + rest.value.value;
      ts, r := ts + [t.value.value], t.value.rest;
    }
    assert ts + [] == ts;
    out := Ok(Read(ts, r));
  }

  /** `decode_frame`: the tag, the header of its kind, then the entries one by one. */
  method DecodeBytes(buf: Bytes) returns (r: Result<Frame, FrameError>)
    ensures r == DecodeFrame(buf)
  {
    hide TakeLe, TakeId, TakeCount, TakeBlock, TakeSymbol, TakeMany;
    if buf == [] {
      return Err(Truncated);
    }
    var tag, body := buf[0], buf[1..];
    if tag !in {TAG_APPEND, TAG_RESYNC, TAG_BULK, TAG_ACK, TAG_MISSING} {
      return Err(UnknownTag(tag));
    }
    var sid :- TakeLe(body, 16);
    if tag == TAG_APPEND {
      var root :- TakeId(sid.rest);
      var n :- TakeCount(root.rest);
      var blocks :- DecodeEntries(TakeBlock, n.rest, n.value);
      r := Ok(Append(AppendFrame(sid.value, root.value, blocks.value)));
    } else if tag == TAG_RESYNC {
      var root :- TakeId(sid.rest);
      var n :- TakeCount(root.rest);
      var ids :- DecodeEntries(TakeId, n.rest, n.value);
      r := Ok(Resync(ResyncFrame(sid.value, root.value, ids.value)));
    } else if tag == TAG_BULK {
      var generation :- TakeLe(sid.rest, 4);
      var k :- TakeLe(generation.rest, 4);
      var size :- TakeLe(k.rest, 4);
      var n :- TakeCount(size.rest);
      var symbols :- DecodeEntries(TakeSymbol, n.rest, n.value);
      r := Ok(Bulk(BulkFrame(sid.value, generation.value, k.value, size.value, symbols.value)));
    } else if tag == TAG_ACK {
      var root :- TakeId(sid.rest);
      r := Ok(Ack(AckFrame(sid.value, root.value)));
    } else {
      var n :- TakeCount(sid.rest);
      var ids :- DecodeEntries(TakeId, n.rest, n.value);
      r := Ok(Missing(MissingFrame(sid.value, ids.value)));
    }
  }

  // ------------------------------------------------------------------------- round trip

  ghost predicate Inverts<T>(one: Reader<T>, enc: T -> Bytes, t: T) {
    forall tail :: one(enc(t) + tail) == Ok(Read(t, tail))
  }

  lemma {:induction false} ManyRoundTrip<T>(one: Reader<T>, enc: T -> Bytes, ts: seq<T>, tail: Bytes)
    requires forall i :: 0 <= i < |ts| ==> Inverts(one, enc, ts[i])
    ensures TakeMany(one, Concat(enc, ts) + tail, |ts|) == Ok(Read(ts, tail))
  {
    if ts == [] {
      assert Concat(enc, ts) + tail == tail;
    } else {
      var behind := Concat(enc, ts[1..]) + tail;
      assert Concat(enc, ts) + tail == enc(ts[0]) + behind;
      assert Inverts(one, enc, ts[0]);
      ManyRoundTrip(one, enc, ts[1..], tail);
      assert [ts[0]] + ts[1..] == ts;
    }
  }

  lemma {:induction false} LeRoundTrip(n: nat, w: nat, tail: Bytes)
    requires n < Pow256(w)
    ensures TakeLe(LeBytes(n, w) + tail, w) == Ok(Read(n, tail))
  {
    hide LeBytes, FromLe, Pow256;
    FromLeBytes(n, w);
    assert (LeBytes(n, w) + tail)[..w] == LeBytes(n, w);
  }

  lemma {:induction false} CountRoundTrip(n: nat, tail: Bytes)
    requires n <= MAX_COUNT
    ensures TakeCount(LeBytes(n, 4) + tail) == Ok(Read(n, tail))
  {
    hide LeBytes, FromLe, Pow256;
    Widths();
    LeRoundTrip(n, 4, tail);
  }

  lemma {:induction false} IdRoundTrip(id: Digest, tail: Bytes)
    requires |id| == 32
    ensures TakeId(id + tail) == Ok(Read(id, tail))
  {
  }

  lemma {:induction false} IdInverts(id: Digest)
    requires |id| == 32
    ensures Inverts(TakeId, IdBytes, id)
  {
    forall tail ensures TakeId(IdBytes(id) + tail) == Ok(Read(id, tail)) {
      IdRoundTrip(id, tail);
    }
  }

  lemma {:induction false} SymbolInverts(s: Bytes)
    requires |s| <= MAX_INLINE
    ensures Inverts(TakeSymbol, SymbolBytes, s)
  {
    hide LeBytes, FromLe, Pow256;
    forall tail ensures TakeSymbol(SymbolBytes(s) + tail) == Ok(Read(s, tail)) {
      Widths();
      LeRoundTrip(|s|, 4, s + tail);
      assert SymbolBytes(s) + tail == LeBytes(|s|, 4) + (s + tail);
    }
  }

  /** A block the frame can carry. */
  predicate EntryOk(fb: FrameBlock) {
    match fb
    case Inline(b) => b.seqNo < 0x1_0000_0000_0000_0000 && |b.payload| <= MAX_INLINE
    case Ref(id) => |id| == 32
  }

  lemma {:induction false} KindMarker(k: BlockKind)
    ensures !IsRef(KindByte(k)) && MarkerKind(KindByte(k)) == Some(k)
  {
  }

  lemma {:induction false} RefMarker()
    ensures IsRef(REF_BIT)
  {
  }

  lemma {:induction false} BlockInverts(fb: FrameBlock)
    requires EntryOk(fb)
    ensures Inverts(TakeBlock, BlockBytes, fb)
  {
    hide LeBytes, TakeLe, TakeBlockBody, Pow256, Canonical, BlockBytes;
    Widths();
    forall tail ensures TakeBlock(BlockBytes(fb) + tail) == Ok(Read(fb, tail)) {
      var len := if fb.Inline? then 17 + |fb.block.payload| else 33;
      var body := if fb.Inline? then Canonical(fb.block) + tail else [REF_BIT] + fb.id + tail;
      BlockBytesParts(fb, tail);
      LeRoundTrip(len, 4, body);
      BlockBodyReadBack(fb, tail);
    }
  }

  lemma {:induction false} BlockBytesParts(fb: FrameBlock, tail: Bytes)
    ensures
      match fb
      case Inline(b) => BlockBytes(fb) + tail == LeBytes(17 + |b.payload|, 4) + (Canonical(b) + tail)
      case Ref(id) => BlockBytes(fb) + tail == LeBytes(33, 4) + ([REF_BIT] + id + tail)
  {
    hide LeBytes, Canonical;
  }

  lemma {:induction false} BlockBodyReadBack(fb: FrameBlock, tail: Bytes)
    requires EntryOk(fb)
    ensures
      match fb
      case Inline(b) => TakeBlockBody(Canonical(b) + tail, 17 + |b.payload|) == Ok(Read(fb, tail))
      case Ref(id) => TakeBlockBody([REF_BIT] + id + tail, 33) == Ok(Read(fb, tail))
  {
    hide FromLe, IsRef, MarkerKind, Canonical;
    match fb {
      case Inline(b) => InlineRoundTrip(b, tail);
      case Ref(id) =>
        var r := [REF_BIT] + id + tail;
        RefMarker();
        assert r[1..33] == id && r[33..] == tail;
    }
  }

  lemma {:induction false} InlineRoundTrip(b: Block, tail: Bytes)
    requires EntryOk(Inline(b))
    ensures
      var r := Canonical(b) + tail;
      && |r| >= 17 + |b.payload| && r[0] == KindByte(b.kind) && !IsRef(r[0])
      && MarkerKind(r[0]) == Some(b.kind)
      && FromLe(r[1..9]) == b.seqNo && FromLe(r[9..17]) == |b.payload|
      && r[17..17 + |b.payload|] == b.payload && r[17 + |b.payload|..] == tail
  {
    hide LeBytes, FromLe, Pow256, KindByte, IsRef, MarkerKind, Canonical;
    Widths();
    var r := Canonical(b) + tail;
    CanonicalParts(b);
    KindMarker(b.kind);
    FromLeBytes(b.seqNo, 8);
    FromLeBytes(|b.payload|, 8);
    assert r[1..9] == Canonical(b)[1..9] && r[9..17] == Canonical(b)[9..17];
    assert r[17..17 + |b.payload|] == Canonical(b)[17..];
  }

  /** A frame within the size limits and the widths of its fields. */
  predicate FrameFits(f: Frame) {
    && FrameSid(f) < 0x1_0000_0000_0000_0000_0000_0000_0000_0000
    && (match f
        case Append(a) =>
          && |a.baseRoot| == 32 && |a.blocks| <= MAX_COUNT
          && forall i :: 0 <= i < |a.blocks| ==> EntryOk(a.blocks[i])
        case Resync(r) => |r.clientRoot| == 32 && |r.manifest| <= MAX_COUNT && Ids32(r.manifest)
        case Bulk(b) =>
          && b.generation < 0x1_0000_0000 && b.k < 0x1_0000_0000 && b.symbolSize < 0x1_0000_0000
          && |b.symbols| <= MAX_COUNT && forall i :: 0 <= i < |b.symbols| ==> |b.symbols[i]| <= MAX_INLINE
        case Ack(a) => |a.root| == 32
        case Missing(m) => |m.missing| <= MAX_COUNT && Ids32(m.missing))
  }

  /** The decoder reads a whole encoding and leaves what is behind it. */
  lemma {:induction false} FrameReadBack(f: Frame, tail: Bytes)
    requires FrameFits(f)
    ensures
      var b := EncodeFrame(f) + tail;
      TakeBody(b[0], b[1..]) == Ok(Read(f, tail))
  {
    hide EncodeFrame, TakeBody, FrameFits;
    match f {
      case Append(a) => AppendReadBack(a, tail);
      case Resync(r) => ResyncReadBack(r, tail);
      case Bulk(b) => BulkReadBack(b, tail);
      case Ack(a) => AckReadBack(a, tail);
      case Missing(m) => MissingReadBack(m, tail);
    }
  }

  lemma {:induction false} ResyncReadBack(r: ResyncFrame, tail: Bytes)
    requires FrameFits(Resync(r))
    ensures
      var bytes := EncodeFrame(Resync(r)) + tail;
      TakeBody(bytes[0], bytes[1..]) == Ok(Read(Resync(r), tail))
  {
    hide LeBytes, TakeLe, TakeId, TakeCount, TakeMany, Concat, Pow256;
    Widths();
    ManifestReadBack(r.manifest, tail);
    var entries := Concat(IdBytes, r.manifest) + tail;
    IdRoundTrip(r.clientRoot, LeBytes(|r.manifest|, 4) + entries);
    LeRoundTrip(r.sid, 16, r.clientRoot + (LeBytes(|r.manifest|, 4) + entries));
    assert (EncodeFrame(Resync(r)) + tail)[1..] ==
           LeBytes(r.sid, 16) + (r.clientRoot + (LeBytes(|r.manifest|, 4) + entries));
  }

  lemma {:induction false} AckReadBack(a: AckFrame, tail: Bytes)
    requires FrameFits(Ack(a))
    ensures
      var bytes := EncodeFrame(Ack(a)) + tail;
      TakeBody(bytes[0], bytes[1..]) == Ok(Read(Ack(a), tail))
  {
    hide LeBytes, TakeLe, TakeId, Pow256;
    Widths();
    IdRoundTrip(a.root, tail);
    LeRoundTrip(a.sid, 16, a.root + tail);
    var bytes := EncodeFrame(Ack(a)) + tail;
    assert bytes[0] == TAG_ACK && bytes[1..] == LeBytes(a.sid, 16) + (a.root + tail);
    hide EncodeFrame, FrameFits;
  }

  lemma {:induction false} MissingReadBack(m: MissingFrame, tail: Bytes)
    requires FrameFits(Missing(m))
    ensures
      var bytes := EncodeFrame(Missing(m)) + tail;
      TakeBody(bytes[0], bytes[1..]) == Ok(Read(Missing(m), tail))
  {
    var sid, count, ids := LeBytes(m.sid, 16), LeBytes(|m.missing|, 4), Concat(IdBytes, m.missing);
    assert EncodeFrame(Missing(m)) == [TAG_MISSING] + sid + count + ids;
    hide EncodeFrame, LeBytes, TakeLe, TakeId, TakeCount, TakeMany, Concat, Pow256;
    Widths();
    ManifestReadBack(m.missing, tail);
    LeRoundTrip(m.sid, 16, count + (ids + tail));
    Behind(TAG_MISSING, sid, count, ids, tail);
    assert TakeMissing(sid + (count + (ids + tail))) == Ok(Read(Missing(m), tail));
    hide TakeMissing;
  }

  lemma {:induction false} Behind(tag: bv8, a: Bytes, b: Bytes, c: Bytes, tail: Bytes)
    ensures
      var bytes := [tag] + a + b + c + tail;
      bytes[0] == tag && bytes[1..] == a + (b + (c + tail))
  {
  }

  lemma {:induction false} ManifestReadBack(ids: seq<Digest>, tail: Bytes)
    requires Ids32(ids) && |ids| <= MAX_COUNT
    ensures
      var entries := Concat(IdBytes, ids) + tail;
      && TakeMany(TakeId, entries, |ids|) == Ok(Read(ids, tail))
      && TakeCount(LeBytes(|ids|, 4) + entries) == Ok(Read(|ids|, entries))
  {
    hide LeBytes, TakeLe, TakeId, TakeCount, TakeMany, Concat, Pow256;
    forall i | 0 <= i < |ids| ensures Inverts(TakeId, IdBytes, ids[i]) {
      IdInverts(ids[i]);
    }
    ManyRoundTrip(TakeId, IdBytes, ids, tail);
    CountRoundTrip(|ids|, Concat(IdBytes, ids) + tail);
  }

  lemma {:induction false} AppendReadBack(a: AppendFrame, tail: Bytes)
    requires FrameFits(Append(a))
    ensures
      var bytes := EncodeFrame(Append(a)) + tail;
      TakeBody(bytes[0], bytes[1..]) == Ok(Read(Append(a), tail))
  {
    hide LeBytes, TakeLe, TakeId, TakeCount, TakeMany, Concat, Pow256, EntryOk, TakeBlock, BlockBytes;
    Widths();
    forall i | 0 <= i < |a.blocks| ensures Inverts(TakeBlock, BlockBytes, a.blocks[i]) {
      BlockInverts(a.blocks[i]);
    }
    var entries := Concat(BlockBytes, a.blocks) + tail;
    ManyRoundTrip(TakeBlock, BlockBytes, a.blocks, tail);
    CountRoundTrip(|a.blocks|, entries);
    IdRoundTrip(a.baseRoot, LeBytes(|a.blocks|, 4) + entries);
    LeRoundTrip(a.sid, 16, a.baseRoot + (LeBytes(|a.blocks|, 4) + entries));
    assert (EncodeFrame(Append(a)) + tail)[1..] ==
           LeBytes(a.sid, 16) + (a.baseRoot + (LeBytes(|a.blocks|, 4) + entries));
  }

  lemma {:induction false} BulkReadBack(b: BulkFrame, tail: Bytes)
    requires FrameFits(Bulk(b))
    ensures
      var bytes := EncodeFrame(Bulk(b)) + tail;
      TakeBody(bytes[0], bytes[1..]) == Ok(Read(Bulk(b), tail))
  {
    hide LeBytes, TakeLe, TakeId, TakeCount, TakeMany, Concat, Pow256;
    Widths();
    forall i | 0 <= i < |b.symbols| ensures Inverts(TakeSymbol, SymbolBytes, b.symbols[i]) {
      SymbolInverts(b.symbols[i]);
    }
    var entries := Concat(SymbolBytes, b.symbols) + tail;
    ManyRoundTrip(TakeSymbol, SymbolBytes, b.symbols, tail);
    var r3 := LeBytes(|b.symbols|, 4) + entries;
    CountRoundTrip(|b.symbols|, entries);
    var r2 := LeBytes(b.symbolSize, 4) + r3;
    LeRoundTrip(b.symbolSize, 4, r3);
    var r1 := LeBytes(b.k, 4) + r2;
    LeRoundTrip(b.k, 4, r2);
    var r0 := LeBytes(b.generation, 4) + r1;
    LeRoundTrip(b.generation, 4, r1);
    LeRoundTrip(b.sid, 16, r0);
    assert (EncodeFrame(Bulk(b)) + tail)[1..] == LeBytes(b.sid, 16) + r0;
  }

  /** Decoding an encoding gives the frame back. */
  lemma {:induction false} FrameRoundTrip(f: Frame)
    requires FrameFits(f)
    ensures DecodeFrame(EncodeFrame(f)) == Ok(f)
  {
    hide TakeBody, EncodeFrame;
    FrameReadBack(f, []);
    assert EncodeFrame(f) + [] == EncodeFrame(f);
  }

  // -------------------------------------------------------------- what is decoded fits

  /** Whatever is read has the property. */
  ghost predicate Yields<T>(one: Reader<T>, p: T -> bool) { forall r :: one(r).Ok? ==> p(one(r).value.value) }

  lemma {:induction false} ManyYields<T>(one: Reader<T>, p: T -> bool, r: Bytes, n: nat)
    requires Yields(one, p) && TakeMany(one, r, n).Ok?
    ensures |TakeMany(one, r, n).value.value| == n
    ensures forall i :: 0 <= i < n ==> p(TakeMany(one, r, n).value.value[i])
    decreases n
  {
    if n > 0 {
      ManyYields(one, p, one(r).value.rest, n - 1);
    }
  }

  lemma {:induction false} LeYields(r: Bytes, w: nat)
    requires TakeLe(r, w).Ok?
    ensures TakeLe(r, w).value.value < Pow256(w)
  {
    LeBytesFrom(r[..w]);
  }

  predicate Id32(id: Digest) { |id| == 32 }

  predicate ShortSymbol(s: Bytes) { |s| <= MAX_INLINE }

  lemma {:induction false} EntryYields()
    ensures Yields(TakeBlock, EntryOk)
  {
    hide FromLe, TakeLe, IsRef, MarkerKind, Pow256;
    forall r | TakeBlock(r).Ok? ensures EntryOk(TakeBlock(r).value.value) {
      var body := TakeLe(r, 4).value.rest;
      if !IsRef(body[0]) {
        LeBytesFrom(body[1..9]);
        Widths();
      }
    }
  }

  lemma {:induction false} ListsYield()
    ensures Yields(TakeId, Id32) && Yields(TakeSymbol, ShortSymbol)
  {
    hide FromLe;
  }

  /** Every frame that can be decoded keeps the limits, so encoding it again loses nothing. */
  lemma {:induction false} DecodedFits(buf: Bytes)
    requires DecodeFrame(buf).Ok?
    ensures FrameFits(DecodeFrame(buf).value)
    ensures DecodeFrame(EncodeFrame(DecodeFrame(buf).value)) == DecodeFrame(buf)
  {
    hide TakeBody, FrameFits, EncodeFrame;
    BodyFits(buf[0], buf[1..]);
    FrameRoundTrip(DecodeFrame(buf).value);
  }

  lemma {:induction false} BodyFits(tag: bv8, r: Bytes)
    requires TakeBody(tag, r).Ok?
    ensures FrameFits(TakeBody(tag, r).value.value)
  {
    hide TakeLe, TakeId, TakeCount, TakeMany, TakeSymbol, TakeBlock, Pow256, EntryOk, Yields;
    EntryYields();
    ListsYield();
    Widths();
    LeYields(r, 16);
    var sid := TakeLe(r, 16).value;
    if tag == TAG_APPEND || tag == TAG_RESYNC {
      IdYields(sid.rest);
      var n := TakeCount(TakeId(sid.rest).value.rest).value;
      CountYields(TakeId(sid.rest).value.rest);
      if tag == TAG_APPEND {
        ManyYields(TakeBlock, EntryOk, n.rest, n.value);
      } else {
        ManyYields(TakeId, Id32, n.rest, n.value);
      }
    } else if tag == TAG_BULK {
      BulkFits(sid.value, sid.rest);
    } else if tag == TAG_ACK {
      IdYields(sid.rest);
    } else {
      var n := TakeCount(sid.rest).value;
      CountYields(sid.rest);
      ManyYields(TakeId, Id32, n.rest, n.value);
    }
  }

  lemma {:induction false} IdYields(r: Bytes)
    requires TakeId(r).Ok?
    ensures |TakeId(r).value.value| == 32
  {
  }

  lemma {:induction false} CountYields(r: Bytes)
    requires TakeCount(r).Ok?
    ensures TakeCount(r).value.value <= MAX_COUNT
  {
    hide TakeLe;
  }

  lemma {:induction false} BulkFits(sid: nat, r: Bytes)
    requires TakeBulk(sid, r).Ok? && sid < 0x1_0000_0000_0000_0000_0000_0000_0000_0000
    ensures FrameFits(TakeBulk(sid, r).value.value)
  {
    hide TakeLe, TakeCount, TakeMany, TakeSymbol, Pow256, Yields;
    ListsYield();
    Widths();
    LeYields(r, 4);
    var a := TakeLe(r, 4).value.rest;
    LeYields(a, 4);
    var b := TakeLe(a, 4).value.rest;
    LeYields(b, 4);
    var c := TakeLe(b, 4).value.rest;
    CountYields(c);
    var n := TakeCount(c).value;
    ManyYields(TakeSymbol, ShortSymbol, n.rest, n.value);
  }

  // ------------------------------------------------------------------- prefix rejection

  /** A successful read is not changed by bytes arriving behind the window. */
  ghost predicate Stable<T>(one: Reader<T>) {
    forall r, t :: one(r).Ok? ==> one(r + t) == Ok(Read(one(r).value.value, one(r).value.rest + t))
  }

  lemma {:induction false} LeStable(r: Bytes, w: nat, t: Bytes)
    requires TakeLe(r, w).Ok?
    ensures TakeLe(r + t, w) == Ok(Read(TakeLe(r, w).value.value, TakeLe(r, w).value.rest + t))
  {
    hide FromLe;
    assert (r + t)[..w] == r[..w] && (r + t)[w..] == r[w..] + t;
  }

  lemma {:induction false} CountStable(r: Bytes, t: Bytes)
    requires TakeCount(r).Ok?
    ensures TakeCount(r + t) == Ok(Read(TakeCount(r).value.value, TakeCount(r).value.rest + t))
  {
    hide FromLe;
    LeStable(r, 4, t);
  }

  lemma {:induction false} IdStable()
    ensures Stable(TakeId)
  {
    forall r: Bytes, t: Bytes | TakeId(r).Ok?
      ensures TakeId(r + t) == Ok(Read(TakeId(r).value.value, TakeId(r).value.rest + t))
    {
      assert (r + t)[..32] == r[..32] && (r + t)[32..] == r[32..] + t;
    }
  }

  lemma {:induction false} SymbolStable()
    ensures Stable(TakeSymbol)
  {
    hide FromLe, TakeLe;
    forall r: Bytes, t: Bytes | TakeSymbol(r).Ok?
      ensures TakeSymbol(r + t) == Ok(Read(TakeSymbol(r).value.value, TakeSymbol(r).value.rest + t))
    {
      LeStable(r, 4, t);
      var len := TakeLe(r, 4).value;
      assert (len.rest + t)[..len.value] == len.rest[..len.value];
      assert (len.rest + t)[len.value..] == len.rest[len.value..] + t;
    }
  }

  lemma {:induction false} BlockBodyStable(r: Bytes, len: nat, t: Bytes)
    requires TakeBlockBody(r, len).Ok?
    ensures
      var b := TakeBlockBody(r, len).value;
      TakeBlockBody(r + t, len) == Ok(Read(b.value, b.rest + t))
  {
    hide FromLe, IsRef, MarkerKind;
    var more := r + t;
    if IsRef(r[0]) {
      assert more[1..33] == r[1..33] && more[33..] == r[33..] + t;
    } else {
      assert more[1..9] == r[1..9] && more[9..17] == r[9..17];
      var size := FromLe(r[9..17]);
      assert more[17..17 + size] == r[17..17 + size] && more[17 + size..] == r[17 + size..] + t;
    }
  }

  lemma {:induction false} BlockStable()
    ensures Stable(TakeBlock)
  {
    hide TakeLe, TakeBlockBody;
    forall r: Bytes, t: Bytes | TakeBlock(r).Ok?
      ensures TakeBlock(r + t) == Ok(Read(TakeBlock(r).value.value, TakeBlock(r).value.rest + t))
    {
      LeStable(r, 4, t);
      var len := TakeLe(r, 4).value;
      BlockBodyStable(len.rest, len.value, t);
    }
  }

  lemma {:induction false} ManyStable<T>(one: Reader<T>, r: Bytes, n: nat, t: Bytes)
    requires Stable(one) && TakeMany(one, r, n).Ok?
    ensures TakeMany(one, r + t, n) == Ok(Read(TakeMany(one, r, n).value.value, TakeMany(one, r, n).value.rest + t))
    decreases n
  {
    if n > 0 {
      ManyStable(one, one(r).value.rest, n - 1, t);
    }
  }

  lemma {:induction false} BodyStable(tag: bv8, r: Bytes, t: Bytes)
    requires TakeBody(tag, r).Ok?
    ensures TakeBody(tag, r + t) == Ok(Read(TakeBody(tag, r).value.value, TakeBody(tag, r).value.rest + t))
  {
    hide TakeLe, TakeId, TakeCount, TakeMany, TakeSymbol, TakeBlock;
    IdStable();
    LeStable(r, 16, t);
    var sid := TakeLe(r, 16).value;
    if tag == TAG_APPEND || tag == TAG_RESYNC {
      var root := TakeId(sid.rest).value;
      CountStable(root.rest, t);
      var n := TakeCount(root.rest).value;
      if tag == TAG_APPEND {
        BlockStable();
        ManyStable(TakeBlock, n.rest, n.value, t);
      } else {
        ManyStable(TakeId, n.rest, n.value, t);
      }
    } else if tag == TAG_BULK {
      BulkStable(sid.value, sid.rest, t);
    } else if tag == TAG_MISSING {
      CountStable(sid.rest, t);
      var n := TakeCount(sid.rest).value;
      ManyStable(TakeId, n.rest, n.value, t);
    }
  }

  lemma {:induction false} BulkStable(sid: nat, r: Bytes, t: Bytes)
    requires TakeBulk(sid, r).Ok?
    ensures TakeBulk(sid, r + t) == Ok(Read(TakeBulk(sid, r).value.value, TakeBulk(sid, r).value.rest + t))
  {
    hide TakeLe, TakeCount, TakeMany, TakeSymbol;
    LeStable(r, 4, t);
    var a := TakeLe(r, 4).value.rest;
    LeStable(a, 4, t);
    var b := TakeLe(a, 4).value.rest;
    LeStable(b, 4, t);
    var c := TakeLe(b, 4).value.rest;
    CountStable(c, t);
    SymbolStable();
    ManyStable(TakeSymbol, TakeCount(c).value.rest, TakeCount(c).value.value, t);
  }

  /** A window that a read would succeed on, cut short, is truncated or still long enough. */
  ghost predicate Cuttable<T>(one: Reader<T>) {
    forall r, t :: one(r + t).Ok? ==> one(r).Ok? || one(r) == Err(Truncated)
  }

  lemma {:induction false} IdCut()
    ensures Cuttable(TakeId)
  {
  }

  lemma {:induction false} SymbolCut()
    ensures Cuttable(TakeSymbol)
  {
    hide FromLe, TakeLe;
    forall r: Bytes, t: Bytes | TakeSymbol(r + t).Ok? ensures TakeSymbol(r).Ok? || TakeSymbol(r) == Err(Truncated) {
      LeCut(r, 4, t);
    }
  }

  /** A whole read of r succeeds and the rest grows with t, or r is too short for it. */
  lemma {:induction false} LeCut(r: Bytes, w: nat, t: Bytes)
    ensures TakeLe(r, w) == Err(Truncated) ||
            (TakeLe(r, w).Ok? && TakeLe(r + t, w) == Ok(Read(TakeLe(r, w).value.value, TakeLe(r, w).value.rest + t)))
  {
    if TakeLe(r, w).Ok? {
      LeStable(r, w, t);
    }
  }

  lemma {:induction false} BlockBodyCut(r: Bytes, len: nat, t: Bytes)
    requires TakeBlockBody(r + t, len).Ok?
    ensures TakeBlockBody(r, len).Ok? || TakeBlockBody(r, len) == Err(Truncated)
  {
    hide FromLe, IsRef, MarkerKind;
    var more := r + t;
    if |r| >= len && r != [] && !IsRef(r[0]) {
      assert more[9..17] == r[9..17];
    }
  }

  lemma {:induction false} BlockCut()
    ensures Cuttable(TakeBlock)
  {
    hide TakeLe, TakeBlockBody;
    forall r: Bytes, t: Bytes | TakeBlock(r + t).Ok? ensures TakeBlock(r).Ok? || TakeBlock(r) == Err(Truncated) {
      LeCut(r, 4, t);
      if TakeLe(r, 4).Ok? {
        BlockBodyCut(TakeLe(r, 4).value.rest, TakeLe(r, 4).value.value, t);
      }
    }
  }

  lemma {:induction false} ManyCut<T>(one: Reader<T>, r: Bytes, n: nat, t: Bytes)
    requires Stable(one) && Cuttable(one) && TakeMany(one, r + t, n).Ok?
    ensures TakeMany(one, r, n).Ok? || TakeMany(one, r, n) == Err(Truncated)
    decreases n
  {
    if n > 0 && one(r).Ok? {
      ManyCut(one, one(r).value.rest, n - 1, t);
    }
  }

  lemma {:induction false} CountCut(r: Bytes, t: Bytes)
    requires TakeCount(r + t).Ok?
    ensures TakeCount(r).Ok? || TakeCount(r) == Err(Truncated)
  {
    hide TakeLe;
    LeCut(r, 4, t);
  }

  lemma {:induction false} IdListCut(r: Bytes, t: Bytes)
    requires TakeCount(r + t).Ok? && TakeMany(TakeId, TakeCount(r + t).value.rest, TakeCount(r + t).value.value).Ok?
    ensures TakeCount(r) == Err(Truncated) || (TakeCount(r).Ok? &&
      var many := TakeMany(TakeId, TakeCount(r).value.rest, TakeCount(r).value.value);
      many.Ok? || many == Err(Truncated))
  {
    hide TakeCount, TakeMany, TakeId;
    CountCut(r, t);
    if TakeCount(r).Ok? {
      CountStable(r, t);
      IdStable();
      IdCut();
      ManyCut(TakeId, TakeCount(r).value.rest, TakeCount(r).value.value, t);
    }
  }

  lemma {:induction false} RootCut(r: Bytes, t: Bytes)
    ensures TakeId(r) == Err(Truncated) ||
            (TakeId(r).Ok? && TakeId(r + t) == Ok(Read(TakeId(r).value.value, TakeId(r).value.rest + t)))
  {
    if TakeId(r).Ok? {
      IdStable();
    }
  }

  /** A body cut short is truncated, unless what was cut lay behind the frame. */
  lemma {:induction false} BodyCut(tag: bv8, r: Bytes, t: Bytes)
    requires TakeBody(tag, r + t).Ok?
    ensures TakeBody(tag, r).Ok? || TakeBody(tag, r) == Err(Truncated)
  {
    hide TakeLe, TakeId, TakeCount, TakeMany, TakeSymbol, TakeBlock, Stable, Cuttable;
    LeCut(r, 16, t);
    if TakeLe(r, 16).Ok? {
      var rest := TakeLe(r, 16).value.rest;
      if tag == TAG_APPEND || tag == TAG_RESYNC {
        RootCut(rest, t);
        if TakeId(rest).Ok? {
          var behind := TakeId(rest).value.rest;
          if tag == TAG_RESYNC {
            IdListCut(behind, t);
          } else {
            CountCut(behind, t);
            if TakeCount(behind).Ok? {
              CountStable(behind, t);
              BlockStable();
              BlockCut();
              ManyCut(TakeBlock, TakeCount(behind).value.rest, TakeCount(behind).value.value, t);
            }
          }
        }
      } else if tag == TAG_BULK {
        BulkCut(TakeLe(r, 16).value.value, rest, t);
      } else if tag == TAG_ACK {
        RootCut(rest, t);
      } else {
        IdListCut(rest, t);
      }
    }
  }

  lemma {:induction false} BulkCut(sid: nat, r: Bytes, t: Bytes)
    requires TakeBulk(sid, r + t).Ok?
    ensures TakeBulk(sid, r).Ok? || TakeBulk(sid, r) == Err(Truncated)
  {
    hide TakeLe, TakeCount, TakeMany, TakeSymbol, Stable, Cuttable;
    LeCut(r, 4, t);
    if TakeLe(r, 4).Ok? {
      var a := TakeLe(r, 4).value.rest;
      LeCut(a, 4, t);
      if TakeLe(a, 4).Ok? {
        var b := TakeLe(a, 4).value.rest;
        LeCut(b, 4, t);
        if TakeLe(b, 4).Ok? {
          var c := TakeLe(b, 4).value.rest;
          CountCut(c, t);
          if TakeCount(c).Ok? {
            CountStable(c, t);
            SymbolStable();
            SymbolCut();
            ManyCut(TakeSymbol, TakeCount(c).value.rest, TakeCount(c).value.value, t);
          }
        }
      }
    }
  }

  /** No proper prefix of an encoding decodes; each is reported as truncated. */
  lemma {:induction false} ProperPrefixRejected(f: Frame, cut: nat)
    requires FrameFits(f) && cut < |EncodeFrame(f)|
    ensures DecodeFrame(EncodeFrame(f)[..cut]) == Err(Truncated)
  {
    hide TakeBody, EncodeFrame, FrameFits;
    var b := EncodeFrame(f);
    var p, t := b[..cut], b[cut..];
    assert b + [] == b;
    FrameReadBack(f, []);
    if p != [] {
      assert b[1..] == p[1..] + t && p[0] == b[0] && t != [];
      BodyCut(p[0], p[1..], t);
      if TakeBody(p[0], p[1..]).Ok? {
        BodyStable(p[0], p[1..], t);
      }
    }
  }
}
