/**
  Content blocks, their canonical bytes, digests and the chained session root
  (`crates/core/src/block.rs`, `canonical.rs`, `merkle.rs`).

  The hash functions are a parameter.  What is proved about stores and logs holds
  for any of them; where the protocol relies on collision-freeness, that is a
  hypothesis, over digests of any length.  Where digests are laid out in 32 bytes,
  that is the hypothesis instead, and collision-freeness is not assumed.
 */
module Blocks {
  import opened Bytes
  import opened Results
  import opened GfLinear

  datatype BlockKind = Message | ToolCall | ToolResult | System | Summary

  datatype Block = Block(kind: BlockKind, seqNo: nat, payload: Bytes)

  type Digest = Bytes

  predicate Ids32(ids: seq<Digest>) { forall i :: 0 <= i < |ids| ==> |ids[i]| == 32 }

  /** The root of the empty log: 32 zero bytes. */
  const ROOT_ZERO: Digest := Zeros(32)

  const MAX_PAYLOAD: nat := 0x4000_0000

  /** The two hash functions: of canonical bytes, and of a root with the next block id. */
  datatype Hashes = Hashes(block: Bytes -> Digest, append: (Digest, Digest) -> Digest)

  // ---------------------------------------------------------------- canonical bytes

  function KindByte(k: BlockKind): bv8 {
    match k
    case Message => 1
    case ToolCall => 2
    case ToolResult => 3
    case System => 4
    case Summary => 5
  }

  function KindOf(b: bv8): Option<BlockKind> {
    if b == 1 then Some(Message)
    else if b == 2 then Some(ToolCall)
    else if b == 3 then Some(ToolResult)
    else if b == 4 then Some(System)
    else if b == 5 then Some(Summary)
    else None
  }

  /** kind | sequence number | payload length | payload */
  function Canonical(b: Block): (c: Bytes)
    ensures |c| == 17 + |b.payload|
  {
    [KindByte(b.kind)] + LeBytes(b.seqNo, 8) + LeBytes(|b.payload|, 8) + b.payload
  }

  datatype ParseError = TooShort | KindUnknown | TooLong | PayloadTruncated

  function FromCanonical(buf: Bytes): Result<Block, ParseError> {
    if |buf| < 17 then Err(TooShort)
    else
      var kind := KindOf(buf[0]);
      if kind.None? then Err(KindUnknown)
      else
        var len := FromLe(buf[9..17]);
        if len > MAX_PAYLOAD then Err(TooLong)
        else if |buf| < 17 + len then Err(PayloadTruncated)
        else Ok(Block(kind.value, FromLe(buf[1..9]), buf[17..17 + len]))
  }

  /** A block the program can hold: 64-bit sequence number, payload within the parser's cap. */
  predicate BlockOk(b: Block) {
    b.seqNo < 0x1_0000_0000_0000_0000 && |b.payload| <= MAX_PAYLOAD
  }

  lemma {:induction false} CanonicalParts(b: Block)
    ensures
      var c := Canonical(b);
      && c[0] == KindByte(b.kind) && c[1..9] == LeBytes(b.seqNo, 8)
      && c[9..17] == LeBytes(|b.payload|, 8) && c[17..] == b.payload
  {
  }

  /** Parsing canonical bytes, whatever follows them, gives the block back. */
  lemma {:induction false} CanonicalRoundTrip(b: Block, tail: Bytes)
    requires BlockOk(b)
    ensures FromCanonical(Canonical(b) + tail) == Ok(b)
  {
    hide LeBytes, FromLe, Pow256, KindByte, KindOf, Canonical;
    Widths();
    var buf := Canonical(b) + tail;
    CanonicalParts(b);
    KindRoundTrip(b.kind);
    FromLeBytes(b.seqNo, 8);
    FromLeBytes(|b.payload|, 8);
    assert buf[1..9] == Canonical(b)[1..9] && buf[9..17] == Canonical(b)[9..17];
    assert buf[17..17 + |b.payload|] == Canonical(b)[17..];
  }

  lemma {:induction false} KindRoundTrip(k: BlockKind)
    ensures KindOf(KindByte(k)) == Some(k)
  {
  }

  lemma {:induction false} KindByteOf(b: bv8)
    requires KindOf(b).Some?
    ensures KindByte(KindOf(b).value) == b
  {
  }

  /** A parsed block's canonical bytes are the bytes it was parsed from. */
  lemma {:induction false} ParsedIsCanonical(buf: Bytes)
    requires FromCanonical(buf).Ok?
    ensures
      var b := FromCanonical(buf).value;
      BlockOk(b) && 17 + |b.payload| <= |buf| && Canonical(b) == buf[..17 + |b.payload|]
  {
    hide LeBytes, FromLe, Pow256, KindByte, KindOf;
    var b := FromCanonical(buf).value;
    Widths();
    KindByteOf(buf[0]);
    LeBytesFrom(buf[1..9]);
    LeBytesFrom(buf[9..17]);
    var end := 17 + |b.payload|;
    assert buf[..end] == [buf[0]] + buf[1..9] + buf[9..17] + buf[17..end];
  }

  // ------------------------------------------------------------------ the chained root

  /** The root over a list of block ids, from a starting root. */
  function RootOver(h: Hashes, start: Digest, ids: seq<Digest>): Digest {
    if ids == [] then start else h.append(RootOver(h, start, ids[..|ids| - 1]), ids[|ids| - 1])
  }

  /** No collisions, and the empty-log root is not an output. */
  ghost predicate CollisionFree(h: Hashes) {
    && (forall r, i, r', i' :: h.append(r, i) == h.append(r', i') ==> r == r' && i == i')
    && (forall r, i :: h.append(r, i) != ROOT_ZERO)
    && (forall b, b' :: h.block(b) == h.block(b') ==> b == b')
  }

  lemma {:induction false} RootOverAppend(h: Hashes, start: Digest, a: seq<Digest>, b: seq<Digest>)
    ensures RootOver(h, start, a + b) == RootOver(h, RootOver(h, start, a), b)
  {
    if b == [] {
      assert a + b == a;
    } else {
      var n := |b| - 1;
      assert (a + b)[..|a + b| - 1] == a + b[..n];
      RootOverAppend(h, start, a, b[..n]);
    }
  }

  /** A byte string that shows where it ends. */
  function Delimited(b: Bytes): Bytes {
    if b == [] then [0] else [1, b[0]] + Delimited(b[1..])
  }

  lemma {:induction false} DelimitedInjective(a: Bytes, b: Bytes, s: Bytes, t: Bytes)
    requires Delimited(a) + s == Delimited(b) + t
    ensures a == b && s == t
  {
    var x, y := Delimited(a) + s, Delimited(b) + t;
    assert x[0] == y[0];
    if a == [] {
      assert x[1..] == s && y[1..] == t;
    } else {
      assert x[1] == a[0] && y[1] == b[0];
      assert x[2..] == Delimited(a[1..]) + s && y[2..] == Delimited(b[1..]) + t;
      DelimitedInjective(a[1..], b[1..], s, t);
    }
  }

  /** The hypothesis is met by some hash functions, digests being of any length. */
  lemma {:induction false} CollisionFreeHashes() returns (h: Hashes)
    ensures CollisionFree(h)
  {
    h := Hashes(b => b, (r, i) => [2] + (Delimited(r) + i));
    forall r, i, r', i' | h.append(r, i) == h.append(r', i') ensures r == r' && i == i' {
      assert h.append(r, i)[1..] == Delimited(r) + i && h.append(r', i')[1..] == Delimited(r') + i';
      DelimitedInjective(r, r', i, i');
    }
    forall r, i ensures h.append(r, i) != ROOT_ZERO {
      assert h.append(r, i)[0] == 2;
      ZeroRootStart();
    }
  }

  lemma {:induction false} ZeroRootStart()
    ensures |ROOT_ZERO| == 32 && ROOT_ZERO[0] == 0
  {
  }

  lemma {:induction false} AppendInjective(h: Hashes, r: Digest, i: Digest, r': Digest, i': Digest)
    requires CollisionFree(h)
    ensures h.append(r, i) == h.append(r', i') ==> r == r' && i == i'
    ensures h.append(r, i) != ROOT_ZERO
  {
  }

  /** The root determines the log. */
  lemma {:induction false} RootInjective(h: Hashes, a: seq<Digest>, b: seq<Digest>)
    requires CollisionFree(h) && RootOver(h, ROOT_ZERO, a) == RootOver(h, ROOT_ZERO, b)
    ensures a == b
  {
    hide CollisionFree;
    if a != [] {
      var n := |a| - 1;
      var ra := RootOver(h, ROOT_ZERO, a[..n]);
      AppendInjective(h, ra, a[n], ra, a[n]);
      if b != [] {
        var m := |b| - 1;
        AppendInjective(h, ra, a[n], RootOver(h, ROOT_ZERO, b[..m]), b[m]);
        RootInjective(h, a[..n], b[..m]);
        assert a == a[..n] + [a[n]] && b == b[..m] + [b[m]];
      }
    } else if b != [] {
      var m := |b| - 1;
      var rb := RootOver(h, ROOT_ZERO, b[..m]);
      AppendInjective(h, rb, b[m], rb, b[m]);
    }
  }

  lemma {:induction false} RootStep(h: Hashes, start: Digest, ids: seq<Digest>, i: nat)
    requires i < |ids|
    ensures RootOver(h, start, ids[..i + 1]) == h.append(RootOver(h, start, ids[..i]), ids[i])
    ensures RootOver(h, start, ids[..0]) == start
  {
    assert ids[..i + 1][..i] == ids[..i];
  }

  /** `root_over` as the program computes it. */
  method ComputeRoot(h: Hashes, start: Digest, ids: seq<Digest>) returns (cur: Digest)
    ensures cur == RootOver(h, start, ids)
  {
    cur := start;
    for i := 0 to |ids|
      invariant cur == RootOver(h, start, ids[..i])
    {
      cur := h.append(cur, ids[i]);
      assert ids[..i + 1][..i] == ids[..i];
    }
    assert ids[..|ids|] == ids;
  }

  /** The content address of a block. */
  function BlockId(h: Hashes, b: Block): Digest { h.block(Canonical(b)) }

  // -------------------------------------------------------------------- compression

  /** zstd: encoding at a level, and the level-agnostic decoder. */
  datatype Zstd = Zstd(encode: (int, Bytes) -> Bytes, decode: Bytes -> Option<Bytes>)

  ghost predicate Lossless(z: Zstd) {
    forall level, b :: z.decode(z.encode(level, b)) == Some(b)
  }

  /** A marker byte, then the input as it is or compressed, whichever is smaller. */
  function Compress(z: Zstd, level: int, input: Bytes): (out: Bytes)
    ensures 1 <= |out| <= |input| + 1
  {
    if |input| < 32 then [0] + input
    else
      var c := z.encode(level, input);
      if |c| + 1 >= |input| then [0] + input else [1] + c
  }

  function Decompress(z: Zstd, input: Bytes): Option<Bytes> {
    if input == [] then None
    else if input[0] == 0 then Some(input[1..])
    else if input[0] == 1 then z.decode(input[1..])
    else None
  }

  /** Input of 32 bytes or more is compressed exactly if that saves more than the marker. */
  lemma {:induction false} CompressSaves(z: Zstd, level: int, input: Bytes)
    ensures
      var c := z.encode(level, input);
      var shorter := |input| >= 32 && |c| + 1 < |input|;
      && |Compress(z, level, input)| == 1 + (if shorter then |c| else |input|)
      && (Compress(z, level, input)[0] == 1 <==> shorter)
  {
  }

  lemma {:induction false} CompressRoundTrip(z: Zstd, level: int, input: Bytes)
    requires Lossless(z)
    ensures Decompress(z, Compress(z, level, input)) == Some(input)
  {
  }
}
