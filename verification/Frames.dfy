/** Wire frames (`crates/core/src/frame.rs`). */
module Frames {
  import opened Bytes
  import opened Blocks

  /** New content as compressed canonical bytes in a carrier block, or a bare block id. */
  datatype FrameBlock = Inline(block: Block) | Ref(id: Digest)

  datatype AppendFrame = AppendFrame(sid: nat, baseRoot: Digest, blocks: seq<FrameBlock>)

  datatype ResyncFrame = ResyncFrame(sid: nat, clientRoot: Digest, manifest: seq<Digest>)

  datatype BulkFrame = BulkFrame(sid: nat, generation: nat, k: nat, symbolSize: nat, symbols: seq<Bytes>)

  datatype AckFrame = AckFrame(sid: nat, root: Digest)

  datatype MissingFrame = MissingFrame(sid: nat, missing: seq<Digest>)

  datatype Frame =
    | Append(append: AppendFrame)
    | Resync(resync: ResyncFrame)
    | Bulk(bulk: BulkFrame)
    | Ack(ack: AckFrame)
    | Missing(reply: MissingFrame)

  function FrameSid(f: Frame): nat {
    match f
    case Append(a) => a.sid
    case Resync(r) => r.sid
    case Bulk(b) => b.sid
    case Ack(a) => a.sid
    case Missing(m) => m.sid
  }
}
