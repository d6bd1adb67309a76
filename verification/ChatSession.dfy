/** The session shim and the chat session as they work in place, against `ChatModel`. */
module ChatSession {
  import opened Bytes
  import opened Blocks
  import opened Results
  import opened Store
  import opened Wal
  import opened DurableStore
  import opened Frames
  import opened FrameCodec
  import opened ChatModel
  import opened Replication
  import opened Requests

  class SessionShim {
    const sid: nat
    const store: ContentStore
    const z: Zstd
    var ids: seq<Digest>
    var root: Digest
    var baseRoot: Digest
    var baseLen: nat

    function View(): Shim
      reads this, store
    {
      Shim(sid, store.State(), ids, root, baseRoot, baseLen)
    }

    constructor (sid: nat, store: ContentStore, z: Zstd)
      requires store.Valid()
      ensures this.sid == sid && this.store == store && this.z == z
      ensures View() == Shim(sid, store.State(), [], ROOT_ZERO, ROOT_ZERO, 0)
    {
      this.sid, this.store, this.z := sid, store, z;
      ids, root, baseRoot, baseLen := [], ROOT_ZERO, ROOT_ZERO, 0;
    }

    /** Appends one block to the client's log and puts it in wire form. */
    method IngestOne(b: Block, maybe: bool) returns (fb: FrameBlock)
      requires store.Valid() && (store.wal.Some? ==> OpOk(store.h, Insert(sid, b, BlockId(store.h, b))))
      modifies this, store
      ensures store.Valid() && (store.wal.Some? == old(store.wal.Some?)) && baseRoot == old(baseRoot)
      ensures (View(), fb) == IngestBlock(store.h, z, old(View()), b, maybe)
    {
      hide Compress, Canonical, Step, OpOk, BlockId, ReplayBytes, RunBytes, RunOk, Run, OpBytes, Loggable;
      var id := BlockId(store.h, b);
      if store.wal.Some? {
        RefOpOk(store.h, sid, b);
      }
      ids, root := ids + [id], store.h.append(root, id);
      var known := maybe && id in store.blocks;
      if known {
        fb := Ref(id);
        var _ := store.ReferenceBlock(sid, id);
      } else {
        var c := Canonical(b);
        var _ := store.InsertWithCanonical(sid, b, id, Some(c));
        fb := Inline(Block(b.kind, b.seqNo, Compress(z, APPEND_LEVEL, c)));
      }
    }

    /** Appends one turn to the client's log and frames it; `maybe` is what the dedup filter answers. */
    method IngestTurn(blocks: seq<Block>, maybe: seq<bool>) returns (frame: AppendFrame)
      requires store.Valid() && |maybe| == |blocks|
      requires store.wal.Some? ==> forall i :: 0 <= i < |blocks| ==>
        OpOk(store.h, Insert(sid, blocks[i], BlockId(store.h, blocks[i])))
      modifies this, store
      ensures store.Valid() && (store.wal.Some? == old(store.wal.Some?))
      ensures frame.sid == sid && frame.baseRoot == old(baseRoot)
      ensures (View(), frame.blocks) == Ingest(store.h, z, old(View()), blocks, maybe)
    {
      hide IngestBlock, OpOk, BlockId, ReplayBytes, RunBytes, RunOk, Run;
      var sent: seq<FrameBlock> := [];
      ghost var s0 := View();
      for i := 0 to |blocks|
        invariant store.Valid() && (store.wal.Some? == old(store.wal.Some?)) && baseRoot == old(baseRoot)
        invariant (View(), sent) == Ingest(store.h, z, s0, blocks[..i], maybe[..i])
      {
        assert blocks[..i + 1][..i] == blocks[..i] && maybe[..i + 1][..i] == maybe[..i];
        var fb := IngestOne(blocks[i], maybe[i]);
        sent := sent + [fb];
      }
      assert blocks[..|blocks|] == blocks && maybe[..|blocks|] == maybe;
      frame := AppendFrame(sid, baseRoot, sent);
    }

    /** The roots are those of the log and of its acknowledged prefix. */
    ghost predicate Rooted()
      reads this, store
    {
      && root == RootOver(store.h, ROOT_ZERO, ids)
      && baseLen <= |ids| && baseRoot == RootOver(store.h, ROOT_ZERO, ids[..baseLen])
    }

    /** Moves the base to the prefix the ACK names, if there is one. */
    method ApplyAck(acked: Digest) returns (ok: bool)
      requires Rooted()
      modifies this`baseRoot, this`baseLen
      ensures Rooted()
      ensures ok ==> baseRoot == acked
      ensures !ok ==> baseRoot == old(baseRoot) && baseLen == old(baseLen)
      ensures ok <==> acked == old(baseRoot) || acked == root ||
                      exists i :: 1 <= i <= |ids| && RootOver(store.h, ROOT_ZERO, ids[..i]) == acked
      ensures acked == root ==> baseLen == |ids|
      ensures acked != root && acked != old(baseRoot) && ok ==> FirstPrefix(store.h, ids, acked, baseLen)
      ensures acked != root && acked == old(baseRoot) ==> baseLen == old(baseLen)
    {
      hide RootOver;
      if acked == root {
        baseRoot, baseLen := acked, |ids|;
        assert ids[..|ids|] == ids;
        return true;
      }
      if acked == baseRoot {
        return true;
      }
      var r := ROOT_ZERO;
      if ids != [] {
        RootStep(store.h, ROOT_ZERO, ids, 0);
      }
      for i := 0 to |ids|
        invariant i < |ids| ==> r == RootOver(store.h, ROOT_ZERO, ids[..i])
        invariant forall j :: 1 <= j <= i ==> RootOver(store.h, ROOT_ZERO, ids[..j]) != acked
        invariant baseRoot == old(baseRoot) && baseLen == old(baseLen)
      {
        RootStep(store.h, ROOT_ZERO, ids, i);
        r := store.h.append(r, ids[i]);
        if r == acked {
          baseRoot, baseLen := acked, i + 1;
          return true;
        }
      }
      ok := false;
    }

    /** The cold-start manifest. */
    method MakeResync() returns (f: ResyncFrame)
      ensures f == ResyncOf(View())
    {
      f := ResyncFrame(sid, root, ids);
    }
  }

  lemma {:induction false} RefOpOk(h: Hashes, sid: nat, b: Block)
    requires OpOk(h, Insert(sid, b, BlockId(h, b)))
    ensures OpOk(h, Reference(sid, BlockId(h, b)))
  {
  }

  /** Client state of one conversation; at most one request is in flight. */
  class ChatSession {
    const shim: SessionShim
    var nextSeq: nat
    var pendingRoot: Option<Digest>

    function View(): Chat
      reads this, shim, shim.store
    {
      Chat(shim.View(), nextSeq, pendingRoot)
    }

    ghost predicate Valid()
      reads this, shim, shim.store
    {
      shim.store.Valid() && shim.store.wal.None? && nextSeq <= U64_MAX
    }

    constructor (sid: nat, h: Hashes, z: Zstd)
      ensures Valid() && fresh(shim) && fresh(shim.store) && shim.store.h == h && shim.z == z
      ensures View() == Chat(Shim(sid, EMPTY, [], ROOT_ZERO, ROOT_ZERO, 0), 1, None)
    {
      var store := new ContentStore(h);
      shim := new SessionShim(sid, store, z);
      nextSeq, pendingRoot := 1, None;
    }

    /** Checks the bounds, appends the messages to the log and encodes the request. */
    method PrepareRef(messages: seq<Message>, metadata: Bytes, maybe: seq<bool>)
        returns (r: Result<Prepared, SidecarError>)
      requires Valid() && |maybe| == |messages|
      modifies this, shim, shim.store
      ensures Valid()
      ensures (View(), r) == Prepare(shim.store.h, shim.z, old(View()), messages, metadata, maybe)
      ensures Served(shim.store.h, shim.z, old(View()), messages, metadata, r)
      ensures r.Ok? ==> nextSeq == if old(nextSeq) + |messages| > U64_MAX then U64_MAX else old(nextSeq) + |messages|
    {
      hide Ingest, EncodeFrame, WorstCase, EncodeParts, Served;
      PreparedServes(shim.store.h, shim.z, View(), messages, metadata, maybe);
      if pendingRoot.Some? {
        return Err(RequestInFlight);
      }
      if |metadata| > MAX_METADATA {
        return Err(MetadataTooLarge);
      }
      var worst := MeasureRequest(metadata, messages);
      if worst > MAX_REQUEST {
        return Err(RequestTooLarge);
      }
      ghost var seq0 := nextSeq;
      var blocks: seq<Block> := [];
      for i := 0 to |messages|
        invariant blocks == Numbered(messages[..i], seq0) && nextSeq == Saturated(seq0 + i)
        invariant shim.View() == old(shim.View()) && Valid() && pendingRoot.None?
      {
        blocks := blocks + [Block(messages[i].kind, nextSeq, messages[i].payload)];
        nextSeq := Saturated(nextSeq + 1);
        assert blocks == Numbered(messages[..i + 1], seq0);
      }
      assert messages[..|messages|] == messages;
      assert blocks == Numbered(messages, seq0);
      var append := shim.IngestTurn(blocks, maybe);
      IngestBase(shim.store.h, shim.z, old(shim.View()), blocks, maybe);
      var expected := shim.root;
      var body := EncodeParts(metadata, EncodeFrame(Append(append)));
      if body.Err? {
        return Err(body.error);
      }
      pendingRoot := Some(expected);
      r := Ok(Prepared(body.value, expected, append));
    }

    /** Applies an ACK; the request in flight is settled if it is the one acknowledged. */
    method ApplyAck(acked: Digest) returns (ok: bool)
      requires Valid() && shim.Rooted()
      modifies this, shim
      ensures Valid() && shim.Rooted()
      ensures ok && old(pendingRoot) == Some(acked) ==> pendingRoot == None
      ensures !(ok && old(pendingRoot) == Some(acked)) ==> pendingRoot == old(pendingRoot)
      ensures acked == old(shim.root) && old(pendingRoot) == Some(acked) ==> ok && View() == Acked(old(View()))
    {
      ok := shim.ApplyAck(acked);
      if ok && pendingRoot == Some(acked) {
        pendingRoot := None;
      }
    }
  }

  method MeasureRequest(metadata: Bytes, messages: seq<Message>) returns (size: nat)
    ensures size == WorstCase(metadata, messages)
  {
    size := 10 + |metadata| + 53;
    for i := 0 to |messages|
      invariant size == WorstCase(metadata, messages[..i])
    {
      assert messages[..i + 1][..i] == messages[..i];
      size := size + 39 + |messages[i].payload|;
    }
    assert messages[..|messages|] == messages;
  }
}
