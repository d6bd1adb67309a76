/**
  The frame a receiver sends back (`crates/receiver/src/lib.rs`), said of the frame
  that arrived and the state it arrived at.
 */
module Replies {
  import opened Bytes
  import opened Blocks
  import opened Results
  import opened Store
  import opened Frames
  import opened ReceiverModel

  type Reply = Result<Option<Frame>, ReceiverError>

  // ---------------------------------------------------------------------------- RESYNC

  /** The list is the manifest at the positions idx, and those are where content is lacking. */
  ghost predicate Selects(list: seq<Digest>, manifest: seq<Digest>, blocks: map<Digest, Block>, idx: seq<nat>) {
    && |idx| == |list| && (forall i, j :: 0 <= i < j < |idx| ==> idx[i] < idx[j])
    && (forall j :: 0 <= j < |idx| ==> idx[j] < |manifest| && list[j] == manifest[idx[j]])
    && (forall i: nat :: i < |manifest| ==> (manifest[i] !in blocks <==> i in idx))
  }

  /** The manifest ids without content, in manifest order, as often as the manifest names them. */
  ghost predicate NamesMissing(list: seq<Digest>, manifest: seq<Digest>, blocks: map<Digest, Block>) {
    exists idx: seq<nat> :: Selects(list, manifest, blocks, idx)
  }

  /** With everything stored an ACK of the client's root, otherwise the missing ids by name. */
  ghost predicate ResyncReply(blocks: map<Digest, Block>, f: ResyncFrame, r: Reply) {
    && r.Ok? && r.value.Some?
    && if forall id :: id in f.manifest ==> id in blocks then r.value.value == Ack(AckFrame(f.sid, f.clientRoot))
       else
         && r.value.value.Missing? && r.value.value.reply.sid == f.sid
         && NamesMissing(r.value.value.reply.missing, f.manifest, blocks)
  }

  lemma {:induction false} SelectsSnoc(list: seq<Digest>, manifest: seq<Digest>, id: Digest,
                                       blocks: map<Digest, Block>, idx: seq<nat>)
    requires Selects(list, manifest, blocks, idx)
    ensures id in blocks ==> Selects(list, manifest + [id], blocks, idx)
    ensures id !in blocks ==> Selects(list + [id], manifest + [id], blocks, idx + [|manifest|])
  {
    var n, all := |manifest|, manifest + [id];
    assert forall i: nat :: i < n ==> all[i] == manifest[i];
    if id in blocks {
      assert forall j :: 0 <= j < |idx| ==> idx[j] != n;
    } else {
      assert (idx + [n])[|idx|] == n;
      forall i: nat | i < |all| ensures all[i] !in blocks <==> i in idx + [n] {
        assert i < n ==> (i in idx <==> i in idx + [n]);
      }
    }
  }

  lemma {:induction false} MissingListNames(blocks: map<Digest, Block>, manifest: seq<Digest>)
    ensures NamesMissing(MissingList(blocks, manifest), manifest, blocks)
  {
    hide Selects;
    if manifest == [] {
      assert Selects([], [], blocks, []) by { NothingSelected(blocks); }
    } else {
      var n := |manifest| - 1;
      MissingListNames(blocks, manifest[..n]);
      var idx: seq<nat> :| Selects(MissingList(blocks, manifest[..n]), manifest[..n], blocks, idx);
      SelectsSnoc(MissingList(blocks, manifest[..n]), manifest[..n], manifest[n], blocks, idx);
      assert manifest[..n] + [manifest[n]] == manifest;
    }
  }

  lemma {:induction false} NothingSelected(blocks: map<Digest, Block>)
    ensures Selects([], [], blocks, [])
  {
  }

  lemma {:induction false} ResyncAnswered(h: Hashes, z: Zstd, rs: RState, f: ResyncFrame, answer: Answer)
    ensures ResyncReply(rs.store.blocks, f, FrameStep(h, z, rs, Resync(f), answer).1)
  {
    hide MissingList, NamesMissing;
    MissingListNames(rs.store.blocks, f.manifest);
    var missing := MissingList(rs.store.blocks, f.manifest);
    if missing != [] {
      assert missing[0] in missing;
    }
  }

  /**
    The log becomes the manifest under the client's root and the session waits for what
    the reply names; content, decoders and other sessions stay.
   */
  ghost predicate ResyncEffect(rs: RState, next: RState, f: ResyncFrame) {
    var before, after := SessionOf(rs, f.sid), SessionOf(next, f.sid);
    && next.store.blocks == rs.store.blocks && LogOf(next.store, f.sid) == SessionLog(f.manifest, f.clientRoot)
    && (forall id :: id in after.pending <==> id in f.manifest && id !in rs.store.blocks)
    && (after.acked <==> after.pending == {}) && after.decoders == before.decoders
    && (forall sid :: sid != f.sid ==>
          SessionOf(next, sid) == SessionOf(rs, sid) && LogOf(next.store, sid) == LogOf(rs.store, sid))
  }

  lemma {:induction false} ResyncEffects(h: Hashes, z: Zstd, rs: RState, f: ResyncFrame, answer: Answer)
    ensures ResyncEffect(rs, FrameStep(h, z, rs, Resync(f), answer).0, f)
  {
    hide MissingList;
    var missing := MissingList(rs.store.blocks, f.manifest);
    if missing != [] {
      assert missing[0] in SessionOf(FrameStep(h, z, rs, Resync(f), answer).0, f.sid).pending;
    }
  }

  /** What a reply asks the client to code: the ids it names. */
  function Requested(reply: Option<Frame>): seq<Digest> {
    if reply.Some? && reply.value.Missing? then reply.value.reply.missing else []
  }

  // ---------------------------------------------------------------------------- APPEND

  predicate Unreadable(h: Hashes, z: Zstd, fb: FrameBlock) { fb.Inline? && Unpack(h, z, fb.block.payload).Err? }

  /** The id a block of the frame stands for. */
  function Named(h: Hashes, z: Zstd, fb: FrameBlock): Digest
    requires !Unreadable(h, z, fb)
  {
    match fb
    case Inline(wire) => Unpack(h, z, wire.payload).value.id
    case Ref(id) => id
  }

  predicate Readable(h: Hashes, z: Zstd, blocks: seq<FrameBlock>) {
    forall i :: 0 <= i < |blocks| ==> !Unreadable(h, z, blocks[i])
  }

  function AllNamed(h: Hashes, z: Zstd, blocks: seq<FrameBlock>): (ids: seq<Digest>)
    requires Readable(h, z, blocks)
    ensures |ids| == |blocks| && forall i :: 0 <= i < |blocks| ==> ids[i] == Named(h, z, blocks[i])
  {
    seq(|blocks|, i requires 0 <= i < |blocks| => Named(h, z, blocks[i]))
  }

  /** A reference to content neither stored nor inline before it. */
  predicate Dangling(h: Hashes, z: Zstd, stored: map<Digest, Block>, blocks: seq<FrameBlock>, i: nat)
    requires i < |blocks| && Readable(h, z, blocks)
  {
    && blocks[i].Ref? && blocks[i].id !in stored
    && forall j :: 0 <= j < i && blocks[j].Inline? ==> Named(h, z, blocks[j]) != blocks[i].id
  }

  /**
    The error of the first unreadable block; a dangling reference; a cold start; a root
    that is neither the frame's base nor its target; or the ACK of the target.
   */
  ghost predicate AppendReply(h: Hashes, z: Zstd, rs: RState, f: AppendFrame, r: Reply) {
    if !Readable(h, z, f.blocks) then
      exists i: nat ::
        && i < |f.blocks| && Unreadable(h, z, f.blocks[i]) && Readable(h, z, f.blocks[..i])
        && r == Err(Unpack(h, z, f.blocks[i].block.payload).error)
    else if exists i: nat :: i < |f.blocks| && Dangling(h, z, rs.store.blocks, f.blocks, i) then r == Err(MissingRef)
    else if SessionOf(rs, f.sid).pending != {} then r == Err(ColdStartInProgress(f.sid))
    else
      var current, target := LogOf(rs.store, f.sid).root, RootOver(h, f.baseRoot, AllNamed(h, z, f.blocks));
      r == if current == f.baseRoot || current == target then Ok(Some(Ack(AckFrame(f.sid, target))))
           else Err(BaseRootMismatch(f.sid, f.baseRoot, current))
  }

  /**
    An APPEND that is refused or only acknowledged again leaves the store as it is; one on
    the current root adds the ids of its blocks to the log.  Either way no cold start is
    touched.
   */
  ghost predicate AppendEffect(h: Hashes, z: Zstd, rs: RState, next: RState, f: AppendFrame, r: Reply) {
    && (forall sid :: SessionOf(next, sid) == SessionOf(rs, sid))
    && (r.Err? || f.baseRoot != LogOf(rs.store, f.sid).root ==> next.store == rs.store)
    && (r.Ok? && f.baseRoot == LogOf(rs.store, f.sid).root ==>
          && Readable(h, z, f.blocks)
          && LogOf(next.store, f.sid).ids == LogOf(rs.store, f.sid).ids + AllNamed(h, z, f.blocks)
          && (forall sid :: sid != f.sid ==> LogOf(next.store, sid) == LogOf(rs.store, sid)))
  }

  lemma {:induction false} AppendEffects(h: Hashes, z: Zstd, rs: RState, f: AppendFrame, answer: Answer)
    ensures
      var (next, r) := FrameStep(h, z, rs, Append(f), answer);
      AppendEffect(h, z, rs, next, f, r)
  {
    hide Resolve, Readable, RefsOk, RootOver, LogOf, Unreadable, AppendStep, SessionOf;
    ResolveExactly(h, z, f.blocks);
    StepEffect(h, z, rs, f);
    var items := Resolve(h, z, f.blocks);
    assert FrameStep(h, z, rs, Append(f), answer).0 == AppendStep(h, z, rs, f).0;
    assert FrameStep(h, z, rs, Append(f), answer).1.Ok? <==> AppendStep(h, z, rs, f).1.Ok?;
    if items.Ok? {
      assert Ids(items.value) == AllNamed(h, z, f.blocks);
    }
  }

  lemma {:induction false} StepEffect(h: Hashes, z: Zstd, rs: RState, f: AppendFrame)
    ensures
      var (next, r) := AppendStep(h, z, rs, f);
      && (forall sid :: SessionOf(next, sid) == SessionOf(rs, sid))
      && (r.Err? || f.baseRoot != LogOf(rs.store, f.sid).root ==> next.store == rs.store)
      && (r.Ok? && f.baseRoot == LogOf(rs.store, f.sid).root ==>
            && Resolve(h, z, f.blocks).Ok?
            && LogOf(next.store, f.sid).ids == LogOf(rs.store, f.sid).ids + Ids(Resolve(h, z, f.blocks).value)
            && (forall sid :: sid != f.sid ==> LogOf(next.store, sid) == LogOf(rs.store, sid)))
  {
    hide Resolve, RefsOk, RootOver, LogOf, Run, ItemOps, InlineIds, Ids;
    var items := Resolve(h, z, f.blocks);
    if items.Ok? && RefsOk(rs.store.blocks, items.value) && LogOf(rs.store, f.sid).root == f.baseRoot {
      RunItems(h, rs.store, f.sid, items.value);
    }
  }

  lemma {:induction false} ResolveExactly(h: Hashes, z: Zstd, blocks: seq<FrameBlock>)
    ensures Resolve(h, z, blocks).Ok? <==> Readable(h, z, blocks)
    ensures Readable(h, z, blocks) ==>
      var items := Resolve(h, z, blocks).value;
      && |items| == |blocks|
      && forall i :: 0 <= i < |blocks| ==>
           items[i].id == Named(h, z, blocks[i]) && (items[i].Full? <==> blocks[i].Inline?)
    ensures !Readable(h, z, blocks) ==> exists i: nat ::
      && i < |blocks| && Unreadable(h, z, blocks[i]) && Readable(h, z, blocks[..i])
      && Resolve(h, z, blocks) == Err(Unpack(h, z, blocks[i].block.payload).error)
  {
    hide Unpack;
    if blocks != [] {
      var n := |blocks| - 1;
      ResolveExactly(h, z, blocks[..n]);
      if !Readable(h, z, blocks[..n]) {
        var i: nat :| i < n && Unreadable(h, z, blocks[..n][i]) && Readable(h, z, blocks[..n][..i]) &&
          Resolve(h, z, blocks[..n]) == Err(Unpack(h, z, blocks[..n][i].block.payload).error);
        assert blocks[..n][..i] == blocks[..i] && blocks[..n][i] == blocks[i];
      } else if blocks[n].Inline? && Unpack(h, z, blocks[n].block.payload).Ok? {
        UnpackIsFull(h, z, blocks[n].block.payload);
      }
    }
  }

  lemma {:induction false} UnpackIsFull(h: Hashes, z: Zstd, comp: Bytes)
    requires Unpack(h, z, comp).Ok?
    ensures Unpack(h, z, comp).value.Full?
  {
  }

  lemma {:induction false} DanglingExactly(h: Hashes, z: Zstd, stored: map<Digest, Block>, blocks: seq<FrameBlock>,
                                           items: seq<Item>)
    requires Readable(h, z, blocks) && |items| == |blocks|
    requires forall i :: 0 <= i < |blocks| ==>
      items[i].id == Named(h, z, blocks[i]) && (items[i].Full? <==> blocks[i].Inline?)
    ensures RefsOk(stored, items) <==> forall i: nat :: i < |blocks| ==> !Dangling(h, z, stored, blocks, i)
  {
    hide Unpack;
    forall i: nat | i < |blocks|
      ensures Dangling(h, z, stored, blocks, i) <==>
              items[i].Known? && items[i].id !in stored && items[i].id !in InlineIds(items[..i])
    {
      if items[i].id in InlineIds(items[..i]) {
        var j :| 0 <= j < i && items[..i][j].Full? && items[..i][j].id == items[i].id;
        assert blocks[j].Inline? && Named(h, z, blocks[j]) == items[i].id;
      } else {
        forall j | 0 <= j < i && blocks[j].Inline? ensures Named(h, z, blocks[j]) != items[i].id {
          assert items[..i][j].Full? && items[..i][j].id == Named(h, z, blocks[j]);
        }
      }
    }
  }

  /** A frame whose references resolve. */
  lemma {:induction false} ResolvedReply(h: Hashes, z: Zstd, rs: RState, f: AppendFrame)
    requires Resolve(h, z, f.blocks).Ok? && RefsOk(rs.store.blocks, Resolve(h, z, f.blocks).value)
    ensures
      var r := AppendStep(h, z, rs, f).1;
      if SessionOf(rs, f.sid).pending != {} then r == Err(ColdStartInProgress(f.sid))
      else
        var current := LogOf(rs.store, f.sid).root;
        var target := RootOver(h, f.baseRoot, Ids(Resolve(h, z, f.blocks).value));
        r == if current == f.baseRoot || current == target then Ok(AckFrame(f.sid, target))
             else Err(BaseRootMismatch(f.sid, f.baseRoot, current))
  {
    hide Resolve, RefsOk, Run, ItemOps, RootOver, InlineIds, Ids;
    if LogOf(rs.store, f.sid).root == f.baseRoot {
      RunItems(h, rs.store, f.sid, Resolve(h, z, f.blocks).value);
    }
  }

  lemma {:induction false} RefusedReply(h: Hashes, z: Zstd, rs: RState, f: AppendFrame)
    ensures
      var items, r := Resolve(h, z, f.blocks), AppendStep(h, z, rs, f).1;
      && (items.Err? ==> r == Err(items.error))
      && (items.Ok? && !RefsOk(rs.store.blocks, items.value) ==> r == Err(MissingRef))
  {
    hide Resolve, RefsOk, Run, ItemOps, RootOver, InlineIds, Ids, SessionOf, LogOf;
  }

  lemma {:induction false} AppendAnswered(h: Hashes, z: Zstd, rs: RState, f: AppendFrame, answer: Answer)
    ensures AppendReply(h, z, rs, f, FrameStep(h, z, rs, Append(f), answer).1)
  {
    hide Resolve, Readable, Dangling, RefsOk, RootOver, SessionOf, LogOf, Unreadable, AppendStep;
    ResolveExactly(h, z, f.blocks);
    RefusedReply(h, z, rs, f);
    if Readable(h, z, f.blocks) {
      var items := Resolve(h, z, f.blocks).value;
      DanglingExactly(h, z, rs.store.blocks, f.blocks, items);
      assert Ids(items) == AllNamed(h, z, f.blocks);
      if RefsOk(rs.store.blocks, items) {
        ResolvedReply(h, z, rs, f);
      }
    }
  }

  // ------------------------------------------------------------------------------ BULK

  /** An ACK of the session's root, exactly when the frame leaves nothing pending for the first time. */
  ghost predicate BulkReply(rs: RState, next: RState, f: BulkFrame, r: Reply) {
    && (r.Ok? ==>
          r.value == if !SessionOf(rs, f.sid).acked && SessionOf(next, f.sid).acked
                     then Some(Ack(AckFrame(f.sid, LogOf(rs.store, f.sid).root))) else None)
    && (r.Err? ==> next.store == rs.store && SessionOf(next, f.sid).acked == SessionOf(rs, f.sid).acked)
    && LogOf(next.store, f.sid) == LogOf(rs.store, f.sid)
    && (SessionOf(rs, f.sid).acked ==> SessionOf(next, f.sid).acked)
    && (r.Ok? && r.value.Some? ==> SessionOf(next, f.sid).pending == {})
    && SessionOf(next, f.sid).decoders - {f.generation} == SessionOf(rs, f.sid).decoders - {f.generation}
  }

  lemma {:induction false} BulkAnswered(h: Hashes, z: Zstd, rs: RState, f: BulkFrame, answer: Answer)
    ensures
      var (next, r) := FrameStep(h, z, rs, Bulk(f), answer);
      BulkReply(rs, next, f, r)
  {
    hide Fed, Asked, Recovered, UnpackAll, Records, Flat, LogOf, BulkStep;
    BulkStepReply(h, z, rs, f, answer);
  }

  lemma {:induction false} BulkStepReply(h: Hashes, z: Zstd, rs: RState, f: BulkFrame, answer: Answer)
    ensures
      var (next, r) := BulkStep(h, z, rs, f, answer);
      BulkReply(rs, next, f, if r.Err? then Err(r.error) else if r.value.None? then Ok(None)
                             else Ok(Some(Ack(AckFrame(f.sid, r.value.value)))))
  {
    hide Fed, Asked, Recovered, UnpackAll, Records, Flat;
    var session := SessionOf(rs, f.sid);
    var (fed, refused) := Fed(DecoderOf(session, f), f.symbols);
    if refused.None? {
      var (asked, result) := Asked(fed, answer);
      var kept := WithSession(rs, f.sid, session.(decoders := session.decoders[f.generation := asked]));
      if result.Ok? && UnpackAll(h, z, Records(Flat(result.value))).Ok? {
        var records := Records(Flat(result.value));
        UnpackedItems(h, z, records);
        RecoveredReply(h, kept, f, UnpackAll(h, z, records).value);
      }
    }
  }

  lemma {:induction false} RecoveredReply(h: Hashes, rs: RState, f: BulkFrame, items: seq<Item>)
    requires AllFull(items) && Honest(h, items)
    ensures
      var (next, root) := Recovered(h, rs, f, items);
      && LogOf(next.store, f.sid) == LogOf(rs.store, f.sid)
      && (SessionOf(rs, f.sid).acked ==> SessionOf(next, f.sid).acked)
      && root == (if !SessionOf(rs, f.sid).acked && SessionOf(next, f.sid).acked then Some(LogOf(rs.store, f.sid).root)
                  else None)
      && (root.Some? ==> SessionOf(next, f.sid).pending == {})
      && SessionOf(next, f.sid).decoders - {f.generation} == SessionOf(rs, f.sid).decoders - {f.generation}
  {
    hide Run, InlineIds, ContentOps, Honest;
    RunContent(h, rs.store, f.sid, items);
  }
}
