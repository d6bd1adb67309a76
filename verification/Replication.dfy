/**
  Client and receiver together: prepared turns, APPEND frames that are lost,
  duplicated and reordered, ACKs that are lost or late, and any traffic of other
  sessions on the same receiver.

  The client accepts an ACK only for the request in flight, as `send_chat` does
  (`crates/sidecar/src/lib.rs`).  Turns are taken at the frame level: that a request
  within the bounds always encodes is `ChatModel.PrepareAtomic`.
 */
module Replication {
  import opened Bytes
  import opened Blocks
  import opened Results
  import opened Store
  import opened Frames
  import opened ReceiverModel
  import opened AckSafety
  import opened ChatModel

  /** Everything ever sent may still arrive; `sent` and `acks` only grow. */
  datatype Network = Network(client: Chat, receiver: RState, sent: seq<AppendFrame>, acks: set<Digest>)

  datatype Move =
    | Turn(messages: seq<Message>, metadata: Bytes, maybe: seq<bool>)
    | Arrive(index: nat)
    | Accept(root: Digest)
    | Foreign(frame: Frame, answer: Answer)

  /** The client after an ACK of its own root. */
  function Acked(c: Chat): Chat {
    c.(shim := c.shim.(baseRoot := c.shim.root, baseLen := |c.shim.ids|), pending := None)
  }

  /** One move; a move that is not possible changes nothing. */
  function Moved(h: Hashes, z: Zstd, s: Network, m: Move): Network {
    match m
    case Turn(messages, metadata, maybe) =>
      if |maybe| == |messages| && Admitted(s.client, messages, metadata) then
        var (client, frame) := Advance(h, z, s.client, messages, maybe);
        s.(client := client, sent := s.sent + [frame])
      else s
    case Arrive(i) =>
      if i < |s.sent| then
        var (receiver, r) := AppendStep(h, z, s.receiver, s.sent[i]);
        s.(receiver := receiver, acks := if r.Ok? then s.acks + {r.value.root} else s.acks)
      else s
    case Accept(root) =>
      if root in s.acks && s.client.pending == Some(root) then s.(client := Acked(s.client)) else s
    case Foreign(f, answer) =>
      if FrameSid(f) != s.client.shim.sid then s.(receiver := FrameStep(h, z, s.receiver, f, answer).0) else s
  }

  function RunMoves(h: Hashes, z: Zstd, s: Network, moves: seq<Move>): Network {
    if moves == [] then s else Moved(h, z, RunMoves(h, z, s, moves[..|moves| - 1]), moves[|moves| - 1])
  }

  /** A new chat session, and a receiver that has not heard of it. */
  ghost predicate Initial(h: Hashes, s: Network) {
    && s.client.shim.store == EMPTY && s.client.shim.ids == [] && s.client.pending == None
    && s.client.shim.root == s.client.shim.baseRoot == ROOT_ZERO && s.client.shim.baseLen == 0
    && Inv(h, s.receiver) && LogOf(s.receiver.store, s.client.shim.sid) == SessionLog([], ROOT_ZERO)
    && SessionOf(s.receiver, s.client.shim.sid).pending == {}
    && s.sent == [] && s.acks == {}
  }

  // --------------------------------------------------------------------------- invariant

  /** The frame says ids[a..b] on top of ids[..a]. */
  ghost predicate Carries(h: Hashes, z: Zstd, ids: seq<Digest>, sid: nat, f: AppendFrame, a: nat, b: nat) {
    && a <= b <= |ids| && f.sid == sid
    && f.baseRoot == RootOver(h, ROOT_ZERO, ids[..a])
    && Says(h, z, ids[..a], ids[a..b], f.blocks)
  }

  /** A frame of an acknowledged turn. */
  ghost predicate Settled(h: Hashes, z: Zstd, c: Chat, f: AppendFrame) {
    exists a: nat, b: nat :: b <= c.shim.baseLen && Carries(h, z, c.shim.ids, c.shim.sid, f, a, b)
  }

  /** The frame of the turn in flight. */
  ghost predicate InFlight(h: Hashes, z: Zstd, c: Chat, f: AppendFrame) {
    Carries(h, z, c.shim.ids, c.shim.sid, f, c.shim.baseLen, |c.shim.ids|)
  }

  ghost predicate ClientOk(h: Hashes, c: Chat) {
    && ShimOk(h, c.shim)
    && (c.pending.None? ==> c.shim.baseLen == |c.shim.ids|)
    && (c.pending.Some? ==> c.pending.value == c.shim.root)
  }

  /** How much of the client's log the receiver holds. */
  function Held(s: Network): nat { |LogOf(s.receiver.store, s.client.shim.sid).ids| }

  /** The receiver's log is the client's up to the acknowledged length or in full. */
  ghost predicate PrefixHeld(h: Hashes, s: Network) {
    var shim, log := s.client.shim, LogOf(s.receiver.store, s.client.shim.sid);
    && |log.ids| <= |shim.ids| && log.ids == shim.ids[..|log.ids|]
    && log.root == RootOver(h, ROOT_ZERO, log.ids)
    && (|log.ids| == shim.baseLen || |log.ids| == |shim.ids|)
  }

  /** An ACK stands for a prefix the receiver has held. */
  ghost predicate AckOk(h: Hashes, s: Network, root: Digest) {
    exists m: nat :: m <= Held(s) && m <= |s.client.shim.ids| && root == RootOver(h, ROOT_ZERO, s.client.shim.ids[..m])
  }

  ghost predicate SysInv(h: Hashes, z: Zstd, s: Network) {
    && ClientOk(h, s.client)
    && Inv(h, s.receiver) && SessionOf(s.receiver, s.client.shim.sid).pending == {}
    && PrefixHeld(h, s)
    && (forall i :: 0 <= i < |s.sent| ==> Settled(h, z, s.client, s.sent[i]) || InFlight(h, z, s.client, s.sent[i]))
    && (s.client.pending.Some? ==> s.sent != [] && InFlight(h, z, s.client, s.sent[|s.sent| - 1]))
    && (forall root :: root in s.acks ==> AckOk(h, s, root))
  }

  lemma {:induction false} InitialInv(h: Hashes, z: Zstd, s: Network)
    requires Initial(h, s)
    ensures SysInv(h, z, s)
  {
    hide Inv;
    assert s.client.shim.ids[..0] == [];
  }

  // ---------------------------------------------------------------------------- delivery

  /** With the frame's past stored, all its references resolve. */
  lemma {:induction false} RefsResolve(blocks: map<Digest, Block>, past: seq<Digest>, items: seq<Item>, i: nat)
    requires forall id :: id in past ==> id in blocks
    requires forall j :: 0 <= j < |items| && items[j].Known? ==> items[j].id in past + Ids(items)[..j]
    requires i < |items|
    ensures items[i].id in blocks || items[i].id in InlineIds(items[..i + 1])
    ensures items[i].Known? ==> items[i].id in blocks || items[i].id in InlineIds(items[..i])
    decreases i
  {
    if items[i].Full? {
      assert items[..i + 1][i].Full?;
    } else if items[i].id !in past {
      var j :| 0 <= j < i && Ids(items)[..i][j] == items[i].id;
      RefsResolve(blocks, past, items, j);
      if items[i].id !in blocks {
        var k :| 0 <= k <= j && items[..j + 1][k].Full? && items[..j + 1][k].id == items[i].id;
        assert items[..i][k].Full? && items[..i][k].id == items[i].id;
        assert items[..i + 1][k].Full? && items[..i + 1][k].id == items[i].id;
      }
    }
  }

  lemma {:induction false} CarriedRefsOk(h: Hashes, z: Zstd, ids: seq<Digest>, sid: nat, f: AppendFrame, a: nat, b: nat,
                                         blocks: map<Digest, Block>)
    requires Carries(h, z, ids, sid, f, a, b) && forall id :: id in ids[..a] ==> id in blocks
    ensures var r := Resolve(h, z, f.blocks); r.Ok? && Ids(r.value) == ids[a..b] && RefsOk(blocks, r.value)
  {
    hide Resolve, InlineIds;
    var items := Resolve(h, z, f.blocks).value;
    forall i | 0 <= i < |items| && items[i].Known?
      ensures items[i].id in blocks || items[i].id in InlineIds(items[..i])
    {
      RefsResolve(blocks, ids[..a], items, i);
    }
  }

  /** The root over a prefix determines its length. */
  lemma {:induction false} PrefixRoots(h: Hashes, ids: seq<Digest>, a: nat, b: nat)
    requires CollisionFree(h) && a <= |ids| && b <= |ids|
    ensures RootOver(h, ROOT_ZERO, ids[..a]) == RootOver(h, ROOT_ZERO, ids[..b]) <==> a == b
  {
    hide RootOver, CollisionFree;
    if RootOver(h, ROOT_ZERO, ids[..a]) == RootOver(h, ROOT_ZERO, ids[..b]) {
      RootInjective(h, ids[..a], ids[..b]);
      assert |ids[..a]| == a && |ids[..b]| == b;
    }
  }

  /**
    What a frame for ids[a..b] does at a receiver that holds ids[..n]: it extends the
    log if a == n, is acknowledged again if b == n, and is rejected otherwise.
   */
  lemma {:induction false} Delivered(h: Hashes, z: Zstd, rs: RState, ids: seq<Digest>, sid: nat, f: AppendFrame, a: nat,
                                     b: nat, n: nat)
    requires CollisionFree(h) && Inv(h, rs) && SessionOf(rs, sid).pending == {}
    requires n <= |ids| && LogOf(rs.store, sid) == SessionLog(ids[..n], RootOver(h, ROOT_ZERO, ids[..n]))
    requires Carries(h, z, ids, sid, f, a, b) && a <= n
    ensures
      var (next, r) := AppendStep(h, z, rs, f);
      var m := if a == n then b else n;
      && LogOf(next.store, sid) == SessionLog(ids[..m], RootOver(h, ROOT_ZERO, ids[..m]))
      && SessionOf(next, sid).pending == {} && next.sessions == rs.sessions[sid := SessionOf(rs, sid)]
      && (r.Ok? <==> a == n || b == n)
      && (r.Ok? ==> r.value == AckFrame(sid, RootOver(h, ROOT_ZERO, ids[..m])))
  {
    hide AppendStep, RootOver, CollisionFree, Inv, Resolve, RefsOk, Ids, Says;
    PastStored(h, rs, ids, sid, a, n);
    CarriedRefsOk(h, z, ids, sid, f, a, b, rs.store.blocks);
    BaseRoot(h, z, ids, sid, f, a, b);
    PrefixRoots(h, ids, a, n);
    PrefixRoots(h, ids, b, n);
    assert ids[..b] == ids[..a] + ids[a..b];
    RootOverAppend(h, ROOT_ZERO, ids[..a], ids[a..b]);
    Accepted(h, z, rs, f, ids[a..b]);
  }

  /** The log the frame builds on has content. */
  lemma {:induction false} PastStored(h: Hashes, rs: RState, ids: seq<Digest>, sid: nat, a: nat, n: nat)
    requires Inv(h, rs) && SessionOf(rs, sid).pending == {} && a <= n <= |ids| && LogOf(rs.store, sid).ids == ids[..n]
    ensures forall id :: id in ids[..a] ==> id in rs.store.blocks
  {
    hide ContentAddressed, SessionOf, LogOf;
    assert Accounted(rs, sid);
    assert ids[..a] == ids[..n][..a];
  }

  /** What happens to a resolvable frame at a session with nothing pending. */
  lemma {:induction false} Accepted(h: Hashes, z: Zstd, rs: RState, f: AppendFrame, added: seq<Digest>)
    requires SessionOf(rs, f.sid).pending == {} && Resolve(h, z, f.blocks).Ok?
    requires RefsOk(rs.store.blocks, Resolve(h, z, f.blocks).value) && Ids(Resolve(h, z, f.blocks).value) == added
    ensures
      var (next, r) := AppendStep(h, z, rs, f);
      var log := LogOf(rs.store, f.sid);
      var target := RootOver(h, f.baseRoot, added);
      && next.sessions == rs.sessions[f.sid := SessionOf(rs, f.sid)]
      && (r.Ok? <==> f.baseRoot == log.root || target == log.root)
      && (f.baseRoot == log.root ==>
            r == Ok(AckFrame(f.sid, target)) && LogOf(next.store, f.sid) == SessionLog(log.ids + added, target))
      && (f.baseRoot != log.root ==> next.store == rs.store && (r.Ok? ==> r.value == AckFrame(f.sid, log.root)))
  {
    hide Resolve, Run, RefsOk, ItemOps, InlineIds, RootOver, Ids;
    if f.baseRoot == LogOf(rs.store, f.sid).root {
      RunItems(h, rs.store, f.sid, Resolve(h, z, f.blocks).value);
    }
  }

  lemma {:induction false} BaseRoot(h: Hashes, z: Zstd, ids: seq<Digest>, sid: nat, f: AppendFrame, a: nat, b: nat)
    requires Carries(h, z, ids, sid, f, a, b)
    ensures f.sid == sid && f.baseRoot == RootOver(h, ROOT_ZERO, ids[..a])
  {
  }

  // --------------------------------------------------------------------- moves keep it

  lemma {:induction false} CarriesMore(h: Hashes, z: Zstd, ids: seq<Digest>, more: seq<Digest>, sid: nat,
                                       f: AppendFrame, a: nat, b: nat)
    requires Carries(h, z, ids, sid, f, a, b)
    ensures Carries(h, z, ids + more, sid, f, a, b)
  {
    assert (ids + more)[..a] == ids[..a] && (ids + more)[a..b] == ids[a..b];
  }

  lemma {:induction false} TurnKeeps(h: Hashes, z: Zstd, s: Network, messages: seq<Message>, metadata: Bytes,
                                     maybe: seq<bool>)
    requires CollisionFree(h) && Lossless(z) && SysInv(h, z, s)
    requires |maybe| == |messages| && Admitted(s.client, messages, metadata)
    ensures SysInv(h, z, Moved(h, z, s, Turn(messages, metadata, maybe)))
  {
    hide Inv, ShimOk, Ingest, Says, Carries, RootOver, CollisionFree, WorstCase, Lossless;
    var shim := s.client.shim;
    var blocks := Numbered(messages, s.client.nextSeq);
    forall i | 0 <= i < |blocks| ensures BlockOk(blocks[i]) {
      PayloadBound(metadata, messages, i);
    }
    IngestSays(h, z, shim, blocks, maybe);
    var next := Moved(h, z, s, Turn(messages, metadata, maybe));
    var more := BlockIds(h, blocks);
    var ids := shim.ids + more;
    var frame := next.sent[|s.sent|];
    assert next.client.shim.ids == ids && next.client.shim.baseLen == |shim.ids|;
    TurnCarries(h, z, shim, next.client.shim, more, frame);
    forall i | 0 <= i < |next.sent|
      ensures Settled(h, z, next.client, next.sent[i]) || InFlight(h, z, next.client, next.sent[i])
    {
      if i < |s.sent| {
        SettledMore(h, z, s.client, next.client, more, s.sent[i]);
      }
    }
    PrefixMore(h, s, next, more);
    forall root | root in next.acks ensures AckOk(h, next, root) {
      var m: nat :| m <= Held(s) && m <= |shim.ids| && root == RootOver(h, ROOT_ZERO, shim.ids[..m]);
      assert ids[..m] == shim.ids[..m];
    }
  }

  /** With nothing in flight every sent frame is settled, and it stays so when the log grows. */
  lemma {:induction false} SettledMore(h: Hashes, z: Zstd, c: Chat, next: Chat, more: seq<Digest>, f: AppendFrame)
    requires c.shim.baseLen == |c.shim.ids| == next.shim.baseLen
    requires Settled(h, z, c, f) || InFlight(h, z, c, f)
    requires next.shim.ids == c.shim.ids + more && next.shim.sid == c.shim.sid
    ensures Settled(h, z, next, f)
  {
    hide Carries;
    var ids := c.shim.ids;
    var a: nat, b: nat :| b <= |ids| && Carries(h, z, ids, c.shim.sid, f, a, b);
    CarriesMore(h, z, ids, more, c.shim.sid, f, a, b);
  }

  lemma {:induction false} TurnCarries(h: Hashes, z: Zstd, shim: Shim, next: Shim, more: seq<Digest>, f: AppendFrame)
    requires ShimOk(h, shim) && shim.baseLen == |shim.ids| && next.ids == shim.ids + more
    requires f.sid == shim.sid && f.baseRoot == shim.baseRoot && Says(h, z, shim.ids, more, f.blocks)
    ensures Carries(h, z, next.ids, shim.sid, f, |shim.ids|, |next.ids|)
  {
    hide Says, RootOver, ContentAddressed, LogOf;
    assert next.ids[..|shim.ids|] == shim.ids == shim.ids[..shim.baseLen];
    assert next.ids[|shim.ids|..|next.ids|] == more;
  }

  /**
    The frame of a turn carries everything since the base root exactly if everything
    before the turn is acknowledged.
   */
  lemma {:induction false} DeltaExactly(h: Hashes, z: Zstd, s: Shim, blocks: seq<Block>, maybe: seq<bool>)
    requires |maybe| == |blocks| && ShimOk(h, s) && Lossless(z)
    requires forall i :: 0 <= i < |blocks| ==> BlockOk(blocks[i])
    ensures
      var (next, sent) := Ingest(h, z, s, blocks, maybe);
      Carries(h, z, next.ids, s.sid, AppendFrame(s.sid, s.baseRoot, sent), s.baseLen, |next.ids|) <==>
      s.baseLen == |s.ids|
  {
    hide ShimOk, Ingest, RootOver, Lossless, BlockOk, Resolve;
    IngestSays(h, z, s, blocks, maybe);
    var (next, sent) := Ingest(h, z, s, blocks, maybe);
    var f := AppendFrame(s.sid, s.baseRoot, sent);
    if s.baseLen == |s.ids| {
      TurnCarries(h, z, s, next, BlockIds(h, blocks), f);
    }
    if Carries(h, z, next.ids, s.sid, f, s.baseLen, |next.ids|) {
      assert |next.ids[s.baseLen..]| == |blocks|;
    }
  }

  lemma {:induction false} InlineTurn(h: Hashes, z: Zstd, s: Shim, blocks: seq<Block>, maybe: seq<bool>)
    requires |maybe| == |blocks| && forall i :: 0 <= i < |blocks| ==> !maybe[i]
    ensures forall fb :: fb in Ingest(h, z, s, blocks, maybe).1 ==> fb.Inline?
  {
    hide Step, BlockId;
    if blocks != [] {
      var n := |blocks| - 1;
      InlineTurn(h, z, s, blocks[..n], maybe[..n]);
    }
  }

  lemma {:induction false} InlineResolved(h: Hashes, z: Zstd, blocks: seq<FrameBlock>)
    requires Resolve(h, z, blocks).Ok? && forall fb :: fb in blocks ==> fb.Inline?
    ensures forall item :: item in Resolve(h, z, blocks).value ==> item.Full?
  {
    hide FromCanonical, Decompress;
    if blocks != [] {
      var n := |blocks| - 1;
      assert forall fb :: fb in blocks[..n] ==> fb in blocks;
      InlineResolved(h, z, blocks[..n]);
      var last := ResolveOne(h, z, blocks[n]).value;
      assert blocks[n] in blocks && last.Full?;
      assert Resolve(h, z, blocks).value == Resolve(h, z, blocks[..n]).value + [last];
    }
  }

  /**
    With an earlier turn unacknowledged and undelivered, the receiver takes the frame of
    the next turn onto the base, and acknowledges a log in which the earlier one is missing.
   */
  lemma {:induction false} LostTurn(h: Hashes, z: Zstd, s: Shim, blocks: seq<Block>, maybe: seq<bool>, rs: RState)
    requires CollisionFree(h) && Lossless(z) && ShimOk(h, s) && s.baseLen < |s.ids|
    requires |maybe| == |blocks| && forall i :: 0 <= i < |blocks| ==> BlockOk(blocks[i]) && !maybe[i]
    requires SessionOf(rs, s.sid).pending == {} && LogOf(rs.store, s.sid) == SessionLog(s.ids[..s.baseLen], s.baseRoot)
    ensures
      var (next, sent) := Ingest(h, z, s, blocks, maybe);
      var (after, r) := AppendStep(h, z, rs, AppendFrame(s.sid, s.baseRoot, sent));
      var log := LogOf(after.store, s.sid);
      && r == Ok(AckFrame(s.sid, log.root)) && log.ids == s.ids[..s.baseLen] + BlockIds(h, blocks)
      && next.ids == s.ids + BlockIds(h, blocks) && log.root != next.root
  {
    hide ShimOk, Ingest, RootOver, Lossless, BlockOk, Resolve, CollisionFree, AppendStep, InlineIds;
    IngestSays(h, z, s, blocks, maybe);
    InlineTurn(h, z, s, blocks, maybe);
    var (next, sent) := Ingest(h, z, s, blocks, maybe);
    InlineResolved(h, z, sent);
    var items := Resolve(h, z, sent).value;
    assert forall i :: 0 <= i < |items| ==> items[i] in items;
    var f, added := AppendFrame(s.sid, s.baseRoot, sent), BlockIds(h, blocks);
    Accepted(h, z, rs, f, added);
    ShimParts(h, s);
    ShimParts(h, next);
    var held := s.ids[..s.baseLen] + added;
    RootOverAppend(h, ROOT_ZERO, s.ids[..s.baseLen], added);
    assert |held| < |next.ids|;
    if RootOver(h, ROOT_ZERO, held) == RootOver(h, ROOT_ZERO, next.ids) {
      RootInjective(h, held, next.ids);
    }
  }

  /** Two turns from a new session, the second delivered alone. */
  lemma {:induction false} SecondTurnAlone(h: Hashes, z: Zstd, sid: nat, x: Block, y: Block)
    requires CollisionFree(h) && Lossless(z) && BlockOk(x) && BlockOk(y)
    ensures
      var shim := Ingest(h, z, Shim(sid, EMPTY, [], ROOT_ZERO, ROOT_ZERO, 0), [x], [false]).0;
      var (next, sent) := Ingest(h, z, shim, [y], [false]);
      var (after, r) := AppendStep(h, z, NewReceiver(EMPTY), AppendFrame(sid, ROOT_ZERO, sent));
      && next.ids == [BlockId(h, x), BlockId(h, y)]
      && LogOf(after.store, sid).ids == [BlockId(h, y)] && r == Ok(AckFrame(sid, LogOf(after.store, sid).root))
  {
    hide Ingest, RootOver, Lossless, BlockOk, AppendStep, CollisionFree, BlockId;
    var start := Shim(sid, EMPTY, [], ROOT_ZERO, ROOT_ZERO, 0);
    NewShimOk(h, sid);
    IngestSays(h, z, start, [x], [false]);
    var shim := Ingest(h, z, start, [x], [false]).0;
    assert [] + BlockIds(h, [x]) == [BlockId(h, x)];
    hide ShimOk;
    NewReceiverEmpty(sid);
    LostTurn(h, z, shim, [y], [false], NewReceiver(EMPTY));
    assert BlockIds(h, [y]) == [BlockId(h, y)] && shim.ids[..0] == [];
  }

  lemma {:induction false} NewShimOk(h: Hashes, sid: nat)
    ensures ShimOk(h, Shim(sid, EMPTY, [], ROOT_ZERO, ROOT_ZERO, 0))
  {
  }

  lemma {:induction false} NewReceiverEmpty(sid: nat)
    ensures SessionOf(NewReceiver(EMPTY), sid).pending == {}
    ensures LogOf(NewReceiver(EMPTY).store, sid) == SessionLog([], ROOT_ZERO)
  {
  }

  lemma {:induction false} PrefixMore(h: Hashes, s: Network, next: Network, more: seq<Digest>)
    requires PrefixHeld(h, s) && s.client.shim.baseLen == |s.client.shim.ids| == next.client.shim.baseLen
    requires next.receiver == s.receiver && next.client.shim.sid == s.client.shim.sid
    requires next.client.shim.ids == s.client.shim.ids + more
    ensures PrefixHeld(h, next)
  {
    hide RootOver, LogOf;
  }

  lemma {:induction false} ArriveKeeps(h: Hashes, z: Zstd, s: Network, i: nat)
    requires CollisionFree(h) && SysInv(h, z, s) && i < |s.sent|
    ensures SysInv(h, z, Moved(h, z, s, Arrive(i)))
    ensures s.client.pending.Some? && i == |s.sent| - 1 ==>
      AppendStep(h, z, s.receiver, s.sent[i]).1 == Ok(AckFrame(s.client.shim.sid, s.client.pending.value))
  {
    hide Inv, Carries, RootOver, CollisionFree, AppendStep, LogOf, SessionOf, ShimOk;
    var c, n, f := s.client, Held(s), s.sent[i];
    var ids, sid := c.shim.ids, c.shim.sid;
    ShimParts(h, c.shim);
    assert ids[..|ids|] == ids;
    var a: nat, b: nat := c.shim.baseLen, |ids|;
    if !InFlight(h, z, c, f) {
      a, b :| b <= c.shim.baseLen && Carries(h, z, ids, sid, f, a, b);
    }
    CarriedBounds(h, z, ids, sid, f, a, b);
    Delivered(h, z, s.receiver, ids, sid, f, a, b, n);
    AppendKeeps(h, z, s.receiver, f);
    var next := Moved(h, z, s, Arrive(i));
    var m := if a == n then b else n;
    assert |ids[..m]| == m;
    forall root | root in next.acks ensures AckOk(h, next, root) {
      if root in s.acks {
        var k: nat :| k <= Held(s) && k <= |ids| && root == RootOver(h, ROOT_ZERO, ids[..k]);
        assert k <= Held(next);
      } else {
        assert root == RootOver(h, ROOT_ZERO, ids[..m]);
      }
    }
  }

  lemma {:induction false} ShimParts(h: Hashes, s: Shim)
    requires ShimOk(h, s)
    ensures s.root == RootOver(h, ROOT_ZERO, s.ids)
    ensures s.baseLen <= |s.ids| && s.baseRoot == RootOver(h, ROOT_ZERO, s.ids[..s.baseLen])
  {
  }

  lemma {:induction false} CarriedBounds(h: Hashes, z: Zstd, ids: seq<Digest>, sid: nat, f: AppendFrame, a: nat, b: nat)
    requires Carries(h, z, ids, sid, f, a, b)
    ensures a <= b <= |ids| && f.sid == sid
  {
  }

  lemma {:induction false} AcceptKeeps(h: Hashes, z: Zstd, s: Network, root: Digest)
    requires CollisionFree(h) && SysInv(h, z, s) && root in s.acks && s.client.pending == Some(root)
    ensures SysInv(h, z, Moved(h, z, s, Accept(root)))
    ensures Held(s) == |s.client.shim.ids|
  {
    hide Inv, Carries, RootOver, CollisionFree, LogOf, SessionOf;
    var c := s.client;
    var ids := c.shim.ids;
    var m: nat :| m <= Held(s) && m <= |ids| && root == RootOver(h, ROOT_ZERO, ids[..m]);
    assert ids[..|ids|] == ids;
    PrefixRoots(h, ids, m, |ids|);
    var next := Moved(h, z, s, Accept(root));
    forall i | 0 <= i < |next.sent| ensures Settled(h, z, next.client, next.sent[i]) {
      if !Settled(h, z, c, s.sent[i]) {
        assert InFlight(h, z, c, s.sent[i]);
      } else {
        var a: nat, b: nat :| b <= c.shim.baseLen && Carries(h, z, ids, c.shim.sid, s.sent[i], a, b);
      }
    }
    forall r | r in next.acks ensures AckOk(h, next, r) {
      assert AckOk(h, s, r);
    }
  }

  /** Frames of other sessions leave this session's log and bookkeeping alone. */
  lemma {:induction false} ForeignLeaves(h: Hashes, z: Zstd, rs: RState, f: Frame, answer: Answer, sid: nat)
    requires FrameSid(f) != sid
    ensures
      var next := FrameStep(h, z, rs, f, answer).0;
      LogOf(next.store, sid) == LogOf(rs.store, sid) && SessionOf(next, sid) == SessionOf(rs, sid)
  {
    hide AppendStep, BulkStep, MissingList;
    match f {
      case Append(a) => ForeignAppend(h, z, rs, a, sid);
      case Resync(r) =>
      case Bulk(b) => ForeignBulk(h, z, rs, b, answer, sid);
      case Ack(_) =>
      case Missing(_) =>
    }
  }

  lemma {:induction false} ForeignAppend(h: Hashes, z: Zstd, rs: RState, f: AppendFrame, sid: nat)
    requires f.sid != sid
    ensures
      var next := AppendStep(h, z, rs, f).0;
      LogOf(next.store, sid) == LogOf(rs.store, sid) && SessionOf(next, sid) == SessionOf(rs, sid)
  {
    hide Run, Resolve, RefsOk, ItemOps, Ids, InlineIds, RootOver, Honest, ContentAddressed;
    var items := Resolve(h, z, f.blocks);
    if items.Ok? && RefsOk(rs.store.blocks, items.value) {
      RunItems(h, rs.store, f.sid, items.value);
    }
  }

  lemma {:induction false} ForeignBulk(h: Hashes, z: Zstd, rs: RState, f: BulkFrame, answer: Answer, sid: nat)
    requires f.sid != sid
    ensures
      var next := BulkStep(h, z, rs, f, answer).0;
      LogOf(next.store, sid) == LogOf(rs.store, sid) && SessionOf(next, sid) == SessionOf(rs, sid)
  {
    hide Run, Fed, Asked, UnpackAll, Records, Flat, ContentOps, InlineIds, Honest;
    var session := SessionOf(rs, f.sid);
    var (fed, refused) := Fed(DecoderOf(session, f), f.symbols);
    if refused.None? {
      var (asked, result) := Asked(fed, answer);
      if result.Ok? {
        var records := Records(Flat(result.value));
        var items := UnpackAll(h, z, records);
        if items.Ok? {
          UnpackedItems(h, z, records);
          RunContent(h, rs.store, f.sid, items.value);
        }
      }
    }
  }

  lemma {:induction false} ForeignKeeps(h: Hashes, z: Zstd, s: Network, f: Frame, answer: Answer)
    requires SysInv(h, z, s) && FrameSid(f) != s.client.shim.sid
    ensures SysInv(h, z, Moved(h, z, s, Foreign(f, answer)))
  {
    hide Inv, Settled, InFlight, RootOver, FrameStep, LogOf, SessionOf, ClientOk;
    FrameKeeps(h, z, s.receiver, f, answer);
    ForeignLeaves(h, z, s.receiver, f, answer, s.client.shim.sid);
    var next := Moved(h, z, s, Foreign(f, answer));
    forall r | r in next.acks ensures AckOk(h, next, r) {
      assert AckOk(h, s, r);
    }
  }

  lemma {:induction false} MoveKeeps(h: Hashes, z: Zstd, s: Network, m: Move)
    requires CollisionFree(h) && Lossless(z) && SysInv(h, z, s)
    ensures SysInv(h, z, Moved(h, z, s, m))
  {
    var next := Moved(h, z, s, m);
    hide SysInv, CollisionFree, Lossless, Admitted, Advance, AppendStep, FrameStep, Acked;
    if next != s {
      match m {
        case Turn(messages, metadata, maybe) => TurnKeeps(h, z, s, messages, metadata, maybe);
        case Arrive(i) => ArriveKeeps(h, z, s, i);
        case Accept(root) => AcceptKeeps(h, z, s, root);
        case Foreign(f, answer) => ForeignKeeps(h, z, s, f, answer);
      }
    }
  }

  // -------------------------------------------------------------------------- theorems

  lemma {:induction false} AllRunsKeep(h: Hashes, z: Zstd, s: Network, moves: seq<Move>)
    requires CollisionFree(h) && Lossless(z) && SysInv(h, z, s)
    ensures SysInv(h, z, RunMoves(h, z, s, moves))
  {
    hide SysInv, CollisionFree, Lossless, Moved;
    if moves != [] {
      AllRunsKeep(h, z, s, moves[..|moves| - 1]);
      MoveKeeps(h, z, RunMoves(h, z, s, moves[..|moves| - 1]), moves[|moves| - 1]);
    }
  }

  /** Blocks that hash alike are alike. */
  lemma {:induction false} SameBlock(h: Hashes, a: Block, b: Block)
    requires CollisionFree(h) && BlockOk(a) && BlockOk(b) && BlockId(h, a) == BlockId(h, b)
    ensures a == b
  {
    hide Canonical, FromCanonical;
    CanonicalRoundTrip(a, []);
    CanonicalRoundTrip(b, []);
    assert Canonical(a) == Canonical(b);
  }

  lemma {:induction false} SameLookup(h: Hashes, x: map<Digest, Block>, y: map<Digest, Block>, ids: seq<Digest>)
    requires CollisionFree(h) && forall id :: id in ids ==> id in x && id in y
    requires forall id :: id in x ==> id == BlockId(h, x[id]) && BlockOk(x[id])
    requires forall id :: id in y ==> id == BlockId(h, y[id]) && BlockOk(y[id])
    ensures Lookup(x, ids) == Lookup(y, ids)
  {
    hide CollisionFree, BlockId;
    if ids != [] {
      var n := |ids| - 1;
      assert ids[n] in ids;
      SameLookup(h, x, y, ids[..n]);
      SameBlock(h, x[ids[n]], y[ids[n]]);
    }
  }

  /**
    The receiver's log is the client's log up to the acknowledged length or in full, so no
    turn is missing, out of order or applied twice; what it reconstructs is what the client
    stored; a client with nothing in flight is held in full; and delivering the frame in
    flight draws the ACK the client waits for.
   */
  ghost predicate InStep(h: Hashes, z: Zstd, s: Network) {
    var shim, n := s.client.shim, Held(s);
    && n <= |shim.ids| && (n == shim.baseLen || n == |shim.ids|)
    && LogOf(s.receiver.store, shim.sid) == SessionLog(shim.ids[..n], RootOver(h, ROOT_ZERO, shim.ids[..n]))
    && Reconstruct(s.receiver.store, shim.sid) == Lookup(shim.store.blocks, shim.ids[..n])
    && (s.client.pending.None? ==> n == |shim.ids|)
    && (s.client.pending.Some? ==>
          && s.client.pending.value == shim.root && s.sent != []
          && AppendStep(h, z, s.receiver, s.sent[|s.sent| - 1]).1 == Ok(AckFrame(shim.sid, shim.root)))
  }

  lemma {:induction false} KeptInStep(h: Hashes, z: Zstd, s: Network)
    requires CollisionFree(h) && SysInv(h, z, s)
    ensures InStep(h, z, s)
  {
    hide CollisionFree, Carries, Lookup, BlockId, RootOver, AppendStep;
    var shim, log := s.client.shim, LogOf(s.receiver.store, s.client.shim.sid);
    if s.client.pending.Some? {
      ArriveKeeps(h, z, s, |s.sent| - 1);
    }
    assert Accounted(s.receiver, shim.sid);
    forall id | id in log.ids ensures id in shim.store.blocks && id in s.receiver.store.blocks {
      assert id in shim.ids;
    }
    SameLookup(h, s.receiver.store.blocks, shim.store.blocks, log.ids);
  }

  /** In every run of a new session client and receiver stay in step. */
  lemma {:induction false} PrefixInvariant(h: Hashes, z: Zstd, start: Network, moves: seq<Move>)
    requires CollisionFree(h) && Lossless(z) && Initial(h, start)
    ensures InStep(h, z, RunMoves(h, z, start, moves))
  {
    hide CollisionFree, Lossless, Initial, RunMoves, InStep, SysInv;
    InitialInv(h, z, start);
    AllRunsKeep(h, z, start, moves);
    KeptInStep(h, z, RunMoves(h, z, start, moves));
  }
}
