/**
  The client and a receiver that may crash.  The receiver's store operations are logged;
  an ACK is exposed only after its flush (`crates/sidecar/src/lib.rs`); a crash reopens
  the receiver on a whole-operation prefix of the log that includes what was flushed,
  which is what `DurableStore.ContentStore.CrashCut` shows of the file, after failed
  flushes too.  Records are within the size limit of the log.
 */
module CrashRecovery {
  import opened Bytes
  import opened Blocks
  import opened Results
  import opened Store
  import opened Frames
  import opened ReceiverModel
  import opened Receiver
  import opened AckSafety
  import opened Replies
  import opened ChatModel
  import opened Replication
  import opened ColdStart

  /** How the flush behind a handled frame ends; the process may die before it. */
  datatype Flush = Written | Refused | NotReached

  /** The network, the state the log was opened with, the operations logged since, how many are flushed. */
  datatype Durable = Durable(net: Network, base: StoreState, ops: seq<Op>, flushed: nat, latched: bool)

  datatype Happening =
    | Say(messages: seq<Message>, metadata: Bytes, maybe: seq<bool>)
    | Reach(index: nat, flush: Flush)
    | Take(root: Digest)
    | Other(frame: Frame, answer: Answer, flush: Flush)
    | Crash(keep: nat)

  // ----------------------------------------------------------- the operations of a frame

  lemma {:induction false} AppendOpsRun(h: Hashes, z: Zstd, rs: RState, f: AppendFrame)
    ensures AppendStep(h, z, rs, f).0.store == Run(h, rs.store, AppendOps(h, z, rs, f))
  {
    hide Run, Resolve, RefsOk, ItemOps, RootOver, Ids, LogOf;
    RunNothing(h, rs.store);
  }

  lemma {:induction false} BulkOpsRun(h: Hashes, z: Zstd, rs: RState, f: BulkFrame, answer: Answer)
    ensures BulkStep(h, z, rs, f, answer).0.store == Run(h, rs.store, BulkOps(h, z, rs, f, answer))
  {
    hide Run, Fed, Asked, UnpackAll, Records, Flat, ContentOps, LogOf, InlineIds;
    RunNothing(h, rs.store);
  }

  /** A handled frame does to the store what its operations do. */
  lemma {:induction false} FrameOpsRun(h: Hashes, z: Zstd, rs: RState, f: Frame, answer: Answer)
    ensures FrameStep(h, z, rs, f, answer).0.store == Run(h, rs.store, FrameOps(h, z, rs, f, answer))
  {
    match f {
      case Append(a) => AppendOpsRun(h, z, rs, a);
      case Resync(r) => RunOne(h, rs.store, Seed(r.sid, r.manifest, r.clientRoot));
      case Bulk(b) => BulkOpsRun(h, z, rs, b, answer);
      case Ack(_) => RunNothing(h, rs.store);
      case Missing(_) => RunNothing(h, rs.store);
    }
  }

  lemma {:induction false} RunOne(h: Hashes, st: StoreState, op: Op)
    ensures Run(h, st, [op]) == Step(h, st, op)
  {
    RunLast(h, st, [], op);
    assert [] + [op] == [op];
  }

  // -------------------------------------------------------------------------------- moves

  /** A flush that succeeds makes everything durable and exposes the ACK; one that fails latches. */
  function Flushed(s: Durable, flush: Flush, ack: Option<Digest>): Durable {
    if flush == NotReached then s
    else if s.latched || flush == Refused then s.(latched := true)
    else
      var acks := if ack.Some? then s.net.acks + {ack.value} else s.net.acks;
      s.(flushed := |s.ops|, net := s.net.(acks := acks))
  }

  /** One step; a step that is not possible changes nothing. */
  function Stepped(h: Hashes, z: Zstd, s: Durable, m: Happening): Durable {
    var net := s.net;
    match m
    case Say(messages, metadata, maybe) =>
      if |maybe| == |messages| && Admitted(net.client, messages, metadata) then
        var (client, frame) := Advance(h, z, net.client, messages, maybe);
        s.(net := net.(client := client, sent := net.sent + [frame]))
      else s
    case Reach(i, flush) =>
      if i < |net.sent| then
        var (receiver, r) := AppendStep(h, z, net.receiver, net.sent[i]);
        var t := s.(net := net.(receiver := receiver), ops := s.ops + AppendOps(h, z, net.receiver, net.sent[i]));
        if r.Ok? then Flushed(t, flush, Some(r.value.root)) else t
      else s
    case Take(root) =>
      if root in net.acks && net.client.pending == Some(root) then s.(net := net.(client := Acked(net.client))) else s
    case Other(f, answer, flush) =>
      if FrameSid(f) != net.client.shim.sid then
        var (receiver, r) := FrameStep(h, z, net.receiver, f, answer);
        var t := s.(net := net.(receiver := receiver), ops := s.ops + FrameOps(h, z, net.receiver, f, answer));
        if r.Ok? then Flushed(t, flush, None) else t
      else s
    case Crash(keep) =>
      if s.flushed <= keep <= |s.ops| then
        var st := Run(h, s.base, s.ops[..keep]);
        Durable(net.(receiver := NewReceiver(st)), st, [], 0, false)
      else s
  }

  function RunSteps(h: Hashes, z: Zstd, s: Durable, steps: seq<Happening>): Durable {
    if steps == [] then s else Stepped(h, z, RunSteps(h, z, s, steps[..|steps| - 1]), steps[|steps| - 1])
  }

  /** A new session, and a receiver opened on a log that does not know it. */
  ghost predicate Opened(h: Hashes, s: Durable) {
    Initial(h, s.net) && s.base == s.net.receiver.store && s.ops == [] && s.flushed == 0 && !s.latched
  }

  // ---------------------------------------------------------------------------- invariant

  /** The store holds a prefix of the client's log that includes everything acknowledged. */
  ghost predicate HeldAt(h: Hashes, st: StoreState, shim: Shim) {
    var log := LogOf(st, shim.sid);
    && shim.baseLen <= |log.ids| <= |shim.ids| && log.ids == shim.ids[..|log.ids|]
    && log.root == RootOver(h, ROOT_ZERO, log.ids)
    && Complete(st, shim.sid) && ContentAddressed(h, st)
  }

  /** The store a crash after j operations restores. */
  function StateAt(h: Hashes, s: Durable, j: nat): StoreState
    requires j <= |s.ops|
  {
    Run(h, s.base, s.ops[..j])
  }

  function LenAt(h: Hashes, s: Durable, j: nat): nat
    requires j <= |s.ops|
  {
    |LogOf(StateAt(h, s, j), s.net.client.shim.sid).ids|
  }

  /** A crash after j operations restores a good prefix, no shorter than the flushed one. */
  ghost predicate CutOk(h: Hashes, s: Durable, j: nat)
    requires s.flushed <= |s.ops| && j <= |s.ops|
  {
    HeldAt(h, StateAt(h, s, j), s.net.client.shim) && LenAt(h, s, s.flushed) <= LenAt(h, s, j)
  }

  /** An exposed ACK stands for a prefix that is flushed. */
  ghost predicate AckFlushed(h: Hashes, s: Durable, root: Digest)
    requires s.flushed <= |s.ops|
  {
    exists m: nat :: m <= LenAt(h, s, s.flushed) && m <= |s.net.client.shim.ids|
                     && root == RootOver(h, ROOT_ZERO, s.net.client.shim.ids[..m])
  }

  ghost predicate FramesOk(h: Hashes, z: Zstd, net: Network) {
    && (forall i :: 0 <= i < |net.sent| ==>
          Settled(h, z, net.client, net.sent[i]) || InFlight(h, z, net.client, net.sent[i]))
    && (net.client.pending.Some? ==> net.sent != [] && InFlight(h, z, net.client, net.sent[|net.sent| - 1]))
  }

  ghost predicate ReceiverOk(h: Hashes, s: Durable) {
    && s.net.receiver.store == Run(h, s.base, s.ops)
    && Inv(h, s.net.receiver) && SessionOf(s.net.receiver, s.net.client.shim.sid).pending == {}
  }

  ghost predicate DurInv(h: Hashes, z: Zstd, s: Durable) {
    && ClientOk(h, s.net.client) && FramesOk(h, z, s.net) && ReceiverOk(h, s)
    && s.flushed <= |s.ops|
    && (forall j :: s.flushed <= j <= |s.ops| ==> CutOk(h, s, j))
    && (forall root :: root in s.net.acks ==> AckFlushed(h, s, root))
  }

  lemma {:induction false} OpenedInv(h: Hashes, z: Zstd, s: Durable)
    requires Opened(h, s)
    ensures DurInv(h, z, s)
  {
    hide Inv, Run, ContentAddressed, RootOver;
    InitialInv(h, z, s.net);
    RunNothing(h, s.base);
    assert s.ops[..0] == [];
    var sid := s.net.client.shim.sid;
    InvContent(h, s.net.receiver);
    NoRoot(h);
    assert s.net.client.shim.ids[..0] == [];
    assert Complete(s.base, sid);
    assert CutOk(h, s, 0);
  }

  lemma {:induction false} NoRoot(h: Hashes)
    ensures RootOver(h, ROOT_ZERO, []) == ROOT_ZERO
  {
  }

  lemma {:induction false} InvContent(h: Hashes, rs: RState)
    requires Inv(h, rs)
    ensures ContentAddressed(h, rs.store)
  {
  }

  // --------------------------------------------------------------------- appending to the log

  /** Cuts of a longer log: the old ones are as they were. */
  lemma {:induction false} OldCut(h: Hashes, s: Durable, t: Durable, more: seq<Op>, j: nat)
    requires t.base == s.base && t.ops == s.ops + more && j <= |s.ops|
    ensures StateAt(h, t, j) == StateAt(h, s, j)
  {
    hide Run;
    assert t.ops[..j] == s.ops[..j];
  }

  /** And the new ones run part of what was appended on the live store. */
  lemma {:induction false} NewCut(h: Hashes, s: Durable, t: Durable, more: seq<Op>, k: nat)
    requires t.base == s.base && t.ops == s.ops + more && k <= |more|
    ensures StateAt(h, t, |s.ops| + k) == Run(h, Run(h, s.base, s.ops), more[..k])
  {
    hide Run;
    assert t.ops[..|s.ops| + k] == s.ops + more[..k];
    RunAppend(h, s.base, s.ops, more[..k]);
  }

  /** If every part of what is appended leaves a good prefix, the log stays good. */
  lemma {:induction false} LogGrows(h: Hashes, z: Zstd, s: Durable, t: Durable, more: seq<Op>)
    requires DurInv(h, z, s)
    requires t.base == s.base && t.ops == s.ops + more && t.flushed == s.flushed && t.latched == s.latched
    requires t.net.client == s.net.client && t.net.sent == s.net.sent && t.net.acks == s.net.acks
    requires t.net.receiver.store == Run(h, s.net.receiver.store, more)
    requires Inv(h, t.net.receiver) && SessionOf(t.net.receiver, s.net.client.shim.sid).pending == {}
    requires forall k :: 0 <= k <= |more| ==> LeavesPrefix(h, s, Run(h, s.net.receiver.store, more[..k]))
    ensures DurInv(h, z, t)
  {
    hide Run, Inv, HeldAt, LogOf, SessionOf, ClientOk, Settled, InFlight, RootOver;
    RunAppend(h, s.base, s.ops, more);
    assert s.ops[..|s.ops|] == s.ops;
    assert CutOk(h, s, |s.ops|);
    OldCut(h, s, t, more, s.flushed);
    forall j | t.flushed <= j <= |t.ops| ensures CutOk(h, t, j) {
      if j <= |s.ops| {
        OldCut(h, s, t, more, j);
        assert CutOk(h, s, j);
      } else {
        NewCut(h, s, t, more, j - |s.ops|);
        assert LeavesPrefix(h, s, Run(h, s.net.receiver.store, more[..j - |s.ops|]));
      }
    }
    forall root | root in t.net.acks ensures AckFlushed(h, t, root) {
      assert AckFlushed(h, s, root);
    }
  }

  /** A good prefix no shorter than the live one. */
  ghost predicate LeavesPrefix(h: Hashes, s: Durable, st: StoreState) {
    && HeldAt(h, st, s.net.client.shim)
    && |LogOf(s.net.receiver.store, s.net.client.shim.sid).ids| <= |LogOf(st, s.net.client.shim.sid).ids|
  }

  /** A successful flush moves the flushed point to the end; the ACK it exposes is for what is held. */
  lemma {:induction false} FlushKeeps(h: Hashes, z: Zstd, s: Durable, flush: Flush, ack: Option<Digest>)
    requires DurInv(h, z, s)
    requires ack.Some? ==> ack.value == LogOf(s.net.receiver.store, s.net.client.shim.sid).root
    ensures DurInv(h, z, Flushed(s, flush, ack))
  {
    hide Run, Inv, LogOf, SessionOf, ClientOk, Settled, InFlight, RootOver, Complete, ContentAddressed;
    var t := Flushed(s, flush, ack);
    assert s.ops[..|s.ops|] == s.ops;
    if t.flushed == |s.ops| && flush == Written && !s.latched {
      assert CutOk(h, s, |s.ops|);
      assert StateAt(h, t, |s.ops|) == StateAt(h, s, |s.ops|);
      var n := LenAt(h, s, |s.ops|);
      assert forall j :: t.flushed <= j <= |t.ops| ==> CutOk(h, t, j);
      forall root | root in t.net.acks ensures AckFlushed(h, t, root) {
        if root in s.net.acks {
          assert AckFlushed(h, s, root);
        } else {
          assert root == RootOver(h, ROOT_ZERO, s.net.client.shim.ids[..n]);
        }
      }
    } else {
      assert forall j :: 0 <= j <= |s.ops| ==> StateAt(h, t, j) == StateAt(h, s, j);
      assert forall j :: s.flushed <= j <= |s.ops| && CutOk(h, s, j) ==> CutOk(h, t, j);
      forall root | root in t.net.acks ensures AckFlushed(h, t, root) {
        assert AckFlushed(h, s, root);
      }
    }
  }

  // ------------------------------------------------------------------------ steps keep it

  lemma {:induction false} HeldMore(h: Hashes, st: StoreState, shim: Shim, next: Shim, more: seq<Digest>)
    requires HeldAt(h, st, shim) && next.ids == shim.ids + more && next.sid == shim.sid && next.baseLen == shim.baseLen
    ensures HeldAt(h, st, next)
  {
    hide RootOver, LogOf, Complete, ContentAddressed;
  }

  lemma {:induction false} SayKeeps(h: Hashes, z: Zstd, s: Durable, messages: seq<Message>, metadata: Bytes,
                                    maybe: seq<bool>)
    requires Lossless(z) && DurInv(h, z, s)
    requires |maybe| == |messages| && Admitted(s.net.client, messages, metadata)
    ensures DurInv(h, z, Stepped(h, z, s, Say(messages, metadata, maybe)))
  {
    hide Inv, ShimOk, Ingest, Says, Carries, RootOver, WorstCase, Lossless, Run, HeldAt, LogOf, SessionOf;
    var shim := s.net.client.shim;
    var blocks := Numbered(messages, s.net.client.nextSeq);
    forall i | 0 <= i < |blocks| ensures BlockOk(blocks[i]) {
      PayloadBound(metadata, messages, i);
    }
    IngestSays(h, z, shim, blocks, maybe);
    var t := Stepped(h, z, s, Say(messages, metadata, maybe));
    var more := BlockIds(h, blocks);
    var next := t.net.client.shim;
    TurnCarries(h, z, shim, next, more, t.net.sent[|s.net.sent|]);
    forall i | 0 <= i < |t.net.sent|
      ensures Settled(h, z, t.net.client, t.net.sent[i]) || InFlight(h, z, t.net.client, t.net.sent[i])
    {
      if i < |s.net.sent| {
        SettledMore(h, z, s.net.client, t.net.client, more, s.net.sent[i]);
      }
    }
    forall j | t.flushed <= j <= |t.ops| ensures CutOk(h, t, j) {
      assert CutOk(h, s, j);
      HeldMore(h, StateAt(h, s, j), shim, next, more);
    }
    forall root | root in t.net.acks ensures AckFlushed(h, t, root) {
      assert AckFlushed(h, s, root);
      var m: nat :| m <= LenAt(h, s, s.flushed) && m <= |shim.ids| && root == RootOver(h, ROOT_ZERO, shim.ids[..m]);
      assert next.ids[..m] == shim.ids[..m];
    }
  }

  /** Applying the first k items of a frame that fits onto a good prefix leaves a good prefix. */
  lemma {:induction false} ItemsLeavePrefix(h: Hashes, st: StoreState, shim: Shim, items: seq<Item>, n: nat, k: nat)
    requires HeldAt(h, st, shim) && n == |LogOf(st, shim.sid).ids|
    requires n + |items| <= |shim.ids| && Ids(items) == shim.ids[n..n + |items|]
    requires RefsOk(st.blocks, items) && Honest(h, items) && k <= |items|
    ensures
      var after := Run(h, st, ItemOps(shim.sid, items[..k]));
      HeldAt(h, after, shim) && |LogOf(after, shim.sid).ids| == n + k
  {
    hide Run, ItemOps, RootOver, Honest, RefsOk, Ids, InlineIds, ContentAddressed, Complete, LogOf;
    var some := items[..k];
    RefsOkPrefix(st.blocks, items, k);
    HonestPrefix(h, items, k);
    RunItems(h, st, shim.sid, some);
    var after := Run(h, st, ItemOps(shim.sid, some));
    IdsPrefix(items, k);
    assert Ids(items)[..k] == shim.ids[n..n + k];
    assert shim.ids[..n] + shim.ids[n..n + k] == shim.ids[..n + k];
    RootOverAppend(h, ROOT_ZERO, shim.ids[..n], shim.ids[n..n + k]);
    ItemsComplete(st, after, shim.sid, some);
  }

  lemma {:induction false} IdsPrefix(items: seq<Item>, k: nat)
    requires k <= |items|
    ensures Ids(items[..k]) == Ids(items)[..k]
  {
  }

  lemma {:induction false} HonestPrefix(h: Hashes, items: seq<Item>, k: nat)
    requires Honest(h, items) && k <= |items|
    ensures Honest(h, items[..k])
  {
    hide BlockId;
  }

  /** The state after a frame is handled, before its flush. */
  function Handled(h: Hashes, z: Zstd, s: Durable, f: AppendFrame): Durable {
    var rs := s.net.receiver;
    s.(net := s.net.(receiver := AppendStep(h, z, rs, f).0), ops := s.ops + AppendOps(h, z, rs, f))
  }

  /** Handling any frame ever sent keeps the invariant, and an ACK in reply is for what is then held. */
  lemma {:induction false} HandledKeeps(h: Hashes, z: Zstd, s: Durable, i: nat)
    requires CollisionFree(h) && DurInv(h, z, s) && i < |s.net.sent|
    ensures
      var t := Handled(h, z, s, s.net.sent[i]);
      var r := AppendStep(h, z, s.net.receiver, s.net.sent[i]).1;
      && DurInv(h, z, t)
      && (r.Ok? ==> r.value.root == LogOf(t.net.receiver.store, s.net.client.shim.sid).root)
  {
    var f, shim := s.net.sent[i], s.net.client.shim;
    var more := AppendOps(h, z, s.net.receiver, f);
    hide AppendStep, AppendOps, Run, Inv, RootOver, CollisionFree, Carries, HeldAt, SessionOf, LogOf, Settled, CutOk,
         AckFlushed, ClientOk;
    AppendOpsRun(h, z, s.net.receiver, f);
    var a, b, n := Placed(h, z, s, i);
    Delivered(h, z, s.net.receiver, shim.ids, shim.sid, f, a, b, n);
    AppendKeeps(h, z, s.net.receiver, f);
    forall k | 0 <= k <= |more| ensures LeavesPrefix(h, s, Run(h, s.net.receiver.store, more[..k])) {
      PartLeavesPrefix(h, z, s, f, a, b, n, k);
    }
    hide LeavesPrefix;
    LogGrows(h, z, s, Handled(h, z, s, f), more);
  }

  /** Delivering any frame ever sent keeps the invariant, however its flush ends. */
  lemma {:induction false} ReachKeeps(h: Hashes, z: Zstd, s: Durable, i: nat, flush: Flush)
    requires CollisionFree(h) && DurInv(h, z, s) && i < |s.net.sent|
    ensures DurInv(h, z, Stepped(h, z, s, Reach(i, flush)))
  {
    hide AppendStep, AppendOps, CollisionFree, DurInv, LogOf, Flushed;
    var r := AppendStep(h, z, s.net.receiver, s.net.sent[i]).1;
    HandledKeeps(h, z, s, i);
    if r.Ok? {
      FlushKeeps(h, z, Handled(h, z, s, s.net.sent[i]), flush, Some(r.value.root));
    }
  }

  /** Where a sent frame stands against what the receiver holds. */
  lemma {:induction false} Placed(h: Hashes, z: Zstd, s: Durable, i: nat) returns (a: nat, b: nat, n: nat)
    requires DurInv(h, z, s) && i < |s.net.sent|
    ensures
      var shim, f := s.net.client.shim, s.net.sent[i];
      && Carries(h, z, shim.ids, shim.sid, f, a, b) && a <= n && f.sid == shim.sid && a <= b
      && n == |LogOf(s.net.receiver.store, shim.sid).ids| && shim.baseLen <= n <= |shim.ids|
      && LogOf(s.net.receiver.store, shim.sid) == SessionLog(shim.ids[..n], RootOver(h, ROOT_ZERO, shim.ids[..n]))
      && HeldAt(h, s.net.receiver.store, shim)
      && (InFlight(h, z, s.net.client, f) ==> a == shim.baseLen && b == |shim.ids|)
  {
    hide Carries, RootOver, Run, Inv, ContentAddressed, Complete;
    var shim, f := s.net.client.shim, s.net.sent[i];
    assert s.ops[..|s.ops|] == s.ops;
    assert CutOk(h, s, |s.ops|);
    n := |LogOf(s.net.receiver.store, shim.sid).ids|;
    a, b := shim.baseLen, |shim.ids|;
    if !InFlight(h, z, s.net.client, f) {
      assert Settled(h, z, s.net.client, f);
      a, b :| b <= shim.baseLen && Carries(h, z, shim.ids, shim.sid, f, a, b);
    }
    CarriedBounds(h, z, shim.ids, shim.sid, f, a, b);
  }

  lemma {:induction false} PartLeavesPrefix(h: Hashes, z: Zstd, s: Durable, f: AppendFrame, a: nat, b: nat, n: nat,
                                            k: nat)
    requires CollisionFree(h) && Inv(h, s.net.receiver) && SessionOf(s.net.receiver, f.sid).pending == {}
    requires
      var shim := s.net.client.shim;
      && f.sid == shim.sid && Carries(h, z, shim.ids, shim.sid, f, a, b) && a <= n
      && HeldAt(h, s.net.receiver.store, shim) && n == |LogOf(s.net.receiver.store, shim.sid).ids|
    requires k <= |AppendOps(h, z, s.net.receiver, f)|
    ensures LeavesPrefix(h, s, Run(h, s.net.receiver.store, AppendOps(h, z, s.net.receiver, f)[..k]))
  {
    hide Run, RootOver, CollisionFree, Inv, Resolve, RefsOk, Says, Honest, ContentAddressed, Complete;
    var shim, st := s.net.client.shim, s.net.receiver.store;
    var ops := AppendOps(h, z, s.net.receiver, f);
    if ops == [] {
      RunNothing(h, st);
    } else {
      BaseRoot(h, z, shim.ids, shim.sid, f, a, b);
      PrefixRoots(h, shim.ids, a, n);
      PastStored(h, s.net.receiver, shim.ids, shim.sid, a, n);
      CarriedRefsOk(h, z, shim.ids, shim.sid, f, a, b, st.blocks);
      var items := Resolve(h, z, f.blocks).value;
      ResolvedItems(h, z, f.blocks);
      assert |items| == b - a by { assert |Ids(items)| == |items|; }
      ItemsLeavePrefix(h, st, shim, items, n, k);
      assert ops[..k] == ItemOps(shim.sid, items[..k]);
    }
  }

  lemma {:induction false} TakeKeeps(h: Hashes, z: Zstd, s: Durable, root: Digest)
    requires CollisionFree(h) && DurInv(h, z, s) && root in s.net.acks && s.net.client.pending == Some(root)
    ensures DurInv(h, z, Stepped(h, z, s, Take(root)))
    ensures LenAt(h, s, s.flushed) == |s.net.client.shim.ids|
  {
    hide Inv, Carries, RootOver, CollisionFree, LogOf, SessionOf, Run, Complete, ContentAddressed;
    var c := s.net.client;
    var ids := c.shim.ids;
    assert AckFlushed(h, s, root);
    var m: nat :| m <= LenAt(h, s, s.flushed) && m <= |ids| && root == RootOver(h, ROOT_ZERO, ids[..m]);
    assert ids[..|ids|] == ids;
    PrefixRoots(h, ids, m, |ids|);
    assert CutOk(h, s, s.flushed);
    var t := Stepped(h, z, s, Take(root));
    forall i | 0 <= i < |t.net.sent| ensures Settled(h, z, t.net.client, t.net.sent[i]) {
      if !Settled(h, z, c, s.net.sent[i]) {
        assert InFlight(h, z, c, s.net.sent[i]);
      } else {
        var a: nat, b: nat :| b <= c.shim.baseLen && Carries(h, z, ids, c.shim.sid, s.net.sent[i], a, b);
      }
    }
    forall j | t.flushed <= j <= |t.ops| ensures CutOk(h, t, j) {
      assert CutOk(h, s, j);
      assert StateAt(h, t, j) == StateAt(h, s, j);
    }
    forall r | r in t.net.acks ensures AckFlushed(h, t, r) {
      assert AckFlushed(h, s, r);
    }
  }

  // ------------------------------------------------------------------ other sessions' frames

  /** An operation that cannot touch the session's log, storing only what hashes to its id. */
  ghost predicate Tame(h: Hashes, op: Op, sid: nat) {
    && (op.Content? || op.sid != sid)
    && (op.Insert? || op.Content? ==> op.id == BlockId(h, op.block) && BlockOk(op.block))
  }

  ghost predicate AllTame(h: Hashes, ops: seq<Op>, sid: nat) { forall i :: 0 <= i < |ops| ==> Tame(h, ops[i], sid) }

  lemma {:induction false} TameStep(h: Hashes, st: StoreState, op: Op, shim: Shim)
    requires Tame(h, op, shim.sid) && HeldAt(h, st, shim)
    ensures HeldAt(h, Step(h, st, op), shim) && LogOf(Step(h, st, op), shim.sid) == LogOf(st, shim.sid)
  {
    hide BlockId, RootOver;
    var after := Step(h, st, op);
    assert LogOf(after, shim.sid) == LogOf(st, shim.sid);
    assert forall id :: id in st.blocks ==> id in after.blocks;
  }

  lemma {:induction false} TameRun(h: Hashes, st: StoreState, ops: seq<Op>, shim: Shim)
    requires AllTame(h, ops, shim.sid) && HeldAt(h, st, shim)
    ensures HeldAt(h, Run(h, st, ops), shim) && LogOf(Run(h, st, ops), shim.sid) == LogOf(st, shim.sid)
    decreases |ops|
  {
    hide HeldAt, Step, LogOf, Tame;
    if ops != [] {
      assert Tame(h, ops[0], shim.sid);
      TameStep(h, st, ops[0], shim);
      TameRun(h, Step(h, st, ops[0]), ops[1..], shim);
    }
  }

  lemma {:induction false} OtherOpsTame(h: Hashes, z: Zstd, rs: RState, f: Frame, answer: Answer, sid: nat)
    requires FrameSid(f) != sid
    ensures AllTame(h, FrameOps(h, z, rs, f, answer), sid)
  {
    hide BlockId, Resolve, RefsOk, LogOf, SessionOf, Fed, Asked, UnpackAll, Records, Flat;
    match f {
      case Append(a) =>
        var items := Resolve(h, z, a.blocks);
        if items.Ok? {
          ResolvedItems(h, z, a.blocks);
        }
      case Resync(r) =>
      case Bulk(b) =>
        var (fed, refused) := Fed(DecoderOf(SessionOf(rs, b.sid), b), b.symbols);
        var result := Asked(fed, answer).1;
        if result.Ok? {
          var records := Records(Flat(result.value));
          if UnpackAll(h, z, records).Ok? {
            UnpackedItems(h, z, records);
          }
        }
      case Ack(_) =>
      case Missing(_) =>
    }
  }

  lemma {:induction false} OtherKeeps(h: Hashes, z: Zstd, s: Durable, f: Frame, answer: Answer, flush: Flush)
    requires DurInv(h, z, s) && FrameSid(f) != s.net.client.shim.sid
    ensures DurInv(h, z, Stepped(h, z, s, Other(f, answer, flush)))
  {
    var net := s.net;
    var shim := net.client.shim;
    var (receiver, r) := FrameStep(h, z, net.receiver, f, answer);
    var more := FrameOps(h, z, net.receiver, f, answer);
    var t := s.(net := net.(receiver := receiver), ops := s.ops + more);
    hide FrameStep, FrameOps, Run, Inv, RootOver, HeldAt, SessionOf, LogOf, Tame, ClientOk, FramesOk;
    FrameOpsRun(h, z, net.receiver, f, answer);
    FrameKeeps(h, z, net.receiver, f, answer);
    ForeignLeaves(h, z, net.receiver, f, answer, shim.sid);
    OtherOpsTame(h, z, net.receiver, f, answer, shim.sid);
    assert s.ops[..|s.ops|] == s.ops;
    assert CutOk(h, s, |s.ops|);
    forall k | 0 <= k <= |more| ensures LeavesPrefix(h, s, Run(h, net.receiver.store, more[..k])) {
      TameRun(h, net.receiver.store, more[..k], shim);
    }
    LogGrows(h, z, s, t, more);
    if r.Ok? {
      FlushKeeps(h, z, t, flush, None);
    }
  }

  // --------------------------------------------------------------------------------- crash

  lemma {:induction false} CrashKeeps(h: Hashes, z: Zstd, s: Durable, keep: nat)
    requires DurInv(h, z, s) && s.flushed <= keep <= |s.ops|
    ensures DurInv(h, z, Stepped(h, z, s, Crash(keep)))
    ensures
      var t := Stepped(h, z, s, Crash(keep));
      LenAt(h, s, s.flushed) <= |LogOf(t.net.receiver.store, s.net.client.shim.sid).ids|
  {
    hide Run, RootOver, ClientOk, Settled, InFlight, ContentAddressed, Inv, LogOf, NewReceiver, SessionOf;
    var shim, st := s.net.client.shim, StateAt(h, s, keep);
    var t := Stepped(h, z, s, Crash(keep));
    assert CutOk(h, s, keep);
    NewKeeps(h, st);
    NothingMissing(st, shim.sid);
    RunNothing(h, st);
    assert t.ops[..0] == [];
    assert StateAt(h, t, 0) == st;
    assert CutOk(h, t, 0);
    forall root | root in t.net.acks ensures AckFlushed(h, t, root) {
      assert AckFlushed(h, s, root);
    }
  }

  lemma {:induction false} NothingMissing(st: StoreState, sid: nat)
    requires Complete(st, sid)
    ensures SessionOf(NewReceiver(st), sid).pending == {} && NewReceiver(st).store == st
  {
    if sid in st.sessions {
      assert MissingIds(st.blocks, st.sessions[sid].ids) == {};
    }
  }

  // ----------------------------------------------------------------------------- theorems

  lemma {:induction false} StepKeeps(h: Hashes, z: Zstd, s: Durable, m: Happening)
    requires CollisionFree(h) && Lossless(z) && DurInv(h, z, s)
    ensures DurInv(h, z, Stepped(h, z, s, m))
  {
    var next := Stepped(h, z, s, m);
    hide DurInv, CollisionFree, Lossless, Admitted, Advance, AppendStep, AppendOps, FrameStep, FrameOps, Acked, Run,
         NewReceiver, Flushed;
    if next != s {
      match m {
        case Say(messages, metadata, maybe) => SayKeeps(h, z, s, messages, metadata, maybe);
        case Reach(i, flush) => ReachKeeps(h, z, s, i, flush);
        case Take(root) => TakeKeeps(h, z, s, root);
        case Other(f, answer, flush) => OtherKeeps(h, z, s, f, answer, flush);
        case Crash(keep) => CrashKeeps(h, z, s, keep);
      }
    }
  }

  lemma {:induction false} AllStepsKeep(h: Hashes, z: Zstd, s: Durable, steps: seq<Happening>)
    requires CollisionFree(h) && Lossless(z) && DurInv(h, z, s)
    ensures DurInv(h, z, RunSteps(h, z, s, steps))
  {
    hide DurInv, CollisionFree, Lossless, Stepped;
    if steps != [] {
      AllStepsKeep(h, z, s, steps[..|steps| - 1]);
      StepKeeps(h, z, RunSteps(h, z, s, steps[..|steps| - 1]), steps[|steps| - 1]);
    }
  }

  /** How the frame in flight is answered. */
  ghost predicate FlightAnswered(h: Hashes, z: Zstd, net: Network) {
    var shim := net.client.shim;
    && net.sent != []
    && AppendStep(h, z, net.receiver, net.sent[|net.sent| - 1]).1 == Ok(AckFrame(shim.sid, shim.root))
  }

  /**
    With crashes the receiver still holds a prefix of the client's log, at least up to the
    acknowledged length, and reconstructs the client's blocks; nothing accepted or exposed as
    an ACK is ever lost.  The frame in flight draws the ACK the client waits for exactly when
    the crash did not cut its turn in two.
   */
  ghost predicate HoldsPrefix(h: Hashes, z: Zstd, s: Durable) {
    var net := s.net;
    var shim, n := net.client.shim, Held(net);
    && shim.baseLen <= n <= |shim.ids|
    && LogOf(net.receiver.store, shim.sid) == SessionLog(shim.ids[..n], RootOver(h, ROOT_ZERO, shim.ids[..n]))
    && Reconstruct(net.receiver.store, shim.sid) == Lookup(shim.store.blocks, shim.ids[..n])
    && (forall root :: root in net.acks ==> AckOk(h, net, root))
    && (net.client.pending.None? ==> n == |shim.ids|)
    && (net.client.pending.Some? ==>
          (FlightAnswered(h, z, net) <==> n == shim.baseLen || n == |shim.ids|))
  }

  lemma {:induction false} KeptHolds(h: Hashes, z: Zstd, s: Durable)
    requires CollisionFree(h) && DurInv(h, z, s)
    ensures HoldsPrefix(h, z, s)
  {
    hide CollisionFree, Carries, Lookup, BlockId, RootOver, AppendStep, Run, Inv;
    var net := s.net;
    var shim, log := net.client.shim, LogOf(net.receiver.store, net.client.shim.sid);
    assert s.ops[..|s.ops|] == s.ops;
    assert CutOk(h, s, |s.ops|);
    forall root | root in net.acks ensures AckOk(h, net, root) {
      assert AckFlushed(h, s, root);
    }
    if net.client.pending.Some? {
      var last := |net.sent| - 1;
      var a, b, n := Placed(h, z, s, last);
      Delivered(h, z, net.receiver, shim.ids, shim.sid, net.sent[last], a, b, n);
      assert shim.ids[..|shim.ids|] == shim.ids;
    }
    forall id | id in log.ids ensures id in shim.store.blocks && id in net.receiver.store.blocks {
      assert id in shim.ids;
    }
    SameLookup(h, net.receiver.store.blocks, shim.store.blocks, log.ids);
  }

  /** In every run with crashes. */
  lemma {:induction false} CrashPrefix(h: Hashes, z: Zstd, start: Durable, steps: seq<Happening>)
    requires CollisionFree(h) && Lossless(z) && Opened(h, start)
    ensures HoldsPrefix(h, z, RunSteps(h, z, start, steps))
  {
    hide CollisionFree, Lossless, Opened, RunSteps, HoldsPrefix, DurInv;
    OpenedInv(h, z, start);
    AllStepsKeep(h, z, start, steps);
    KeptHolds(h, z, RunSteps(h, z, start, steps));
  }

  /**
    A crash can cut a turn in two: the turn of two messages is applied, the process dies
    before the flush, and one of its two operations is on disk.  The receiver then holds one
    message of two and rejects the frame in flight.
   */
  lemma {:induction false} TornTurn(h: Hashes, z: Zstd, start: Durable, x: Message, y: Message)
    requires CollisionFree(h) && Lossless(z) && Opened(h, start) && WorstCase([], [x, y]) <= MAX_REQUEST
    ensures
      var s := RunSteps(h, z, start, [Say([x, y], [], [false, false]), Reach(0, NotReached), Crash(1)]);
      && s.net.client.shim.baseLen == 0 && Held(s.net) == 1 && |s.net.client.shim.ids| == 2
      && s.net.client.pending.Some? && !FlightAnswered(h, z, s.net)
  {
    hide CollisionFree, Lossless, RunSteps, Run, RootOver, AppendStep, LogOf, SessionOf, Inv, Ingest, HoldsPrefix,
         Carries;
    var steps := [Say([x, y], [], [false, false]), Reach(0, NotReached), Crash(1)];
    OpenedInv(h, z, start);
    var said := Stepped(h, z, start, steps[0]);
    var sent := Stepped(h, z, said, steps[1]);
    ThreeSteps(h, z, start, steps);
    TwoSaid(h, z, start, x, y);
    CutAfterOne(h, z, said);
    hide DurInv, Opened;
    CrashPrefix(h, z, start, steps);
    FlightExactly(h, z, RunSteps(h, z, start, steps));
  }

  lemma {:induction false} FlightExactly(h: Hashes, z: Zstd, s: Durable)
    requires HoldsPrefix(h, z, s) && s.net.client.pending.Some?
    ensures
      var shim := s.net.client.shim;
      FlightAnswered(h, z, s.net) <==> Held(s.net) == shim.baseLen || Held(s.net) == |shim.ids|
  {
    hide RootOver, Lookup, AppendStep;
  }

  lemma {:induction false} ThreeSteps(h: Hashes, z: Zstd, s: Durable, steps: seq<Happening>)
    requires |steps| == 3
    ensures RunSteps(h, z, s, steps) == Stepped(h, z, Stepped(h, z, Stepped(h, z, s, steps[0]), steps[1]), steps[2])
  {
    hide Stepped;
    var two := steps[..2];
    assert two[..1][..0] == [] && two[..1][0] == steps[0] && two[1] == steps[1];
    assert RunSteps(h, z, s, two[..1][..0]) == s;
    assert RunSteps(h, z, s, two[..1]) == Stepped(h, z, s, steps[0]);
  }

  /** After a turn of two messages the client's log has two ids and their frame is in flight. */
  lemma {:induction false} TwoSaid(h: Hashes, z: Zstd, start: Durable, x: Message, y: Message)
    requires Lossless(z) && Opened(h, start) && DurInv(h, z, start) && WorstCase([], [x, y]) <= MAX_REQUEST
    ensures
      var s := Stepped(h, z, start, Say([x, y], [], [false, false]));
      && DurInv(h, z, s) && s.ops == [] && s.flushed == 0 && !s.latched && |s.net.sent| == 1
      && |s.net.client.shim.ids| == 2 && s.net.client.shim.baseLen == 0 && s.net.client.pending.Some?
      && |LogOf(s.net.receiver.store, s.net.client.shim.sid).ids| == 0
  {
    hide Lossless, Run, RootOver, SessionOf, Inv, Ingest, Carries, WorstCase, DurInv, ShimOk, Says;
    var messages, maybe := [x, y], [false, false];
    SayKeeps(h, z, start, messages, [], maybe);
    var shim := start.net.client.shim;
    var blocks := Numbered(messages, start.net.client.nextSeq);
    forall i | 0 <= i < |blocks| ensures BlockOk(blocks[i]) {
      PayloadBound([], messages, i);
    }
    StartShim(h, z, start);
    IngestSays(h, z, shim, blocks, maybe);
  }

  lemma {:induction false} StartShim(h: Hashes, z: Zstd, s: Durable)
    requires DurInv(h, z, s)
    ensures ShimOk(h, s.net.client.shim)
  {
  }

  /** Handling that frame logs two operations, and the first alone leaves one id. */
  lemma {:induction false} CutAfterOne(h: Hashes, z: Zstd, s: Durable)
    requires CollisionFree(h) && DurInv(h, z, s) && s.ops == [] && s.flushed == 0 && !s.latched && |s.net.sent| == 1
    requires |s.net.client.shim.ids| == 2 && s.net.client.shim.baseLen == 0 && s.net.client.pending.Some?
    requires |LogOf(s.net.receiver.store, s.net.client.shim.sid).ids| == 0
    ensures
      var t := Stepped(h, z, s, Reach(0, NotReached));
      var u := Stepped(h, z, t, Crash(1));
      && u.net.client == s.net.client && u.net.sent == s.net.sent && Held(u.net) == 1
  {
    var shim, f, st := s.net.client.shim, s.net.sent[0], s.net.receiver.store;
    var ops := AppendOps(h, z, s.net.receiver, f);
    hide CollisionFree, Run, RootOver, AppendStep, Inv, Carries;
    var a, b, n := Placed(h, z, s, 0);
    FirstOps(h, z, s, a, b);
    hide AppendOps;
    var t := Stepped(h, z, s, Reach(0, NotReached));
    assert t.ops == [] + ops == ops;
    RunNothing(h, s.base);
  }

  lemma {:induction false} FirstOps(h: Hashes, z: Zstd, s: Durable, a: nat, b: nat)
    requires CollisionFree(h) && DurInv(h, z, s) && |s.net.sent| == 1
    requires
      var shim, f := s.net.client.shim, s.net.sent[0];
      && |shim.ids| == 2 && a == 0 && b == 2 && f.sid == shim.sid && Carries(h, z, shim.ids, shim.sid, f, a, b)
      && HeldAt(h, s.net.receiver.store, shim) && |LogOf(s.net.receiver.store, shim.sid).ids| == 0
    ensures
      var shim, st, ops := s.net.client.shim, s.net.receiver.store, AppendOps(h, z, s.net.receiver, s.net.sent[0]);
      |ops| == 2 && |LogOf(Run(h, st, ops[..1]), shim.sid).ids| == 1
  {
    hide CollisionFree, Run, RootOver, Inv, Resolve, RefsOk, Says, Honest, ContentAddressed, Complete, InlineIds;
    var shim, f, rs := s.net.client.shim, s.net.sent[0], s.net.receiver;
    BaseRoot(h, z, shim.ids, shim.sid, f, a, b);
    PastStored(h, rs, shim.ids, shim.sid, 0, 0);
    CarriedRefsOk(h, z, shim.ids, shim.sid, f, a, b, rs.store.blocks);
    var items := Resolve(h, z, f.blocks).value;
    ResolvedItems(h, z, f.blocks);
    assert |items| == 2 by { assert |Ids(items)| == |items|; }
    assert Ids(items) == shim.ids[0..0 + |items|];
    ItemsLeavePrefix(h, rs.store, shim, items, 0, 1);
    assert ItemOps(shim.sid, items)[..1] == ItemOps(shim.sid, items[..1]);
  }

  /** Wherever a crash leaves the two ends, the client is in a state a cold start repairs. */
  lemma {:induction false} RepairApplies(h: Hashes, z: Zstd, s: Durable)
    requires DurInv(h, z, s)
    ensures ClientSide(h, z, s.net) && Inv(h, s.net.receiver)
  {
    hide Inv, Carries, RootOver, Run, LogOf, SessionOf, CutOk, ShimOk;
    forall root | root in s.net.acks
      ensures exists m: nat ::
        m <= |s.net.client.shim.ids| && root == RootOver(h, ROOT_ZERO, s.net.client.shim.ids[..m])
    {
      assert AckFlushed(h, s, root);
    }
  }

  /** No generation of the session is being decoded. */
  predicate NoDecoders(net: Network) { SessionOf(net.receiver, net.client.shim.sid).decoders == map[] }

  lemma {:induction false} IngestSid(h: Hashes, z: Zstd, s: Shim, blocks: seq<Block>, maybe: seq<bool>)
    requires |maybe| == |blocks|
    ensures Ingest(h, z, s, blocks, maybe).0.sid == s.sid
  {
    hide Step, BlockId;
    if blocks != [] {
      var n := |blocks| - 1;
      IngestSid(h, z, s, blocks[..n], maybe[..n]);
    }
  }

  lemma {:induction false} StepDecoders(h: Hashes, z: Zstd, s: Durable, m: Happening)
    requires NoDecoders(s.net)
    ensures NoDecoders(Stepped(h, z, s, m).net)
  {
    hide Ingest, Run, Resolve, RefsOk, ItemOps, RootOver, LogOf, Ids, AppendOps, FrameOps, FrameStep, Admitted;
    match m {
      case Say(messages, metadata, maybe) =>
        if |maybe| == |messages| {
          IngestSid(h, z, s.net.client.shim, Numbered(messages, s.net.client.nextSeq), maybe);
        }
      case Reach(i, flush) =>
      case Take(root) =>
      case Other(f, answer, flush) =>
        if FrameSid(f) != s.net.client.shim.sid {
          ForeignLeaves(h, z, s.net.receiver, f, answer, s.net.client.shim.sid);
        }
      case Crash(keep) =>
    }
  }

  lemma {:induction false} RunDecoders(h: Hashes, z: Zstd, s: Durable, steps: seq<Happening>)
    requires NoDecoders(s.net)
    ensures NoDecoders(RunSteps(h, z, s, steps).net)
  {
    hide NoDecoders, Stepped;
    if steps != [] {
      RunDecoders(h, z, s, steps[..|steps| - 1]);
      StepDecoders(h, z, RunSteps(h, z, s, steps[..|steps| - 1]), steps[|steps| - 1]);
    }
  }

  /**
    From every state of a run with crashes, a RESYNC, a complete transfer and its ACK put both
    ends in step for every further run.
   */
  lemma {:induction false} RepairResumes(h: Hashes, z: Zstd, start: Durable, steps: seq<Happening>,
                                         frames: seq<BulkFrame>, full: nat, sym: nat, events: seq<Event>,
                                         moves: seq<Move>)
    requires CollisionFree(h) && Lossless(z) && Opened(h, start) && NoDecoders(start.net) && sym > 0
    requires
      var net := RunSteps(h, z, start, steps).net;
      var shim := net.client.shim;
      var (seeded, reply) := EventStep(h, z, net.receiver, Reseed(shim));
      && Transfer(z, shim, Requested(reply), frames, full, sym) && ColdRun(h, z, seeded, frames, shim.sid, events)
      && forall g: nat :: g < |frames| ==> g in Arrived(events, shim.sid)
    ensures
      var net := RunSteps(h, z, start, steps).net;
      var shim := net.client.shim;
      var seeded := EventStep(h, z, net.receiver, Reseed(shim)).0;
      var end := After(h, z, seeded, events);
      InStep(h, z, RunMoves(h, z, Network(Acked(net.client), end, net.sent, net.acks), moves))
  {
    hide CollisionFree, Lossless, Opened, RunSteps, DurInv, ClientSide, Inv, Transfer, ColdRun, Arrived, After,
         RunMoves, InStep, EventStep;
    OpenedInv(h, z, start);
    AllStepsKeep(h, z, start, steps);
    RunDecoders(h, z, start, steps);
    var s := RunSteps(h, z, start, steps);
    RepairApplies(h, z, s);
    ColdStartResumes(h, z, s.net, frames, full, sym, events, moves);
  }
}
