/**
  The sidecar's two endpoints over one receiver and one projection cache
  (`crates/sidecar/src/lib.rs`): chat requests, which append and serve the whole
  conversation, and generic protocol frames.
 */
module Sidecar {
  import opened Bytes
  import opened Blocks
  import opened Results
  import opened Store
  import opened Wal
  import opened DurableStore
  import opened Frames
  import opened ReceiverModel
  import R = Receiver
  import opened AckSafety
  import opened Replication
  import opened Projection
  import Replies

  // -------------------------------------------------------------------------- look-ups

  lemma {:induction false} LookupAppend(blocks: map<Digest, Block>, a: seq<Digest>, b: seq<Digest>)
    ensures Lookup(blocks, a + b) == Lookup(blocks, a) + Lookup(blocks, b)
  {
    if b == [] {
      assert a + b == a;
    } else {
      var n := |b| - 1;
      assert (a + b)[..|a| + n] == a + b[..n];
      LookupAppend(blocks, a, b[..n]);
    }
  }

  lemma {:induction false} LookupStays(x: map<Digest, Block>, y: map<Digest, Block>, ids: seq<Digest>)
    requires forall id :: id in ids ==> id in x && id in y && x[id] == y[id]
    ensures Lookup(x, ids) == Lookup(y, ids) && |Lookup(x, ids)| == |ids|
  {
    if ids != [] {
      var n := |ids| - 1;
      assert ids[n] in ids;
      assert forall id :: id in ids[..n] ==> id in ids;
      LookupStays(x, y, ids[..n]);
    }
  }

  // ------------------------------------------------------------------------ cache entries

  /** The payloads of the first n messages of a session. */
  function Messages(st: StoreState, sid: nat, n: nat): seq<Bytes>
    requires n <= |LogOf(st, sid).ids|
  {
    Payloads(Lookup(st.blocks, LogOf(st, sid).ids[..n]))
  }

  /** The entry projects a stored prefix of the session. */
  ghost predicate EntryOk(st: StoreState, sid: nat, p: Cached) {
    var ids := LogOf(st, sid).ids;
    && p.count <= |ids| && (forall id :: id in ids[..p.count] ==> id in st.blocks)
    && Projects(p, Messages(st, sid, p.count))
  }

  ghost predicate EntriesOk(st: StoreState, entries: map<nat, Cached>) {
    forall sid :: sid in entries ==> EntryOk(st, sid, entries[sid])
  }

  /** Logs only grow and content stays, for one session. */
  ghost predicate Extends(st: StoreState, after: StoreState, sid: nat) {
    && LogOf(st, sid).ids <= LogOf(after, sid).ids
    && (forall id :: id in st.blocks ==> id in after.blocks && after.blocks[id] == st.blocks[id])
  }

  lemma {:induction false} EntryStays(st: StoreState, after: StoreState, sid: nat, p: Cached)
    requires EntryOk(st, sid, p) && Extends(st, after, sid)
    ensures EntryOk(after, sid, p)
  {
    hide Lookup, Projects, LogOf, Payloads;
    var a, b := LogOf(st, sid).ids, LogOf(after, sid).ids;
    assert b[..p.count] == a[..p.count];
    LookupStays(st.blocks, after.blocks, a[..p.count]);
  }

  /** An append extends every session. */
  lemma {:induction false} AppendExtends(h: Hashes, z: Zstd, rs: RState, f: AppendFrame, sid: nat)
    ensures Extends(rs.store, AppendStep(h, z, rs, f).0.store, sid)
  {
    hide Run, Resolve, RefsOk, ItemOps, Ids, InlineIds, RootOver, Honest, ContentAddressed;
    var items := Resolve(h, z, f.blocks);
    var after := AppendStep(h, z, rs, f).0.store;
    if items.Ok? && RefsOk(rs.store.blocks, items.value) {
      RunItems(h, rs.store, f.sid, items.value);
      if after != rs.store {
        assert after.blocks.Keys == rs.store.blocks.Keys + InlineIds(items.value);
        forall id | id in rs.store.blocks ensures id in after.blocks {
          assert id in after.blocks.Keys;
        }
      }
    }
  }

  /** A protocol frame of another session leaves this session extended (and unchanged). */
  lemma {:induction false} FrameExtends(h: Hashes, z: Zstd, rs: RState, f: Frame, answer: Answer, sid: nat)
    requires FrameSid(f) != sid
    ensures Extends(rs.store, FrameStep(h, z, rs, f, answer).0.store, sid)
  {
    hide AppendStep, BulkStep, LogOf, MissingList;
    ForeignLeaves(h, z, rs, f, answer, sid);
    match f {
      case Append(a) => AppendExtends(h, z, rs, a, sid);
      case Resync(r) =>
      case Bulk(b) => BulkContent(h, z, rs, b, answer);
      case Ack(_) =>
      case Missing(_) =>
    }
  }

  lemma {:induction false} BulkContent(h: Hashes, z: Zstd, rs: RState, f: BulkFrame, answer: Answer)
    ensures
      var after := BulkStep(h, z, rs, f, answer).0.store;
      forall id :: id in rs.store.blocks ==> id in after.blocks && after.blocks[id] == rs.store.blocks[id]
  {
    hide Run, Fed, Asked, UnpackAll, Records, Flat, ContentOps, InlineIds, Honest, ContentAddressed, LogOf;
    var session := SessionOf(rs, f.sid);
    var (fed, refused) := Fed(DecoderOf(session, f), f.symbols);
    if refused.None? {
      var (asked, result) := Asked(fed, answer);
      if result.Ok? {
        var records := Records(Flat(result.value));
        var items := UnpackAll(h, z, records);
        if items.Ok? {
          UnpackedItems(h, z, records);
          RunContent(h, rs.store, f.sid, items.value);
          var after := BulkStep(h, z, rs, f, answer).0.store;
          assert after.blocks.Keys == rs.store.blocks.Keys + InlineIds(items.value);
          forall id | id in rs.store.blocks ensures id in after.blocks {
            assert id in after.blocks.Keys;
          }
        }
      }
    }
  }

  // -------------------------------------------------------------------------- projection

  datatype ServeError = Rejected(error: ReceiverError) | NotDurable | Incomplete | InvalidMessage(index: nat)

  /** Extending a prefix by the rest of the log projects the whole log. */
  lemma {:induction false} ExtendedProjects(st: StoreState, sid: nat, p: Cached, q: Cached)
    requires EntryOk(st, sid, p)
    requires
      var ids := LogOf(st, sid).ids;
      var rest := Payloads(Lookup(st.blocks, ids[p.count..]));
      && q.count == p.count + |rest| && q.jsonBytes == p.jsonBytes + |JoinFrom(p.count, rest)|
      && Flat(q.chunks) == Flat(p.chunks) + JoinFrom(p.count, rest)
    ensures Projects(q, Payloads(Reconstruct(st, sid)))
  {
    hide Lookup, LogOf, Flat, JoinFrom;
    var ids := LogOf(st, sid).ids;
    var a, b := ids[..p.count], ids[p.count..];
    assert ids == a + b;
    LookupAppend(st.blocks, a, b);
    var pa, pb := Payloads(Lookup(st.blocks, a)), Payloads(Lookup(st.blocks, b));
    assert Payloads(Reconstruct(st, sid)) == pa + pb;
    JoinAppend(0, pa, pb);
  }

  lemma {:induction false} WholeEntry(st: StoreState, sid: nat, p: Cached)
    requires Complete(st, sid) && Projects(p, Payloads(Reconstruct(st, sid)))
    ensures EntryOk(st, sid, p) && p.count == |LogOf(st, sid).ids|
  {
    hide Lookup, LogOf, Flat, JoinFrom;
    var ids := LogOf(st, sid).ids;
    LookupStays(st.blocks, st.blocks, ids);
    assert ids[..|ids|] == ids;
  }

  /** Message i is the first one that is not valid. */
  predicate FirstInvalid(payloads: seq<Bytes>, valid: Bytes -> bool, i: nat) {
    i < |payloads| && !valid(payloads[i]) && forall j :: 0 <= j < i ==> valid(payloads[j])
  }

  /** The session's projection: the cached one extended, or one rebuilt from the store. */
  method ExtendOrReconstruct(store: ContentStore, sid: nat, root: Digest, cached: Option<Cached>, valid: Bytes -> bool)
      returns (r: Result<Cached, ServeError>)
    requires Complete(store.State(), sid)
    requires cached.Some? ==> EntryOk(store.State(), sid, cached.value)
    ensures r.Ok? ==> r.value.root == root && Projects(r.value, Payloads(Reconstruct(store.State(), sid)))
    ensures cached.Some? ==> r.Ok?
    ensures cached.None? ==>
      (r.Ok? <==> forall m :: m in Payloads(Reconstruct(store.State(), sid)) ==> valid(m))
    ensures r.Err? ==>
      r.error.InvalidMessage? && FirstInvalid(Payloads(Reconstruct(store.State(), sid)), valid, r.error.index)
  {
    hide Lookup, Flat, JoinFrom, Projects;
    ghost var st := store.State();
    var ids := if sid in store.sessions then store.sessions[sid].ids else [];
    assert ids == LogOf(st, sid).ids;
    if cached.Some? && cached.value.count <= |ids| {
      var p := cached.value;
      var additions := Lookup(store.blocks, ids[p.count..]);
      RestPresent(st, sid, p.count);
      if |additions| != |ids| - p.count {
        return Err(Incomplete);
      }
      var q := AppendPayloads(p, Payloads(additions));
      ExtendedProjects(st, sid, p, q);
      q := q.(root := root);
      SameProjection(q, q.(root := p.root), Payloads(Reconstruct(st, sid)));
      return Ok(q);
    }
    var blocks := store.ReconstructSession(sid);
    for i := 0 to |blocks|
      invariant forall j :: 0 <= j < i ==> valid(Payloads(blocks)[j])
    {
      if !valid(blocks[i].payload) {
        assert Payloads(blocks)[i] == blocks[i].payload;
        return Err(InvalidMessage(i));
      }
    }
    var q := AppendPayloads(Cached(root, 0, [], 0), Payloads(blocks));
    FreshProjection(q, Payloads(blocks));
    r := Ok(q);
  }

  lemma {:induction false} RestPresent(st: StoreState, sid: nat, n: nat)
    requires Complete(st, sid) && n <= |LogOf(st, sid).ids|
    ensures var rest := LogOf(st, sid).ids[n..]; |Lookup(st.blocks, rest)| == |rest|
  {
    hide Lookup, LogOf;
    var rest := LogOf(st, sid).ids[n..];
    assert forall id :: id in rest ==> id in LogOf(st, sid).ids;
    LookupStays(st.blocks, st.blocks, rest);
  }

  lemma {:induction false} SameProjection(p: Cached, q: Cached, payloads: seq<Bytes>)
    requires p.count == q.count && p.chunks == q.chunks && p.jsonBytes == q.jsonBytes && Projects(q, payloads)
    ensures Projects(p, payloads)
  {
  }

  lemma {:induction false} FreshProjection(q: Cached, payloads: seq<Bytes>)
    requires q.count == |payloads| && Flat(q.chunks) == Flat([]) + JoinFrom(0, payloads)
    requires q.jsonBytes == |JoinFrom(0, payloads)|
    ensures Projects(q, payloads)
  {
    hide JoinFrom;
    assert Flat([]) == [];
  }

  datatype LogState = LogState(store: StoreState, attached: bool, latched: bool)

  class Sidecar {
    const receiver: R.Receiver
    const cache: Cache

    ghost predicate Valid()
      reads this, receiver, receiver.store, cache
    {
      && receiver.Valid() && cache.Valid() && Inv(receiver.store.h, receiver.View())
      && EntriesOk(receiver.store.State(), cache.entries)
    }

    constructor (receiver: R.Receiver)
      requires receiver.Valid() && Inv(receiver.store.h, receiver.View())
      ensures Valid() && this.receiver == receiver && fresh(cache)
    {
      this.receiver := receiver;
      cache := new Cache();
    }

    /** What the durability of a request depends on. */
    function Log(): LogState
      reads receiver, receiver.store
    {
      LogState(receiver.store.State(), receiver.store.wal.Some?, receiver.store.walError)
    }

    /** The log was latched, or one is attached and refuses a record of the request or is not written. */
    predicate Lost(log: LogState, written: bool, ops: seq<Op>)
      reads receiver, receiver.store
    {
      log.latched || (log.attached && (!written || !AllLoggable(receiver.store.h, log.store, ops)))
    }

    /** Everything appended so far is in the flushed file, which replays to the live store. */
    ghost predicate AllDurable()
      reads receiver, receiver.store
    {
      var store := receiver.store;
      store.wal.Some? ==>
        && store.durable == |store.wal.value|
        && ReplayBytes(store.h, EMPTY, store.wal.value) == Ok((store.State(), |store.wal.value|))
    }

    /** The session has a projection at the frame's base root. */
    predicate AtBase(f: AppendFrame)
      reads this, cache
    {
      f.sid in cache.entries && cache.entries[f.sid].root == f.baseRoot
    }

    /**
      A protocol frame: its session's projection is dropped before the receiver handles it,
      and the reply is exposed only once everything is durable.
     */
    method HandleGeneric(f: Frame, written: bool, width: nat)
        returns (r: Result<Option<Frame>, ServeError>, ghost answer: Answer)
      requires Valid() && R.FrameOk(f)
      modifies receiver, receiver.store, cache
      ensures Valid()
      ensures receiver.View() == FrameStep(receiver.store.h, receiver.z, old(receiver.View()), f, answer).0
      ensures f.Bulk? ==> R.Genuine(old(receiver.View()), f.bulk, answer)
      ensures
        match FrameStep(receiver.store.h, receiver.z, old(receiver.View()), f, answer).1
        case Err(e) => r == Err(Rejected(e))
        case Ok(reply) =>
          r == if Lost(old(Log()), written, FrameOps(receiver.store.h, receiver.z, old(receiver.View()), f, answer))
               then Err(NotDurable) else Ok(reply)
      ensures r.Ok? ==> AllDurable() && !receiver.store.walError
      ensures FrameSid(f) !in cache.entries
    {
      hide Inv, EntryOk, FrameStep, R.Genuine, FrameOps, AllLoggable, Replies.AppendReply, Replies.AppendEffect,
           Replies.ResyncReply, Replies.ResyncEffect, Replies.BulkReply, ReplayBytes, Run, RunBytes, RunOk, Listed,
           R.DecodersOk;
      cache.Remove(FrameSid(f));
      ghost var before := receiver.View();
      var reply;
      reply, answer := receiver.HandleFrame(f, width);
      FrameKeeps(receiver.store.h, receiver.z, before, f, answer);
      forall sid | sid in cache.entries ensures EntryOk(receiver.store.State(), sid, cache.entries[sid]) {
        FrameExtends(receiver.store.h, receiver.z, before, f, answer, sid);
        EntryStays(before.store, receiver.store.State(), sid, cache.entries[sid]);
      }
      if reply.Err? {
        r := Err(Rejected(reply.error));
        return;
      }
      ghost var handled := receiver.View();
      var durable := receiver.store.FlushWal(written);
      assert receiver.View() == handled;
      r := if durable then Ok(reply.value) else Err(NotDurable);
    }

    /** Appends the frame and makes it durable. */
    method AppendDurably(f: AppendFrame, written: bool) returns (r: Result<AckFrame, ServeError>)
      requires Valid() && R.FrameOk(Append(f))
      modifies receiver, receiver.store
      ensures Valid()
      ensures receiver.View() == AppendStep(receiver.store.h, receiver.z, old(receiver.View()), f).0
      ensures
        match AppendStep(receiver.store.h, receiver.z, old(receiver.View()), f).1
        case Err(e) => r == Err(Rejected(e))
        case Ok(ack) =>
          r == if Lost(old(Log()), written, AppendOps(receiver.store.h, receiver.z, old(receiver.View()), f))
               then Err(NotDurable) else Ok(ack)
      ensures r.Ok? ==>
        && AllDurable() && !receiver.store.walError && Complete(receiver.store.State(), f.sid)
        && r.value == AckFrame(f.sid, LogOf(receiver.store.State(), f.sid).root)
    {
      hide Inv, EntryOk, AppendStep, AppendOps, Complete, LogOf, Run, RunBytes, RunOk, ReplayBytes, Listed,
           R.DecodersOk, AllLoggable;
      ghost var before, h := receiver.View(), receiver.store.h;
      var ack := receiver.HandleAppend(f);
      AppendKeeps(h, receiver.z, before, f);
      forall sid | sid in cache.entries ensures EntryOk(receiver.store.State(), sid, cache.entries[sid]) {
        AppendExtends(h, receiver.z, before, f, sid);
        EntryStays(before.store, receiver.store.State(), sid, cache.entries[sid]);
      }
      if ack.Err? {
        return Err(Rejected(ack.error));
      }
      ghost var appended := receiver.View();
      var durable := receiver.store.FlushWal(written);
      assert receiver.View() == appended;
      r := if durable then Ok(ack.value) else Err(NotDurable);
    }

    /**
      A chat request: append, make durable, project the whole conversation and remember
      the projection.  An acknowledged append is refused exactly if it is not durable, or
      if it starts from no projection and a message of the conversation is not valid.
      What is served is the comma-joined payloads of the session log, at the acknowledged
      root.
     */
    method HandleChat(f: AppendFrame, written: bool, valid: Bytes -> bool) returns (r: Result<Cached, ServeError>)
      requires Valid() && R.FrameOk(Append(f))
      modifies receiver, receiver.store, cache
      ensures Valid()
      ensures receiver.View() == AppendStep(receiver.store.h, receiver.z, old(receiver.View()), f).0
      ensures
        match AppendStep(receiver.store.h, receiver.z, old(receiver.View()), f).1
        case Err(e) => r == Err(Rejected(e))
        case Ok(ack) =>
          var payloads := Payloads(Reconstruct(receiver.store.State(), f.sid));
          && (r == Err(NotDurable) <==>
                Lost(old(Log()), written, AppendOps(receiver.store.h, receiver.z, old(receiver.View()), f)))
          && (r != Err(NotDurable) ==>
                (r.Ok? <==> old(AtBase(f)) || forall m :: m in payloads ==> valid(m)))
          && (r.Err? && r != Err(NotDurable) ==>
                r.error.InvalidMessage? && FirstInvalid(payloads, valid, r.error.index))
          && (r.Ok? ==> r.value.root == ack.root == LogOf(receiver.store.State(), f.sid).root)
      ensures r.Ok? ==> AllDurable() && !receiver.store.walError
      ensures r.Ok? ==>
        var st := receiver.store.State();
        && Complete(st, f.sid) && |Reconstruct(st, f.sid)| == |LogOf(st, f.sid).ids|
        && CommaJoined(Flat(r.value.chunks), Payloads(Reconstruct(st, f.sid)))
        && r.value.jsonBytes == |Flat(r.value.chunks)|
        && f.sid in cache.entries && cache.entries[f.sid] == r.value
    {
      hide Inv, EntryOk, AppendStep, AppendOps, Lookup, JoinFrom, Flat, Complete, LogOf, Projects, Payloads, Run,
           RunBytes, RunOk, ReplayBytes, Listed, R.DecodersOk, AllLoggable, FirstInvalid, Survive, Dropped, CommaJoined;
      var cached := cache.Get(f.sid, f.baseRoot);
      var ack := AppendDurably(f, written);
      if ack.Err? {
        return Err(ack.error);
      }
      r := ExtendOrReconstruct(receiver.store, f.sid, ack.value.root, cached, valid);
      if r.Err? {
        return;
      }
      WholeEntry(receiver.store.State(), f.sid, r.value);
      ServedWhole(receiver.store.State(), f.sid, r.value);
      cache.Insert(f.sid, r.value);
    }
  }

  lemma {:induction false} ServedWhole(st: StoreState, sid: nat, p: Cached)
    requires Complete(st, sid) && Projects(p, Payloads(Reconstruct(st, sid)))
    ensures |Reconstruct(st, sid)| == |LogOf(st, sid).ids|
    ensures CommaJoined(Flat(p.chunks), Payloads(Reconstruct(st, sid))) && p.jsonBytes == |Flat(p.chunks)|
  {
    hide Lookup, LogOf, Flat, JoinFrom, CommaJoined;
    JoinSeparates(Payloads(Reconstruct(st, sid)));
    LookupStays(st.blocks, st.blocks, LogOf(st, sid).ids);
  }
}
