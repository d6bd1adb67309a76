/**
  An ACK never overstates what the receiver holds: in every run of the handlers on
  arbitrary frames, with arbitrary decoder answers and restarts on arbitrary files.
 */
module AckSafety {
  import opened Bytes
  import opened Blocks
  import opened Results
  import opened Store
  import opened Wal
  import opened DurableStore
  import opened Frames
  import opened ReceiverModel

  /** Logged ids without content are pending. */
  ghost predicate Accounted(rs: RState, sid: nat) {
    forall id :: id in LogOf(rs.store, sid).ids && id !in rs.store.blocks ==> id in SessionOf(rs, sid).pending
  }

  /** The whole log of the session has content. */
  ghost predicate Complete(st: StoreState, sid: nat) {
    forall id :: id in LogOf(st, sid).ids ==> id in st.blocks
  }

  ghost predicate Inv(h: Hashes, rs: RState) {
    ContentAddressed(h, rs.store) && forall sid :: Accounted(rs, sid)
  }

  /** What an ACK says is so: the root is the session's, and its log is held in full. */
  ghost predicate Truthful(rs: RState, ack: AckFrame) {
    ack.root == LogOf(rs.store, ack.sid).root && Complete(rs.store, ack.sid)
  }

  /** Logged blocks come back in log order, each under its own hash. */
  lemma {:induction false} CompleteReconstructs(h: Hashes, blocks: map<Digest, Block>, ids: seq<Digest>)
    requires forall id :: id in blocks ==> id == BlockId(h, blocks[id])
    requires forall id :: id in ids ==> id in blocks
    ensures |Lookup(blocks, ids)| == |ids|
    ensures forall i :: 0 <= i < |ids| ==> BlockId(h, Lookup(blocks, ids)[i]) == ids[i]
  {
    hide BlockId;
    if ids != [] {
      var n := |ids| - 1;
      assert ids[n] in ids;
      CompleteReconstructs(h, blocks, ids[..n]);
    }
  }

  // -------------------------------------------------------------------------- handlers

  /** Steps that only add content and keep other sessions as they were. */
  lemma {:induction false} KeepsOthers(rs: RState, next: RState, sid: nat)
    requires forall s :: Accounted(rs, s)
    requires forall s :: s != sid ==>
      LogOf(next.store, s) == LogOf(rs.store, s) && SessionOf(next, s) == SessionOf(rs, s)
    requires rs.store.blocks.Keys <= next.store.blocks.Keys
    requires Accounted(next, sid)
    ensures forall s :: Accounted(next, s)
  {
    forall s ensures Accounted(next, s) {
      assert Accounted(rs, s);
      assert forall id :: id in rs.store.blocks ==> id in next.store.blocks.Keys;
    }
  }

  lemma {:induction false} AppendKeeps(h: Hashes, z: Zstd, rs: RState, f: AppendFrame)
    requires Inv(h, rs)
    ensures
      var (next, r) := AppendStep(h, z, rs, f);
      Inv(h, next) && (r.Ok? ==> r.value.sid == f.sid && Truthful(next, r.value))
  {
    hide Resolve, Run, ContentAddressed, RootOver, RefsOk, ItemOps, Ids, InlineIds;
    var items := Resolve(h, z, f.blocks);
    if items.Ok? && RefsOk(rs.store.blocks, items.value) {
      ResolvedItems(h, z, f.blocks);
      var (next, r) := AppendStep(h, z, rs, f);
      assert Accounted(rs, f.sid);
      if r.Ok? && f.baseRoot == LogOf(rs.store, f.sid).root {
        RunItems(h, rs.store, f.sid, items.value);
        assert rs.store.blocks.Keys <= next.store.blocks.Keys;
        ItemsComplete(rs.store, next.store, f.sid, items.value);
        KeepsOthers(rs, next, f.sid);
      } else {
        KeepsOthers(rs, next, f.sid);
      }
    }
  }

  /** After a frame is applied its ids have content. */
  lemma {:induction false} ItemsComplete(st: StoreState, after: StoreState, sid: nat, items: seq<Item>)
    requires Complete(st, sid) && RefsOk(st.blocks, items)
    requires after.blocks.Keys == st.blocks.Keys + InlineIds(items)
    requires LogOf(after, sid).ids == LogOf(st, sid).ids + Ids(items)
    ensures Complete(after, sid)
  {
    forall id | id in LogOf(after, sid).ids ensures id in after.blocks.Keys {
      if id !in LogOf(st, sid).ids {
        var i :| 0 <= i < |items| && Ids(items)[i] == id;
        if items[i].Known? && id !in st.blocks {
          var j :| 0 <= j < i && items[..i][j].Full? && items[..i][j].id == id;
          assert items[j].Full? && items[j].id == id;
        }
      }
    }
  }

  lemma {:induction false} ResyncKeeps(h: Hashes, rs: RState, f: ResyncFrame)
    requires Inv(h, rs)
    ensures
      var (next, missing) := ResyncStep(h, rs, f);
      Inv(h, next) && (missing == [] ==> Complete(next.store, f.sid))
  {
    hide BlockId;
    var (next, missing) := ResyncStep(h, rs, f);
    assert LogOf(next.store, f.sid).ids == f.manifest;
    KeepsOthers(rs, next, f.sid);
    if missing == [] {
      forall id | id in f.manifest ensures id in next.store.blocks {
        assert id in missing <==> id in f.manifest && id !in rs.store.blocks;
      }
    }
  }

  lemma {:induction false} RecoveredKeeps(h: Hashes, rs: RState, f: BulkFrame, items: seq<Item>)
    requires Inv(h, rs) && AllFull(items) && Honest(h, items)
    ensures
      var (next, root) := Recovered(h, rs, f, items);
      Inv(h, next) && (root.Some? ==> Truthful(next, AckFrame(f.sid, root.value)))
  {
    hide Run, ContentAddressed, ContentOps, InlineIds, Honest;
    var (next, root) := Recovered(h, rs, f, items);
    RunContent(h, rs.store, f.sid, items);
    assert next.store.blocks.Keys == rs.store.blocks.Keys + InlineIds(items);
    assert Accounted(rs, f.sid);
    forall id | id in LogOf(next.store, f.sid).ids && id !in next.store.blocks
      ensures id in SessionOf(next, f.sid).pending
    {
      assert id !in next.store.blocks.Keys;
    }
    KeepsOthers(rs, next, f.sid);
  }

  lemma {:induction false} BulkKeeps(h: Hashes, z: Zstd, rs: RState, f: BulkFrame, answer: Answer)
    requires Inv(h, rs)
    ensures
      var (next, r) := BulkStep(h, z, rs, f, answer);
      Inv(h, next) && (r.Ok? && r.value.Some? ==> Truthful(next, AckFrame(f.sid, r.value.value)))
  {
    hide ContentAddressed, Recovered, UnpackAll, Records, Fed, Asked;
    var session := SessionOf(rs, f.sid);
    var (fed, refused) := Fed(DecoderOf(session, f), f.symbols);
    assert Accounted(rs, f.sid);
    if refused.Some? {
      KeepsOthers(rs, BulkStep(h, z, rs, f, answer).0, f.sid);
    } else {
      var (asked, result) := Asked(fed, answer);
      var kept := WithSession(rs, f.sid, session.(decoders := session.decoders[f.generation := asked]));
      KeepsOthers(rs, kept, f.sid);
      if result.Ok? {
        var records := Records(Flat(result.value));
        var items := UnpackAll(h, z, records);
        if items.Ok? {
          UnpackedItems(h, z, records);
          RecoveredKeeps(h, kept, f, items.value);
        }
      }
    }
  }

  /** Every frame keeps the invariant, and an ACK in reply is truthful. */
  lemma {:induction false} FrameKeeps(h: Hashes, z: Zstd, rs: RState, f: Frame, answer: Answer)
    requires Inv(h, rs)
    ensures
      var (next, r) := FrameStep(h, z, rs, f, answer);
      && Inv(h, next)
      && (r.Ok? && r.value.Some? && r.value.value.Ack? ==>
            r.value.value.ack.sid == FrameSid(f) && Truthful(next, r.value.value.ack))
  {
    hide AppendStep, BulkStep, ResyncStep, Inv, Complete;
    match f {
      case Append(a) => AppendKeeps(h, z, rs, a);
      case Resync(r) =>
        ResyncKeeps(h, rs, r);
        var (next, missing) := ResyncStep(h, rs, r);
        assert missing == [] ==> Truthful(next, AckFrame(r.sid, LogOf(next.store, r.sid).root));
      case Bulk(b) =>
        BulkKeeps(h, z, rs, b, answer);
        var (next, r) := BulkStep(h, z, rs, b, answer);
        assert r.Ok? && r.value.Some? ==>
          FrameStep(h, z, rs, f, answer) == (next, Ok(Some(Ack(AckFrame(b.sid, r.value.value)))));
      case Ack(_) =>
      case Missing(_) =>
    }
  }

  /** A receiver built on any content-addressed store starts within the invariant. */
  lemma {:induction false} NewKeeps(h: Hashes, st: StoreState)
    requires ContentAddressed(h, st)
    ensures Inv(h, NewReceiver(st))
    ensures forall sid :: sid in NewReceiver(st).sessions ==>
      var s := NewReceiver(st).sessions[sid];
      && (s.acked <==> Complete(st, sid)) && s.decoders == map[]
      && (forall id :: id in s.pending <==> id in LogOf(st, sid).ids && id !in st.blocks)
    ensures NewReceiver(st).sessions.Keys == st.sessions.Keys
  {
    hide ContentAddressed;
    var rs := NewReceiver(st);
    forall sid | sid in rs.sessions ensures rs.sessions[sid].acked <==> Complete(st, sid) {
      var missing := MissingIds(st.blocks, st.sessions[sid].ids);
      if Complete(st, sid) {
        assert missing == {};
      } else {
        var id :| id in LogOf(st, sid).ids && id !in st.blocks;
        assert id in missing;
      }
    }
  }

  // -------------------------------------------------------------------------- all runs

  /** A frame arrives, or the process restarts on the bytes of its log file. */
  datatype Event = Deliver(frame: Frame, answer: Answer) | Restart(file: Bytes)

  /** One event and the frame sent back; a file that cannot be opened changes nothing. */
  function EventStep(h: Hashes, z: Zstd, rs: RState, e: Event): (RState, Option<Frame>) {
    match e
    case Deliver(f, answer) =>
      var (next, r) := FrameStep(h, z, rs, f, answer);
      (next, if r.Ok? then r.value else None)
    case Restart(file) =>
      var r := ReplayBytes(h, EMPTY, file);
      (if r.Ok? then NewReceiver(r.value.0) else rs, None)
  }

  function After(h: Hashes, z: Zstd, rs: RState, events: seq<Event>): RState {
    if events == [] then rs
    else EventStep(h, z, After(h, z, rs, events[..|events| - 1]), events[|events| - 1]).0
  }

  lemma {:induction false} EventKeeps(h: Hashes, z: Zstd, rs: RState, e: Event)
    requires Inv(h, rs)
    ensures
      var (next, reply) := EventStep(h, z, rs, e);
      Inv(h, next) && (reply.Some? && reply.value.Ack? ==> Truthful(next, reply.value.ack))
  {
    hide FrameStep, ReplayBytes, NewReceiver, Inv, Truthful;
    match e {
      case Deliver(f, answer) => FrameKeeps(h, z, rs, f, answer);
      case Restart(file) =>
        if ReplayBytes(h, EMPTY, file).Ok? {
          ReplayContentAddressed(h, EMPTY, file);
          NewKeeps(h, ReplayBytes(h, EMPTY, file).value.0);
        }
    }
  }

  /**
    In every run each stored block sits under its own hash, each logged id without
    content is pending, and each ACK names a root whose whole log is held.
   */
  lemma {:induction false} AckNeverOverstates(h: Hashes, z: Zstd, st: StoreState, events: seq<Event>)
    requires ContentAddressed(h, st)
    ensures Inv(h, After(h, z, NewReceiver(st), events))
    ensures
      events != [] ==>
        var n := |events| - 1;
        var (next, reply) := EventStep(h, z, After(h, z, NewReceiver(st), events[..n]), events[n]);
        reply.Some? && reply.value.Ack? ==>
          && Truthful(next, reply.value.ack)
          && var ids := LogOf(next.store, reply.value.ack.sid).ids;
             var out := Reconstruct(next.store, reply.value.ack.sid);
             |out| == |ids| && forall i :: 0 <= i < |ids| ==> BlockId(h, out[i]) == ids[i]
  {
    hide EventStep, NewReceiver, BlockId, Lookup;
    if events == [] {
      NewKeeps(h, st);
    } else {
      var n := |events| - 1;
      var rs := After(h, z, NewReceiver(st), events[..n]);
      AckNeverOverstates(h, z, st, events[..n]);
      EventKeeps(h, z, rs, events[n]);
      var (next, reply) := EventStep(h, z, rs, events[n]);
      if reply.Some? && reply.value.Ack? {
        CompleteReconstructs(h, next.store.blocks, LogOf(next.store, reply.value.ack.sid).ids);
      }
    }
  }

  // --------------------------------------------------------------- completion ACKs

  /** The event neither seeds the session anew nor restarts the receiver. */
  predicate NoReseed(e: Event, sid: nat) {
    e.Deliver? && !(e.frame.Resync? && e.frame.resync.sid == sid)
  }

  /** How many ACKs for the session the BULK frames of a run drew. */
  function BulkAcks(h: Hashes, z: Zstd, rs: RState, events: seq<Event>, sid: nat): nat {
    if events == [] then 0
    else
      var n := |events| - 1;
      var e := events[n];
      var reply := EventStep(h, z, After(h, z, rs, events[..n]), e).1;
      BulkAcks(h, z, rs, events[..n], sid) +
      if e.Deliver? && e.frame.Bulk? && e.frame.bulk.sid == sid && reply.Some? then 1 else 0
  }

  /** A BULK frame draws an ACK exactly when it turns the session's flag on. */
  lemma {:induction false} AckedFlag(h: Hashes, z: Zstd, rs: RState, e: Event, sid: nat)
    requires NoReseed(e, sid)
    ensures
      var (next, reply) := EventStep(h, z, rs, e);
      && (SessionOf(rs, sid).acked ==> SessionOf(next, sid).acked)
      && ((e.frame.Bulk? && e.frame.bulk.sid == sid && reply.Some?) <==>
          (!SessionOf(rs, sid).acked && SessionOf(next, sid).acked))
  {
    hide Run, Resolve, RefsOk, Fed, Asked, UnpackAll, Records, Flat, ContentOps, ItemOps, InlineIds, RootOver, LogOf,
         MissingList, Ids;
    match e.frame {
      case Append(a) =>
      case Resync(r) =>
      case Bulk(b) => BulkFlag(h, z, rs, b, e.answer, sid);
      case Ack(_) =>
      case Missing(_) =>
    }
  }

  lemma {:induction false} BulkFlag(h: Hashes, z: Zstd, rs: RState, f: BulkFrame, answer: Answer, sid: nat)
    ensures
      var (next, r) := BulkStep(h, z, rs, f, answer);
      && (SessionOf(rs, sid).acked ==> SessionOf(next, sid).acked)
      && ((f.sid == sid && r.Ok? && r.value.Some?) <==> (!SessionOf(rs, sid).acked && SessionOf(next, sid).acked))
  {
    hide Run, Fed, Asked, UnpackAll, Records, Flat, ContentOps, InlineIds, LogOf;
  }

  /** Between two RESYNCs of a session its BULK frames draw one ACK, or none if it was already acknowledged. */
  lemma {:induction false} AtMostOneBulkAck(h: Hashes, z: Zstd, rs: RState, events: seq<Event>, sid: nat)
    requires forall i :: 0 <= i < |events| ==> NoReseed(events[i], sid)
    ensures BulkAcks(h, z, rs, events, sid) ==
            if !SessionOf(rs, sid).acked && SessionOf(After(h, z, rs, events), sid).acked then 1 else 0
    ensures SessionOf(rs, sid).acked ==> SessionOf(After(h, z, rs, events), sid).acked
  {
    hide EventStep, SessionOf;
    if events != [] {
      var n := |events| - 1;
      AtMostOneBulkAck(h, z, rs, events[..n], sid);
      AckedFlag(h, z, After(h, z, rs, events[..n]), events[n], sid);
    }
  }
}
