/** The receiver as it works in place (`crates/receiver/src/lib.rs`), against `ReceiverModel`. */
module Receiver {
  import opened Bytes
  import opened Blocks
  import opened Results
  import opened Store
  import opened Wal
  import opened DurableStore
  import opened Frames
  import opened Peeling
  import opened StoppingSets
  import opened Fountain
  import opened GfLinear
  import opened ReceiverModel
  import opened Replies

  ghost predicate Sized32(h: Hashes) { forall b :: |h.block(b)| == 32 }

  const SESSIONS: nat := 0x1_0000_0000_0000_0000_0000_0000_0000_0000

  /** The widths the frame types fix. */
  predicate FrameOk(f: Frame) {
    && FrameSid(f) < SESSIONS
    && (f.Append? ==>
          && |f.append.baseRoot| == 32
          && forall i :: 0 <= i < |f.append.blocks| && f.append.blocks[i].Ref? ==> |f.append.blocks[i].id| == 32)
    && (f.Resync? ==> Ids32(f.resync.manifest) && |f.resync.clientRoot| == 32)
  }

  predicate RefsSized(items: seq<Item>) {
    forall i :: 0 <= i < |items| && items[i].Known? ==> |items[i].id| == 32
  }

  /** The symbols of a decoder are as parsed, or what failed peels have left of them. */
  predicate DecoderOk(d: Decoder) { HeldAny(d.syms, d.k, d.symbolSize) }

  predicate DecodersOk(s: SessionState) { forall g :: g in s.decoders ==> DecoderOk(s.decoders[g]) }

  lemma {:induction false} FedStaysHeld(d: Decoder, wires: seq<Bytes>)
    requires DecoderOk(d)
    ensures
      var e := Fed(d, wires).0;
      DecoderOk(e) && e.k == d.k && e.symbolSize == d.symbolSize
  {
    hide HeldAny, ParseWire;
    if wires != [] {
      var n := |wires| - 1;
      FedStaysHeld(d, wires[..n]);
      var e, p := Fed(d, wires[..n]).0, ParseWire(wires[n], d.k, d.symbolSize);
      if p.Ok? && p.value.Some? {
        HeldSnoc(e.syms, p.value.value, d.k, d.symbolSize);
      }
    }
  }

  /** What the decoder fed with the frame is asked is answered as the fountain decoder answers it. */
  ghost predicate Genuine(rs: RState, f: BulkFrame, answer: Answer) {
    var (fed, refused) := Fed(DecoderOf(SessionOf(rs, f.sid), f), f.symbols);
    refused.None? && |fed.syms| >= fed.k ==> Attempt(fed.syms, fed.k, fed.symbolSize, answer.result, answer.left)
  }

  class Receiver {
    const store: ContentStore
    const z: Zstd
    var sessions: map<nat, SessionState>

    function View(): RState
      reads this, store
    {
      RState(store.State(), sessions)
    }

    ghost predicate Valid()
      reads this, store
    {
      && store.Valid() && (store.wal.Some? ==> Sized32(store.h))
      && forall sid :: sid in sessions ==> DecodersOk(sessions[sid])
    }

    /** Rebuilds the cold-start bookkeeping of every session the store holds. */
    constructor (store: ContentStore, z: Zstd)
      requires store.Valid() && (store.wal.Some? ==> Sized32(store.h))
      ensures Valid() && this.store == store && this.z == z && View() == NewReceiver(store.State())
    {
      hide HeldAny, ReplayBytes, RunBytes, RunOk, Run;
      this.store, this.z := store, z;
      var all := map[];
      var todo := store.sessions.Keys;
      while todo != {}
        invariant todo <= store.sessions.Keys && all.Keys == store.sessions.Keys - todo
        invariant forall sid :: sid in all ==> all[sid] == NewReceiver(store.State()).sessions[sid]
        decreases |todo|
      {
        var sid :| sid in todo;
        var ids := store.sessions[sid].ids;
        var pending: set<Digest> := {};
        for i := 0 to |ids|
          invariant pending == MissingIds(store.blocks, ids[..i])
        {
          assert ids[..i + 1] == ids[..i] + [ids[i]];
          if ids[i] !in store.blocks {
            pending := pending + {ids[i]};
          }
        }
        assert ids[..|ids|] == ids;
        all := all[sid := SessionState(pending, pending == {}, map[])];
        todo := todo - {sid};
      }
      sessions := all;
    }

    /** Decompresses and parses the frame's blocks. */
    method ResolveBlocks(blocks: seq<FrameBlock>) returns (r: Result<seq<Item>, ReceiverError>)
      ensures r == Resolve(store.h, z, blocks)
    {
      hide Unpack;
      var items := [];
      for i := 0 to |blocks|
        invariant Resolve(store.h, z, blocks[..i]) == Ok(items)
      {
        assert blocks[..i + 1][..i] == blocks[..i];
        match blocks[i] {
          case Inline(wire) =>
            var it := Unpack(store.h, z, wire.payload);
            if it.Err? {
              ResolveStops(store.h, z, blocks, i);
              return Err(it.error);
            }
            items := items + [it.value];
          case Ref(id) =>
            items := items + [Known(id)];
        }
      }
      assert blocks[..|blocks|] == blocks;
      r := Ok(items);
    }

    /** Are all references to stored content or to inline blocks earlier in the frame? */
    method CheckRefs(items: seq<Item>) returns (ok: bool)
      ensures ok == RefsOk(store.blocks, items)
    {
      var available: set<Digest> := {};
      for i := 0 to |items|
        invariant available == InlineIds(items[..i]) && RefsOk(store.blocks, items[..i])
      {
        assert items[..i + 1][..i] == items[..i];
        InlineSnoc(items[..i + 1]);
        match items[i] {
          case Full(id, _) =>
            available := available + {id};
          case Known(id) =>
            if id !in store.blocks && id !in available {
              assert items[i].Known?;
              return false;
            }
        }
        RefsOkSnoc(store.blocks, items, i);
      }
      assert items[..|items|] == items;
      ok := true;
    }

    /** Applies resolved items to the store, in frame order. */
    method ApplyItems(sid: nat, items: seq<Item>)
      requires Valid() && sid < SESSIONS && RefsOk(store.blocks, items) && Honest(store.h, items) && RefsSized(items)
      modifies store
      ensures Valid() && store.State() == Run(store.h, old(store.State()), ItemOps(sid, items))
      ensures store.Logged(old(store.State()), old(store.wal.Some?), old(store.walError), ItemOps(sid, items))
    {
      hide Run, Step, RefsOk, Grown, OpOk, ContentAddressed, InlineIds, BlockId, RunOk, RunBytes, ReplayBytes, Loggable,
           OpBytes, AllLoggable;
      ghost var st0, h, attached, error0 := store.State(), store.h, store.wal.Some?, store.walError;
      RunNothing(h, st0);
      NothingLogged(h, st0);
      assert ItemOps(sid, items[..0]) == [];
      for i := 0 to |items|
        invariant store.Valid() && store.Logged(st0, attached, error0, ItemOps(sid, items[..i]))
        invariant store.State() == Run(h, st0, ItemOps(sid, items[..i]))
      {
        var front := items[..i + 1];
        assert front[..i] == items[..i];
        assert ItemOps(sid, front) == ItemOps(sid, items[..i]) + [ItemOp(sid, items[i])];
        RunLast(h, st0, ItemOps(sid, items[..i]), ItemOp(sid, items[i]));
        LoggableSnoc(h, st0, ItemOps(sid, items[..i]), ItemOp(sid, items[i]));
        RefsOkPrefix(st0.blocks, items, i + 1);
        RefsOkPrefix(st0.blocks, items, i);
        RunItems(h, st0, sid, items[..i]);
        LastAvailable(h, st0, store.State(), sid, front);
        if store.wal.Some? {
          ItemOpOk(h, sid, items[i]);
        }
        match items[i] {
          case Full(id, block) =>
            var _ := store.InsertWithCanonical(sid, block, id, None);
          case Known(id) =>
            var ok := store.ReferenceBlock(sid, id);
            assert ok;
        }
      }
      assert items[..|items|] == items;
    }

    /** Extends the session's log, answers a replayed frame again, or rejects the frame. */
    method HandleAppend(f: AppendFrame) returns (r: Result<AckFrame, ReceiverError>)
      requires Valid() && FrameOk(Append(f))
      modifies this, store
      ensures Valid() && (View(), r) == AppendStep(store.h, z, old(View()), f)
      ensures store.Logged(old(store.State()), old(store.wal.Some?), old(store.walError),
                           AppendOps(store.h, z, old(View()), f))
    {
      hide Resolve, RefsOk, ItemOps, Run, Ids, InlineIds, RootOver, Honest, AllLoggable, ReplayBytes, RunBytes, RunOk,
           HeldAny;
      NothingLogged(store.h, store.State());
      var items := ResolveBlocks(f.blocks);
      if items.Err? {
        return Err(items.error);
      }
      var ok := CheckRefs(items.value);
      if !ok {
        return Err(MissingRef);
      }
      var session := if f.sid in sessions then sessions[f.sid] else NEW_SESSION;
      sessions := sessions[f.sid := session];
      if session.pending != {} {
        return Err(ColdStartInProgress(f.sid));
      }
      var current := if f.sid in store.sessions then store.sessions[f.sid].root else ROOT_ZERO;
      var target := ComputeRoot(store.h, f.baseRoot, Ids(items.value));
      if f.baseRoot != current {
        if target == current {
          return Ok(AckFrame(f.sid, current));
        }
        return Err(BaseRootMismatch(f.sid, f.baseRoot, current));
      }
      ResolvedItems(store.h, z, f.blocks);
      ResolvedRefs(store.h, z, f.blocks);
      ApplyItems(f.sid, items.value);
      r := Ok(AckFrame(f.sid, if f.sid in store.sessions then store.sessions[f.sid].root else ROOT_ZERO));
    }

    /** Seeds the session with the client's manifest and names what is missing. */
    method HandleResync(f: ResyncFrame) returns (missing: seq<Digest>)
      requires Valid() && FrameOk(Resync(f))
      modifies this, store
      ensures Valid() && (View(), missing) == ResyncStep(store.h, old(View()), f)
      ensures store.Logged(old(store.State()), old(store.wal.Some?), old(store.walError),
                           [Seed(f.sid, f.manifest, f.clientRoot)])
    {
      hide OpBytes, ReplayBytes, RunBytes, Run, RunOk, AllLoggable, Loggable, HeldAny;
      OneLogged(store.h, store.State(), Seed(f.sid, f.manifest, f.clientRoot));
      missing := [];
      for i := 0 to |f.manifest|
        invariant missing == MissingList(store.blocks, f.manifest[..i])
      {
        assert f.manifest[..i + 1][..i] == f.manifest[..i];
        if f.manifest[i] !in store.blocks {
          missing := missing + [f.manifest[i]];
        }
      }
      assert f.manifest[..|f.manifest|] == f.manifest;
      store.SeedSession(f.sid, f.manifest, f.clientRoot);
      var session := if f.sid in sessions then sessions[f.sid] else NEW_SESSION;
      var pending := set id | id in missing;
      sessions := sessions[f.sid := session.(pending := pending, acked := missing == [])];
    }

    /** Parses a decoded stream into its records. */
    method ParseRecords(flat: Bytes) returns (records: seq<Bytes>)
      ensures records == Records(flat)
    {
      hide FromLe;
      records := [];
      var off := 0;
      while off + 4 <= |flat|
        invariant off <= |flat| && Records(flat) == records + Records(flat[off..])
      {
        var rest := flat[off..];
        assert rest[..4] == flat[off..off + 4];
        var len := FromLe(flat[off..off + 4]);
        off := off + 4;
        if len == 0 || off + len > |flat| {
          assert Records(rest) == [];
          return;
        }
        assert rest[4..4 + len] == flat[off..off + len] && rest[4 + len..] == flat[off + len..];
        records := records + [flat[off..off + len]];
        off := off + len;
      }
    }

    method UnpackRecords(records: seq<Bytes>) returns (r: Result<seq<Item>, ReceiverError>)
      ensures r == UnpackAll(store.h, z, records)
    {
      hide Unpack;
      var items := [];
      for i := 0 to |records|
        invariant UnpackAll(store.h, z, records[..i]) == Ok(items)
      {
        assert records[..i + 1][..i] == records[..i];
        var it := Unpack(store.h, z, records[i]);
        if it.Err? {
          UnpackStops(store.h, z, records, i);
          return Err(it.error);
        }
        items := items + [it.value];
      }
      assert records[..|records|] == records;
      r := Ok(items);
    }

    /** Stores recovered blocks without touching the log. */
    method StoreItems(sid: nat, items: seq<Item>)
      requires Valid() && sid < SESSIONS && AllFull(items) && Honest(store.h, items)
      modifies store
      ensures Valid() && store.State() == Run(store.h, old(store.State()), ContentOps(sid, items))
      ensures store.Logged(old(store.State()), old(store.wal.Some?), old(store.walError), ContentOps(sid, items))
    {
      hide Run, Step, OpOk, BlockId, RunOk, RunBytes, ReplayBytes, Loggable, OpBytes, AllLoggable;
      ghost var st0, h, attached, error0 := store.State(), store.h, store.wal.Some?, store.walError;
      RunNothing(h, st0);
      NothingLogged(h, st0);
      assert ContentOps(sid, items[..0]) == [];
      for i := 0 to |items|
        invariant store.Valid() && store.Logged(st0, attached, error0, ContentOps(sid, items[..i]))
        invariant store.State() == Run(h, st0, ContentOps(sid, items[..i]))
      {
        ghost var op := Content(sid, items[i].block, items[i].id);
        assert ContentOps(sid, items[..i + 1]) == ContentOps(sid, items[..i]) + [op];
        RunLast(h, st0, ContentOps(sid, items[..i]), op);
        LoggableSnoc(h, st0, ContentOps(sid, items[..i]), op);
        if store.wal.Some? {
          ItemOpOk(h, sid, items[i]);
        }
        var _ := store.StoreContentWithId(sid, items[i].block, items[i].id);
      }
      assert items[..|items|] == items;
    }

    /** Gives the decoder the frame's symbols. */
    method Feed(d: Decoder, wires: seq<Bytes>) returns (e: Decoder, refused: Option<FountainError>)
      ensures (e, refused) == Fed(d, wires)
    {
      hide ParseWire;
      e := d;
      for i := 0 to |wires|
        invariant Fed(d, wires[..i]) == (e, None) && e.k == d.k && e.symbolSize == d.symbolSize
      {
        assert wires[..i + 1][..i] == wires[..i];
        match ParseWire(wires[i], d.k, d.symbolSize) {
          case Err(x) =>
            FedStops(d, wires, i);
            return e, Some(x);
          case Ok(None) =>
          case Ok(Some(sym)) => e := e.(syms := e.syms + [sym]);
        }
      }
      assert wires[..|wires|] == wires;
      refused := None;
    }

    /** Asks a decoder once for its generation. */
    method Ask(fed: Decoder, width: nat)
        returns (asked: Decoder, result: Result<seq<Vec>, FountainError>, ghost answer: Answer)
      requires DecoderOk(fed)
      ensures (asked, result) == Asked(fed, answer) && DecoderOk(asked)
      ensures |fed.syms| >= fed.k ==> Attempt(fed.syms, fed.k, fed.symbolSize, answer.result, answer.left)
    {
      hide DecodeOutcome, HeldAny, AllLive, HasSingle, Peelable, SameStops;
      var left;
      result, left := DecodeSymbols(fed.syms, fed.k, fed.symbolSize, width);
      answer := Answer(result, left);
      asked := fed.(syms := left);
    }

    /** Stores recovered blocks and retires them; answers the root to acknowledge if that completes the session. */
    method Retire(f: BulkFrame, items: seq<Item>) returns (completion: Option<Digest>)
      requires Valid() && FrameOk(Bulk(f)) && AllFull(items) && Honest(store.h, items) && f.sid in sessions
      modifies this, store
      ensures Valid() && (View(), completion) == Recovered(store.h, old(View()), f, items)
      ensures store.Logged(old(store.State()), old(store.wal.Some?), old(store.walError), ContentOps(f.sid, items))
    {
      hide Run, ContentOps, InlineIds, Honest, AllLoggable;
      StoreItems(f.sid, items);
      var now := sessions[f.sid];
      var pending := now.pending - InlineIds(items);
      completion := None;
      var acked := now.acked;
      if pending == {} && !acked {
        acked := true;
        completion := Some(if f.sid in store.sessions then store.sessions[f.sid].root else ROOT_ZERO);
      }
      sessions := sessions[f.sid := SessionState(pending, acked, now.decoders - {f.generation})];
    }

    /** Feeds a generation's decoder and stores what it recovers. */
    method HandleBulk(f: BulkFrame, width: nat)
        returns (r: Result<Option<Digest>, ReceiverError>, ghost answer: Answer)
      requires Valid() && FrameOk(Bulk(f))
      modifies this, store
      ensures Valid() && (View(), r) == BulkStep(store.h, z, old(View()), f, answer)
      ensures Genuine(old(View()), f, answer)
      ensures store.Logged(old(store.State()), old(store.wal.Some?), old(store.walError),
                           BulkOps(store.h, z, old(View()), f, answer))
    {
      hide Fed, HeldAny, Attempt, Asked, Recovered, UnpackAll, Records, Flat, Honest, LogOf, AllLoggable, ContentOps,
           ReplayBytes, RunBytes, RunOk, Run, InlineIds, AllFull, FrameOk;
      NothingLogged(store.h, store.State());
      answer := Answer(Err(Empty), []);
      var session := if f.sid in sessions then sessions[f.sid] else NEW_SESSION;
      var d := if f.generation in session.decoders then session.decoders[f.generation]
               else Decoder(f.k, f.symbolSize, []);
      NothingHeld(f.k, f.symbolSize);
      FedStaysHeld(d, f.symbols);
      var fed, refused := Feed(d, f.symbols);
      if refused.Some? {
        sessions := sessions[f.sid := session.(decoders := session.decoders[f.generation := fed])];
        r := Err(FountainFailed(refused.value));
        return;
      }
      var asked, result;
      asked, result, answer := Ask(fed, width);
      sessions := sessions[f.sid := session.(decoders := session.decoders[f.generation := asked])];
      if result.Err? {
        r := if result.error.Underdetermined? then Ok(None) else Err(FountainFailed(result.error));
        return;
      }
      r := StoreDecoded(f, result.value);
    }

    /** Parses a decoded generation and stores its blocks. */
    method StoreDecoded(f: BulkFrame, symbols: seq<Bytes>) returns (r: Result<Option<Digest>, ReceiverError>)
      requires Valid() && FrameOk(Bulk(f)) && f.sid in sessions
      modifies this, store
      ensures Valid()
      ensures
        var items := UnpackAll(store.h, z, Records(Flat(symbols)));
        if items.Err? then
          && View() == old(View()) && r == Err(items.error)
          && store.Logged(old(store.State()), old(store.wal.Some?), old(store.walError), [])
        else
          && AllFull(items.value) && r.Ok?
          && (View(), r.value) == Recovered(store.h, old(View()), f, items.value)
          && store.Logged(old(store.State()), old(store.wal.Some?), old(store.walError), ContentOps(f.sid, items.value))
    {
      hide Recovered, UnpackAll, Records, Flat, Honest, AllLoggable, ContentOps, ReplayBytes, RunBytes, RunOk, Run,
           HeldAny;
      NothingLogged(store.h, store.State());
      var flat := Flat(symbols);
      var records := ParseRecords(flat);
      var items := UnpackRecords(records);
      if items.Err? {
        return Err(items.error);
      }
      UnpackedItems(store.h, z, records);
      var completion := Retire(f, items.value);
      r := Ok(completion);
    }

    /** Handles any frame and answers the frame to send back. */
    method HandleFrame(f: Frame, width: nat)
        returns (r: Result<Option<Frame>, ReceiverError>, ghost answer: Answer)
      requires Valid() && FrameOk(f)
      modifies this, store
      ensures Valid() && (View(), r) == FrameStep(store.h, z, old(View()), f, answer)
      ensures f.Bulk? ==> Genuine(old(View()), f.bulk, answer)
      ensures store.Logged(old(store.State()), old(store.wal.Some?), old(store.walError),
                           FrameOps(store.h, z, old(View()), f, answer))
      ensures f.Append? ==> AppendReply(store.h, z, old(View()), f.append, r)
      ensures f.Append? ==> AppendEffect(store.h, z, old(View()), View(), f.append, r)
      ensures f.Resync? ==> ResyncReply(old(View()).store.blocks, f.resync, r)
      ensures f.Resync? ==> ResyncEffect(old(View()), View(), f.resync)
      ensures f.Bulk? ==> BulkReply(old(View()), View(), f.bulk, r)
      ensures f.Ack? || f.Missing? ==> r == Ok(None) && View() == old(View())
    {
      hide AppendStep, BulkStep, ResyncStep, Genuine, AppendReply, AppendEffect, ResyncReply, ResyncEffect, BulkReply,
           AppendOps, BulkOps, AllLoggable;
      NothingLogged(store.h, store.State());
      ghost var before := View();
      answer := Answer(Err(Empty), []);
      match f {
        case Append(a) =>
          var ack := HandleAppend(a);
          r := if ack.Ok? then Ok(Some(Ack(ack.value))) else Err(ack.error);
          AppendAnswered(store.h, z, before, a, answer);
          AppendEffects(store.h, z, before, a, answer);
        case Resync(s) =>
          var missing := HandleResync(s);
          if missing == [] {
            var root := if s.sid in store.sessions then store.sessions[s.sid].root else ROOT_ZERO;
            r := Ok(Some(Ack(AckFrame(s.sid, root))));
          } else {
            r := Ok(Some(Missing(MissingFrame(s.sid, missing))));
          }
          ResyncAnswered(store.h, z, before, s, answer);
          ResyncEffects(store.h, z, before, s, answer);
        case Bulk(b) =>
          var done;
          done, answer := HandleBulk(b, width);
          r := if done.Err? then Err(done.error)
               else if done.value.None? then Ok(None)
               else Ok(Some(Ack(AckFrame(b.sid, done.value.value))));
          BulkAnswered(store.h, z, before, b, answer);
        case Ack(_) =>
          r := Ok(None);
        case Missing(_) =>
          r := Ok(None);
      }
    }
  }

  // ---------------------------------------------------------------------------- helpers

  lemma {:induction false} ResolveStops(h: Hashes, z: Zstd, blocks: seq<FrameBlock>, i: nat)
    requires i < |blocks| && Resolve(h, z, blocks[..i]).Ok? && ResolveOne(h, z, blocks[i]).Err?
    ensures Resolve(h, z, blocks) == Err(ResolveOne(h, z, blocks[i]).error)
  {
    hide ResolveOne;
    var n := |blocks| - 1;
    if i < n {
      assert blocks[..n][..i] == blocks[..i];
      ResolveStops(h, z, blocks[..n], i);
    }
  }

  lemma {:induction false} UnpackStops(h: Hashes, z: Zstd, records: seq<Bytes>, i: nat)
    requires i < |records| && UnpackAll(h, z, records[..i]).Ok? && Unpack(h, z, records[i]).Err?
    ensures UnpackAll(h, z, records) == Err(Unpack(h, z, records[i]).error)
  {
    hide Unpack;
    var n := |records| - 1;
    if i < n {
      assert records[..n][..i] == records[..i];
      UnpackStops(h, z, records[..n], i);
    }
  }

  lemma {:induction false} FedStops(d: Decoder, wires: seq<Bytes>, i: nat)
    requires i < |wires| && Fed(d, wires[..i]).1.None? && ParseWire(wires[i], d.k, d.symbolSize).Err?
    ensures Fed(d, wires) == (Fed(d, wires[..i]).0, Some(ParseWire(wires[i], d.k, d.symbolSize).error))
  {
    hide ParseWire;
    var n := |wires| - 1;
    if i < n {
      assert wires[..n][..i] == wires[..i];
      FedStops(d, wires[..n], i);
    }
  }

  lemma {:induction false} RefsOkSnoc(blocks: map<Digest, Block>, items: seq<Item>, i: nat)
    requires i < |items| && RefsOk(blocks, items[..i])
    requires items[i].Known? ==> items[i].id in blocks || items[i].id in InlineIds(items[..i])
    ensures RefsOk(blocks, items[..i + 1])
  {
    var more := items[..i + 1];
    forall j | 0 <= j < |more| && more[j].Known? ensures more[j].id in blocks || more[j].id in InlineIds(more[..j]) {
      assert more[..j] == items[..j];
      if j < i {
        assert items[..i][..j] == items[..j] && items[..i][j].Known?;
      }
    }
  }

  lemma {:induction false} RefsOkPrefix(blocks: map<Digest, Block>, items: seq<Item>, i: nat)
    requires i <= |items| && RefsOk(blocks, items)
    ensures RefsOk(blocks, items[..i])
  {
    var front := items[..i];
    forall j | 0 <= j < |front| && front[j].Known?
      ensures front[j].id in blocks || front[j].id in InlineIds(front[..j])
    {
      assert front[..j] == items[..j];
      assert items[j].Known?;
    }
  }

  lemma {:induction false} ResolvedRefs(h: Hashes, z: Zstd, blocks: seq<FrameBlock>)
    requires Resolve(h, z, blocks).Ok?
    requires forall i :: 0 <= i < |blocks| && blocks[i].Ref? ==> |blocks[i].id| == 32
    ensures RefsSized(Resolve(h, z, blocks).value)
  {
    hide Unpack;
    if blocks != [] {
      var n := |blocks| - 1;
      ResolvedRefs(h, z, blocks[..n]);
      if blocks[n].Inline? {
        UnpackedId(h, z, blocks[n].block.payload);
      }
    }
  }

  lemma {:induction false} RunNothing(h: Hashes, st: StoreState)
    ensures Run(h, st, []) == st
  {
  }

  lemma {:induction false} NothingLogged(h: Hashes, st: StoreState)
    ensures AllLoggable(h, st, [])
  {
  }

  lemma {:induction false} OneLogged(h: Hashes, st: StoreState, op: Op)
    ensures AllLoggable(h, st, [op]) <==> Loggable(st, op)
  {
    LoggableSnoc(h, st, [], op);
    RunNothing(h, st);
    assert [] + [op] == [op];
  }

  lemma {:induction false} ItemOpOk(h: Hashes, sid: nat, item: Item)
    requires Sized32(h) && sid < SESSIONS
    requires item.Full? ==> item.id == BlockId(h, item.block) && BlockOk(item.block)
    requires item.Known? ==> |item.id| == 32
    ensures OpOk(h, ItemOp(sid, item))
    ensures item.Full? ==> OpOk(h, Content(sid, item.block, item.id))
  {
    hide Canonical;
  }

  lemma {:induction false} NothingHeld(k: nat, s: nat)
    ensures HeldAny([], k, s)
  {
  }
}
