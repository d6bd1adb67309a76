/**
  A cold start from RESYNC to its completion ACK: whole BULK frames in any order, with
  duplicates and losses, between any traffic of other sessions.

  Generations are taken at most 65536 symbols long, the most the wire format can index.
 */
module ColdStart {
  import opened Bytes
  import opened Blocks
  import opened Results
  import opened Store
  import opened Frames
  import opened GfLinear
  import opened LinearSystems
  import opened Peeling
  import StoppingSets
  import opened Fountain
  import opened ReceiverModel
  import opened Receiver
  import opened AckSafety
  import opened Replies
  import opened ChatModel
  import opened Replication
  import opened BulkModel

  // ------------------------------------------------------------------ one whole frame

  lemma {:induction false} FedTrueWires(d: Decoder, wires: seq<Bytes>, x: seq<Vec>)
    requires Shape(x, d.k, d.symbolSize) && d.syms == []
    requires forall i :: 0 <= i < |wires| ==> TrueWire(wires[i], x, d.k, d.symbolSize)
    ensures Fed(d, wires) == (d.(syms := ParseAll(wires, d.k, d.symbolSize)), None)
  {
    hide ParseWire, Explains;
    if wires != [] {
      var n := |wires| - 1;
      FedTrueWires(d, wires[..n], x);
      assert TrueWire(wires[n], x, d.k, d.symbolSize);
    }
  }

  /** All systematic symbols make the decoder's count. */
  lemma {:induction false} EnoughSymbols(wires: seq<Vec>, x: seq<Vec>, k: nat, s: nat)
    requires Shape(x, k, s) && k <= 65536 && s > 0
    requires forall i :: 0 <= i < |wires| ==> TrueWire(wires[i], x, k, s)
    requires forall i :: 0 <= i < k ==> SystematicWire(x, i) in wires
    ensures |ParseAll(wires, k, s)| >= k
  {
    hide ParseWire, SystematicWire, ExplainsAll, ParseAll, TrueWire, Fresh;
    var syms := ParseAll(wires, k, s);
    TrueWiresExplained(wires, x, k, s);
    if |syms| < k {
      TooFewIsAmbiguous(syms, k, s, x);
      var y :| y != x && ExplainsAll(y, syms, k, s);
      AllSystematicDetermine(wires, x, k, s, y);
    }
  }

  /** The decoder of a generation it has not seen, given the whole frame, answers the source. */
  lemma {:induction false} WholeFrameDecodes(z: Zstd, rs: RState, f: BulkFrame, answer: Answer, sid: nat, g: nat,
                                             group: seq<Block>, sym: nat)
    requires sym > 0 && Codes(z, f, sid, g, group, sym) && f.k <= 65536
    requires f.generation !in SessionOf(rs, f.sid).decoders && Genuine(rs, f, answer)
    ensures
      var (fed, refused) := Fed(DecoderOf(SessionOf(rs, f.sid), f), f.symbols);
      && refused.None?
      && Asked(fed, answer) == (fed.(syms := answer.left), Ok(SourceOf(z, group, sym)))
  {
    hide Fed, ParseAll, TrueWire, SystematicWire, SourceOf, DecodeOutcome, Fresh;
    var x := SourceOf(z, group, sym);
    var d := DecoderOf(SessionOf(rs, f.sid), f);
    FedTrueWires(d, f.symbols, x);
    EnoughSymbols(f.symbols, x, f.k, sym);
    FreshIsHeld(ParseAll(f.symbols, f.k, sym), f.k, sym);
    WholeTransmissionDecodes(f.symbols, x, f.k, sym, answer.result);
  }

  function IdSet(h: Hashes, group: seq<Block>): set<Digest> { set b | b in group :: BlockId(h, b) }

  lemma {:induction false} FullIds(h: Hashes, group: seq<Block>)
    requires BlocksOk(group)
    ensures InlineIds(Fulls(h, group)) == IdSet(h, group) && Honest(h, Fulls(h, group))
  {
    hide BlockId, BlockOk;
    var items := Fulls(h, group);
    forall id ensures id in InlineIds(items) <==> id in IdSet(h, group) {
      if id in InlineIds(items) {
        var i :| 0 <= i < |items| && items[i].Full? && items[i].id == id;
        assert group[i] in group;
      }
      if id in IdSet(h, group) {
        var b :| b in group && BlockId(h, b) == id;
        var i :| 0 <= i < |group| && group[i] == b;
        assert items[i].Full? && items[i].id == id;
      }
    }
  }

  /** What a whole frame does: its blocks are stored and retired from the pending set. */
  lemma {:induction false} WholeFrameRecovers(h: Hashes, z: Zstd, rs: RState, f: BulkFrame, answer: Answer, sid: nat,
                                              g: nat, group: seq<Block>, sym: nat)
    requires Lossless(z) && BlocksOk(group)
    requires sym > 0 && Codes(z, f, sid, g, group, sym) && f.k <= 65536
    requires SessionOf(rs, sid).decoders == map[] && Genuine(rs, f, answer)
    ensures
      var (next, r) := BulkStep(h, z, rs, f, answer);
      var session := SessionOf(rs, sid);
      var pending := session.pending - IdSet(h, group);
      && next.store.sessions == rs.store.sessions
      && SessionOf(next, sid) == SessionState(pending, session.acked || pending == {}, map[])
      && r == Ok(if pending == {} && !session.acked then Some(LogOf(rs.store, sid).root) else None)
  {
    hide Fed, Asked, SourceOf, Records, Flat, UnpackAll, Run, InlineIds, IdSet, Fulls, Honest, ContentOps, Genuine,
         Lossless;
    WholeFrameDecodes(z, rs, f, answer, sid, g, group, sym);
    SourceUnpacks(h, z, group, sym);
    FullIds(h, group);
    hide Codes;
    var session := SessionOf(rs, f.sid);
    var (fed, _) := Fed(DecoderOf(session, f), f.symbols);
    var asked := Asked(fed, answer).0;
    var kept := WithSession(rs, f.sid, session.(decoders := session.decoders[f.generation := asked]));
    var items := Fulls(h, group);
    RunContent(h, kept.store, f.sid, items);
    assert BulkStep(h, z, rs, f, answer) == (Recovered(h, kept, f, items).0, Ok(Recovered(h, kept, f, items).1));
  }

  // ------------------------------------------------------------------ partial frames

  lemma {:induction false} FedOn(d: Decoder, a: seq<Bytes>, b: seq<Bytes>)
    requires Fed(d, a).1.None?
    ensures Fed(d, a + b) == Fed(Fed(d, a).0, b)
    ensures Fed(d, a).0.k == d.k && Fed(d, a).0.symbolSize == d.symbolSize
  {
    hide ParseWire;
    if b != [] {
      var n := |b| - 1;
      assert (a + b)[..|a| + n] == a + b[..n];
      FedOn(d, a, b[..n]);
      FedSizes(Fed(d, a).0, b[..n]);
    } else {
      assert a + b == a;
      FedSizes(d, a);
    }
  }

  lemma {:induction false} FedSizes(d: Decoder, wires: seq<Bytes>)
    ensures Fed(d, wires).0.k == d.k && Fed(d, wires).0.symbolSize == d.symbolSize
  {
    hide ParseWire;
    if wires != [] {
      FedSizes(d, wires[..|wires| - 1]);
    }
  }

  /**
    A generation may arrive in pieces: a frame after which there are too few symbols, or on
    which an attempt fails without a symbol of a single source, is kept, and the next one
    of the same generation does what both do in one frame.
   */
  lemma {:induction false} PiecesJoin(h: Hashes, z: Zstd, rs: RState, f: BulkFrame, more: seq<Bytes>, early: Answer,
                                      answer: Answer)
    requires var (fed, refused) := Fed(DecoderOf(SessionOf(rs, f.sid), f), f.symbols);
      refused.None? && (|fed.syms| < fed.k || FailsUnspent(rs, f, fed, early))
    ensures
      var (mid, r) := BulkStep(h, z, rs, f, early);
      && r == Ok(None) && mid.store == rs.store
      && BulkStep(h, z, mid, f.(symbols := more), answer) ==
         BulkStep(h, z, rs, f.(symbols := f.symbols + more), answer)
  {
    hide Fed, UnpackAll, Records, Flat, Recovered, FailsUnspent;
    var session := SessionOf(rs, f.sid);
    var d := DecoderOf(session, f);
    var fed := Fed(d, f.symbols).0;
    FedOn(d, f.symbols, more);
    UnspentStays(rs, f, fed, early);
    var mid := BulkStep(h, z, rs, f, early).0;
    assert mid == WithSession(rs, f.sid, session.(decoders := session.decoders[f.generation := fed]));
    var fed' := Fed(fed, more).0;
    KeptTwice(rs, f, fed, fed');
    KeptTwice(rs, f, fed, Asked(fed', answer).0);
    var second, both := f.(symbols := more), f.(symbols := f.symbols + more);
    assert Fed(DecoderOf(SessionOf(mid, f.sid), second), more) == Fed(DecoderOf(session, both), both.symbols);
    var (asked, result) := Asked(fed', answer);
    if Fed(fed, more).1.None? && result.Ok? {
      var records := Records(Flat(result.value));
      var kept := WithSession(rs, f.sid, session.(decoders := session.decoders[f.generation := asked]));
      if UnpackAll(h, z, records).Ok? {
        UnpackedItems(h, z, records);
        RecoveredByHeader(h, kept, second, both, UnpackAll(h, z, records).value);
      }
      assert BulkStep(h, z, mid, second, answer) == BulkStep(h, z, rs, both, answer);
    }
  }

  /** An attempt that fails and spends nothing. */
  ghost predicate FailsUnspent(rs: RState, f: BulkFrame, fed: Decoder, answer: Answer) {
    Genuine(rs, f, answer) && answer.result.Err? && fed.symbolSize > 0 && !HasSingle(fed.syms)
  }

  lemma {:induction false} UnspentStays(rs: RState, f: BulkFrame, fed: Decoder, answer: Answer)
    requires Fed(DecoderOf(SessionOf(rs, f.sid), f), f.symbols) == (fed, None)
    requires |fed.syms| < fed.k || FailsUnspent(rs, f, fed, answer)
    ensures Asked(fed, answer).0 == fed
    ensures Asked(fed, answer).1.Err? && Asked(fed, answer).1.error.Underdetermined?
  {
    hide Fed, DecodeOutcome, HasSingle, AllLive, HeldAny, StoppingSets.Peelable, StoppingSets.SameStops;
  }

  /** Of two decoders kept for a generation one after the other only the second stays. */
  lemma {:induction false} KeptTwice(rs: RState, f: BulkFrame, first: Decoder, second: Decoder)
    ensures
      var session := SessionOf(rs, f.sid);
      var mid := WithSession(rs, f.sid, session.(decoders := session.decoders[f.generation := first]));
      var session' := SessionOf(mid, f.sid);
      && session'.decoders[f.generation] == first
      && WithSession(mid, f.sid, session'.(decoders := session'.decoders[f.generation := second])) ==
         WithSession(rs, f.sid, session.(decoders := session.decoders[f.generation := second]))
  {
    var session := SessionOf(rs, f.sid);
    assert session.decoders[f.generation := first][f.generation := second] == session.decoders[f.generation := second];
  }

  lemma {:induction false} RecoveredByHeader(h: Hashes, rs: RState, f: BulkFrame, g: BulkFrame, items: seq<Item>)
    requires AllFull(items) && f.sid == g.sid && f.generation == g.generation
    ensures Recovered(h, rs, f, items) == Recovered(h, rs, g, items)
  {
    hide Run, ContentOps, InlineIds, LogOf;
  }

  // ---------------------------------------------------------------------- whole runs

  /** The events of a cold start: whole frames of the transfer, honestly decoded, and other sessions' frames. */
  ghost predicate ColdEvent(rs: RState, frames: seq<BulkFrame>, sid: nat, e: Event) {
    && e.Deliver?
    && (FrameSid(e.frame) != sid || (e.frame.Bulk? && e.frame.bulk in frames && Genuine(rs, e.frame.bulk, e.answer)))
  }

  ghost predicate ColdRun(h: Hashes, z: Zstd, rs: RState, frames: seq<BulkFrame>, sid: nat, events: seq<Event>) {
    forall n :: 0 <= n < |events| ==> ColdEvent(After(h, z, rs, events[..n]), frames, sid, events[n])
  }

  /** The generations that have arrived. */
  function Arrived(events: seq<Event>, sid: nat): set<nat> {
    set e | e in events && e.Deliver? && e.frame.Bulk? && e.frame.bulk.sid == sid :: e.frame.bulk.generation
  }

  /** The ids of the blocks in those generations. */
  function Covered(h: Hashes, groups: seq<seq<Block>>, gens: set<nat>): set<Digest> {
    set g: nat, id | g in gens && g < |groups| && id in IdSet(h, groups[g]) :: id
  }

  /** A transfer of the blocks the receiver named, as the client's shim codes it. */
  ghost predicate Transfer(z: Zstd, s: Shim, missing: seq<Digest>, frames: seq<BulkFrame>, full: nat, sym: nat)
    requires sym > 0
  {
    && CodesAll(z, frames, s.sid, Groups(z, full, Lookup(s.store.blocks, missing)), sym)
    && forall g :: 0 <= g < |frames| ==> frames[g].k <= 65536
  }

  /** Where the session stands after a set of generations has arrived. */
  ghost predicate Standing(h: Hashes, rs: RState, s: Shim, missing: seq<Digest>, groups: seq<seq<Block>>,
                           gens: set<nat>) {
    var pending := (set id | id in missing) - Covered(h, groups, gens);
    && LogOf(rs.store, s.sid) == SessionLog(s.ids, s.root)
    && SessionOf(rs, s.sid) == SessionState(pending, pending == {}, map[])
  }

  lemma {:induction false} CoveredMore(h: Hashes, groups: seq<seq<Block>>, gens: set<nat>, g: nat)
    requires g < |groups|
    ensures Covered(h, groups, gens + {g}) == Covered(h, groups, gens) + IdSet(h, groups[g])
  {
    hide IdSet;
  }

  lemma {:induction false} ArrivedSnoc(events: seq<Event>, e: Event, sid: nat)
    ensures Arrived(events + [e], sid) ==
            Arrived(events, sid) +
            if e.Deliver? && e.frame.Bulk? && e.frame.bulk.sid == sid then {e.frame.bulk.generation} else {}
  {
  }

  /** One event moves the session on by the generation it carries, if any. */
  lemma {:induction false} StandingStep(h: Hashes, z: Zstd, rs: RState, s: Shim, missing: seq<Digest>,
                                        groups: seq<seq<Block>>, gens: set<nat>,
                     frames: seq<BulkFrame>, sym: nat, e: Event)
    requires Lossless(z) && sym > 0 && CodesAll(z, frames, s.sid, groups, sym)
    requires forall g :: 0 <= g < |frames| ==> frames[g].k <= 65536 && BlocksOk(groups[g])
    requires Standing(h, rs, s, missing, groups, gens) && ColdEvent(rs, frames, s.sid, e)
    ensures
      var (next, reply) := EventStep(h, z, rs, e);
      if FrameSid(e.frame) == s.sid then
        && e.frame.Bulk? && Standing(h, next, s, missing, groups, gens + {e.frame.bulk.generation})
        && (reply.Some? ==> reply.value == Ack(AckFrame(s.sid, s.root)))
      else Standing(h, next, s, missing, groups, gens)
  {
    hide Lossless, Genuine, Codes, BlocksOk, BulkStep, AppendStep, ResyncStep, LogOf, Covered, IdSet;
    if FrameSid(e.frame) == s.sid {
      var f := e.frame.bulk;
      var g :| 0 <= g < |frames| && frames[g] == f;
      assert Codes(z, frames[g], s.sid, g, groups[g], sym);
      CodesHeader(z, f, s.sid, g, groups[g], sym);
      WholeFrameRecovers(h, z, rs, f, e.answer, s.sid, g, groups[g], sym);
      CoveredMore(h, groups, gens, g);
      LogFromSessions(rs.store, BulkStep(h, z, rs, f, e.answer).0.store, s.sid);
    } else {
      ForeignLeaves(h, z, rs, e.frame, e.answer, s.sid);
    }
  }

  lemma {:induction false} CodesHeader(z: Zstd, f: BulkFrame, sid: nat, g: nat, group: seq<Block>, sym: nat)
    requires sym > 0 && Codes(z, f, sid, g, group, sym)
    ensures f.sid == sid && f.generation == g
  {
  }

  lemma {:induction false} LogFromSessions(a: StoreState, b: StoreState, sid: nat)
    requires a.sessions == b.sessions
    ensures LogOf(a, sid) == LogOf(b, sid)
  {
  }

  lemma {:induction false} StandingRun(h: Hashes, z: Zstd, rs: RState, s: Shim, missing: seq<Digest>,
                                       groups: seq<seq<Block>>,
                                       frames: seq<BulkFrame>, sym: nat, events: seq<Event>)
    requires Lossless(z) && sym > 0 && CodesAll(z, frames, s.sid, groups, sym)
    requires forall g :: 0 <= g < |frames| ==> frames[g].k <= 65536 && BlocksOk(groups[g])
    requires Standing(h, rs, s, missing, groups, {}) && ColdRun(h, z, rs, frames, s.sid, events)
    ensures Standing(h, After(h, z, rs, events), s, missing, groups, Arrived(events, s.sid))
  {
    hide Lossless, Standing, CodesAll, ColdEvent, EventStep, BlocksOk, Arrived;
    if events == [] {
      assert Arrived([], s.sid) == {} by { NoneArrived(s.sid); }
    } else {
      var n := |events| - 1;
      ColdRunFront(h, z, rs, frames, s.sid, events);
      StandingRun(h, z, rs, s, missing, groups, frames, sym, events[..n]);
      var mid := After(h, z, rs, events[..n]);
      assert ColdEvent(mid, frames, s.sid, events[n]);
      StandingStep(h, z, mid, s, missing, groups, Arrived(events[..n], s.sid), frames, sym, events[n]);
      ArrivedSnoc(events[..n], events[n], s.sid);
      assert events[..n] + [events[n]] == events;
      ColdIsDelivered(mid, frames, s.sid, events[n]);
      assert Arrived(events[..n], s.sid) + {} == Arrived(events[..n], s.sid);
    }
  }

  lemma {:induction false} NoneArrived(sid: nat)
    ensures Arrived([], sid) == {}
  {
  }

  lemma {:induction false} ColdIsDelivered(rs: RState, frames: seq<BulkFrame>, sid: nat, e: Event)
    requires ColdEvent(rs, frames, sid, e)
    ensures e.Deliver? && NoReseed(e, sid)
  {
  }

  lemma {:induction false} ColdRunFront(h: Hashes, z: Zstd, rs: RState, frames: seq<BulkFrame>, sid: nat,
                                        events: seq<Event>)
    requires events != [] && ColdRun(h, z, rs, frames, sid, events)
    ensures ColdRun(h, z, rs, frames, sid, events[..|events| - 1])
  {
    hide ColdEvent, After;
    var front := events[..|events| - 1];
    forall n | 0 <= n < |front| ensures ColdEvent(After(h, z, rs, front[..n]), frames, sid, front[n]) {
      assert front[..n] == events[..n] && front[n] == events[n];
    }
  }

  // ------------------------------------------------------------------------- theorems

  /** The groups together cover exactly the missing ids. */
  lemma {:induction false} AllCovered(h: Hashes, blocks: map<Digest, Block>, missing: seq<Digest>,
                                      groups: seq<seq<Block>>, gens: set<nat>)
    requires forall id :: id in blocks ==> id == BlockId(h, blocks[id])
    requires forall id :: id in missing ==> id in blocks
    requires Joined(groups) == Lookup(blocks, missing) && forall g: nat :: g < |groups| ==> g in gens
    ensures forall id :: id in missing ==> id in Covered(h, groups, gens)
  {
    hide BlockId, Joined;
    forall id | id in missing ensures id in Covered(h, groups, gens) {
      LookupMember(blocks, missing, id);
      JoinedMember(groups, blocks[id]);
      var g: nat :| g < |groups| && blocks[id] in groups[g];
      assert id in IdSet(h, groups[g]);
    }
  }

  lemma {:induction false} LookupMember(blocks: map<Digest, Block>, ids: seq<Digest>, id: Digest)
    requires id in ids && id in blocks
    ensures blocks[id] in Lookup(blocks, ids)
  {
    var n := |ids| - 1;
    if id != ids[n] {
      assert id in ids[..n];
      LookupMember(blocks, ids[..n], id);
    }
  }

  lemma {:induction false} LookupOk(h: Hashes, blocks: map<Digest, Block>, ids: seq<Digest>)
    requires forall id :: id in blocks ==> id == BlockId(h, blocks[id]) && BlockOk(blocks[id])
    ensures BlocksOk(Lookup(blocks, ids))
  {
    hide BlockId, BlockOk;
    if ids != [] {
      LookupOk(h, blocks, ids[..|ids| - 1]);
    }
  }

  lemma {:induction false} JoinedOk(groups: seq<seq<Block>>, g: nat)
    requires BlocksOk(Joined(groups)) && g < |groups|
    ensures BlocksOk(groups[g])
  {
    hide BlockOk;
    var n := |groups| - 1;
    var all := Joined(groups);
    if g < n {
      var front := Joined(groups[..n]);
      forall i | 0 <= i < |front| ensures BlockOk(front[i]) {
        assert all[i] == front[i];
      }
      JoinedOk(groups[..n], g);
    } else {
      forall i | 0 <= i < |groups[n]| ensures BlockOk(groups[n][i]) {
        assert all[|Joined(groups[..n])| + i] == groups[n][i];
      }
    }
  }

  /** After RESYNC the session stands at the beginning of the transfer. */
  lemma {:induction false} ResyncStands(h: Hashes, rs: RState, s: Shim, groups: seq<seq<Block>>)
    requires SessionOf(rs, s.sid).decoders == map[]
    ensures
      var (next, missing) := ResyncStep(h, rs, ResyncOf(s));
      Standing(h, next, s, missing, groups, {})
  {
    hide MissingList;
    var (next, missing) := ResyncStep(h, rs, ResyncOf(s));
    assert Covered(h, groups, {}) == {};
    var pending := set id | id in missing;
    assert pending - {} == pending;
    if missing != [] {
      assert missing[0] in pending;
    }
  }

  /** The shim's RESYNC arrives; no decoder is asked. */
  function Reseed(s: Shim): Event { Deliver(Resync(ResyncOf(s)), Answer(Err(Empty), [])) }

  /** The reply asks for exactly what the session waits for; with nothing to ask for it is the ACK. */
  lemma {:induction false} ResyncRequests(h: Hashes, z: Zstd, rs: RState, s: Shim)
    ensures
      var (seeded, reply) := EventStep(h, z, rs, Reseed(s));
      && (seeded, Requested(reply)) == ResyncStep(h, rs, ResyncOf(s))
      && (Requested(reply) == [] ==> reply == Some(Ack(AckFrame(s.sid, s.root))))
  {
    hide MissingList;
  }

  /**
    Order does not matter.  After an honest RESYNC, whatever order, duplicates and losses
    the frames arrive with: the log is the client's; what is pending is what no arrived
    generation carried; BULK has drawn one ACK if nothing is pending any more and none
    before; and from then on the receiver reconstructs the client's blocks in manifest
    order.
   */
  lemma {:induction false} OrderIndependent(h: Hashes, z: Zstd, s: Shim, rs: RState, frames: seq<BulkFrame>, full: nat,
                                            sym: nat, events: seq<Event>)
    requires CollisionFree(h) && Lossless(z) && sym > 0 && ShimOk(h, s)
    requires Inv(h, rs) && SessionOf(rs, s.sid).decoders == map[]
    requires
      var (seeded, reply) := EventStep(h, z, rs, Reseed(s));
      Transfer(z, s, Requested(reply), frames, full, sym) && ColdRun(h, z, seeded, frames, s.sid, events)
    ensures
      var (seeded, reply) := EventStep(h, z, rs, Reseed(s));
      var missing := Requested(reply);
      var groups := Groups(z, full, Lookup(s.store.blocks, missing));
      var end := After(h, z, seeded, events);
      var pending := SessionOf(end, s.sid).pending;
      && LogOf(end.store, s.sid) == SessionLog(s.ids, s.root)
      && pending == (set id | id in missing) - Covered(h, groups, Arrived(events, s.sid))
      && ((forall g: nat :: g < |frames| ==> g in Arrived(events, s.sid)) ==> pending == {})
      && (missing == [] ==> reply == Some(Ack(AckFrame(s.sid, s.root))))
      && BulkAcks(h, z, seeded, events, s.sid) == (if missing != [] && pending == {} then 1 else 0)
      && (pending == {} ==> Reconstruct(end.store, s.sid) == Lookup(s.store.blocks, s.ids))
  {
    hide CollisionFree, Lossless, Groups, Joined, Lookup, CodesAll, ColdRun, Covered, Arrived, BulkAcks, After,
         RootOver, Inv, EventStep;
    ResyncRequests(h, z, rs, s);
    var (seeded, missing) := ResyncStep(h, rs, ResyncOf(s));
    var blocks := Lookup(s.store.blocks, missing);
    var groups := Groups(z, full, blocks);
    var end := After(h, z, seeded, events);
    GroupsKeep(z, full, blocks);
    LookupOk(h, s.store.blocks, missing);
    GroupCount(z, frames, s.sid, groups, sym);
    forall g | 0 <= g < |frames| ensures BlocksOk(groups[g]) {
      JoinedOk(groups, g);
    }
    ResyncStands(h, rs, s, groups);
    StandingRun(h, z, seeded, s, missing, groups, frames, sym, events);
    if forall g: nat :: g < |frames| ==> g in Arrived(events, s.sid) {
      AllCovered(h, s.store.blocks, missing, groups, Arrived(events, s.sid));
    }
    ColdAcks(h, z, seeded, frames, s.sid, events);
    ResyncAcked(h, rs, s);
    if SessionOf(end, s.sid).pending == {} {
      ColdInv(h, z, rs, s, events, seeded);
      Restored(h, s, end);
    }
  }

  lemma {:induction false} GroupCount(z: Zstd, frames: seq<BulkFrame>, sid: nat, groups: seq<seq<Block>>, sym: nat)
    requires sym > 0 && CodesAll(z, frames, sid, groups, sym)
    ensures |frames| == |groups|
  {
  }

  /** The number of ACKs a cold run's BULK frames draw. */
  lemma {:induction false} ColdAcks(h: Hashes, z: Zstd, rs: RState, frames: seq<BulkFrame>, sid: nat,
                                    events: seq<Event>)
    requires ColdRun(h, z, rs, frames, sid, events)
    ensures BulkAcks(h, z, rs, events, sid) ==
            if !SessionOf(rs, sid).acked && SessionOf(After(h, z, rs, events), sid).acked then 1 else 0
  {
    hide BulkAcks, After, ColdEvent, NoReseed;
    forall i | 0 <= i < |events| ensures NoReseed(events[i], sid) {
      ColdIsDelivered(After(h, z, rs, events[..i]), frames, sid, events[i]);
    }
    AtMostOneBulkAck(h, z, rs, events, sid);
  }

  lemma {:induction false} ResyncAcked(h: Hashes, rs: RState, s: Shim)
    ensures
      var (next, missing) := ResyncStep(h, rs, ResyncOf(s));
      SessionOf(next, s.sid).acked <==> missing == []
  {
    hide MissingList;
  }

  lemma {:induction false} ColdInv(h: Hashes, z: Zstd, rs: RState, s: Shim, events: seq<Event>, seeded: RState)
    requires Inv(h, rs) && seeded == ResyncStep(h, rs, ResyncOf(s)).0
    ensures Inv(h, After(h, z, seeded, events))
  {
    hide Inv, ResyncStep;
    ResyncKeeps(h, rs, ResyncOf(s));
    RunKeeps(h, z, seeded, events);
  }

  lemma {:induction false} RunKeeps(h: Hashes, z: Zstd, rs: RState, events: seq<Event>)
    requires Inv(h, rs)
    ensures Inv(h, After(h, z, rs, events))
  {
    hide Inv, EventStep;
    if events != [] {
      var n := |events| - 1;
      RunKeeps(h, z, rs, events[..n]);
      EventKeeps(h, z, After(h, z, rs, events[..n]), events[n]);
    }
  }

  /** A session with the client's log and nothing pending gives the client's blocks back. */
  lemma {:induction false} Restored(h: Hashes, s: Shim, rs: RState)
    requires CollisionFree(h) && ShimOk(h, s) && Inv(h, rs)
    requires LogOf(rs.store, s.sid).ids == s.ids && SessionOf(rs, s.sid).pending == {}
    ensures Reconstruct(rs.store, s.sid) == Lookup(s.store.blocks, s.ids)
  {
    hide CollisionFree, Lookup, BlockId, RootOver;
    assert Accounted(rs, s.sid);
    SameLookup(h, rs.store.blocks, s.store.blocks, s.ids);
  }

  /** The completion ACK carries the client's root. */
  lemma {:induction false} CompletionCarriesRoot(h: Hashes, z: Zstd, s: Shim, rs: RState, frames: seq<BulkFrame>,
                                                 full: nat, sym: nat,
                              events: seq<Event>, e: Event)
    requires Lossless(z) && sym > 0 && ShimOk(h, s) && SessionOf(rs, s.sid).decoders == map[]
    requires
      var (seeded, reply) := EventStep(h, z, rs, Reseed(s));
      && Transfer(z, s, Requested(reply), frames, full, sym) && ColdRun(h, z, seeded, frames, s.sid, events)
      && ColdEvent(After(h, z, seeded, events), frames, s.sid, e) && FrameSid(e.frame) == s.sid
    ensures
      var seeded := EventStep(h, z, rs, Reseed(s)).0;
      var reply := EventStep(h, z, After(h, z, seeded, events), e).1;
      reply.Some? ==> reply.value == Ack(AckFrame(s.sid, s.root))
  {
    hide Lossless, Groups, Joined, Lookup, CodesAll, ColdRun, Covered, Arrived, After, RootOver, EventStep, ColdEvent;
    ResyncRequests(h, z, rs, s);
    var (seeded, missing) := ResyncStep(h, rs, ResyncOf(s));
    var blocks := Lookup(s.store.blocks, missing);
    var groups := Groups(z, full, blocks);
    GroupsKeep(z, full, blocks);
    LookupOk(h, s.store.blocks, missing);
    GroupCount(z, frames, s.sid, groups, sym);
    forall g | 0 <= g < |frames| ensures BlocksOk(groups[g]) {
      JoinedOk(groups, g);
    }
    ResyncStands(h, rs, s, groups);
    StandingRun(h, z, seeded, s, missing, groups, frames, sym, events);
    StandingStep(h, z, After(h, z, seeded, events), s, missing, groups, Arrived(events, s.sid), frames, sym, e);
  }

  /** What the client knows of the past: its own log, its frames, and ACKs of prefixes of the log. */
  ghost predicate ClientSide(h: Hashes, z: Zstd, s: Network) {
    && ClientOk(h, s.client)
    && (forall i :: 0 <= i < |s.sent| ==> Settled(h, z, s.client, s.sent[i]) || InFlight(h, z, s.client, s.sent[i]))
    && (forall root :: root in s.acks ==>
          exists m: nat :: m <= |s.client.shim.ids| && root == RootOver(h, ROOT_ZERO, s.client.shim.ids[..m]))
  }

  /** A receiver that holds the whole log, and a client that has heard so, are in steady state. */
  lemma {:induction false} Resumed(h: Hashes, z: Zstd, s: Network, rs: RState)
    requires ClientSide(h, z, s) && Inv(h, rs) && SessionOf(rs, s.client.shim.sid).pending == {}
    requires LogOf(rs.store, s.client.shim.sid) == SessionLog(s.client.shim.ids, s.client.shim.root)
    ensures SysInv(h, z, Network(Acked(s.client), rs, s.sent, s.acks))
  {
    hide Inv, Carries, RootOver, LogOf, SessionOf;
    var c := s.client;
    var ids := c.shim.ids;
    var next := Network(Acked(c), rs, s.sent, s.acks);
    assert ids[..|ids|] == ids;
    forall i | 0 <= i < |next.sent| ensures Settled(h, z, next.client, next.sent[i]) {
      if !Settled(h, z, c, s.sent[i]) {
        assert InFlight(h, z, c, s.sent[i]);
      } else {
        var a: nat, b: nat :| b <= c.shim.baseLen && Carries(h, z, ids, c.shim.sid, s.sent[i], a, b);
      }
    }
    forall root | root in next.acks ensures AckOk(h, next, root) {
      var m: nat :| m <= |ids| && root == RootOver(h, ROOT_ZERO, ids[..m]);
    }
  }

  /**
    A receiver that lost its state is brought back into step: once every generation has
    arrived and the client has taken the completion ACK, every further run stays in step,
    delayed APPEND frames from before included.
   */
  lemma {:induction false} ColdStartResumes(h: Hashes, z: Zstd, s: Network, frames: seq<BulkFrame>, full: nat, sym: nat,
                         events: seq<Event>, moves: seq<Move>)
    requires CollisionFree(h) && Lossless(z) && sym > 0 && ClientSide(h, z, s)
    requires Inv(h, s.receiver) && SessionOf(s.receiver, s.client.shim.sid).decoders == map[]
    requires
      var shim := s.client.shim;
      var (seeded, reply) := EventStep(h, z, s.receiver, Reseed(shim));
      && Transfer(z, shim, Requested(reply), frames, full, sym) && ColdRun(h, z, seeded, frames, shim.sid, events)
      && forall g: nat :: g < |frames| ==> g in Arrived(events, shim.sid)
    ensures
      var shim := s.client.shim;
      var seeded := EventStep(h, z, s.receiver, Reseed(shim)).0;
      var end := After(h, z, seeded, events);
      InStep(h, z, RunMoves(h, z, Network(Acked(s.client), end, s.sent, s.acks), moves))
  {
    hide CollisionFree, Lossless, Transfer, ColdRun, Arrived, After, RunMoves, InStep, SysInv, Inv, ShimOk, Settled,
         InFlight, Lookup, Groups, Covered, BulkAcks, EventStep;
    var shim := s.client.shim;
    ResyncRequests(h, z, s.receiver, shim);
    var seeded := ResyncStep(h, s.receiver, ResyncOf(shim)).0;
    var end := After(h, z, seeded, events);
    OrderIndependent(h, z, shim, s.receiver, frames, full, sym, events);
    ColdInv(h, z, s.receiver, shim, events, seeded);
    Resumed(h, z, s, end);
    var start := Network(Acked(s.client), end, s.sent, s.acks);
    AllRunsKeep(h, z, start, moves);
    KeptInStep(h, z, RunMoves(h, z, start, moves));
  }
}
