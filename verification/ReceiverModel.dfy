/**
  What the receiver does with a frame (`crates/receiver/src/lib.rs`), as functions
  on its state: the store, and per session the cold-start bookkeeping.  The class
  that works this way in place is in `Receiver.dfy`.

  A fountain decoder's answer is an argument.  For symbols of at least one byte
  `Receiver.dfy` ties it to the decoder; the safety results hold for any answer.
 */
module ReceiverModel {
  import opened Bytes
  import opened Blocks
  import opened Results
  import opened Store
  import opened Frames
  import opened Peeling
  import opened Fountain
  import opened GfLinear

  /** One generation's decoder. */
  datatype Decoder = Decoder(k: nat, symbolSize: nat, syms: seq<ParsedSym>)

  datatype SessionState = SessionState(pending: set<Digest>, acked: bool, decoders: map<nat, Decoder>)

  datatype RState = RState(store: StoreState, sessions: map<nat, SessionState>)

  datatype ReceiverError =
    | FountainFailed(inner: FountainError)
    | CompressFailed
    | BadBlock(reason: ParseError)
    | MissingRef
    | ColdStartInProgress(sid: nat)
    | BaseRootMismatch(sid: nat, client: Digest, current: Digest)

  const NEW_SESSION: SessionState := SessionState({}, false, map[])

  function SessionOf(rs: RState, sid: nat): SessionState {
    if sid in rs.sessions then rs.sessions[sid] else NEW_SESSION
  }

  // --------------------------------------------------------------------------- restart

  /** The logged ids without content. */
  function MissingIds(blocks: map<Digest, Block>, ids: seq<Digest>): set<Digest> {
    set id | id in ids && id !in blocks
  }

  /** The receiver on a replayed store. */
  function NewReceiver(st: StoreState): RState {
    RState(st, map sid | sid in st.sessions ::
      var missing := MissingIds(st.blocks, st.sessions[sid].ids);
      SessionState(missing, missing == {}, map[]))
  }

  // ---------------------------------------------------------------------------- blocks

  /** A block with the hash of the canonical bytes it was parsed from. */
  datatype Item = Full(id: Digest, block: Block) | Known(id: Digest)

  /** Decompresses and parses one block, and derives its id. */
  function Unpack(h: Hashes, z: Zstd, comp: Bytes): Result<Item, ReceiverError> {
    var canon := Decompress(z, comp);
    if canon.None? then Err(CompressFailed)
    else
      var p := FromCanonical(canon.value);
      if p.Err? then Err(BadBlock(p.error))
      else
        ParsedSize(canon.value);
        Ok(Full(h.block(canon.value[..17 + |p.value.payload|]), p.value))
  }

  lemma {:induction false} ParsedSize(buf: Bytes)
    requires FromCanonical(buf).Ok?
    ensures 17 + |FromCanonical(buf).value.payload| <= |buf|
  {
    hide FromLe, KindOf;
  }

  /** An unpacked block sits under its own hash. */
  lemma {:induction false} UnpackedId(h: Hashes, z: Zstd, comp: Bytes)
    requires Unpack(h, z, comp).Ok?
    ensures
      var it := Unpack(h, z, comp).value;
      it.Full? && it.id == BlockId(h, it.block) && BlockOk(it.block)
  {
    hide FromCanonical, Canonical;
    ParsedIsCanonical(Decompress(z, comp).value);
  }

  /** Unpacking a compressed canonical block gives the block. */
  lemma {:induction false} UnpackCompressed(h: Hashes, z: Zstd, level: int, b: Block)
    requires Lossless(z) && BlockOk(b)
    ensures Unpack(h, z, Compress(z, level, Canonical(b))) == Ok(Full(BlockId(h, b), b))
  {
    hide FromCanonical, Canonical, Compress, Decompress;
    var c := Canonical(b);
    CompressRoundTrip(z, level, c);
    CanonicalRoundTrip(b, []);
    assert c + [] == c;
    assert c[..17 + |b.payload|] == c;
  }

  function ResolveOne(h: Hashes, z: Zstd, fb: FrameBlock): Result<Item, ReceiverError> {
    match fb
    case Inline(wire) => Unpack(h, z, wire.payload)
    case Ref(id) => Ok(Known(id))
  }

  /** The frame's blocks in order, or the first error. */
  function Resolve(h: Hashes, z: Zstd, blocks: seq<FrameBlock>): Result<seq<Item>, ReceiverError> {
    if blocks == [] then Ok([])
    else
      var rest := Resolve(h, z, blocks[..|blocks| - 1]);
      if rest.Err? then rest
      else
        var last := ResolveOne(h, z, blocks[|blocks| - 1]);
        if last.Err? then Err(last.error) else Ok(rest.value + [last.value])
  }

  function Ids(items: seq<Item>): (ids: seq<Digest>)
    ensures |ids| == |items|
  {
    seq(|items|, i requires 0 <= i < |items| => items[i].id)
  }

  /** The ids the frame carries inline. */
  function InlineIds(items: seq<Item>): set<Digest> {
    set i | 0 <= i < |items| && items[i].Full? :: items[i].id
  }

  /** Every reference is to stored content or to an inline block earlier in the frame. */
  predicate RefsOk(blocks: map<Digest, Block>, items: seq<Item>) {
    forall i :: 0 <= i < |items| && items[i].Known? ==> items[i].id in blocks || items[i].id in InlineIds(items[..i])
  }

  /** The store mutations that apply the frame. */
  function ItemOp(sid: nat, item: Item): Op {
    match item
    case Full(id, block) => Insert(sid, block, id)
    case Known(id) => Reference(sid, id)
  }

  function ItemOps(sid: nat, items: seq<Item>): (ops: seq<Op>)
    ensures |ops| == |items|
  {
    seq(|items|, i requires 0 <= i < |items| => ItemOp(sid, items[i]))
  }

  // -------------------------------------------------------------------------- handlers

  function AppendStep(h: Hashes, z: Zstd, rs: RState, f: AppendFrame): (RState, Result<AckFrame, ReceiverError>) {
    var items := Resolve(h, z, f.blocks);
    if items.Err? then (rs, Err(items.error))
    else if !RefsOk(rs.store.blocks, items.value) then (rs, Err(MissingRef))
    else
      var entered := rs.(sessions := rs.sessions[f.sid := SessionOf(rs, f.sid)]);
      if SessionOf(rs, f.sid).pending != {} then (entered, Err(ColdStartInProgress(f.sid)))
      else
        var current := LogOf(rs.store, f.sid).root;
        if f.baseRoot != current then
          if RootOver(h, f.baseRoot, Ids(items.value)) == current then (entered, Ok(AckFrame(f.sid, current)))
          else (entered, Err(BaseRootMismatch(f.sid, f.baseRoot, current)))
        else
          var store := Run(h, rs.store, ItemOps(f.sid, items.value));
          (entered.(store := store), Ok(AckFrame(f.sid, LogOf(store, f.sid).root)))
  }

  /** The manifest ids without content, in manifest order. */
  function MissingList(blocks: map<Digest, Block>, ids: seq<Digest>): (missing: seq<Digest>)
    ensures forall id :: id in missing <==> id in ids && id !in blocks
  {
    if ids == [] then []
    else
      var n := |ids| - 1;
      assert ids == ids[..n] + [ids[n]];
      if ids[n] in blocks then MissingList(blocks, ids[..n]) else MissingList(blocks, ids[..n]) + [ids[n]]
  }

  function ResyncStep(h: Hashes, rs: RState, f: ResyncFrame): (RState, seq<Digest>) {
    var missing := MissingList(rs.store.blocks, f.manifest);
    var store := Step(h, rs.store, Seed(f.sid, f.manifest, f.clientRoot));
    var session := SessionOf(rs, f.sid).(pending := (set id | id in missing), acked := missing == []);
    (RState(store, rs.sessions[f.sid := session]), missing)
  }

  /** Adds wire symbols to a decoder until one is refused. */
  function Fed(d: Decoder, wires: seq<Bytes>): (Decoder, Option<FountainError>) {
    if wires == [] then (d, None)
    else
      var before := Fed(d, wires[..|wires| - 1]);
      if before.1.Some? then before
      else
        var p := ParseWire(wires[|wires| - 1], d.k, d.symbolSize);
        match p
        case Err(e) => (before.0, Some(e))
        case Ok(None) => before
        case Ok(Some(sym)) => (before.0.(syms := before.0.syms + [sym]), None)
  }

  /** What a decode answered, and the symbols it left behind. */
  datatype Answer = Answer(result: Result<seq<Vec>, FountainError>, left: seq<ParsedSym>)

  /** The records of a decoded stream: length-prefixed, up to a zero length or a truncated tail. */
  function Records(flat: Bytes): seq<Bytes>
    decreases |flat|
  {
    if |flat| < 4 then []
    else
      var len := FromLe(flat[..4]);
      if len == 0 || 4 + len > |flat| then []
      else [flat[4..4 + len]] + Records(flat[4 + len..])
  }

  /** Every record unpacked, or the first error. */
  function UnpackAll(h: Hashes, z: Zstd, records: seq<Bytes>): Result<seq<Item>, ReceiverError> {
    if records == [] then Ok([])
    else
      var rest := UnpackAll(h, z, records[..|records| - 1]);
      if rest.Err? then rest
      else
        var last := Unpack(h, z, records[|records| - 1]);
        if last.Err? then Err(last.error) else Ok(rest.value + [last.value])
  }

  lemma {:induction false} UnpackedItems(h: Hashes, z: Zstd, records: seq<Bytes>)
    requires UnpackAll(h, z, records).Ok?
    ensures |UnpackAll(h, z, records).value| == |records|
    ensures forall i :: 0 <= i < |records| ==> Ok(UnpackAll(h, z, records).value[i]) == Unpack(h, z, records[i])
    ensures Honest(h, UnpackAll(h, z, records).value) && AllFull(UnpackAll(h, z, records).value)
  {
    hide Unpack;
    if records != [] {
      var n := |records| - 1;
      UnpackedItems(h, z, records[..n]);
      UnpackedId(h, z, records[n]);
    }
  }

  predicate AllFull(items: seq<Item>) { forall i :: 0 <= i < |items| ==> items[i].Full? }

  /** Inline items carry their own hash. */
  ghost predicate Honest(h: Hashes, items: seq<Item>) {
    forall i :: 0 <= i < |items| && items[i].Full? ==>
      items[i].id == BlockId(h, items[i].block) && BlockOk(items[i].block)
  }

  lemma {:induction false} ResolvedItems(h: Hashes, z: Zstd, blocks: seq<FrameBlock>)
    requires Resolve(h, z, blocks).Ok?
    ensures |Resolve(h, z, blocks).value| == |blocks| && Honest(h, Resolve(h, z, blocks).value)
  {
    hide Unpack;
    if blocks != [] {
      var n := |blocks| - 1;
      ResolvedItems(h, z, blocks[..n]);
      if blocks[n].Inline? {
        UnpackedId(h, z, blocks[n].block.payload);
      }
    }
  }

  function ContentOps(sid: nat, items: seq<Item>): (ops: seq<Op>)
    requires AllFull(items)
    ensures |ops| == |items|
  {
    seq(|items|, i requires 0 <= i < |items| => Content(sid, items[i].block, items[i].id))
  }

  function DecoderOf(s: SessionState, f: BulkFrame): Decoder {
    if f.generation in s.decoders then s.decoders[f.generation] else Decoder(f.k, f.symbolSize, [])
  }

  /** The decoder is given the frame's symbols and asked once; `answer` is what a peel would say. */
  function Asked(d: Decoder, answer: Answer): (Decoder, Result<seq<Vec>, FountainError>) {
    if |d.syms| < d.k then (d, Err(Underdetermined(|d.syms|, d.k)))
    else (d.(syms := answer.left), answer.result)
  }

  function WithSession(rs: RState, sid: nat, s: SessionState): RState {
    rs.(sessions := rs.sessions[sid := s])
  }

  /** Stores recovered blocks, retires them from the pending set, and may complete the cold start. */
  function Recovered(h: Hashes, rs: RState, f: BulkFrame, items: seq<Item>): (RState, Option<Digest>)
    requires AllFull(items)
  {
    var session := SessionOf(rs, f.sid);
    var store := Run(h, rs.store, ContentOps(f.sid, items));
    var pending := session.pending - InlineIds(items);
    var done := pending == {} && !session.acked;
    var after := SessionState(pending, session.acked || done, session.decoders - {f.generation});
    (WithSession(rs.(store := store), f.sid, after),
     if done then Some(LogOf(store, f.sid).root) else None)
  }

  function BulkStep(h: Hashes, z: Zstd, rs: RState, f: BulkFrame, answer: Answer)
    : (RState, Result<Option<Digest>, ReceiverError>)
  {
    var session := SessionOf(rs, f.sid);
    var (fed, refused) := Fed(DecoderOf(session, f), f.symbols);
    if refused.Some? then
      var kept := WithSession(rs, f.sid, session.(decoders := session.decoders[f.generation := fed]));
      (kept, Err(FountainFailed(refused.value)))
    else
      var (asked, result) := Asked(fed, answer);
      var kept := WithSession(rs, f.sid, session.(decoders := session.decoders[f.generation := asked]));
      match result
      case Err(Underdetermined(_, _)) => (kept, Ok(None))
      case Err(e) => (kept, Err(FountainFailed(e)))
      case Ok(symbols) =>
        var records := Records(Flat(symbols));
        var items := UnpackAll(h, z, records);
        if items.Err? then (kept, Err(items.error))
        else
          UnpackedItems(h, z, records);
          var (next, root) := Recovered(h, kept, f, items.value);
          (next, Ok(root))
  }

  /** Any frame, and the frame sent back. */
  function FrameStep(h: Hashes, z: Zstd, rs: RState, f: Frame, answer: Answer)
    : (RState, Result<Option<Frame>, ReceiverError>)
  {
    match f
    case Append(a) =>
      var (next, r) := AppendStep(h, z, rs, a);
      (next, if r.Ok? then Ok(Some(Ack(r.value))) else Err(r.error))
    case Resync(r) =>
      var (next, missing) := ResyncStep(h, rs, r);
      (next, Ok(Some(if missing == [] then Ack(AckFrame(r.sid, LogOf(next.store, r.sid).root))
                     else Missing(MissingFrame(r.sid, missing)))))
    case Bulk(b) =>
      var (next, r) := BulkStep(h, z, rs, b, answer);
      (next, if r.Err? then Err(r.error)
             else if r.value.None? then Ok(None)
             else Ok(Some(Ack(AckFrame(b.sid, r.value.value)))))
    case Ack(_) => (rs, Ok(None))
    case Missing(_) => (rs, Ok(None))
  }

  // ----------------------------------------------------------- the operations of a frame

  function AppendOps(h: Hashes, z: Zstd, rs: RState, f: AppendFrame): seq<Op> {
    var items := Resolve(h, z, f.blocks);
    if items.Err? || !RefsOk(rs.store.blocks, items.value) || SessionOf(rs, f.sid).pending != {} then []
    else if f.baseRoot != LogOf(rs.store, f.sid).root then []
    else ItemOps(f.sid, items.value)
  }

  function BulkOps(h: Hashes, z: Zstd, rs: RState, f: BulkFrame, answer: Answer): seq<Op> {
    var (fed, refused) := Fed(DecoderOf(SessionOf(rs, f.sid), f), f.symbols);
    if refused.Some? then []
    else
      var result := Asked(fed, answer).1;
      if result.Err? then []
      else
        var records := Records(Flat(result.value));
        var items := UnpackAll(h, z, records);
        if items.Err? then []
        else
          UnpackedItems(h, z, records);
          ContentOps(f.sid, items.value)
  }

  function FrameOps(h: Hashes, z: Zstd, rs: RState, f: Frame, answer: Answer): seq<Op> {
    match f
    case Append(a) => AppendOps(h, z, rs, a)
    case Resync(r) => [Seed(r.sid, r.manifest, r.clientRoot)]
    case Bulk(b) => BulkOps(h, z, rs, b, answer)
    case Ack(_) => []
    case Missing(_) => []
  }

  // ------------------------------------------------------- what applying a frame does

  /** `after` has `added` more ids in the session's log and `content` more stored, and no other change. */
  ghost predicate Grown(h: Hashes, st: StoreState, after: StoreState, sid: nat, added: seq<Digest>,
                        content: set<Digest>) {
    && LogOf(after, sid) == SessionLog(LogOf(st, sid).ids + added, RootOver(h, LogOf(st, sid).root, added))
    && (forall other :: other != sid ==>
          (other in after.sessions <==> other in st.sessions) && LogOf(after, other) == LogOf(st, other))
    && after.blocks.Keys == st.blocks.Keys + content
    && (forall id :: id in st.blocks ==> after.blocks[id] == st.blocks[id])
    && (sid in st.sessions ==> sid in after.sessions)
  }

  lemma {:induction false} GrownOne(h: Hashes, st: StoreState, sid: nat, item: Item)
    requires item.Known? ==> item.id in st.blocks
    ensures Grown(h, st, Step(h, st, ItemOp(sid, item)), sid, [item.id], if item.Full? then {item.id} else {})
    ensures ContentAddressed(h, st) && Honest(h, [item]) ==> ContentAddressed(h, Step(h, st, ItemOp(sid, item)))
  {
    hide BlockId;
    RootOne(h, LogOf(st, sid).root, item.id);
    hide RootOver;
    if Honest(h, [item]) {
      assert [item][0] == item;
    }
  }

  lemma {:induction false} RootOne(h: Hashes, start: Digest, id: Digest)
    ensures RootOver(h, start, [id]) == h.append(start, id)
  {
    assert [id][..0] == [];
  }

  lemma {:induction false} GrownTwice(h: Hashes, st: StoreState, mid: StoreState, after: StoreState, sid: nat,
                   a: seq<Digest>, b: seq<Digest>, p: set<Digest>, q: set<Digest>)
    requires Grown(h, st, mid, sid, a, p) && Grown(h, mid, after, sid, b, q)
    ensures Grown(h, st, after, sid, a + b, p + q)
  {
    RootOverAppend(h, LogOf(st, sid).root, a, b);
    hide RootOver, LogOf;
    assert LogOf(st, sid).ids + a + b == LogOf(st, sid).ids + (a + b);
  }

  lemma {:induction false} GrownNot(h: Hashes, st: StoreState, sid: nat)
    ensures Grown(h, st, st, sid, [], {})
  {
    assert LogOf(st, sid).ids + [] == LogOf(st, sid).ids;
  }

  lemma {:induction false} LastAvailable(h: Hashes, st: StoreState, mid: StoreState, sid: nat, items: seq<Item>)
    requires items != [] && RefsOk(st.blocks, items)
    requires Grown(h, st, mid, sid, Ids(items[..|items| - 1]), InlineIds(items[..|items| - 1]))
    ensures var last := items[|items| - 1]; last.Known? ==> last.id in mid.blocks
  {
    hide RootOver, LogOf, Ids, InlineIds;
    var n := |items| - 1;
    assert mid.blocks.Keys == st.blocks.Keys + InlineIds(items[..n]);
    if items[n].Known? && items[n].id !in st.blocks {
      assert items[n].id in InlineIds(items[..n]);
    }
  }

  lemma {:induction false} HonestParts(h: Hashes, items: seq<Item>)
    requires items != [] && Honest(h, items)
    ensures Honest(h, items[..|items| - 1]) && Honest(h, [items[|items| - 1]])
  {
    hide BlockId;
  }

  /** Applying a frame's items appends their ids and stores the inline ones. */
  lemma {:induction false} RunItems(h: Hashes, st: StoreState, sid: nat, items: seq<Item>)
    requires RefsOk(st.blocks, items)
    ensures Grown(h, st, Run(h, st, ItemOps(sid, items)), sid, Ids(items), InlineIds(items))
    ensures ContentAddressed(h, st) && Honest(h, items) ==> ContentAddressed(h, Run(h, st, ItemOps(sid, items)))
  {
    hide Step, ContentAddressed, InlineIds, Grown, RefsOk, ItemOp, Honest;
    if items == [] {
      NoInline();
      GrownNot(h, st, sid);
    } else {
      var n := |items| - 1;
      var front, last := items[..n], items[n];
      RefsOkFront(st.blocks, items);
      RunItems(h, st, sid, front);
      var mid := Run(h, st, ItemOps(sid, front));
      RunLast(h, st, ItemOps(sid, front), ItemOp(sid, last));
      assert ItemOps(sid, items) == ItemOps(sid, front) + [ItemOp(sid, last)];
      assert Ids(items) == Ids(front) + [last.id];
      InlineSnoc(items);
      LastAvailable(h, st, mid, sid, items);
      GrownOne(h, mid, sid, last);
      GrownTwice(h, st, mid, Step(h, mid, ItemOp(sid, last)), sid, Ids(front), [last.id],
                 InlineIds(front), if last.Full? then {last.id} else {});
      if Honest(h, items) {
        HonestParts(h, items);
      }
    }
  }

  lemma {:induction false} RunLast(h: Hashes, st: StoreState, ops: seq<Op>, op: Op)
    ensures Run(h, st, ops + [op]) == Step(h, Run(h, st, ops), op)
  {
    RunAppend(h, st, ops, [op]);
    var mid := Run(h, st, ops);
    assert Run(h, mid, [op]) == Step(h, mid, op);
  }

  lemma {:induction false} RefsOkFront(blocks: map<Digest, Block>, items: seq<Item>)
    requires items != [] && RefsOk(blocks, items)
    ensures RefsOk(blocks, items[..|items| - 1])
  {
    var front := items[..|items| - 1];
    forall i | 0 <= i < |front| && front[i].Known?
      ensures front[i].id in blocks || front[i].id in InlineIds(front[..i])
    {
      assert front[..i] == items[..i];
      assert items[i].Known?;
    }
  }

  lemma {:induction false} NoInline()
    ensures InlineIds([]) == {}
  {
  }

  lemma {:induction false} InlineSnoc(items: seq<Item>)
    requires items != []
    ensures
      var n := |items| - 1;
      InlineIds(items) == InlineIds(items[..n]) + (if items[n].Full? then {items[n].id} else {})
  {
    var n := |items| - 1;
    forall id
      ensures id in InlineIds(items) <==> id in InlineIds(items[..n]) + (if items[n].Full? then {items[n].id} else {})
    {
      if id in InlineIds(items) {
        var i :| 0 <= i < |items| && items[i].Full? && items[i].id == id;
        if i < n {
          assert items[..n][i].id == id;
        }
      }
      if id in InlineIds(items[..n]) {
        var i :| 0 <= i < n && items[..n][i].Full? && items[..n][i].id == id;
        assert items[i].Full? && items[i].id == id;
      }
    }
  }

  /** Content alone changes no log. */
  ghost predicate Filled(h: Hashes, st: StoreState, after: StoreState, content: set<Digest>) {
    && after.sessions == st.sessions
    && after.blocks.Keys == st.blocks.Keys + content
    && (forall id :: id in st.blocks ==> after.blocks[id] == st.blocks[id])
    && (ContentAddressed(h, st) ==> ContentAddressed(h, after))
  }

  lemma {:induction false} RunContent(h: Hashes, st: StoreState, sid: nat, items: seq<Item>)
    requires AllFull(items) && Honest(h, items)
    ensures Filled(h, st, Run(h, st, ContentOps(sid, items)), InlineIds(items))
  {
    hide BlockId;
    if items != [] {
      var n := |items| - 1;
      var front, last := items[..n], items[n];
      RunContent(h, st, sid, front);
      var op := Content(sid, last.block, last.id);
      var mid := Run(h, st, ContentOps(sid, front));
      RunLast(h, st, ContentOps(sid, front), op);
      assert ContentOps(sid, items) == ContentOps(sid, front) + [op];
      InlineSnoc(items);
      assert last.id == BlockId(h, last.block) && BlockOk(last.block);
      hide Run, InlineIds;
      FilledOne(h, mid, sid, last.id, last.block);
    }
  }

  lemma {:induction false} FilledOne(h: Hashes, st: StoreState, sid: nat, id: Digest, block: Block)
    requires id == BlockId(h, block) && BlockOk(block)
    ensures Filled(h, st, Step(h, st, Content(sid, block, id)), {id})
  {
    hide BlockId;
  }
}
