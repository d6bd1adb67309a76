/**
  The write-ahead log (`crates/core/src/wal.rs`): its record format, its replay,
  and what a replay of a torn file restores.
 */
module Wal {
  import opened Bytes
  import opened Blocks
  import opened Results
  import opened Store

  const VAR_INSERT: bv8 := 0
  const VAR_REFERENCE: bv8 := 1
  const VAR_SEED: bv8 := 2
  const VAR_CONTENT: bv8 := 3

  const HEADER: nat := 21
  const MAX_RECORD: nat := 512 * 1024 * 1024

  datatype Record = Record(sid: nat, variant: bv8, payload: Bytes)

  predicate RecordOk(r: Record) {
    r.sid < 0x1_0000_0000_0000_0000_0000_0000_0000_0000 && |r.payload| <= MAX_RECORD
  }

  /** session id | variant | payload length | payload */
  function Encode(r: Record): (b: Bytes)
    ensures |b| == HEADER + |r.payload|
  {
    LeBytes(r.sid, 16) + [r.variant] + LeBytes(|r.payload|, 4) + r.payload
  }

  // ------------------------------------------------------------------------- payloads

  lemma {:induction false} JoinLength(ids: seq<Digest>)
    requires Ids32(ids)
    ensures |Flat(ids)| == 32 * |ids|
  {
    if ids != [] {
      JoinLength(ids[..|ids| - 1]);
    }
  }

  function SplitIds(b: Bytes, n: nat): seq<Digest>
    requires |b| >= 32 * n
  {
    seq(n, i requires 0 <= i < n => b[32 * i..32 * i + 32])
  }

  lemma {:induction false} SplitJoined(ids: seq<Digest>, tail: Bytes)
    requires Ids32(ids)
    ensures |Flat(ids)| == 32 * |ids|
    ensures SplitIds(Flat(ids) + tail, |ids|) == ids
  {
    JoinLength(ids);
    forall i | 0 <= i < |ids| ensures (Flat(ids) + tail)[32 * i..32 * i + 32] == ids[i] {
      JoinedId(ids, i);
    }
  }

  lemma {:induction false} JoinedId(ids: seq<Digest>, i: nat)
    requires Ids32(ids) && i < |ids|
    ensures |Flat(ids)| == 32 * |ids| && Flat(ids)[32 * i..32 * i + 32] == ids[i]
  {
    var n := |ids| - 1;
    JoinLength(ids);
    JoinLength(ids[..n]);
    if i < n {
      JoinedId(ids[..n], i);
    }
  }

  /** count | ids | root */
  function SeedPayload(ids: seq<Digest>, root: Digest): Bytes {
    LeBytes(|ids|, 4) + Flat(ids) + root
  }

  function ParseSeed(payload: Bytes): Option<(seq<Digest>, Digest)> {
    if |payload| < 4 then None
    else
      var count := FromLe(payload[..4]);
      if count * 32 + 36 != |payload| then None
      else Some((SplitIds(payload[4..], count), payload[4 + 32 * count..]))
  }

  lemma {:induction false} SeedRoundTrip(ids: seq<Digest>, root: Digest)
    requires Ids32(ids) && |root| == 32 && |ids| < 0x1_0000_0000
    ensures |SeedPayload(ids, root)| == 32 * |ids| + 36
    ensures ParseSeed(SeedPayload(ids, root)) == Some((ids, root))
  {
    hide LeBytes, FromLe, Pow256, SplitIds, Flat;
    Widths();
    FromLeBytes(|ids|, 4);
    SplitJoined(ids, root);
    var payload := SeedPayload(ids, root);
    assert payload[..4] == LeBytes(|ids|, 4);
    assert payload[4..] == Flat(ids) + root;
    assert payload[4 + 32 * |ids|..] == root;
  }

  // --------------------------------------------------------------------------- replay

  /** What one record does to the store. */
  function ApplyRecord(h: Hashes, st: StoreState, r: Record): StoreState {
    if r.variant == VAR_INSERT then
      var p := FromCanonical(r.payload);
      if p.Ok? then Step(h, st, Insert(r.sid, p.value, BlockId(h, p.value))) else st
    else if r.variant == VAR_REFERENCE then
      if |r.payload| == 32 then Step(h, st, Reference(r.sid, r.payload)) else st
    else if r.variant == VAR_SEED then
      var p := ParseSeed(r.payload);
      if p.Some? then Step(h, st, Seed(r.sid, p.value.0, p.value.1)) else st
    else if r.variant == VAR_CONTENT then
      var p := FromCanonical(r.payload);
      if p.Ok? then Step(h, st, Content(r.sid, p.value, BlockId(h, p.value))) else st
    else st
  }

  datatype ReplayError = RecordTooLarge(len: nat)

  /** The store after the whole records of b, and how many bytes they take. */
  function ReplayBytes(h: Hashes, st: StoreState, b: Bytes): (r: Result<(StoreState, nat), ReplayError>)
    ensures r.Ok? ==> r.value.1 <= |b|
    decreases |b|
  {
    if |b| < HEADER then Ok((st, 0))
    else
      var len := FromLe(b[17..21]);
      if len > MAX_RECORD then Err(RecordTooLarge(len))
      else if |b| < HEADER + len then Ok((st, 0))
      else
        var rec := Record(FromLe(b[..16]), b[16], b[HEADER..HEADER + len]);
        var rest := ReplayBytes(h, ApplyRecord(h, st, rec), b[HEADER + len..]);
        if rest.Err? then rest else Ok((rest.value.0, HEADER + len + rest.value.1))
  }

  lemma {:induction false} HeaderParts(r: Record, tail: Bytes)
    requires RecordOk(r)
    ensures
      var b := Encode(r) + tail;
      && FromLe(b[..16]) == r.sid && b[16] == r.variant && FromLe(b[17..21]) == |r.payload|
      && b[HEADER..HEADER + |r.payload|] == r.payload && b[HEADER + |r.payload|..] == tail
  {
    hide LeBytes, FromLe, Pow256;
    Widths();
    FromLeBytes(r.sid, 16);
    FromLeBytes(|r.payload|, 4);
    var b := Encode(r) + tail;
    assert b[..16] == LeBytes(r.sid, 16);
    assert b[17..21] == LeBytes(|r.payload|, 4);
  }

  /** A whole record is applied, and replay goes on behind it. */
  lemma {:induction false} ReplayWhole(h: Hashes, st: StoreState, r: Record, tail: Bytes)
    requires RecordOk(r)
    ensures
      var rest := ReplayBytes(h, ApplyRecord(h, st, r), tail);
      ReplayBytes(h, st, Encode(r) + tail) ==
        if rest.Err? then rest else Ok((rest.value.0, |Encode(r)| + rest.value.1))
  {
    hide FromLe, Encode, ApplyRecord;
    HeaderParts(r, tail);
  }

  /** A torn record is not applied, wherever it is cut. */
  lemma {:induction false} ReplayTorn(h: Hashes, st: StoreState, r: Record, cut: nat)
    requires RecordOk(r) && cut < |Encode(r)|
    ensures ReplayBytes(h, st, Encode(r)[..cut]) == Ok((st, 0))
  {
    hide FromLe, ApplyRecord;
    var b := Encode(r)[..cut];
    if cut >= HEADER {
      HeaderParts(r, []);
      assert Encode(r) + [] == Encode(r);
      assert b[17..21] == Encode(r)[17..21];
    }
  }

  // ------------------------------------------------------------ operations and records

  /** The operation's fields have the widths of the program's types, and its id is the block's. */
  predicate OpOk(h: Hashes, op: Op) {
    && op.sid < 0x1_0000_0000_0000_0000_0000_0000_0000_0000
    && (match op
        case Insert(_, block, id) => block.seqNo < 0x1_0000_0000_0000_0000 && id == BlockId(h, block) && |id| == 32
        case Reference(_, id) => |id| == 32
        case Seed(_, ids, root) => Ids32(ids) && |root| == 32
        case Content(_, block, id) => block.seqNo < 0x1_0000_0000_0000_0000 && id == BlockId(h, block) && |id| == 32)
  }

  /** The record a mutation shadows to the log: full bytes for new content, the bare id for a repeat. */
  function OpRecord(st: StoreState, op: Op): Option<Record> {
    match op
    case Insert(sid, block, id) =>
      if id in st.blocks then Some(Record(sid, VAR_REFERENCE, id)) else Some(Record(sid, VAR_INSERT, Canonical(block)))
    case Reference(sid, id) =>
      if id in st.blocks then Some(Record(sid, VAR_REFERENCE, id)) else None
    case Seed(sid, ids, root) => Some(Record(sid, VAR_SEED, SeedPayload(ids, root)))
    case Content(sid, block, id) =>
      if id in st.blocks then None else Some(Record(sid, VAR_CONTENT, Canonical(block)))
  }

  /** The record fits the size limit, so the append does not latch an error. */
  predicate Loggable(st: StoreState, op: Op) {
    OpRecord(st, op).Some? ==> |OpRecord(st, op).value.payload| <= MAX_RECORD
  }

  function OpBytes(st: StoreState, op: Op): Bytes {
    if OpRecord(st, op).Some? then Encode(OpRecord(st, op).value) else []
  }

  /** Content that is there already is not logged again: a log entry costs its bare id, a content store nothing. */
  lemma {:induction false} RepeatIsShort(h: Hashes, st: StoreState, op: Op)
    requires OpOk(h, op) && !op.Seed? && op.id in st.blocks
    ensures |OpBytes(st, op)| == if op.Content? then 0 else HEADER + 32
  {
    hide BlockId, Canonical;
  }

  /** Replaying a mutation's record is the mutation. */
  lemma {:induction false} RecordMeansOp(h: Hashes, st: StoreState, op: Op)
    requires OpOk(h, op) && Loggable(st, op)
    ensures OpRecord(st, op).None? ==> Step(h, st, op) == st
    ensures OpRecord(st, op).Some? ==>
      RecordOk(OpRecord(st, op).value) && ApplyRecord(h, st, OpRecord(st, op).value) == Step(h, st, op)
  {
    hide FromCanonical, Canonical, SeedPayload, ParseSeed;
    match op {
      case Insert(sid, block, id) =>
        if id !in st.blocks {
          CanonicalWhole(block);
        }
      case Content(sid, block, id) =>
        if id !in st.blocks {
          CanonicalWhole(block);
        }
      case Seed(sid, ids, root) =>
        SeedSize(ids, root);
        SeedRoundTrip(ids, root);
      case Reference(sid, id) =>
    }
  }

  lemma {:induction false} CanonicalWhole(b: Block)
    requires b.seqNo < 0x1_0000_0000_0000_0000 && |Canonical(b)| <= MAX_RECORD
    ensures FromCanonical(Canonical(b)) == Ok(b)
  {
    CanonicalRoundTrip(b, []);
    assert Canonical(b) + [] == Canonical(b);
  }

  lemma {:induction false} SeedSize(ids: seq<Digest>, root: Digest)
    requires Ids32(ids) && |SeedPayload(ids, root)| <= MAX_RECORD
    ensures |ids| < 0x1_0000_0000
  {
    JoinLength(ids);
  }

  // ----------------------------------------------------------------------- whole runs

  /** Every operation of the run is well formed and its record fits. */
  ghost predicate RunOk(h: Hashes, st: StoreState, ops: seq<Op>)
    decreases |ops|
  {
    ops == [] || (OpOk(h, ops[0]) && Loggable(st, ops[0]) && RunOk(h, Step(h, st, ops[0]), ops[1..]))
  }

  /** No operation of the run makes a record over the size limit. */
  predicate AllLoggable(h: Hashes, st: StoreState, ops: seq<Op>)
    decreases |ops|
  {
    ops == [] || (Loggable(st, ops[0]) && AllLoggable(h, Step(h, st, ops[0]), ops[1..]))
  }

  lemma {:induction false} LoggableSnoc(h: Hashes, st: StoreState, ops: seq<Op>, op: Op)
    ensures AllLoggable(h, st, ops + [op]) <==> AllLoggable(h, st, ops) && Loggable(Run(h, st, ops), op)
    decreases |ops|
  {
    hide Loggable, Step;
    if ops == [] {
      assert (ops + [op])[1..] == [] && (ops + [op])[0] == op;
    } else {
      assert (ops + [op])[1..] == ops[1..] + [op];
      LoggableSnoc(h, Step(h, st, ops[0]), ops[1..], op);
    }
  }

  /** Blocks up to the limit are always logged. */
  lemma {:induction false} SmallAllLoggable(h: Hashes, st: StoreState, ops: seq<Op>)
    requires forall i :: 0 <= i < |ops| ==> OpOk(h, ops[i]) && !ops[i].Seed?
    requires forall i :: 0 <= i < |ops| && (ops[i].Insert? || ops[i].Content?) ==>
      17 + |ops[i].block.payload| <= MAX_RECORD
    ensures AllLoggable(h, st, ops)
    decreases |ops|
  {
    hide Step, BlockId;
    if ops != [] {
      SmallAllLoggable(h, Step(h, st, ops[0]), ops[1..]);
    }
  }

  /** The bytes a run appends to the log. */
  function RunBytes(h: Hashes, st: StoreState, ops: seq<Op>): Bytes
    decreases |ops|
  {
    if ops == [] then [] else OpBytes(st, ops[0]) + RunBytes(h, Step(h, st, ops[0]), ops[1..])
  }

  /** One operation's bytes are replayed as the operation, and replay goes on behind them. */
  lemma {:induction false} ReplayOp(h: Hashes, st: StoreState, op: Op, tail: Bytes)
    requires OpOk(h, op) && Loggable(st, op)
    ensures
      var rest := ReplayBytes(h, Step(h, st, op), tail);
      ReplayBytes(h, st, OpBytes(st, op) + tail) ==
        if rest.Err? then rest else Ok((rest.value.0, |OpBytes(st, op)| + rest.value.1))
  {
    hide ReplayBytes, ApplyRecord, Encode, Step;
    RecordMeansOp(h, st, op);
    var r := OpRecord(st, op);
    if r.Some? {
      ReplayWhole(h, st, r.value, tail);
    } else {
      assert OpBytes(st, op) + tail == tail;
    }
  }

  /** Replay of a whole log is the live store, and replay of more continues from there. */
  lemma {:induction false} ReplayRun(h: Hashes, st: StoreState, ops: seq<Op>, tail: Bytes)
    requires RunOk(h, st, ops)
    ensures
      var rest := ReplayBytes(h, Run(h, st, ops), tail);
      ReplayBytes(h, st, RunBytes(h, st, ops) + tail) ==
        if rest.Err? then rest else Ok((rest.value.0, |RunBytes(h, st, ops)| + rest.value.1))
    decreases |ops|
  {
    hide ReplayBytes, OpBytes, Step;
    if ops == [] {
      assert RunBytes(h, st, ops) + tail == tail;
    } else {
      var next, more := Step(h, st, ops[0]), RunBytes(h, Step(h, st, ops[0]), ops[1..]);
      ReplayRun(h, next, ops[1..], tail);
      ReplayOp(h, st, ops[0], more + tail);
      assert RunBytes(h, st, ops) + tail == OpBytes(st, ops[0]) + (more + tail);
    }
  }

  /** j operations are the longest run whose bytes fit in the first `cut` bytes of the log. */
  ghost predicate WholeRecords(h: Hashes, st: StoreState, ops: seq<Op>, cut: nat, j: nat) {
    && j <= |ops|
    && |RunBytes(h, st, ops[..j])| <= cut
    && (j < |ops| ==> |RunBytes(h, st, ops[..j + 1])| > cut)
  }

  /** Cutting the log at any byte replays to exactly the operations whose records are whole. */
  lemma {:induction false} CutReplay(h: Hashes, st: StoreState, ops: seq<Op>, cut: nat) returns (j: nat)
    requires RunOk(h, st, ops) && cut <= |RunBytes(h, st, ops)|
    ensures WholeRecords(h, st, ops, cut, j)
    ensures ReplayBytes(h, st, RunBytes(h, st, ops)[..cut]) ==
            Ok((Run(h, st, ops[..j]), |RunBytes(h, st, ops[..j])|))
    decreases |ops|
  {
    hide ReplayBytes, OpBytes, Step;
    if ops == [] {
      j := 0;
      ReplayNothing(h, st);
    } else {
      var op, rest := ops[0], ops[1..];
      var next, first := Step(h, st, op), OpBytes(st, op);
      var more := RunBytes(h, next, rest);
      if cut < |first| {
        j := 0;
        TornOp(h, st, op, cut);
        assert (first + more)[..cut] == first[..cut];
        assert ops[..1][1..] == [] && RunBytes(h, next, []) == [];
        assert RunBytes(h, st, ops[..1]) == first + [];
      } else {
        var i := CutReplay(h, next, rest, cut - |first|);
        j := i + 1;
        assert (first + more)[..cut] == first + more[..cut - |first|];
        ReplayOp(h, st, op, more[..cut - |first|]);
        assert ops[..j][1..] == rest[..i];
        if j < |ops| {
          assert ops[..j + 1][1..] == rest[..i + 1];
        }
      }
    }
  }

  lemma {:induction false} ReplayNothing(h: Hashes, st: StoreState)
    ensures ReplayBytes(h, st, []) == Ok((st, 0))
  {
  }

  lemma {:induction false} TornOp(h: Hashes, st: StoreState, op: Op, cut: nat)
    requires OpOk(h, op) && Loggable(st, op) && cut < |OpBytes(st, op)|
    ensures ReplayBytes(h, st, OpBytes(st, op)[..cut]) == Ok((st, 0))
  {
    hide ReplayBytes, ApplyRecord, Step, Encode;
    RecordMeansOp(h, st, op);
    ReplayTorn(h, st, OpRecord(st, op).value, cut);
  }

  /** After the torn tail is cut off, operations appended behind it replay behind the surviving ones. */
  lemma {:induction false} TruncateAndContinue(h: Hashes, ops: seq<Op>, cut: nat, j: nat, more: seq<Op>)
    requires RunOk(h, EMPTY, ops) && WholeRecords(h, EMPTY, ops, cut, j)
    requires RunOk(h, Run(h, EMPTY, ops[..j]), more)
    ensures RunBytes(h, EMPTY, ops[..j]) <= RunBytes(h, EMPTY, ops)
    ensures
      var file := RunBytes(h, EMPTY, ops[..j]) + RunBytes(h, Run(h, EMPTY, ops[..j]), more);
      ReplayBytes(h, EMPTY, file) == Ok((Run(h, EMPTY, ops[..j] + more), |file|))
  {
    hide ReplayBytes, RunBytes, Run, RunOk;
    var st := Run(h, EMPTY, ops[..j]);
    var tail := RunBytes(h, st, more);
    RunPrefix(h, EMPTY, ops, j);
    ReplayRun(h, st, more, []);
    ReplayNothing(h, Run(h, st, more));
    assert tail + [] == tail;
    ReplayRun(h, EMPTY, ops[..j], tail);
    RunAppend(h, EMPTY, ops[..j], more);
  }

  lemma {:induction false} RunPrefix(h: Hashes, st: StoreState, ops: seq<Op>, j: nat)
    requires RunOk(h, st, ops) && j <= |ops|
    ensures RunOk(h, st, ops[..j])
    ensures |RunBytes(h, st, ops[..j])| <= |RunBytes(h, st, ops)|
    ensures RunBytes(h, st, ops)[..|RunBytes(h, st, ops[..j])|] == RunBytes(h, st, ops[..j])
    decreases |ops|
  {
    hide OpBytes, Step, OpOk, Loggable;
    if j > 0 {
      assert ops[..j][1..] == ops[1..][..j - 1];
      RunPrefix(h, Step(h, st, ops[0]), ops[1..], j - 1);
    }
  }

  /** Whatever was whole in a flushed prefix survives any later cut. */
  lemma {:induction false} FlushedSurvives(h: Hashes, ops: seq<Op>, flushed: nat, cut: nat) returns (j: nat)
    requires RunOk(h, EMPTY, ops) && flushed <= |ops|
    requires |RunBytes(h, EMPTY, ops[..flushed])| <= cut <= |RunBytes(h, EMPTY, ops)|
    ensures flushed <= j <= |ops|
    ensures ReplayBytes(h, EMPTY, RunBytes(h, EMPTY, ops)[..cut]) ==
            Ok((Run(h, EMPTY, ops[..j]), |RunBytes(h, EMPTY, ops[..j])|))
  {
    hide ReplayBytes, RunBytes, Run, RunOk;
    j := CutReplay(h, EMPTY, ops, cut);
    if j < flushed {
      assert ops[..flushed][..j + 1] == ops[..j + 1];
      RunPrefix(h, EMPTY, ops, flushed);
      RunPrefix(h, EMPTY, ops[..flushed], j + 1);
    }
  }
}
