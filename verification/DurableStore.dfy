/**
  The content-addressed store with its write-ahead log attached
  (`crates/core/src/store.rs`, `Wal::open` and `replay` in `crates/core/src/wal.rs`).

  The class invariant says that the file replays to the live maps as long as no
  record was refused for its size, failed flushes or not; that what was logged before
  the first such record stays in place; and that the flushed part of the file replays
  to the state at the last successful flush whatever happened since.
 */
module DurableStore {
  import opened Bytes
  import opened Blocks
  import opened Results
  import opened Store
  import opened Wal

  // ------------------------------------------------------------- replay of two pieces

  /** The file starts with a whole record. */
  predicate Whole(b: Bytes) {
    |b| >= HEADER && FromLe(b[17..21]) <= MAX_RECORD && |b| >= HEADER + FromLe(b[17..21])
  }

  function FirstLen(b: Bytes): nat
    requires Whole(b)
  {
    HEADER + FromLe(b[17..21])
  }

  function First(b: Bytes): Record
    requires Whole(b)
  {
    Record(FromLe(b[..16]), b[16], b[HEADER..FirstLen(b)])
  }

  /** One step of the replay. */
  lemma {:induction false} ReplayStep(h: Hashes, st: StoreState, b: Bytes)
    ensures Whole(b) ==>
      var rest := ReplayBytes(h, ApplyRecord(h, st, First(b)), b[FirstLen(b)..]);
      ReplayBytes(h, st, b) == if rest.Err? then rest else Ok((rest.value.0, FirstLen(b) + rest.value.1))
    ensures !Whole(b) && ReplayBytes(h, st, b).Ok? ==> ReplayBytes(h, st, b) == Ok((st, 0))
    ensures |b| < HEADER ==> ReplayBytes(h, st, b) == Ok((st, 0))
    ensures |b| >= HEADER ==>
      var len := FromLe(b[17..21]);
      ReplayBytes(h, st, b) ==
        if len > MAX_RECORD then Err(RecordTooLarge(len))
        else if |b| < HEADER + len then Ok((st, 0))
        else ReplayBytes(h, st, b)
  {
    hide ApplyRecord, FromLe;
  }

  /** The first record of a longer file. */
  lemma {:induction false} FirstOfMore(a: Bytes, b: Bytes)
    requires Whole(a)
    ensures Whole(a + b) && First(a + b) == First(a) && FirstLen(a + b) == FirstLen(a)
    ensures (a + b)[FirstLen(a)..] == a[FirstLen(a)..] + b
  {
    hide FromLe;
    var n := FirstLen(a);
    assert (a + b)[..16] == a[..16] && (a + b)[17..21] == a[17..21] && (a + b)[HEADER..n] == a[HEADER..n];
  }

  /** A file that replays to its last byte can be continued. */
  lemma {:induction false} ReplayConcat(h: Hashes, st: StoreState, a: Bytes, b: Bytes)
    requires ReplayBytes(h, st, a).Ok? && ReplayBytes(h, st, a).value.1 == |a|
    ensures
      var rest := ReplayBytes(h, ReplayBytes(h, st, a).value.0, b);
      ReplayBytes(h, st, a + b) == if rest.Err? then rest else Ok((rest.value.0, |a| + rest.value.1))
    decreases |a|
  {
    hide ApplyRecord, ReplayBytes, First, FirstLen, Whole;
    ReplayStep(h, st, a);
    if !Whole(a) {
      assert a == [] && a + b == b;
    } else {
      LongRecord(a);
      FirstOfMore(a, b);
      ReplayStep(h, st, a + b);
      ReplayConcat(h, ApplyRecord(h, st, First(a)), a[FirstLen(a)..], b);
    }
  }

  lemma {:induction false} LongRecord(b: Bytes)
    requires Whole(b)
    ensures HEADER <= FirstLen(b) <= |b|
  {
  }

  /** The part of the file that open keeps replays to the same store, to its last byte. */
  lemma {:induction false} ReplayTruncated(h: Hashes, st: StoreState, file: Bytes)
    requires ReplayBytes(h, st, file).Ok?
    ensures var (s, n) := ReplayBytes(h, st, file).value; ReplayBytes(h, st, file[..n]) == Ok((s, n))
    decreases |file|
  {
    hide ApplyRecord, ReplayBytes, First, FirstLen, Whole;
    ReplayStep(h, st, file);
    if !Whole(file) {
      ReplayStep(h, st, file[..0]);
    } else {
      LongRecord(file);
      var n, m := FirstLen(file), ReplayBytes(h, st, file).value.1;
      ReplayTruncated(h, ApplyRecord(h, st, First(file)), file[n..]);
      KeptRecord(file, m);
      ReplayStep(h, st, file[..m]);
    }
  }

  lemma {:induction false} KeptRecord(file: Bytes, m: nat)
    requires Whole(file) && FirstLen(file) <= m <= |file|
    ensures
      var n := FirstLen(file);
      && Whole(file[..m]) && First(file[..m]) == First(file) && FirstLen(file[..m]) == n
      && file[..m][n..] == file[n..][..m - n]
  {
    hide FromLe;
    var n, kept := FirstLen(file), file[..m];
    assert kept[..16] == file[..16] && kept[17..21] == file[17..21] && kept[HEADER..n] == file[HEADER..n];
  }

  lemma {:induction false} RunSnoc(h: Hashes, st: StoreState, ops: seq<Op>, op: Op)
    requires RunOk(h, st, ops) && OpOk(h, op) && Loggable(Run(h, st, ops), op)
    ensures RunOk(h, st, ops + [op])
    ensures Run(h, st, ops + [op]) == Step(h, Run(h, st, ops), op)
    ensures RunBytes(h, st, ops + [op]) == RunBytes(h, st, ops) + OpBytes(Run(h, st, ops), op)
    decreases |ops|
  {
    hide OpOk, Loggable, OpBytes, Step;
    if ops == [] {
      assert (ops + [op])[1..] == [] && (ops + [op])[0] == op;
      assert RunBytes(h, Step(h, st, op), []) == [];
    } else {
      assert (ops + [op])[1..] == ops[1..] + [op];
      RunSnoc(h, Step(h, st, ops[0]), ops[1..], op);
    }
  }

  /** A replayed store is content-addressed, whatever bytes the file holds. */
  lemma {:induction false} ReplayContentAddressed(h: Hashes, st: StoreState, file: Bytes)
    requires ContentAddressed(h, st) && ReplayBytes(h, st, file).Ok?
    ensures ContentAddressed(h, ReplayBytes(h, st, file).value.0)
    decreases |file|
  {
    hide ApplyRecord, ContentAddressed, ReplayBytes, First, FirstLen, Whole;
    ReplayStep(h, st, file);
    if Whole(file) {
      LongRecord(file);
      RecordContentAddressed(h, st, First(file));
      ReplayContentAddressed(h, ApplyRecord(h, st, First(file)), file[FirstLen(file)..]);
    }
  }

  lemma {:induction false} RecordContentAddressed(h: Hashes, st: StoreState, r: Record)
    requires ContentAddressed(h, st)
    ensures ContentAddressed(h, ApplyRecord(h, st, r))
  {
    hide FromCanonical, ParseSeed, Canonical;
    if FromCanonical(r.payload).Ok? {
      ParsedIsCanonical(r.payload);
    }
  }

  // -------------------------------------------------------------------------- the store

  class ContentStore {
    const h: Hashes
    var blocks: map<Digest, Block>
    var sessions: map<nat, SessionLog>

    /** The bytes appended to the log, if one is attached, and how many of them are flushed. */
    var wal: Option<Bytes>
    var durable: nat
    /** Set once an append or flush failed, and never cleared. */
    var walError: bool

    /** The file found at open, the state it replayed to, and the operations logged behind it. */
    ghost var base: Bytes
    ghost var start: StoreState
    ghost var ops: seq<Op>
    ghost var flushed: nat
    /** A record was refused for its size. */
    ghost var refused: bool

    function State(): StoreState
      reads this
    {
      StoreState(blocks, sessions)
    }

    ghost predicate Valid()
      reads this
    {
      wal.Some? ==>
        && ReplayBytes(h, EMPTY, base) == Ok((start, |base|))
        && RunOk(h, start, ops) && flushed <= |ops|
        && durable <= |wal.value| && wal.value[..durable] == base + RunBytes(h, start, ops[..flushed])
        && base + RunBytes(h, start, ops) <= wal.value
        && (!refused ==> wal.value == base + RunBytes(h, start, ops) && State() == Run(h, start, ops))
        && (!walError ==> !refused)
    }

    /** An empty store without a log. */
    constructor (h: Hashes)
      ensures Valid() && this.h == h && State() == EMPTY && wal == None && !walError
    {
      this.h := h;
      blocks, sessions, wal, durable, walError, refused := map[], map[], None, 0, false, false;
    }

    /** The log after an operation: its record is appended, or refused and the error latched. */
    predicate Shadowed(before: StoreState, wal0: Option<Bytes>, error0: bool, durable0: nat, op: Op)
      reads this
    {
      && durable == durable0
      && wal == (if wal0.Some? && Loggable(before, op) then Some(wal0.value + OpBytes(before, op)) else wal0)
      && walError == (error0 || (wal0.Some? && !Loggable(before, op)))
    }

    /** The log after a run of operations: attached as before, and latched if a record of theirs was refused. */
    predicate Logged(before: StoreState, attached: bool, error0: bool, ops: seq<Op>)
      reads this
    {
      wal.Some? == attached && walError == (error0 || (attached && !AllLoggable(h, before, ops)))
    }

    /** Appends a record, or latches an error if it is over the size limit. */
    method AppendRecord(r: Record)
      requires wal.Some?
      modifies this`wal, this`walError
      ensures |r.payload| <= MAX_RECORD ==> wal == Some(old(wal).value + Encode(r)) && walError == old(walError)
      ensures |r.payload| > MAX_RECORD ==> wal == old(wal) && walError
    {
      if |r.payload| > MAX_RECORD {
        walError := true;
      } else {
        wal := Some(wal.value + Encode(r));
      }
    }

    /** The file kept up with one more operation. */
    ghost method Track(before: StoreState, wal0: Option<Bytes>, error0: bool, op: Op)
      requires Shadowed(before, wal0, error0, durable, op) && State() == Step(h, before, op)
      requires wal0.Some? ==>
        && OpOk(h, op) && ReplayBytes(h, EMPTY, base) == Ok((start, |base|))
        && RunOk(h, start, ops) && flushed <= |ops|
        && durable <= |wal0.value| && wal0.value[..durable] == base + RunBytes(h, start, ops[..flushed])
        && base + RunBytes(h, start, ops) <= wal0.value
        && (!refused ==> wal0.value == base + RunBytes(h, start, ops) && before == Run(h, start, ops))
        && (!error0 ==> !refused)
      modifies this`ops, this`refused
      ensures Valid() && (refused <==> old(refused) || (wal0.Some? && !Loggable(before, op)))
    {
      hide Run, RunBytes, RunOk, OpOk, Loggable, OpBytes, Step, ReplayBytes;
      if wal.Some? {
        assert wal.value[..durable] == wal0.value[..durable];
        if !Loggable(before, op) {
          refused := true;
        } else if !refused {
          RunSnoc(h, start, ops, op);
          assert (ops + [op])[..flushed] == ops[..flushed];
          ops := ops + [op];
        }
      }
    }

    /** Appends an id to the session's log and advances its root. */
    method AppendId(sid: nat, id: Digest)
      modifies this`sessions
      ensures State() == Appended(h, old(State()), sid, id)
    {
      if sid in sessions {
        var log := sessions[sid];
        sessions := sessions[sid := SessionLog(log.ids + [id], h.append(log.root, id))];
      } else {
        sessions := sessions[sid := SessionLog([id], h.append(ROOT_ZERO, id))];
        assert [] + [id] == [id];
      }
    }

    /** Stores a block under the id its caller derived and appends the id to the session log. */
    method InsertWithCanonical(sid: nat, block: Block, id: Digest, canonical: Option<Bytes>) returns (newly: bool)
      requires Valid() && (wal.Some? ==> OpOk(h, Insert(sid, block, id)))
      requires canonical.Some? ==> canonical.value == Canonical(block)
      modifies this
      ensures Valid() && newly == (id !in old(blocks))
      ensures State() == Step(h, old(State()), Insert(sid, block, id))
      ensures Shadowed(old(State()), old(wal), old(walError), old(durable), Insert(sid, block, id))
      ensures refused <==> old(refused) || (wal.Some? && !Loggable(old(State()), Insert(sid, block, id)))
    {
      hide Canonical, Encode, OpOk, Run, RunBytes, RunOk, ReplayBytes, Appended;
      ghost var before, wal0, error0 := State(), wal, walError;
      newly := id !in blocks;
      if newly {
        blocks := blocks[id := block];
      }
      assert State() == WithContent(before, id, block);
      AppendId(sid, id);
      assert State() == Step(h, before, Insert(sid, block, id));
      if wal.Some? {
        if newly {
          var bytes := if canonical.Some? then canonical.value else Canonical(block);
          AppendRecord(Record(sid, VAR_INSERT, bytes));
        } else {
          assert |id| == 32 by { assert OpOk(h, Insert(sid, block, id)); OpIds(h, Insert(sid, block, id)); }
          AppendRecord(Record(sid, VAR_REFERENCE, id));
        }
      }
      hide Step;
      Track(before, wal0, error0, Insert(sid, block, id));
    }

    /** Appends a stored block's id to the session log. */
    method ReferenceBlock(sid: nat, id: Digest) returns (ok: bool)
      requires Valid() && (wal.Some? ==> OpOk(h, Reference(sid, id)))
      modifies this
      ensures Valid() && ok == (id in old(blocks))
      ensures State() == Step(h, old(State()), Reference(sid, id))
      ensures Shadowed(old(State()), old(wal), old(walError), old(durable), Reference(sid, id))
      ensures refused <==> old(refused) || (wal.Some? && !Loggable(old(State()), Reference(sid, id)))
    {
      hide Encode, OpOk, Run, RunBytes, RunOk, ReplayBytes, Appended;
      ghost var before, wal0, error0 := State(), wal, walError;
      ok := id in blocks;
      if ok {
        AppendId(sid, id);
        assert State() == Step(h, before, Reference(sid, id));
        if wal.Some? {
          assert |id| == 32 by { OpIds(h, Reference(sid, id)); }
          AppendRecord(Record(sid, VAR_REFERENCE, id));
        }
      }
      assert wal0.Some? ==> wal0.value + [] == wal0.value;
      hide Step;
      Track(before, wal0, error0, Reference(sid, id));
    }

    /** Replaces the session log by a manifest and its root. */
    method SeedSession(sid: nat, ids: seq<Digest>, root: Digest)
      requires Valid() && (wal.Some? ==> OpOk(h, Seed(sid, ids, root)))
      modifies this
      ensures Valid()
      ensures State() == Step(h, old(State()), Seed(sid, ids, root))
      ensures Shadowed(old(State()), old(wal), old(walError), old(durable), Seed(sid, ids, root))
      ensures refused <==> old(refused) || (wal.Some? && !Loggable(old(State()), Seed(sid, ids, root)))
    {
      hide Encode, OpOk, SeedPayload, Run, RunBytes, RunOk, ReplayBytes;
      ghost var before, wal0, error0 := State(), wal, walError;
      sessions := sessions[sid := SessionLog(ids, root)];
      if wal.Some? {
        AppendRecord(Record(sid, VAR_SEED, SeedPayload(ids, root)));
      }
      assert State() == Step(h, before, Seed(sid, ids, root));
      hide Step;
      Track(before, wal0, error0, Seed(sid, ids, root));
    }

    /** Stores a block's content and leaves the session logs alone. */
    method StoreContentWithId(sid: nat, block: Block, id: Digest) returns (newly: bool)
      requires Valid() && (wal.Some? ==> OpOk(h, Content(sid, block, id)))
      modifies this
      ensures Valid() && newly == (id !in old(blocks))
      ensures State() == Step(h, old(State()), Content(sid, block, id))
      ensures Shadowed(old(State()), old(wal), old(walError), old(durable), Content(sid, block, id))
      ensures refused <==> old(refused) || (wal.Some? && !Loggable(old(State()), Content(sid, block, id)))
    {
      hide Canonical, Encode, OpOk, Run, RunBytes, RunOk, ReplayBytes;
      ghost var before, wal0, error0 := State(), wal, walError;
      newly := id !in blocks;
      if newly {
        blocks := blocks[id := block];
        if wal.Some? {
          AppendRecord(Record(sid, VAR_CONTENT, Canonical(block)));
        }
      }
      assert State() == Step(h, before, Content(sid, block, id));
      assert wal0.Some? ==> wal0.value + [] == wal0.value;
      hide Step;
      Track(before, wal0, error0, Content(sid, block, id));
    }

    /** The ordered blocks of a session. */
    method ReconstructSession(sid: nat) returns (out: seq<Block>)
      ensures out == Reconstruct(State(), sid)
    {
      out := [];
      if sid !in sessions {
        return;
      }
      var ids := sessions[sid].ids;
      for i := 0 to |ids|
        invariant out == Lookup(blocks, ids[..i])
      {
        assert ids[..i + 1][..i] == ids[..i];
        if ids[i] in blocks {
          out := out + [blocks[ids[i]]];
        }
      }
      assert ids[..|ids|] == ids;
    }

    /**
      Flushes the log; `written` is whether the operating system took the bytes.
      Success means that the file now replays to the live maps; after the first
      failed append or flush there is no further success.
     */
    method FlushWal(written: bool) returns (ok: bool)
      requires Valid()
      modifies this
      ensures Valid() && State() == old(State()) && wal == old(wal)
      ensures ok == (!old(walError) && (wal.Some? ==> written))
      ensures walError == !ok
      ensures ok && wal.Some? ==>
        durable == |wal.value| && ReplayBytes(h, EMPTY, wal.value) == Ok((State(), |wal.value|))
      ensures !ok ==> durable == old(durable)
      ensures refused == old(refused)
    {
      hide Run, RunBytes, RunOk, ReplayBytes;
      if walError {
        return false;
      }
      if wal.Some? {
        if !written {
          walError := true;
          return false;
        }
        durable, flushed := |wal.value|, |ops|;
        assert ops[..flushed] == ops && wal.value[..durable] == wal.value;
        FileReplays();
      }
      ok := true;
    }

    /** While no record is refused the whole file replays to the live maps. */
    lemma {:induction false} FileReplays()
      requires Valid() && wal.Some? && !refused
      ensures ReplayBytes(h, EMPTY, wal.value) == Ok((State(), |wal.value|))
    {
      hide Run, RunBytes, RunOk, ReplayBytes;
      var tail := RunBytes(h, start, ops);
      ReplayConcat(h, EMPTY, base, tail);
      ReplayRun(h, start, ops, []);
      ReplayNothing(h, Run(h, start, ops));
      assert tail + [] == tail;
    }

    /** The flushed bytes replay to the state at the flush, also after an error. */
    lemma {:induction false} FlushedReplays()
      requires Valid() && wal.Some?
      ensures ReplayBytes(h, EMPTY, wal.value[..durable]) == Ok((Run(h, start, ops[..flushed]), durable))
    {
      hide Run, RunBytes, RunOk, ReplayBytes;
      var done := ops[..flushed];
      var tail := RunBytes(h, start, done);
      RunPrefix(h, start, ops, flushed);
      ReplayConcat(h, EMPTY, base, tail);
      ReplayRun(h, start, done, []);
      ReplayNothing(h, Run(h, start, done));
      assert tail + [] == tail;
    }

    /**
      A crash that keeps the flushed bytes restores a whole-operation prefix that includes
      them, after failed flushes too, for every cut up to the first record refused for its
      size; if none is, for every cut of the file.
     */
    lemma {:induction false} CrashCut(cut: nat) returns (j: nat)
      requires Valid() && wal.Some? && durable <= cut <= |base| + |RunBytes(h, start, ops)|
      ensures !refused ==> |wal.value| == |base| + |RunBytes(h, start, ops)|
      ensures flushed <= j <= |ops|
      ensures ReplayBytes(h, EMPTY, wal.value[..cut]) ==
              Ok((Run(h, start, ops[..j]), |base| + |RunBytes(h, start, ops[..j])|))
    {
      hide Run, RunBytes, RunOk, ReplayBytes;
      var bytes := RunBytes(h, start, ops);
      j := CutReplay(h, start, ops, cut - |base|);
      ReplayConcat(h, EMPTY, base, bytes[..cut - |base|]);
      assert wal.value[..cut] == (base + bytes)[..cut] == base + bytes[..cut - |base|];
      if j < flushed {
        assert ops[..flushed][..j + 1] == ops[..j + 1];
        RunPrefix(h, start, ops, flushed);
        RunPrefix(h, start, ops[..flushed], j + 1);
      }
    }
  }

  // ------------------------------------------------------------------------------ open

  /** Replays a file into a store; answers the length of its whole records. */
  method Replay(store: ContentStore, file: Bytes) returns (r: Result<nat, ReplayError>)
    requires store.wal.None?
    modifies store
    ensures store.wal.None? && store.Valid() && store.walError == old(store.walError)
    ensures
      match ReplayBytes(store.h, old(store.State()), file)
      case Ok(done) => r == Ok(done.1) && store.State() == done.0
      case Err(e) => r == Err(e)
  {
    hide ApplyRecord, FromLe, Encode, ReplayBytes;
    var pos := 0;
    ghost var st0 := store.State();
    assert file[0..] == file;
    while true
      invariant pos <= |file| && store.wal.None? && store.walError == old(store.walError)
      invariant
        var rest := ReplayBytes(store.h, store.State(), file[pos..]);
        ReplayBytes(store.h, st0, file) ==
          if rest.Err? then rest else Ok((rest.value.0, pos + rest.value.1))
      decreases |file| - pos
    {
      var rest := file[pos..];
      ReplayStep(store.h, store.State(), rest);
      if |rest| < HEADER {
        return Ok(pos);
      }
      var len := FromLe(rest[17..21]);
      if len > MAX_RECORD {
        return Err(RecordTooLarge(len));
      }
      if |rest| < HEADER + len {
        return Ok(pos);
      }
      var rec := Record(FromLe(rest[..16]), rest[16], rest[HEADER..HEADER + len]);
      ghost var before := store.State();
      ApplyToStore(store, rec);
      assert rest[HEADER + len..] == file[pos + (HEADER + len)..];
      pos := pos + (HEADER + len);
    }
  }

  /** Dispatches one record to the store. */
  method ApplyToStore(store: ContentStore, r: Record)
    requires store.wal.None?
    modifies store
    ensures store.wal.None? && store.Valid() && store.walError == old(store.walError)
    ensures store.State() == ApplyRecord(store.h, old(store.State()), r)
  {
    hide FromCanonical, Step, ParseSeed;
    if r.variant == VAR_INSERT {
      var p := FromCanonical(r.payload);
      if p.Ok? {
        var _ := store.InsertWithCanonical(r.sid, p.value, BlockId(store.h, p.value), None);
      }
    } else if r.variant == VAR_REFERENCE {
      if |r.payload| == 32 {
        var _ := store.ReferenceBlock(r.sid, r.payload);
      }
    } else if r.variant == VAR_SEED {
      var p := ParseSeed(r.payload);
      if p.Some? {
        store.SeedSession(r.sid, p.value.0, p.value.1);
      }
    } else if r.variant == VAR_CONTENT {
      var p := FromCanonical(r.payload);
      if p.Ok? {
        var _ := store.StoreContentWithId(r.sid, p.value, BlockId(store.h, p.value));
      }
    }
  }

  /**
    Opens a durable store on the bytes of an existing file.  The file is replayed,
    its torn tail is cut off, and what is left is the log that appends continue.
   */
  method WithWal(h: Hashes, file: Bytes) returns (r: Result<ContentStore, ReplayError>)
    ensures r.Err? <==> ReplayBytes(h, EMPTY, file).Err?
    ensures r.Ok? ==>
      var (st, n) := ReplayBytes(h, EMPTY, file).value;
      && fresh(r.value) && r.value.h == h && r.value.Valid()
      && r.value.State() == st && r.value.wal == Some(file[..n]) && !r.value.walError && !r.value.refused
      && r.value.durable == n && ContentAddressed(h, st)
  {
    hide ReplayBytes;
    var store := new ContentStore(h);
    var n := Replay(store, file);
    if n.Err? {
      return Err(n.error);
    }
    ReplayTruncated(h, EMPTY, file);
    ReplayContentAddressed(h, EMPTY, file);
    store.wal, store.durable := Some(file[..n.value]), n.value;
    store.base, store.start, store.ops, store.flushed := file[..n.value], store.State(), [], 0;
    store.refused := false;
    assert RunBytes(h, store.start, []) == [];
    r := Ok(store);
  }

  lemma {:induction false} OpIds(h: Hashes, op: Op)
    requires OpOk(h, op)
    ensures op.Insert? || op.Reference? || op.Content? ==> |op.id| == 32
  {
  }
}
