/**
  The content-addressed store as a value (`crates/core/src/store.rs`): blocks by
  id, and per session an ordered log of ids with its running root.  The class
  that keeps this state and shadows it to the log is in `DurableStore.dfy`.
 */
module Store {
  import opened Blocks

  datatype SessionLog = SessionLog(ids: seq<Digest>, root: Digest)

  datatype StoreState = StoreState(blocks: map<Digest, Block>, sessions: map<nat, SessionLog>)

  const EMPTY: StoreState := StoreState(map[], map[])

  /** A store mutation; an insert or content store carries the id its caller derived. */
  datatype Op =
    | Insert(sid: nat, block: Block, id: Digest)
    | Reference(sid: nat, id: Digest)
    | Seed(sid: nat, ids: seq<Digest>, root: Digest)
    | Content(sid: nat, block: Block, id: Digest)

  function LogOf(st: StoreState, sid: nat): SessionLog {
    if sid in st.sessions then st.sessions[sid] else SessionLog([], ROOT_ZERO)
  }

  /** Appends an id to the session log and advances its root. */
  function Appended(h: Hashes, st: StoreState, sid: nat, id: Digest): StoreState {
    var log := LogOf(st, sid);
    st.(sessions := st.sessions[sid := SessionLog(log.ids + [id], h.append(log.root, id))])
  }

  /** Stores content under its id, unless the id is taken. */
  function WithContent(st: StoreState, id: Digest, block: Block): StoreState {
    if id in st.blocks then st else st.(blocks := st.blocks[id := block])
  }

  function Step(h: Hashes, st: StoreState, op: Op): StoreState {
    match op
    case Insert(sid, block, id) => Appended(h, WithContent(st, id, block), sid, id)
    case Reference(sid, id) => if id in st.blocks then Appended(h, st, sid, id) else st
    case Seed(sid, ids, root) => st.(sessions := st.sessions[sid := SessionLog(ids, root)])
    case Content(_, block, id) => WithContent(st, id, block)
  }

  function Run(h: Hashes, st: StoreState, ops: seq<Op>): StoreState
    decreases |ops|
  {
    if ops == [] then st else Run(h, Step(h, st, ops[0]), ops[1..])
  }

  lemma {:induction false} RunAppend(h: Hashes, st: StoreState, a: seq<Op>, b: seq<Op>)
    ensures Run(h, st, a + b) == Run(h, Run(h, st, a), b)
    decreases |a|
  {
    if a == [] {
      assert a + b == b;
    } else {
      assert (a + b)[1..] == a[1..] + b;
      RunAppend(h, Step(h, st, a[0]), a[1..], b);
    }
  }

  /** The stored blocks of a list of ids, in order; ids without content are passed over. */
  function Lookup(blocks: map<Digest, Block>, ids: seq<Digest>): seq<Block> {
    if ids == [] then []
    else
      var rest, id := Lookup(blocks, ids[..|ids| - 1]), ids[|ids| - 1];
      if id in blocks then rest + [blocks[id]] else rest
  }

  /** The ordered blocks of a session. */
  function Reconstruct(st: StoreState, sid: nat): seq<Block> {
    Lookup(st.blocks, LogOf(st, sid).ids)
  }

  /** Each block sits under its own hash. */
  ghost predicate ContentAddressed(h: Hashes, st: StoreState) {
    forall id :: id in st.blocks ==> id == BlockId(h, st.blocks[id]) && BlockOk(st.blocks[id])
  }
}
