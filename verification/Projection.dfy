/**
  The chat projection and its cache (`crates/sidecar/src/lib.rs`): the comma-joined
  message payloads of a session in chunks, kept per session at an acknowledged root.
 */
module Projection {
  import opened Bytes
  import opened Blocks
  import opened Results
  import opened Counting

  const CHUNK_BYTES: nat := 64 * 1024
  const CACHE_BYTES: nat := 256 * 1024 * 1024
  const CACHE_SESSIONS: nat := 64
  const COMMA: bv8 := 0x2C

  // ------------------------------------------------------------------------- projection

  /** The payloads with a comma before each one that is not the first message; n messages come before. */
  function JoinFrom(n: nat, payloads: seq<Bytes>): Bytes {
    if payloads == [] then []
    else
      var m := |payloads| - 1;
      JoinFrom(n, payloads[..m]) + (if n + m > 0 then [COMMA] else []) + payloads[m]
  }

  lemma {:induction false} JoinAppend(n: nat, a: seq<Bytes>, b: seq<Bytes>)
    ensures JoinFrom(n, a + b) == JoinFrom(n, a) + JoinFrom(n + |a|, b)
  {
    if b == [] {
      assert a + b == a;
    } else {
      var m := |b| - 1;
      assert (a + b)[..|a| + m] == a + b[..m];
      JoinAppend(n, a, b[..m]);
    }
  }

  /** Where payload i stands if each of those before it is followed by one byte. */
  function Offset(payloads: seq<Bytes>, i: nat): nat
    requires i <= |payloads|
  {
    if i == 0 then 0 else Offset(payloads, i - 1) + |payloads[i - 1]| + 1
  }

  /** Payload i stands at its offset, behind a comma unless it is the first, and the last one ends the text. */
  predicate CommaJoined(text: Bytes, payloads: seq<Bytes>) {
    && (payloads == [] ==> text == [])
    && (payloads != [] ==> |text| + 1 == Offset(payloads, |payloads|))
    && forall i: nat :: i < |payloads| ==> StandsAt(text, payloads[i], Offset(payloads, i))
  }

  predicate StandsAt(text: Bytes, payload: Bytes, at: nat) {
    at + |payload| <= |text| && text[at..at + |payload|] == payload && (at > 0 ==> text[at - 1] == COMMA)
  }

  lemma {:induction false} OffsetFront(payloads: seq<Bytes>, m: nat, i: nat)
    requires i <= m <= |payloads|
    ensures Offset(payloads[..m], i) == Offset(payloads, i)
    ensures i > 0 ==> Offset(payloads, i) > 0
  {
    if i > 0 {
      OffsetFront(payloads, m, i - 1);
    }
  }

  /** The joined payloads are separated by single commas. */
  lemma {:induction false} JoinSeparates(payloads: seq<Bytes>)
    ensures CommaJoined(JoinFrom(0, payloads), payloads)
  {
    hide Offset, StandsAt;
    NoOffset(payloads);
    if payloads != [] {
      var m := |payloads| - 1;
      var front, text := payloads[..m], JoinFrom(0, payloads);
      var before := JoinFrom(0, front) + (if m > 0 then [COMMA] else []);
      JoinSeparates(front);
      NoOffset(front);
      LastOffset(payloads);
      OffsetFront(payloads, m, m);
      assert |before| == Offset(payloads, m);
      forall i: nat | i < |payloads| ensures StandsAt(text, payloads[i], Offset(payloads, i)) {
        OffsetFront(payloads, m, i);
        if i < m {
          assert StandsAt(JoinFrom(0, front), front[i], Offset(front, i));
          StandsInFront(JoinFrom(0, front), text, payloads[i], Offset(payloads, i));
        } else {
          StandsLast(before, payloads[m]);
        }
      }
    }
  }

  lemma {:induction false} NoOffset(payloads: seq<Bytes>)
    ensures Offset(payloads, 0) == 0
  {
  }

  lemma {:induction false} LastOffset(payloads: seq<Bytes>)
    requires payloads != []
    ensures
      var m := |payloads| - 1;
      Offset(payloads, |payloads|) == Offset(payloads, m) + |payloads[m]| + 1
  {
  }

  lemma {:induction false} StandsInFront(front: Bytes, text: Bytes, payload: Bytes, at: nat)
    requires StandsAt(front, payload, at) && front <= text
    ensures StandsAt(text, payload, at)
  {
  }

  lemma {:induction false} StandsLast(before: Bytes, payload: Bytes)
    requires before != [] ==> before[|before| - 1] == COMMA
    ensures StandsAt(before + payload, payload, |before|)
  {
  }

  lemma {:induction false} FlatSnoc(chunks: seq<Bytes>, c: Bytes)
    ensures Flat(chunks + [c]) == Flat(chunks) + c
  {
    assert (chunks + [c])[..|chunks|] == chunks;
  }

  function Payloads(blocks: seq<Block>): (r: seq<Bytes>)
    ensures |r| == |blocks|
  {
    seq(|blocks|, i requires 0 <= i < |blocks| => blocks[i].payload)
  }

  datatype Cached = Cached(root: Digest, count: nat, chunks: seq<Bytes>, jsonBytes: nat)

  /** The projection as it is extended: the bytes in its chunks, and their exact length. */
  ghost predicate Projects(p: Cached, payloads: seq<Bytes>) {
    && p.count == |payloads| && Flat(p.chunks) == JoinFrom(0, payloads) && p.jsonBytes == |Flat(p.chunks)|
  }

  /** A small chunk, or a payload or comma of its own. */
  predicate ChunkOk(c: Bytes, payloads: seq<Bytes>) { |c| <= CHUNK_BYTES || c in payloads }

  /** Adds one payload to the chunks and the chunk being filled. */
  method AddPayload(chunks0: seq<Bytes>, pending0: Bytes, comma: Bytes, payload: Bytes)
      returns (chunks: seq<Bytes>, pending: Bytes)
    requires |pending0| <= CHUNK_BYTES && |comma| <= 1
    ensures |pending| <= CHUNK_BYTES && chunks0 <= chunks
    ensures Flat(chunks) + pending == Flat(chunks0) + pending0 + comma + payload
    ensures forall k :: |chunks0| <= k < |chunks| ==> |chunks[k]| <= CHUNK_BYTES || chunks[k] == payload
  {
    hide Flat;
    chunks, pending := chunks0, pending0;
    FlatSnoc(chunks, pending);
    if |comma| + |payload| <= CHUNK_BYTES {
      if |pending| + |comma| + |payload| > CHUNK_BYTES {
        chunks, pending := chunks + [pending], [];
      }
      ghost var filled := Flat(chunks) + pending;
      pending := pending + comma + payload;
      assert Flat(chunks) + pending == filled + comma + payload;
    } else {
      if pending != [] {
        chunks, pending := chunks + [pending], [];
      }
      assert Flat(chunks) == Flat(chunks0) + pending0;
      if comma != [] {
        FlatSnoc(chunks, comma);
        chunks := chunks + [comma];
      }
      FlatSnoc(chunks, payload);
      chunks := chunks + [payload];
    }
  }

  /** Appends payloads: small ones are coalesced, large ones become chunks of their own. */
  method AppendPayloads(p: Cached, payloads: seq<Bytes>) returns (q: Cached)
    ensures q.root == p.root && q.count == p.count + |payloads|
    ensures Flat(q.chunks) == Flat(p.chunks) + JoinFrom(p.count, payloads)
    ensures q.jsonBytes == p.jsonBytes + |JoinFrom(p.count, payloads)|
    ensures p.chunks <= q.chunks && forall i :: |p.chunks| <= i < |q.chunks| ==> ChunkOk(q.chunks[i], payloads)
  {
    hide Flat;
    var chunks, count, json := p.chunks, p.count, p.jsonBytes;
    var pending: Bytes := [];
    for i := 0 to |payloads|
      invariant count == p.count + i && |pending| <= CHUNK_BYTES && p.chunks <= chunks
      invariant Flat(chunks) + pending == Flat(p.chunks) + JoinFrom(p.count, payloads[..i])
      invariant json == p.jsonBytes + |JoinFrom(p.count, payloads[..i])|
      invariant forall k :: |p.chunks| <= k < |chunks| ==> ChunkOk(chunks[k], payloads)
    {
      ghost var before := JoinFrom(p.count, payloads[..i]);
      assert payloads[..i + 1][..i] == payloads[..i];
      var comma: Bytes := if count > 0 then [COMMA] else [];
      json := json + |comma| + |payloads[i]|;
      assert JoinFrom(p.count, payloads[..i + 1]) == before + comma + payloads[i];
      assert Flat(p.chunks) + before + comma + payloads[i] == Flat(p.chunks) + (before + comma + payloads[i]);
      chunks, pending := AddPayload(chunks, pending, comma, payloads[i]);
      count := count + 1;
    }
    assert payloads[..|payloads|] == payloads;
    if pending != [] {
      FlatSnoc(chunks, pending);
      chunks := chunks + [pending];
    }
    q := Cached(p.root, count, chunks, json);
  }

  // ------------------------------------------------------------------------------ cache

  /** The list without a session. */
  function Dropped(lru: seq<nat>, sid: nat): (r: seq<nat>)
    ensures |r| <= |lru|
  {
    if lru == [] then []
    else
      var n := |lru| - 1;
      if lru[n] == sid then Dropped(lru[..n], sid) else Dropped(lru[..n], sid) + [lru[n]]
  }

  lemma {:induction false} DroppedKeeps(lru: seq<nat>, sid: nat)
    ensures forall s :: s in Dropped(lru, sid) <==> s in lru && s != sid
    ensures Distinct(lru) ==> Distinct(Dropped(lru, sid))
  {
    if lru != [] {
      var n := |lru| - 1;
      var front := lru[..n];
      assert lru == front + [lru[n]];
      DroppedKeeps(front, sid);
      if Distinct(lru) && lru[n] != sid {
        DistinctSnoc(Dropped(front, sid), lru[n]);
      }
    }
  }

  lemma {:induction false} DistinctSnoc(s: seq<nat>, x: nat)
    requires Distinct(s) && x !in s
    ensures Distinct(s + [x])
  {
    var r := s + [x];
    forall i, j | 0 <= i < j < |r| ensures r[i] != r[j] {
      assert r[i] == s[i] && s[i] in s;
    }
  }

  /** The bytes of the listed sessions. */
  function Sum(entries: map<nat, Cached>, lru: seq<nat>): nat
    requires forall s :: s in lru ==> s in entries
  {
    if lru == [] then 0
    else
      var n := |lru| - 1;
      assert lru[n] in lru;
      assert forall s :: s in lru[..n] ==> s in lru;
      Sum(entries, lru[..n]) + entries[lru[n]].jsonBytes
  }

  lemma {:induction false} SumAgrees(a: map<nat, Cached>, b: map<nat, Cached>, lru: seq<nat>)
    requires forall s :: s in lru ==> s in a && s in b && a[s] == b[s]
    ensures Sum(a, lru) == Sum(b, lru)
  {
    if lru != [] {
      var n := |lru| - 1;
      assert lru[n] in lru;
      assert forall s :: s in lru[..n] ==> s in lru;
      SumAgrees(a, b, lru[..n]);
    }
  }

  lemma {:induction false} SumDropped(entries: map<nat, Cached>, lru: seq<nat>, sid: nat)
    requires (forall s :: s in lru ==> s in entries) && Distinct(lru) && sid in lru
    ensures forall s :: s in Dropped(lru, sid) ==> s in entries
    ensures Sum(entries, Dropped(lru, sid)) == Sum(entries, lru) - entries[sid].jsonBytes
    ensures |Dropped(lru, sid)| == |lru| - 1
  {
    DroppedKeeps(lru, sid);
    var n := |lru| - 1;
    var front := lru[..n];
    assert lru == front + [lru[n]];
    if lru[n] == sid {
      assert sid !in front;
      DroppedAbsent(front, sid);
    } else {
      assert sid in front;
      SumDropped(entries, front, sid);
      var d := Dropped(front, sid);
      assert (d + [lru[n]])[..|d|] == d;
    }
  }

  /** The others keep their order. */
  lemma {:induction false} DroppedAt(lru: seq<nat>, sid: nat, i: nat)
    requires Distinct(lru) && i < |lru| && lru[i] == sid
    ensures Dropped(lru, sid) == lru[..i] + lru[i + 1..]
  {
    var n := |lru| - 1;
    var front := lru[..n];
    if i == n {
      assert sid !in front;
      DroppedAbsent(front, sid);
    } else {
      assert front[i] == sid && lru[n] != sid;
      DroppedAt(front, sid, i);
      assert front[..i] + front[i + 1..] + [lru[n]] == lru[..i] + lru[i + 1..];
    }
  }

  /** The bytes of the sessions from position d on, and one entry more, keep the cache's bounds. */
  predicate Fits(entries: map<nat, Cached>, lru: seq<nat>, d: nat, jsonBytes: nat)
    requires d <= |lru| && forall s :: s in lru ==> s in entries
  {
    |lru| - d < CACHE_SESSIONS && Sum(entries, lru[d..]) + jsonBytes <= CACHE_BYTES
  }

  /** The back of the list, as much of it as fits. */
  ghost predicate Survive(entries: map<nat, Cached>, lru: seq<nat>, kept: seq<nat>, jsonBytes: nat) {
    && (forall s :: s in lru ==> s in entries)
    && |kept| <= |lru| && kept == lru[|lru| - |kept|..]
    && (kept == [] || Fits(entries, lru, |lru| - |kept|, jsonBytes))
    && (kept != lru ==> !Fits(entries, lru, |lru| - |kept| - 1, jsonBytes))
  }

  lemma {:induction false} DroppedAbsent(lru: seq<nat>, sid: nat)
    requires sid !in lru
    ensures Dropped(lru, sid) == lru
  {
    if lru != [] {
      var n := |lru| - 1;
      assert lru == lru[..n] + [lru[n]];
      DroppedAbsent(lru[..n], sid);
    }
  }

  /** The recency list and the map hold the same sessions, and the byte count is theirs. */
  ghost predicate Listed(entries: map<nat, Cached>, lru: seq<nat>, jsonBytes: nat) {
    && Distinct(lru) && (forall s :: s in lru <==> s in entries)
    && jsonBytes == Sum(entries, lru) && |entries| == |lru|
  }

  lemma {:induction false} KeyCount(entries: map<nat, Cached>, lru: seq<nat>)
    requires Distinct(lru) && forall s :: s in lru <==> s in entries
    ensures |entries| == |lru|
  {
    DistinctCount(lru, entries.Keys);
  }

  lemma {:induction false} ListedDropped(entries: map<nat, Cached>, lru: seq<nat>, jsonBytes: nat, sid: nat)
    requires Listed(entries, lru, jsonBytes) && sid in entries
    ensures entries[sid].jsonBytes <= jsonBytes
    ensures Listed(entries - {sid}, Dropped(lru, sid), jsonBytes - entries[sid].jsonBytes)
    ensures |Dropped(lru, sid)| == |lru| - 1
  {
    SumDropped(entries, lru, sid);
    DroppedKeeps(lru, sid);
    SumAgrees(entries, entries - {sid}, Dropped(lru, sid));
    KeyCount(entries - {sid}, Dropped(lru, sid));
  }

  lemma {:induction false} ListedAdded(entries: map<nat, Cached>, lru: seq<nat>, jsonBytes: nat, sid: nat, p: Cached)
    requires Listed(entries, lru, jsonBytes) && sid !in entries
    ensures Listed(entries[sid := p], lru + [sid], jsonBytes + p.jsonBytes)
  {
    DistinctSnoc(lru, sid);
    var more := lru + [sid];
    assert more[..|lru|] == lru;
    SumAgrees(entries, entries[sid := p], lru);
    KeyCount(entries[sid := p], more);
  }

  /** Recently used sessions stand at the back. */
  class Cache {
    var entries: map<nat, Cached>
    var lru: seq<nat>
    var jsonBytes: nat

    /** At most 64 sessions, and 256 MiB unless one entry alone is larger. */
    ghost predicate Valid()
      reads this
    {
      Listed(entries, lru, jsonBytes) && |lru| <= CACHE_SESSIONS && (jsonBytes <= CACHE_BYTES || |lru| == 1)
    }

    constructor ()
      ensures Valid() && entries == map[]
    {
      entries, lru, jsonBytes := map[], [], 0;
    }

    /** The session's projection if it stands at this root. */
    method Get(sid: nat, root: Digest) returns (p: Option<Cached>)
      requires Valid()
      modifies this
      ensures Valid() && entries == old(entries)
      ensures p == if sid in entries && entries[sid].root == root then Some(entries[sid]) else None
      ensures lru == if p.Some? then Dropped(old(lru), sid) + [sid] else old(lru)
    {
      if sid !in entries || entries[sid].root != root {
        return None;
      }
      p := Some(entries[sid]);
      Touch(sid);
    }

    method Touch(sid: nat)
      requires Valid() && sid in entries
      modifies this`lru
      ensures Valid() && lru == Dropped(old(lru), sid) + [sid]
    {
      hide Sum, Dropped, Distinct;
      ListedDropped(entries, lru, jsonBytes, sid);
      ListedAdded(entries - {sid}, Dropped(lru, sid), jsonBytes - entries[sid].jsonBytes, sid, entries[sid]);
      assert (entries - {sid})[sid := entries[sid]] == entries;
      lru := Dropped(lru, sid) + [sid];
    }

    method Remove(sid: nat)
      requires Valid()
      modifies this
      ensures Listed(entries, lru, jsonBytes) && Valid() && entries == old(entries) - {sid}
      ensures lru == Dropped(old(lru), sid)
    {
      hide Sum, Dropped;
      if sid in entries {
        ListedDropped(entries, lru, jsonBytes, sid);
        jsonBytes := jsonBytes - entries[sid].jsonBytes;
        entries := entries - {sid};
        lru := Dropped(lru, sid);
        NothingLeft(entries, lru, jsonBytes);
      } else {
        DroppedAbsent(lru, sid);
        lru := Dropped(lru, sid);
      }
    }

    /** Stores a session's projection, evicting the least recently used ones until it fits. */
    method Insert(sid: nat, p: Cached)
      requires Valid()
      modifies this
      ensures Valid() && sid in entries && entries[sid] == p
      ensures forall s :: s in entries && s != sid ==> s in old(entries) && entries[s] == old(entries)[s]
      ensures lru != [] && lru[|lru| - 1] == sid
      ensures Survive(old(entries), Dropped(old(lru), sid), lru[..|lru| - 1], p.jsonBytes)
    {
      hide Listed, Sum, Dropped, Fits;
      ghost var entries0 := entries;
      Remove(sid);
      ghost var rest, d := lru, 0;
      ListedIn(entries, lru, jsonBytes);
      while |entries| > 0 && (|entries| >= CACHE_SESSIONS || jsonBytes + p.jsonBytes > CACHE_BYTES)
        invariant Listed(entries, lru, jsonBytes) && |lru| <= CACHE_SESSIONS && sid !in entries
        invariant forall s :: s in entries ==> s in old(entries) && entries[s] == old(entries)[s]
        invariant d <= |rest| && lru == rest[d..]
        invariant d > 0 ==> !Fits(entries0, rest, d - 1, p.jsonBytes)
        decreases |lru|
      {
        FitsNow(entries0, entries, rest, d, jsonBytes, p.jsonBytes);
        d := d + 1;
        Oldest(entries, lru, jsonBytes);
        var oldest := lru[0];
        lru := lru[1..];
        jsonBytes := jsonBytes - entries[oldest].jsonBytes;
        entries := entries - {oldest};
      }
      FitsNow(entries0, entries, rest, d, jsonBytes, p.jsonBytes);
      NothingLeft(entries, lru, jsonBytes);
      ListedAdded(entries, lru, jsonBytes, sid, p);
      jsonBytes := jsonBytes + p.jsonBytes;
      entries := entries[sid := p];
      lru := lru + [sid];
    }
  }

  /** What the eviction loop checks is whether the sessions still listed fit. */
  lemma {:induction false} FitsNow(all: map<nat, Cached>, entries: map<nat, Cached>, rest: seq<nat>, d: nat,
                                   jsonBytes: nat, more: nat)
    requires d <= |rest| && (forall s :: s in rest ==> s in all) && Listed(entries, rest[d..], jsonBytes)
    requires forall s :: s in entries ==> s in all && entries[s] == all[s]
    ensures Fits(all, rest, d, more) <==> |entries| < CACHE_SESSIONS && jsonBytes + more <= CACHE_BYTES
  {
    hide Sum;
    SumAgrees(entries, all, rest[d..]);
  }

  /** Evicting the session at the front of the list. */
  lemma {:induction false} Oldest(entries: map<nat, Cached>, lru: seq<nat>, jsonBytes: nat)
    requires Listed(entries, lru, jsonBytes) && |entries| > 0
    ensures lru != [] && lru[0] in entries && entries[lru[0]].jsonBytes <= jsonBytes
    ensures Listed(entries - {lru[0]}, lru[1..], jsonBytes - entries[lru[0]].jsonBytes)
  {
    hide Sum, Dropped;
    assert lru[0] in lru;
    DropFirst(lru);
    ListedDropped(entries, lru, jsonBytes, lru[0]);
  }

  lemma {:induction false} ListedIn(entries: map<nat, Cached>, lru: seq<nat>, jsonBytes: nat)
    requires Listed(entries, lru, jsonBytes)
    ensures forall s :: s in lru ==> s in entries
  {
  }

  lemma {:induction false} NothingLeft(entries: map<nat, Cached>, lru: seq<nat>, jsonBytes: nat)
    requires Listed(entries, lru, jsonBytes)
    ensures |lru| == 0 ==> jsonBytes == 0
    ensures |entries| == |lru|
  {
  }

  /** In a list of distinct sessions, dropping the first is dropping the front. */
  lemma {:induction false} DropFirst(lru: seq<nat>)
    requires lru != [] && Distinct(lru)
    ensures Dropped(lru, lru[0]) == lru[1..]
  {
    var n := |lru| - 1;
    if n == 0 {
      assert lru[..0] == [] && lru[1..] == [];
    } else {
      assert lru[n] != lru[0];
      assert Distinct(lru[..n]) && lru[..n][0] == lru[0];
      DropFirst(lru[..n]);
      assert lru[..n][1..] + [lru[n]] == lru[1..];
    }
  }
}
