/**
  When the frame decoder panics.  `crates/core/tests/fuzz_decode.rs` expects that no
  input makes it panic; reading a block's marker before checking that there is one
  makes exactly the inputs below do so.
 */
module FrameTotality {
  import opened Gf256
  import opened Bytes
  import opened Blocks
  import opened Results
  import opened FrameCodec

  /** A block length of zero with nothing behind it. */
  const NO_BLOCK: Bytes := [0, 0, 0, 0]

  // ------------------------------------------------------------------------- one entry

  lemma {:induction false} ZeroLength(b: Bytes)
    requires |b| == 4
    ensures FromLe(b) == 0 <==> b == NO_BLOCK
  {
    hide LeBytes, FromLe;
    LeBytesFrom(b);
    FourZeros();
  }

  lemma {:induction false} FourZeros()
    ensures LeBytes(0, 4) == NO_BLOCK && FromLe(NO_BLOCK) == 0
  {
    hide ByteAt, Index;
    IndexOfByte(0);
    ZeroStep(3);
    ZeroStep(2);
    ZeroStep(1);
    ZeroStep(0);
    FromLeBytes(0, 4);
    hide LeBytes, FromLe;
    assert LeBytes(0, 0) == [];
    assert [0, 0] + LeBytes(0, 2) == [0, 0, 0, 0];
  }

  lemma {:induction false} ZeroStep(w: nat)
    ensures LeBytes(0, w + 1) == [0] + LeBytes(0, w)
    ensures LeBytes(0, 0) == []
  {
    hide ByteAt;
    IndexOfByte(0);
  }

  /** An entry panics exactly when the window is that length and nothing more. */
  lemma {:induction false} EntryPanics(r: Bytes)
    ensures TakeBlock(r) == Err(OutOfBounds) <==> r == NO_BLOCK
  {
    hide FromLe, IsRef, MarkerKind;
    if |r| >= 4 {
      ZeroLength(r[..4]);
      assert |r| == 4 ==> r[..4] == r;
    }
  }

  // ----------------------------------------------------------------------- all entries

  /** The first j entries parse and leave nothing but a zero length. */
  predicate LeavesNoBlock(r: Bytes, j: nat) {
    var t := TakeMany(TakeBlock, r, j);
    t.Ok? && t.value.rest == NO_BLOCK
  }

  lemma {:induction false} ManyStep(r: Bytes, n: nat)
    requires n > 0
    ensures TakeBlock(r).Err? ==>
      TakeMany(TakeBlock, r, n).Err? && TakeMany(TakeBlock, r, n).error == TakeBlock(r).error
    ensures TakeBlock(r).Ok? ==>
      var more := TakeMany(TakeBlock, TakeBlock(r).value.rest, n - 1);
      && (more.Err? ==> TakeMany(TakeBlock, r, n).Err? && TakeMany(TakeBlock, r, n).error == more.error)
      && (more.Ok? ==> TakeMany(TakeBlock, r, n).Ok? && TakeMany(TakeBlock, r, n).value.rest == more.value.rest)
  {
    hide TakeBlock;
  }

  lemma {:induction false} NoEntries(r: Bytes)
    ensures TakeMany(TakeBlock, r, 0) == Ok(Read([], r))
  {
  }

  lemma {:induction false} EntriesPanic(r: Bytes, n: nat)
    ensures TakeMany(TakeBlock, r, n) == Err(OutOfBounds) <==> exists j: nat :: j < n && LeavesNoBlock(r, j)
    decreases n
  {
    hide TakeBlock, TakeMany;
    if n == 0 {
      NoEntries(r);
    } else {
      EntryPanics(r);
      NoEntries(r);
      ManyStep(r, n);
      assert LeavesNoBlock(r, 0) <==> r == NO_BLOCK;
      if TakeBlock(r).Ok? {
        var rest := TakeBlock(r).value.rest;
        EntriesPanic(rest, n - 1);
        forall j: nat ensures LeavesNoBlock(r, j + 1) <==> LeavesNoBlock(rest, j) {
          ManyStep(r, j + 1);
        }
        if exists j: nat :: j < n - 1 && LeavesNoBlock(rest, j) {
          var j: nat :| j < n - 1 && LeavesNoBlock(rest, j);
          assert LeavesNoBlock(r, j + 1);
        }
        if exists j: nat :: j < n && LeavesNoBlock(r, j) {
          var j: nat :| j < n && LeavesNoBlock(r, j);
          assert j > 0;
          ManyStep(r, j);
          assert LeavesNoBlock(rest, j - 1);
        }
      } else {
        forall j: nat | j > 0 ensures !LeavesNoBlock(r, j) {
          ManyStep(r, j);
        }
      }
    }
  }

  // ------------------------------------------------------------------------- the frame

  /** Readers that never panic. */
  ghost predicate Safe<T>(one: Reader<T>) { forall r :: one(r) != Err(OutOfBounds) }

  lemma {:induction false} ManySafe<T>(one: Reader<T>, r: Bytes, n: nat)
    requires Safe(one)
    ensures TakeMany(one, r, n) != Err(OutOfBounds)
    decreases n
  {
    if n > 0 && one(r).Ok? {
      ManySafe(one, one(r).value.rest, n - 1);
    }
  }

  lemma {:induction false} OtherReadersSafe()
    ensures Safe(TakeId) && Safe(TakeSymbol)
  {
    hide FromLe;
  }

  /** The other frame kinds never panic. */
  lemma {:induction false} OtherBodiesSafe(tag: bv8, r: Bytes)
    requires tag != TAG_APPEND
    ensures TakeBody(tag, r) != Err(OutOfBounds)
  {
    hide FromLe, TakeMany, TakeId, TakeSymbol;
    OtherReadersSafe();
    forall w: Bytes, n: nat ensures TakeMany(TakeId, w, n) != Err(OutOfBounds) {
      ManySafe(TakeId, w, n);
    }
    forall w: Bytes, n: nat ensures TakeMany(TakeSymbol, w, n) != Err(OutOfBounds) {
      ManySafe(TakeSymbol, w, n);
    }
  }

  /** tag | session id | base root | count */
  const APPEND_HEADER: nat := 53

  /** What makes the decoder panic, read off the bytes. */
  ghost predicate PanicsOn(buf: Bytes) {
    && |buf| >= APPEND_HEADER && buf[0] == TAG_APPEND
    && var n := FromLe(buf[49..53]);
       n <= MAX_COUNT && exists j: nat :: j < n && LeavesNoBlock(buf[APPEND_HEADER..], j)
  }

  lemma {:induction false} AppendHeader(r: Bytes)
    ensures |r| < 52 ==> TakeAppend(r) == Err(Truncated)
    ensures |r| >= 52 ==>
      var n := FromLe(r[48..52]);
      && (n > MAX_COUNT ==> TakeAppend(r) == Err(TooLarge(n)))
      && (n <= MAX_COUNT ==>
            (TakeAppend(r) == Err(OutOfBounds) <==> TakeMany(TakeBlock, r[52..], n) == Err(OutOfBounds)))
  {
    hide FromLe, TakeMany;
    if |r| >= 52 {
      assert r[16..][32..] == r[48..] && r[48..][..4] == r[48..52] && r[48..][4..] == r[52..];
    }
  }

  /** The decoder panics on exactly these inputs. */
  lemma {:induction false} DecodePanicsExactly(buf: Bytes)
    ensures DecodeFrame(buf) == Err(OutOfBounds) <==> PanicsOn(buf)
  {
    hide FromLe, TakeMany, TakeAppend, LeavesNoBlock;
    if buf != [] {
      var r := buf[1..];
      if buf[0] == TAG_APPEND {
        AppendHeader(r);
        if |r| >= 52 {
          assert r[48..52] == buf[49..53] && r[52..] == buf[APPEND_HEADER..];
          EntriesPanic(r[52..], FromLe(r[48..52]));
        }
      } else {
        OtherBodiesSafe(buf[0], r);
      }
    }
  }

  /** An APPEND frame that announces one block of length zero and ends there is such an input. */
  lemma {:induction false} PanicInput(root: Digest)
    requires |root| == 32
    ensures DecodeFrame([TAG_APPEND] + LeBytes(0, 16) + root + LeBytes(1, 4) + NO_BLOCK) == Err(OutOfBounds)
  {
    hide LeBytes, FromLe, Pow256, TakeMany;
    var buf := [TAG_APPEND] + LeBytes(0, 16) + root + LeBytes(1, 4) + NO_BLOCK;
    Widths();
    FromLeBytes(1, 4);
    assert buf[49..53] == LeBytes(1, 4) && buf[APPEND_HEADER..] == NO_BLOCK;
    NoEntries(NO_BLOCK);
    assert LeavesNoBlock(buf[APPEND_HEADER..], 0);
    DecodePanicsExactly(buf);
  }

  // ------------------------------------------------------------------------ a safe check

  lemma {:induction false} EntrySuffix(r: Bytes)
    requires TakeBlock(r).Ok?
    ensures var rest := TakeBlock(r).value.rest; |rest| <= |r| && rest == r[|r| - |rest|..]
  {
    hide FromLe, IsRef, MarkerKind;
  }

  lemma {:induction false} EntriesSuffix(r: Bytes, n: nat)
    requires TakeMany(TakeBlock, r, n).Ok?
    ensures var rest := TakeMany(TakeBlock, r, n).value.rest; |rest| <= |r| && rest == r[|r| - |rest|..]
    decreases n
  {
    hide TakeBlock, TakeMany;
    if n == 0 {
      NoEntries(r);
    } else {
      ManyStep(r, n);
      EntrySuffix(r);
      EntriesSuffix(TakeBlock(r).value.rest, n - 1);
    }
  }

  /** A buffer that does not end in four zero bytes never makes the decoder panic. */
  lemma {:induction false} SafeUnlessEndsInZeros(buf: Bytes)
    requires |buf| < 4 || buf[|buf| - 4..] != NO_BLOCK
    ensures DecodeFrame(buf) != Err(OutOfBounds)
  {
    hide FromLe, TakeMany, DecodeFrame;
    DecodePanicsExactly(buf);
    if PanicsOn(buf) {
      var n := FromLe(buf[49..53]);
      var j: nat :| j < n && LeavesNoBlock(buf[APPEND_HEADER..], j);
      EntriesSuffix(buf[APPEND_HEADER..], j);
      assert false;
    }
  }
}
