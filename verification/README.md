# DLR in Dafny

DLR replicates an append-only conversation log from a client to a receiver. In steady
state the client sends only what is new; a receiver that lost its state is repaired by an
erasure-coded transfer. This project models that system and proves what it promises.

Three groups of modules:

- **The replication protocol.** `Blocks`, `Store`, `Wal`, `DurableStore` (the
  content-addressed store and its write-ahead log), `Frames`, `FrameCodec`,
  `FrameTotality` (the wire), `ReceiverModel`, `Receiver`, `AckSafety`, `Replies` (the receiver,
  what its ACKs mean and what it answers), `ChatModel`, `ChatSession`, `Replication`,
  `CrashRecovery` (the client, both ends over a lossy network, and a receiver that crashes),
  `Requests` (a prepared request as the sidecar reads it), `BulkModel`, `ColdStart` (the
  repair transfer), `Projection`, `Sidecar` (the chat endpoint and its cache).
- **Linear coding over GF(2^8).** `Gf256`, `GfLinear`, `GfSlices`, `Gauss`,
  `LinearSystems`, `Polynomials`, `Evaluation`, `RepeatedPoints`, `ReedSolomon`,
  `StoppingSets`, `Peeling`, `Fountain`, `Loss`, `Rlnc`.
- **Self-contained structures.** `Mmr`, `Zeckendorf`, `ZeckStreams`, `HomoHash`,
  `CuckooFilter`, `Pruner`, `GoldenRing`.

`Results`, `Bytes`, `Counting` and `Modular` hold what several of them share.

## How the model is set up

- Code that updates state in place is a class, or a method with loops, proved against a
  function of the old state (`Receiver.Receiver` against `ReceiverModel`,
  `ChatSession.SessionShim` against `ChatModel`, and so on); the theorems over whole runs
  are about those functions, so they hold of the classes.
- Bytes are `bv8`. Machine integers are unbounded, with widths and wrap-around written out
  where the code depends on them (record lengths, the 16-bit symbol count, the wrapping
  Fibonacci sums, 64-bit positions).
- BLAKE3, zstd and xxh3 are parameters. zstd is assumed to be lossless where content has to
  survive compression. Collision-freeness, with the empty-log root not an output, is a
  hypothesis (`Blocks.CollisionFree`) where the protocol relies on it; digests then have any
  length, and `Blocks.CollisionFreeHashes` shows that the hypothesis can be met. Where
  digests are laid out in 32 bytes, their length is assumed and collision-freeness is not.
- The dedup filter's answers, the fountain encoder's degrees, indices and coefficients,
  the scorer, JSON validity of a message and whether the operating system took a flush
  are arguments: the results hold for every choice.
- Store operations happen one at a time, and a crash keeps a prefix of the file.

## Where code, documentation and claims differ

Where a claim fails, the failing case and the exact condition under which it holds are
proved.

- `rs.rs` promises that any k of the n symbols suffice and puts no bound on k and n. There
  are only 256 evaluation points (the one for index 255 is 0, still distinct from the
  others). `ReedSolomon.MdsExactly` says for every k and m when the promise holds: k = 1,
  k + m up to 256, no parity at all, or, beyond 256 data symbols, one parity row without a
  zero entry, for which `RepeatedPoints.FullRowClosed` has a closed form.
  `ReedSolomon.RepeatedPointClash` and `RepeatedPoints.TwoParitiesClash` give
  rows that fail. For k over 256 the matrix to be inverted is singular and the loop at
  `rs.rs:110-121` skips columns; `RepeatedPoints.WideResult` says what it returns.
- A fountain decoder keeps its symbols after a failed attempt, and the receiver feeds it
  more. But an attempt takes the payload out of each symbol that reveals a source and
  forgets the value, and the next attempt reveals that source as empty.
  `Fountain.RetryExactly`: a second attempt gives the source if and only if the first one
  found too few symbols, or none that covers a single source, or the symbols have no
  bytes.
- The decoder's elimination takes a symbol without payload for a spent one, so a generation
  of symbols without bytes can be reported as underdetermined although there is only one.
  `Peeling.PeelSymbols` and `Rlnc.SparseDecode`: it is decoded if and only if no nonempty
  set of sources stops the peeling, that is, meets no cover in exactly one source;
  `StoppingSets.StuckPair` is one that does.
- A repair symbol that mixes all 65536 sources of a generation has its count wrapped to
  zero and is read as no symbol: `Fountain.WireOverflow`. In larger generations a
  systematic symbol names its source modulo 65536: `Fountain.SystematicTrueExactly`.
- `filter.rs` says that an absent answer is definite and that growing is correct. Growing
  files each fingerprint under a hash of its own two bytes, where its item is not looked
  for. `CuckooFilter.FalseNegative` is a run that loses an id,
  `CuckooFilter.GrowthFindsExactly` says which items an insert that grows leaves findable,
  and `CuckooFilter.NoFalseNegatives` that nothing is lost until then. The client only uses
  the answer to choose between a full block and a reference, so `ChatModel.IngestSays`
  holds all the same.
- `homohash.rs` says that each generator has order Q. `HomoHash.TrivialGenerators`: the
  generator of coordinate i is 1 if and only if Q divides i + 1, first at coordinate 1320
  (`HomoHash.FirstTrivialGenerator`), and `HomoHash.GeneratorOrderExactly` gives every
  order. Linearity does not depend on it; what the hash can tell apart does
  (`HomoHash.SameHashExactly`, `HomoHash.OneTamperedExactly`).
- `crates/core/tests/fuzz_decode.rs:169-174` expects that no bytes make the frame decoder
  panic. A block entry of length zero at the very end does, because its first byte is read
  before the length is looked at; the model has this outcome as `OutOfBounds`.
  `FrameTotality.PanicInput` is such a buffer, `FrameTotality.DecodePanicsExactly` says
  which buffers those are, and `FrameTotality.SafeUnlessEndsInZeros` is a test for callers.
- A crash between the records of one turn leaves part of it in the receiver's log, and the
  retry of that turn is then rejected: `CrashRecovery.TornTurn`. `CrashRecovery.CrashPrefix`
  shows that this is the only way in which the retry can fail, and that what a client was
  told is held is held; `CrashRecovery.RepairResumes`, that the repair transfer works from
  every such state.
- A decoder that loses its place in a Fibonacci-coded stream finds it again behind the next
  codeword, except that a last 1 of the debris and a first 1 of the codeword look like a
  terminator (`Zeckendorf.Relocks`). `Zeckendorf.ResyncExactly` counts what is lost:
  `Zeckendorf.OnlyOneLost`, one number unless it is a zero behind such a straddle.
- `incremental.rs` says that the pruner keeps the highest-scoring blocks, and allows updates.
  `Pruner.KeepsHighestExactly`: for every budget and scorer, the highest of the latest
  insertions are kept throughout if and only if no insert strays. For a block budget an
  insert strays if it moves one of the b highest below the highest of the others; for a
  size budget, if an entry evicted before would fit again or outranks the new one.
  `Pruner.LoweredReinsert` and `Pruner.ShrunkReinsert` are inputs on which it fails. With the
  default score a block budget never does (`Pruner.BlockBudgetKeepsRecent`), and
  `Pruner.SizeBudgetKeepsExactly` says what a size budget keeps.
- The comment in `ingest_turn` says that the frame carries everything since the base root;
  the code sends the new turn only. `Replication.DeltaExactly`: the two are the same if and
  only if everything before the turn is acknowledged. Otherwise a receiver takes the turn
  onto the base and acknowledges a log in which an earlier one is missing
  (`Replication.LostTurn`, from a new session `Replication.SecondTurnAlone`). With one
  request in flight at a time this does not happen: `Replication.PrefixInvariant`.
- Records over 512 MiB are held in memory but not logged; the error latch then fails every
  later flush: `DurableStore.ContentStore.FlushWal`.

## Model

| member | source | states |
|---|---|---|
| Gf256.MulIsPolyMul | crates/coding/src/gf256.rs:35-70 | The log/exp product is multiplication of polynomials modulo 0x11B (section 4.2 of FIPS 197), for all pairs of bytes |
| Gf256.MulAssociates | crates/coding/src/gf256.rs:67-70 | The product is associative |
| Gf256.MulDistributes | crates/coding/src/gf256.rs:67-76 | The product distributes over XOR, because the table walk is XOR-linear |
| Gf256.MulCommutes | crates/coding/src/gf256.rs:67-70 | The product is commutative |
| Gf256.MulNonzero | crates/coding/src/gf256.rs:67-70 | A product is zero exactly when a factor is |
| Gf256.MulInverse | crates/coding/src/gf256.rs:350-357 | The inverse of a nonzero byte multiplies it to one |
| Gf256.LogExists | crates/coding/src/gf256.rs:35-64 | The table walk by 3 meets every nonzero byte within 255 steps |
| Gf256.PowersDistinct | crates/coding/src/gf256.rs:35-64 | It meets none of them twice |
| Gf256.WalkTables | crates/coding/src/gf256.rs:35-50 | The walk fills exp with the powers of 3 and log with their inverse |
| Gf256.BuildTables | crates/coding/src/gf256.rs:35-64 | The finished tables: doubled exp, log of every byte, and every product in the multiply table |
| GfSlices.NibbleProduct | crates/coding/src/gf256.rs:80-98 | Two nibble look-ups XOR to the product |
| GfSlices.AxpySlice | crates/coding/src/gf256.rs:106-144 | The slice kernel adds a times the source and touches nothing else, at any vector width |
| GfSlices.ScalSlice | crates/coding/src/gf256.rs:149-190 | The scaling kernel, likewise |
| Gauss.Pivot | crates/coding/src/gf256.rs:406-459 | One pivot step on the flat buffer is swap, scale and clear on its rows |
| Gauss.Eliminate | crates/coding/src/gf256.rs:406-459 | Elimination leaves the kernel of the rows unchanged and ends in reduced echelon form with as many pivots as the rank it answers |
| Gauss.FullRank | crates/coding/src/gf256.rs:406-459 | At rank k the first k columns are the identity |
| Gauss.RankDeficient | crates/coding/src/gf256.rs:406-459 | Below rank k there is a nonzero kernel vector on the unknowns |
| LinearSystems.SolveSystem | crates/coding/src/gf256.rs:406-459 | At full rank every solution equals the columns read off; below it every solution has a rival |
| Polynomials.TooManyRoots | crates/coding/src/rs.rs:55-86 | A polynomial with as many distinct roots as coefficients is zero |
| ReedSolomon.InvertMatrix | crates/coding/src/rs.rs:91-137 | The in-place inversion of a nonsingular matrix gives a two-sided inverse; of the singular one of more than 256 points, the matrix of `RepeatedPoints.WideResult` |
| ReedSolomon.VandermondeNonsingular | crates/coding/src/rs.rs:55-75 | The square Vandermonde part is invertible up to 256 points |
| ReedSolomon.BuildGenerator | crates/coding/src/rs.rs:55-86 | The generator is the identity over parity rows; up to 256 data symbols its codewords are the values of one polynomial of degree below k, beyond that the parities have a closed form; `Encode` says at which bytes |
| ReedSolomon.EvaluationCodeUnique | crates/coding/src/rs.rs:55-86 | Up to 256 data symbols there is only one such generator |
| ReedSolomon.MdsExactly | crates/coding/src/rs.rs:44-86 | For every k and m, any k distinct rows are independent if and only if k is 1, k + m is at most 256, m is 0, or m is 1 and the parity row has no zero entry |
| ReedSolomon.RepeatedPointClash | crates/coding/src/rs.rs:55-86 | Beyond 256 points, k distinct rows that miss a nonzero vector |
| RepeatedPoints.WideResult | crates/coding/src/rs.rs:91-137 | For more than 256 points the loop returns a matrix under which row r of powers reads x[r % 256] plus the sum of Point(r)^s (x[s] + x[s % 256]) over s from 256 on |
| RepeatedPoints.BottomLeft | crates/coding/src/rs.rs:108-122 | After 256 pivots the remaining rows are zero on the left, so no further pivot is found |
| RepeatedPoints.WideCodeUnique | crates/coding/src/rs.rs:55-86 | That closed form determines the generator |
| RepeatedPoints.WideMdsExactly | crates/coding/src/rs.rs:44-86 | Beyond 256 data symbols any k rows are independent exactly without parity, or with one parity row without zeros |
| RepeatedPoints.FullRowClosed | crates/coding/src/rs.rs:55-86 | Whether the one parity row has a zero is decided by two sums of powers and a product, of k / 256, k % 256 and the row's point |
| RepeatedPoints.SumVanishes | crates/coding/src/rs.rs:55-86 | Such a sum of n powers of x vanishes exactly if x is 1 and n even, or x is another point and x^n is 1 |
| RepeatedPoints.FullRowExists | crates/coding/src/rs.rs:55-86 | The row of 513 data symbols has no zero |
| RepeatedPoints.NarrowRow | crates/coding/src/rs.rs:55-86 | From 257 to 511 data symbols the first parity row always has a zero |
| RepeatedPoints.TwoParitiesClash | crates/coding/src/rs.rs:55-86 | From 512 data symbols on, two parity rows agree on positions 256 and 511, so k rows miss a nonzero vector |
| ReedSolomon.NewEncoder | crates/coding/src/rs.rs:147-157 | Refuses k = 0 and otherwise holds the generator |
| ReedSolomon.Encode | crates/coding/src/rs.rs:167-196 | Checks shapes and keeps the data as the first k symbols. Up to 256 data symbols byte t of symbol i is the value at the byte i + 1 of one polynomial with k coefficients; beyond, parity i is data symbol i modulo 256 plus, at the byte i + 1, the polynomial of what each data symbol j differs by from data symbol j modulo 256 |
| ReedSolomon.Decode | crates/coding/src/rs.rs:203-253 | For every shape, data consistent with the survivors come back, or have a rival; with distinct survivors and a shape of `MdsExactly` they always come back |
| ReedSolomon.AnyKReconstruct | crates/coding/src/rs.rs:147-253 | In every shape of `MdsExactly`, encoding, losing all but any k distinct symbols and decoding gives exactly the data |
| Peeling.SubstituteKeepsMeaning | crates/coding/src/fountain.rs:542-558 | Substituting a revealed source keeps what a symbol says |
| Peeling.SingleCoverReveals | crates/coding/src/fountain.rs:520-541 | A symbol with one source left fixes that source |
| Peeling.RevealKeepsMeaning | crates/coding/src/fountain.rs:518-565 | A reveal with its ripple keeps the set of explanations |
| Peeling.Ripple | crates/coding/src/fountain.rs:542-558 | The ripple substitutes into exactly the live symbols that cover the source and keeps degrees and queue right |
| Peeling.Reveal | crates/coding/src/fountain.rs:518-565 | One turn of the peeling loop keeps the bookkeeping, and the explanations if no symbol was spent to begin with; it spends one symbol, and one spent before reveals its source as empty |
| Peeling.Peel | crates/coding/src/fountain.rs:498-565 | The whole peeling phase reveals exactly the least set outside of which no symbol covers one source, keeps the explanations of live symbols, and spends symbols unless none covers a single source |
| Peeling.ResidualMeaning | crates/coding/src/fountain.rs:575-613 | The residual rows say about the unknowns what the live symbols say |
| Peeling.BuildResidual | crates/coding/src/fountain.rs:579-613 | The residual matrix is built row by row from the live symbols |
| Peeling.PeelSymbols | crates/coding/src/fountain.rs:493-640 | For unspent symbols true of x: the answer is x, or Underdetermined and a second source explains the same symbols. Sources revealed by spent symbols come out empty. Symbols are spent exactly if one covers a single source. Symbols without bytes are decoded exactly if nothing stops the peeling |
| StoppingSets.PeelableExactly | crates/coding/src/fountain.rs:516-565 | The least closed set is all sources exactly if no nonempty set of sources meets no cover in exactly one |
| StoppingSets.AfterStops | crates/coding/src/fountain.rs:542-565 | A peel does not change which sets stop it, so without bytes an attempt costs nothing |
| StoppingSets.StuckPair | crates/coding/src/fountain.rs:516-565 | Two symbols over the same two sources are such a case |
| StoppingSets.PeelableCount | crates/coding/src/fountain.rs:443-449 | Peeling k sources takes at least k symbols |
| Peeling.TooFewIsAmbiguous | crates/coding/src/fountain.rs:443-453 | Fewer symbols than sources are always ambiguous |
| Fountain.WireRoundTrip | crates/coding/src/fountain.rs:328-366 | A symbol framed by the encoder is parsed back to its cover and payload |
| Fountain.WireOverflow | crates/coding/src/fountain.rs:328-366 | A mix of 65536 sources overflows the count and is read as no symbol |
| Fountain.SystematicTrueExactly | crates/coding/src/fountain.rs:306-320 | In a generation of any size the symbol of source i is true exactly if source i equals source i modulo 65536 |
| Fountain.FountainEncoder.RepairSymbol | crates/coding/src/fountain.rs:328-366 | A repair symbol is the framed combination of its pick |
| Fountain.FountainEncoder.Produce | crates/coding/src/fountain.rs:306-325 | Systematic symbols first, then one repair symbol for each pick, in order: its bytes are the count, the picked indices with their coefficients and the sum of exactly those sources; up to 65536 symbols it parses to that cover and is true, or is read as nothing if it picks all 65536 |
| Fountain.FountainDecoder.Ingest | crates/coding/src/fountain.rs:402-432 | Short wires are refused, empty covers dropped, everything else kept as parsed |
| Fountain.FountainDecoder.Decode | crates/coding/src/fountain.rs:443-453 | Sound and complete on everything received until an attempt spends a symbol, never the source afterwards, and which attempts spend symbols; without bytes, decoded exactly if nothing stops the peeling of everything received |
| Fountain.RetryExactly | crates/coding/src/fountain.rs:402-453 | With all systematic symbols present at the second attempt, it gives the source if and only if the symbols have no bytes, or the first had too few symbols or none that covers a single source |
| Fountain.WholeTransmissionDecodes | crates/coding/src/fountain.rs:306-453 | True symbols that include all systematic ones decode to the source, in any order, with duplicates |
| Loss.DecodesExactly | crates/coding/src/fountain.rs:443-453 | Of any true symbols, the decode is the source if and only if no nonzero vector is missed by all covers |
| Loss.Transmit | crates/coding/src/fountain.rs:306-453 | A generation over a link that drops, repeats and reorders: the source comes back if and only if only the zero vector is zero at every source whose symbol arrived and has sum zero under every pick that arrived, that is, if the picks have full rank on the lost sources; nothing else ever comes back |
| Rlnc.ResidueIsInnovation | crates/coding/src/rlnc.rs:212-240 | A packet's residue vanishes exactly when its coefficients are a combination of earlier ones |
| Rlnc.InsertKeepsReduced | crates/coding/src/rlnc.rs:240-257 | Normalising and clearing keeps reduced rows with distinct pivots |
| Rlnc.RlncDecoder.AddPacket | crates/coding/src/rlnc.rs:212-257 | Answers true exactly for an innovative packet and keeps the reduced form; wrong sizes change nothing |
| Rlnc.RlncDecoder.Decode | crates/coding/src/rlnc.rs:260-281 | With k innovative packets the sources come back in their positions for every arrival order |
| Rlnc.SparseDecode | crates/coding/src/rlnc.rs:159-178 | The peeling path returns the sources or reports too few while a rival exists; without bytes, exactly if nothing stops the peeling |
| Blocks.CanonicalRoundTrip | crates/core/src/canonical.rs:23-76 | Parsing canonical bytes with anything behind them gives the block |
| Blocks.ParsedIsCanonical | crates/core/src/canonical.rs:57-116 | Whatever parses, its canonical bytes are the bytes parsed, so its id is its own hash |
| Blocks.RootInjective | crates/core/src/merkle.rs:18-45 | The chained root determines the log |
| Blocks.ComputeRoot | crates/core/src/merkle.rs:39-45 | The loop computes the chained root |
| Blocks.CompressRoundTrip | crates/compress/src/lib.rs:133-215 | Decompression undoes compression on both the raw and the zstd path |
| Blocks.CompressSaves | crates/compress/src/lib.rs:133-172 | Compressed exactly where that saves more than the marker, with the exact length |
| Store.RunAppend | crates/core/src/store.rs:187-376 | Runs of store operations compose |
| Wal.SeedRoundTrip | crates/core/src/wal.rs:125-154 | A seed payload is parsed back to its manifest and root |
| Wal.RecordMeansOp | crates/core/src/wal.rs:97-166 | Replaying an operation's record is the operation |
| Wal.RepeatIsShort | crates/core/src/store.rs:187-376 | Content that is there already costs the log its bare id, or nothing |
| Wal.ReplayTorn | crates/core/src/wal.rs:191-256 | A record cut anywhere is not applied |
| Wal.ReplayRun | crates/core/src/wal.rs:191-256 | Replaying the log of any run gives exactly the live store |
| Wal.CutReplay | crates/core/src/wal.rs:191-256 | Cut at any byte, the log replays to the longest run of operations whose records are whole |
| Wal.TruncateAndContinue | crates/core/src/wal.rs:65-91 | After the torn tail is cut, appended operations replay behind the surviving ones |
| Wal.FlushedSurvives | crates/core/src/wal.rs:170-178 | Every operation flushed before a crash survives it |
| Wal.SmallAllLoggable | crates/core/src/store.rs:187-376 | Operations on blocks up to the 512 MiB record limit never make a record that is refused |
| DurableStore.ContentStore.InsertWithCanonical | crates/core/src/store.rs:187-268 | Stores new content once, appends to the session log, and shadows full bytes or a bare id |
| DurableStore.ContentStore.ReferenceBlock | crates/core/src/store.rs:272-297 | Refuses an unknown id, otherwise appends it and logs it |
| DurableStore.ContentStore.SeedSession | crates/core/src/store.rs:306-332 | Replaces the session log by a manifest and logs it |
| DurableStore.ContentStore.StoreContentWithId | crates/core/src/store.rs:340-376 | Stores content without touching any log; a repeat logs nothing |
| DurableStore.ContentStore.ReconstructSession | crates/core/src/store.rs:426-440 | The stored blocks of the session in log order |
| DurableStore.ContentStore.FlushWal | crates/core/src/store.rs:136-162 | Success means the file replays to the live maps; after the first failure there is no further success |
| DurableStore.ContentStore.CrashCut | crates/core/src/wal.rs:65-91 | A crash that keeps the flushed bytes restores a whole-operation prefix that includes them, after failed flushes too, for every cut up to the first record refused for its size |
| DurableStore.ContentStore.FlushedReplays | crates/core/src/store.rs:136-162 | The flushed bytes replay to the state at the flush, even after a latched error |
| DurableStore.Replay | crates/core/src/wal.rs:191-256 | The replay loop computes the replay of the bytes and the length of its whole records |
| DurableStore.WithWal | crates/core/src/store.rs:113-119 | Opening replays the file, cuts its torn tail and continues there |
| DurableStore.ReplayContentAddressed | crates/core/src/wal.rs:191-256 | Whatever bytes a file holds, every restored block sits under its own hash |
| FrameCodec.FrameRoundTrip | crates/core/src/frame.rs:121-372 | Decoding the encoding of any frame within the limits gives the frame, for all five kinds |
| FrameCodec.DecodedFits | crates/core/src/frame.rs:220-372 | Whatever bytes decode, the frame keeps every limit, so encoding it again and decoding gives the same frame |
| FrameCodec.ProperPrefixRejected | crates/core/src/frame.rs:220-431 | Every proper prefix of an encoding is reported as truncated |
| FrameCodec.BodyStable | crates/core/src/frame.rs:251-332 | Bytes behind a decoded frame do not change it |
| FrameCodec.EncodeBytes | crates/core/src/frame.rs:121-187 | The encoder that appends to a buffer writes the frame's encoding, for all five kinds |
| FrameCodec.DecodeBytes | crates/core/src/frame.rs:220-332 | The decoder that advances a window gives the frame or the same error, for every buffer |
| FrameTotality.DecodePanicsExactly | crates/core/src/frame.rs:220-372 | For every buffer: decoding runs out of bounds if and only if it is an APPEND with a count in bounds and some of its first entries parse and leave exactly a block length of zero |
| FrameTotality.EntryPanics | crates/core/src/frame.rs:336-342 | One block entry runs out of bounds exactly on four zero bytes |
| FrameTotality.PanicInput | crates/core/src/frame.rs:336-342 | A frame of 57 bytes on which it does, for every root |
| FrameTotality.SafeUnlessEndsInZeros | crates/core/src/frame.rs:220-372 | A buffer that does not end in four zero bytes is safe |
| Receiver.Receiver.constructor | crates/receiver/src/lib.rs:96-136 | Rebuilds pending sets and flags from a replayed store |
| Receiver.Receiver.ResolveBlocks | crates/receiver/src/lib.rs:182-207 | Resolves the frame's blocks in order or stops at the first error |
| Receiver.Receiver.CheckRefs | crates/receiver/src/lib.rs:208-223 | Accepts exactly the frames whose references are stored or inline earlier in the frame |
| Receiver.Receiver.HandleAppend | crates/receiver/src/lib.rs:158-288 | Extends, answers a replay again or rejects, with the whole new state; the log is latched exactly if it was before or a record of the frame is refused |
| Receiver.Receiver.HandleResync | crates/receiver/src/lib.rs:292-327 | Seeds the manifest and names the missing ids |
| Receiver.Receiver.ParseRecords | crates/receiver/src/lib.rs:382-402 | The record parser stops at a zero length or a truncated tail |
| Receiver.Receiver.HandleBulk | crates/receiver/src/lib.rs:336-467 | Feeds the decoder, stores what it recovers and completes the cold start once; decoders answer as the fountain decoder does |
| Receiver.Receiver.HandleFrame | crates/receiver/src/lib.rs:470-515 | The frame sent back, by `Replies.AppendReply`, `Replies.ResyncReply` and `Replies.BulkReply`; ACK and MISSING frames are ignored; the log is latched exactly if it was before or a record of the frame is refused |
| Replies.ResyncAnswered | crates/receiver/src/lib.rs:292-497 | A RESYNC is answered by the ACK of the client root exactly if every manifest id has content, and otherwise by a MISSING frame that lists exactly the manifest ids without content, in manifest order |
| Replies.ResyncEffects | crates/receiver/src/lib.rs:292-327 | A RESYNC makes the manifest the log and waits for exactly its ids without content; content, decoders and other sessions stay |
| Replies.AppendAnswered | crates/receiver/src/lib.rs:182-288 | An APPEND is answered by the error of the first unreadable block, else MissingRef if a reference is neither stored nor inline before it, else ColdStartInProgress if anything is pending, else the ACK of the root it leads to if the session stands at its base or at that root, else BaseRootMismatch |
| Replies.AppendEffects | crates/receiver/src/lib.rs:225-288 | A refused or replayed APPEND leaves the store alone, an accepted one adds the ids of its blocks to its session only, and none touches a cold start |
| Replies.BulkAnswered | crates/receiver/src/lib.rs:436-511 | A BULK frame is answered by an ACK of the session root exactly when it completes the session for the first time, and by nothing otherwise; the log and the decoders of other generations stay |
| ReceiverModel.RunItems | crates/receiver/src/lib.rs:268-288 | Applying an accepted frame appends exactly its ids, advances the root over them and stores its inline blocks |
| ReceiverModel.UnpackCompressed | crates/receiver/src/lib.rs:187-207 | A compressed canonical block is unpacked to itself under its own id |
| AckSafety.AckNeverOverstates | crates/receiver/src/lib.rs:96-515 | In every run on arbitrary frames, decoder answers and restarts: blocks sit under their hash, logged ids without content are pending, and an ACK names a root whose whole log is held and reconstructs |
| AckSafety.AtMostOneBulkAck | crates/receiver/src/lib.rs:436-462 | Between two RESYNCs of a session its BULK frames draw exactly one ACK if they complete it and none otherwise |
| AckSafety.FrameKeeps | crates/receiver/src/lib.rs:470-515 | Every frame keeps the invariant and every ACK in reply is truthful |
| AckSafety.NewKeeps | crates/receiver/src/lib.rs:96-136 | A restarted receiver satisfies the invariant, waits for exactly the logged ids without content, holds no decoder, and acknowledges exactly complete sessions |
| ChatSession.SessionShim.IngestTurn | crates/shim/src/lib.rs:127-193 | Appends the turn to log, root and store and frames it |
| ChatSession.SessionShim.ApplyAck | crates/shim/src/lib.rs:208-232 | Moves the base to the first prefix with the acknowledged root, or changes nothing when there is none |
| ChatSession.SessionShim.MakeResync | crates/shim/src/lib.rs:236-242 | The manifest the cold-start theorems speak of |
| ChatSession.ChatSession.PrepareRef | crates/sidecar/src/lib.rs:197-268 | One request in flight; a request is prepared exactly if the bounds hold, and then its bytes read back as the metadata and an APPEND frame of the session that resolves to the messages in order, numbered on from the session's next number, which moves on by as many |
| ChatSession.ChatSession.ApplyAck | crates/sidecar/src/lib.rs:270-276 | The request in flight is settled only by its own root |
| ChatModel.PrepareAtomic | crates/sidecar/src/lib.rs:202-268 | A request within the worst-case bound always fits after compression and framing, so every failure leaves the session as it was |
| ChatModel.WorstCaseReached | crates/sidecar/src/lib.rs:233-249 | The bound is reached by data that does not compress, so no smaller one would do |
| Requests.EnvelopeRoundTrip | crates/sidecar/src/lib.rs:95-140 | Reading an encoded request gives metadata and frame back; with an empty frame it is refused |
| Requests.EnvelopeCanonical | crates/sidecar/src/lib.rs:95-140 | Any request that can be read, within the size bound, is the encoding of what was read |
| Requests.PreparedReads | crates/sidecar/src/lib.rs:117-268 | The sidecar reads every prepared request as the metadata and the frame that was prepared, and the frame resolves to the messages in order under their numbers |
| Requests.RequestApplies | crates/receiver/src/lib.rs:225-288 | At a receiver that stands at its base, such a frame adds each message once, in order, with its kind, payload and number |
| Requests.RunNumbers | crates/sidecar/src/lib.rs:252-256 | In every steady run of a new session block i of the client's log carries the number i + 1, so no block of it repeats |
| ChatModel.IngestSays | crates/shim/src/lib.rs:127-193 | Whatever the filter answers, the frame resolves to the turn's ids and each reference points back into the log |
| ChatModel.ReferencedExactly | crates/shim/src/lib.rs:140-185 | A block goes as a reference exactly if the filter may know it and its id is in the log before it |
| Replication.DeltaExactly | crates/shim/src/lib.rs:119-193 | The frame of a turn carries everything since the base root exactly if everything before the turn is acknowledged |
| Replication.LostTurn | crates/shim/src/lib.rs:127-193 | Otherwise a receiver that holds the base takes the turn onto it and acknowledges a log without the turns between, whose root is not the client's |
| Replication.SecondTurnAlone | crates/shim/src/lib.rs:127-193 | Two turns from a new session, the second delivered alone: the receiver's log is that turn |
| Replication.PrefixInvariant | crates/sidecar/src/lib.rs:197-276 | In every run with loss, duplication, reordering and foreign traffic the receiver's log is the client's up to the acknowledged length or in full, reconstructs the client's blocks, and the frame in flight always draws the expected root |
| Replication.Delivered | crates/receiver/src/lib.rs:225-288 | A frame for ids a to b at a receiver holding n extends the log if a = n, is acknowledged again if b = n, and is rejected otherwise |
| Replication.ArriveKeeps | crates/receiver/src/lib.rs:158-288 | Delivery of any frame ever sent keeps the system invariant |
| Replication.AcceptKeeps | crates/sidecar/src/lib.rs:343-352 | Accepting the ACK in flight is only possible when the receiver holds everything |
| Replication.ForeignLeaves | crates/receiver/src/lib.rs:470-515 | Frames of other sessions leave this session's log and bookkeeping alone |
| CrashRecovery.CrashPrefix | crates/receiver/src/lib.rs:96-288 | In every run with crashes, failed and missing flushes: the receiver holds a prefix of the client's log no shorter than the acknowledged one, exposed ACKs stay true, and the frame in flight draws the expected root if and only if all or nothing of it is held |
| CrashRecovery.CrashKeeps | crates/core/src/wal.rs:65-91 | A crash that keeps the flushed operations and any of the later ones keeps the invariant and loses no flushed part of the log |
| CrashRecovery.ReachKeeps | crates/sidecar/src/lib.rs:634-645 | Handling a frame and flushing before the ACK is exposed keeps the invariant, however the flush ends |
| CrashRecovery.TakeKeeps | crates/sidecar/src/lib.rs:343-352 | An ACK the client accepts names a log the flushed file holds in full |
| CrashRecovery.TornTurn | crates/core/src/wal.rs:65-91 | A run in which a crash inside a turn of two messages leaves one of them, and the retry is rejected |
| CrashRecovery.RepairApplies | crates/sidecar/src/lib.rs:356-376 | Every state of such a run meets what the repair asks of client and receiver |
| CrashRecovery.RepairResumes | crates/sidecar/src/lib.rs:356-376 | From every state of a run with crashes, a RESYNC, a complete transfer and its ACK put both ends in step for every further run |
| BulkModel.Shard | crates/shim/src/lib.rs:281-318 | The chunking loop cuts at record boundaries |
| BulkModel.GroupsKeep | crates/shim/src/lib.rs:301-318 | Grouping keeps every block in order, a group exceeds a generation only as a single record, and the first record of the next group would not have fitted |
| BulkModel.EncodeGeneration | crates/coding/src/bulk.rs:94-149 | A chunk is padded, split and coded: all source symbols in place, behind them one symbol for each pick, and all of them true |
| BulkModel.BulkFramesFor | crates/shim/src/lib.rs:263-352 | One whole frame per generation for the stored part of the missing set, each with the repair symbols picked for it |
| BulkModel.SourceUnpacks | crates/receiver/src/lib.rs:375-423 | A decoded generation, padding included, is parsed back into exactly its blocks |
| BulkModel.RecordsExactly | crates/receiver/src/lib.rs:382-402 | Any stream is the records behind their lengths, then something that starts with no record |
| ColdStart.WholeFrameRecovers | crates/receiver/src/lib.rs:336-467 | A whole frame at a fresh decoder stores its blocks, retires them and may complete the session |
| ColdStart.PiecesJoin | crates/receiver/src/lib.rs:336-375 | A frame that leaves too few symbols, or on which an attempt fails and spends nothing, is kept: the next one of its generation does what both do in one frame |
| ColdStart.OrderIndependent | crates/receiver/src/lib.rs:292-497 | After an honest RESYNC and a transfer of what its reply names, for any order, duplicates and losses: log and root are the client's, pending is what has not arrived, one ACK on completion (in the reply itself if it names nothing), and then the client's blocks in manifest order |
| ColdStart.CompletionCarriesRoot | crates/receiver/src/lib.rs:436-462 | The completion ACK carries the client's root |
| ColdStart.ColdStartResumes | crates/sidecar/src/lib.rs:356-376 | After a complete transfer and its ACK every further run is in step, delayed APPENDs included |
| Projection.AppendPayloads | crates/sidecar/src/lib.rs:771-809 | The chunks concatenate to the comma-joined payloads, the byte count is exact, and chunks are small or single payloads |
| Projection.JoinSeparates | crates/sidecar/src/lib.rs:771-809 | Each payload stands whole at its place, behind one comma unless it is the first, and the last ends the text |
| Projection.Cache.Get | crates/sidecar/src/lib.rs:460-468 | Answers an entry only at its own root, which makes it the most recent, and keeps the map |
| Projection.Cache.Insert | crates/sidecar/src/lib.rs:470-487 | The most recent of the other sessions stay, as many as fit 64 sessions and 256 MiB; list, map and byte count agree |
| Projection.Cache.Remove | crates/sidecar/src/lib.rs:489-494 | Drops one session and keeps the rest in order |
| Projection.DroppedAt | crates/sidecar/src/lib.rs:489-499 | Dropping a session cuts it out of the recency list and keeps the order of the others |
| Sidecar.ExtendOrReconstruct | crates/sidecar/src/lib.rs:728-768 | Extending a cached prefix and rebuilding from the store give the same projection of the whole session; a rebuild succeeds exactly if every message is valid and otherwise names the first that is not |
| Sidecar.Sidecar.HandleChat | crates/sidecar/src/lib.rs:630-660 | The receiver handles the frame and its errors are passed on. An acknowledged append is not durable exactly if the log was latched or, with one attached, refuses a record or is not written; a durable one is served exactly if a projection stood at the base root or every message is valid, else the first invalid one is named. What is served is the comma-joined payloads of the complete session log at the acknowledged root, with its exact length |
| Sidecar.Sidecar.AppendDurably | crates/sidecar/src/lib.rs:636-645 | The append, and its flush before the ACK is used |
| Sidecar.Sidecar.HandleGeneric | crates/sidecar/src/lib.rs:569-605 | The receiver handles the frame; its reply is exposed exactly when everything is durable, its errors are passed on, and the session's cached projection is dropped |
| Mmr.MountainRange.Append | crates/core/src/mmr.rs:108-143 | Appending with merges keeps the forest over all leaves |
| Mmr.MountainRange.Shape | crates/core/src/mmr.rs:75-143 | After n appends the heights are the binary digits of n and the arena has 2n nodes less one per peak |
| Mmr.HeightsAreDigits | crates/core/src/mmr.rs:108-143 | Strictly decreasing heights are the binary digits of the leaf count |
| Mmr.MountainRange.Root | crates/core/src/mmr.rs:148-159 | The bagged root is a function of the leaves |
| Mmr.SevenLeaves | crates/core/src/mmr.rs:148-159 | The root of seven leaves, written out: trees of four, two and one, bagged from the left |
| Mmr.RootDeterminesLeaves | crates/core/src/mmr.rs:148-159 | At equal leaf counts equal roots mean equal leaves |
| Mmr.InjectiveHashes | crates/core/src/mmr.rs:28-42 | Hashes that are injective and tell leaves from pairs, the hypotheses of the results on roots and proofs, exist |
| Mmr.ClimbPath | crates/core/src/mmr.rs:171-214 | Climbing a proof from another leaf gives the root of the tree with that leaf replaced |
| Mmr.ClimbOnlyPaths | crates/core/src/mmr.rs:205-214 | Any path that climbs from an id to a tree's hash is the path of a leaf with that id |
| Mmr.MountainRange.SuppliedProof | crates/core/src/mmr.rs:202-214 | A supplied proof leads to one of the peaks if and only if it is the path of a leaf with that id |
| Mmr.MountainRange.InclusionProof | crates/core/src/mmr.rs:171-200 | The siblings from leaf to peak, or nothing out of range |
| Mmr.PeakFromProof | crates/core/src/mmr.rs:205-214 | The proof is climbed from the leaf |
| Mmr.MountainRange.VerifyInclusion | crates/core/src/mmr.rs:219-225 | Holds of the i-th leaf, and of nothing else if the hashes are injective |
| Zeckendorf.LargestFibs | crates/coding/src/zeckendorf.rs:22-36 | The last Fibonacci numbers in 64 bits, and that the next is beyond |
| Zeckendorf.FibTable | crates/coding/src/zeckendorf.rs:25-36 | The table holds 92 Fibonacci numbers and none of its sums wraps |
| Zeckendorf.GreedyDecomposes | crates/coding/src/zeckendorf.rs:60-86 | The greedy bits sum to the number and no two are adjacent |
| Zeckendorf.DecompositionUnique | crates/coding/src/zeckendorf.rs:3-6 | Zeckendorf's theorem: no other such bits have the same sum |
| Zeckendorf.CodewordRoundTrip | crates/coding/src/zeckendorf.rs:102-133 | A codeword at any bit position decodes to its value and its own length, whatever follows |
| Zeckendorf.PrefixFree | crates/coding/src/zeckendorf.rs:3-9 | No codeword is a proper prefix of another |
| Zeckendorf.StreamRoundTrip | crates/coding/src/zeckendorf.rs:179-219 | Decoding a stream behind zero padding gives exactly the numbers pushed |
| Zeckendorf.Relocks | crates/coding/src/zeckendorf.rs:7-8 | Behind debris without a terminator the decoder locks on at the end of the next codeword, or one bit into it exactly if the debris ends and the codeword begins with 1 |
| Zeckendorf.StraddleRest | crates/coding/src/zeckendorf.rs:102-133 | After a straddle the decoder is back in step at the end of the same codeword exactly if it is not the codeword of one |
| Zeckendorf.ResyncExactly | crates/coding/src/zeckendorf.rs:102-219 | For every debris without a terminator: how many numbers are lost, how many come out instead, and that all others decode as pushed |
| Zeckendorf.OnlyOneLost | crates/coding/src/zeckendorf.rs:7-8 | One number is lost behind the debris exactly unless it is a zero behind a straddle with others after it |
| ZeckStreams.ZeckEncode | crates/coding/src/zeckendorf.rs:60-86 | The packed buffer holds exactly the codeword's bits |
| ZeckStreams.CodewordBits | crates/coding/src/zeckendorf.rs:154-161 | One more than the highest set bit |
| ZeckStreams.DecodeCodeword | crates/coding/src/zeckendorf.rs:102-133 | The scanning decoder on packed bytes, for every buffer |
| ZeckStreams.DecodeAll | crates/coding/src/zeckendorf.rs:204-219 | The decoding loop, for every buffer |
| ZeckStreams.ZeckStream.Push | crates/coding/src/zeckendorf.rs:179-195 | Appends the codeword across byte boundaries |
| ZeckStreams.ZeckStream.Finish | crates/coding/src/zeckendorf.rs:196-219 | The finished buffer decodes to the numbers pushed |
| HomoHash.MersenneReduction | crates/coding/src/homohash.rs:59-75 | One fold reduces a product of residues fully |
| HomoHash.PowMod | crates/coding/src/homohash.rs:78-89 | Square-and-multiply computes the power |
| HomoHash.SubgroupGen | crates/coding/src/homohash.rs:93-115 | The search passes over 2 and ends at a generator g with g^1321 = 1 and g not 1 |
| HomoHash.GeneratorHasOrderQ | crates/coding/src/homohash.rs:93-115 | A power of the generator is 1 exactly if 1321 divides the exponent |
| HomoHash.TrivialGenerators | crates/coding/src/homohash.rs:137-148 | The generator of coordinate i is 1 exactly if 1321 divides i + 1 |
| HomoHash.FirstTrivialGenerator | crates/coding/src/homohash.rs:137-148 | The first trivial one is that of coordinate 1320 |
| HomoHash.GeneratorOrderExactly | crates/coding/src/homohash.rs:117-148 | Power e of generator i is 1 exactly if 1321 divides (i + 1) e |
| HomoHash.SameHashExactly | crates/coding/src/homohash.rs:171-187 | Two vectors have the same hash exactly if their sums of (i + 1) c_i agree modulo 1321 |
| HomoHash.OneTamperedExactly | crates/coding/src/homohash.rs:224-239 | A change to one coordinate goes unnoticed exactly if it is a multiple of 1321 or the coordinate's generator is trivial |
| HomoHash.HashIsLinear | crates/coding/src/homohash.rs:171-197 | The hash of a c1 + b c2 over GF(1321) is the combination of the hashes |
| HomoHash.HashIsLinearMany | crates/coding/src/homohash.rs:203-216 | Likewise for any number of vectors |
| HomoHash.BuildTables | crates/coding/src/homohash.rs:137-165 | Generators, all their powers and the index of each unit hash |
| HomoHash.HomomorphicHash.Hash | crates/coding/src/homohash.rs:171-187 | The table look-ups compute the product of powers; a wrong length is refused |
| HomoHash.Combine | crates/coding/src/homohash.rs:193-197 | Combines two hashes by exponentiation |
| HomoHash.HomomorphicHash.CombineMany | crates/coding/src/homohash.rs:203-216 | The table path and the exponentiation path agree |
| HomoHash.HomomorphicHash.VerifyCoded | crates/coding/src/homohash.rs:224-239 | Refuses a wrong length; for unit hashes it compares with the hash of the row, and a row passes for the hash of another exactly if their weighted sums agree modulo 1321 |
| CuckooFilter.AltInvolutive | crates/core/src/filter.rs:117-123 | Going to the other bucket twice leads back |
| CuckooFilter.KickKeeps | crates/core/src/filter.rs:134-158 | A kick keeps every item in one of its two buckets or in hand |
| CuckooFilter.InsertKeeps | crates/core/src/filter.rs:128-178 | An insert that does not grow the table keeps every item found, and its own |
| CuckooFilter.InsertAnswers | crates/core/src/filter.rs:128-178 | An insert answers false exactly if it leaves the filter latched; the count goes up exactly if it answers true |
| CuckooFilter.RoomInserts | crates/core/src/filter.rs:134-146 | Where its own bucket has room an insert takes its first empty slot and changes nothing else |
| CuckooFilter.VictimMoves | crates/core/src/filter.rs:134-158 | Where it has none, the fingerprint takes the slot of a victim, which takes the first empty slot of its other bucket |
| CuckooFilter.NoFalseNegatives | crates/core/src/filter.rs:128-226 | In every run of inserts and clears, until the table grows every id whose insert answered true since the last clear is found, saturation included |
| CuckooFilter.RehashFiles | crates/core/src/filter.rs:274-298 | Growing leaves each fingerprint in a bucket it is filed in, unless both are full |
| CuckooFilter.RehashFindsExactly | crates/core/src/filter.rs:240-313 | After growing an item is found exactly if its own buckets are those of its bare fingerprint and the fingerprint got a place |
| CuckooFilter.GrowthFindsExactly | crates/core/src/filter.rs:164-178 | Likewise after the whole insert, which also serves items that share its fingerprint and bucket |
| CuckooFilter.FalseNegative | crates/core/src/filter.rs:128-206 | A run in which an id whose insert answered true is reported absent |
| CuckooFilter.Filter.Grow | crates/core/src/filter.rs:240-313 | The doubled table is the rehash of the old one's fingerprints; at 2^24 buckets it does not grow |
| CuckooFilter.Filter.Insert | crates/core/src/filter.rs:128-178 | The new table, count, latch and answer, growth included; until the table grows every id inserted since the last clear stays findable |
| CuckooFilter.Filter.Contains | crates/core/src/filter.rs:185-206 | Exactly the stored fingerprints, everything once saturated, and no false negative until the table grows |
| CuckooFilter.Filter.Clear | crates/core/src/filter.rs:218-226 | Empties the filter and lifts the latch |
| Pruner.BlockBudgetKeepsTop | crates/prune/src/incremental.rs:99-135 | With distinct ids a block budget keeps exactly the highest (score, arrival) pairs ever inserted, for any scorer |
| Pruner.SizeBudgetKeepsSuffix | crates/prune/src/incremental.rs:69-135 | With distinct ids and the default score a size budget keeps the longest suffix of arrivals that fits, or the last alone |
| Pruner.KeepsHighestExactly | crates/prune/src/incremental.rs:47-135 | For every budget, scorer and run with updates: after every insert the highest of the latest insertions are kept, if and only if no insert strays |
| Pruner.SinksExactly | crates/prune/src/incremental.rs:99-135 | One insert under a block budget keeps the highest exactly unless it moves one of them below the highest of the others |
| Pruner.RegretsExactly | crates/prune/src/incremental.rs:99-135 | One insert under a size budget keeps what fits exactly unless an evicted entry would fit again or outranks the new one |
| Pruner.BlockBudgetKeepsRecent | crates/prune/src/incremental.rs:99-135 | With the default score, re-inserts included, a block budget b keeps exactly the b most recently inserted distinct ids |
| Pruner.SizeBudgetKeepsExactly | crates/prune/src/incremental.rs:69-135 | With the default score, re-inserts included, an arrival survives a size budget exactly if after every later arrival it is still its id's latest and it and the later ones fit, or it is the last |
| Pruner.LatestExactly | crates/prune/src/incremental.rs:99-109 | The latest arrivals, one for each id |
| Pruner.ShrunkReinsert | crates/prune/src/incremental.rs:99-135 | An entry evicted before an update shrinks another does not come back |
| Pruner.LoweredReinsert | crates/prune/src/incremental.rs:99-135 | A scorer that prefers what came first, and three inserts after which the highest is not kept |
| Pruner.FittedIsLongest | crates/prune/src/incremental.rs:116-133 | What eviction leaves is the longest suffix that fits, or one entry |
| Pruner.LaterScoresHigher | crates/prune/src/incremental.rs:66-71 | Below 2^44 arrivals recency dominates the default score |
| Pruner.IncrementalPruner.Insert | crates/prune/src/incremental.rs:99-135 | The survivors after an insert or update, the first one evicted, and agreement of map, index and total; what is kept is what the whole list of arrivals leaves |
| Pruner.IncrementalPruner.HighestFirst | crates/prune/src/incremental.rs:139-141 | The survivors from highest to lowest |
| GoldenRing.PlacementInjective | crates/coding/src/placement.rs:33-35 | Positions never collide on 64 bits |
| GoldenRing.Ring.Add | crates/coding/src/placement.rs:71-80 | A new entity takes a position no other has; a known one keeps its own; the maps stay inverse |
| GoldenRing.Ring.Remove | crates/coding/src/placement.rs:82-91 | Only the entity removed loses its position |
| GoldenRing.Ring.Route | crates/coding/src/placement.rs:94-104 | The one entity at the least clockwise distance |
| GoldenRing.RemoveStable | crates/coding/src/placement.rs:82-104 | Removing an entity reroutes only the keys that routed to it |
| GoldenRing.AddStable | crates/coding/src/placement.rs:71-104 | Adding an entity reroutes keys only to it |

## Left out

- Fountain.FountainEncoder.Produce: promises true symbols only up to 65536 sources, the most the 16-bit index can name; Fountain.SystematicTrueExactly says which systematic symbols are true beyond, repair symbols are not covered there.
- Peeling.PeelSymbols: takes symbols in the order in which a decoder holds them, spent ones ahead of what arrived later.
- ReedSolomon.RepeatedPointClash: is stated for 2 <= k <= 256; for larger k, where the square to be inverted is singular and what the loop returns is no inverse, RepeatedPoints.ZeroEntryClash and RepeatedPoints.TwoParitiesClash give the rows that fail.
- CuckooFilter.NoFalseNegatives: ends where the table grows, since ids are lost there; CuckooFilter.GrowthFindsExactly takes over.
- Pruner.BlockBudgetKeepsTop: takes distinct ids; Pruner.KeepsHighestExactly has the updates.
- Pruner.SizeBudgetKeepsSuffix: takes distinct ids; Pruner.KeepsHighestExactly and Pruner.SizeBudgetKeepsExactly have the updates.
- CrashRecovery.CrashPrefix: takes records within the 512 MiB limit of the log; a larger record, which the client's own frames cannot cause, is in DurableStore.ContentStore.CrashCut only.
- Replication.PrefixInvariant: covers steady-state runs without crashes, which are in CrashRecovery.CrashPrefix; ACKs are accepted for the request in flight only, and delayed RESYNC frames are not delivered in them.
- ColdStart.OrderIndependent: takes whole frames, decoders empty at RESYNC, and generations of at most 65536 symbols; losses are of whole frames.
- Receiver.Receiver.HandleBulk: holds each generation's decoder as a value in the session record rather than as a shared locked object.
- Sidecar.Sidecar.HandleChat: starts from the decoded APPEND frame; `Requests.DecodeEnvelope` and `FrameCodec.DecodeBytes` read it out of the request. The check of each new message as JSON is not part of this model.
- Loss.Transmit: takes symbols of at least one byte; without bytes Fountain.FountainDecoder.Decode says what is decoded.
- Requests.PreparedReads: leaves the metadata as bytes; parsing them as JSON is not part of this model.
- ColdStart.PiecesJoin: does not cover a failed attempt on a symbol of a single source, which spends it; see Fountain.RetryExactly.
- HTTP routing, authentication, header forwarding, streaming to the upstream and JSON parsing.
- The hash functions, zstd and the vector instructions themselves; the vector kernels are modelled as nibble look-ups and a scalar tail.
- Random number generators, the soliton distribution, loss adaptation and every statement about the probability of decoding or the balance of the ring.
- Thread interleavings, locks and partial write errors.
- `bulk::decode` reassembly of a payload from several generations; the cold start decodes each generation on its own.
- `RlncEncoder`: its packets are combinations by construction, and the decoder's result is stated for any such packets.
- `window_ordered` of the pruner, store statistics, `gf_div`, `peaks` and other getters: they would only add easy members.
- The transports, schedulers, hierarchical coding, Cayley and Fibonacci-hash modules.
