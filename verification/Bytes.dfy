/** Little-endian integers on byte sequences. */
module Bytes {
  import opened Gf256

  type Bytes = seq<bv8>

  const U64_MAX: nat := 0xFFFF_FFFF_FFFF_FFFF

  /** The parts one after the other. */
  function Flat(parts: seq<Bytes>): Bytes {
    if parts == [] then [] else Flat(parts[..|parts| - 1]) + parts[|parts| - 1]
  }

  function Pow256(w: nat): nat {
    if w == 0 then 1 else 256 * Pow256(w - 1)
  }

  /** The low w bytes of n, lowest first. */
  function LeBytes(n: nat, w: nat): (b: Bytes)
    ensures |b| == w
  {
    if w == 0 then [] else [ByteAt(n % 256)] + LeBytes(n / 256, w - 1)
  }

  function FromLe(b: Bytes): nat {
    if b == [] then 0 else Index(b[0]) + 256 * FromLe(b[1..])
  }

  lemma {:induction false} FromLeBytes(n: nat, w: nat)
    requires n < Pow256(w)
    ensures FromLe(LeBytes(n, w)) == n
  {
    hide Index, ByteAt;
    if w > 0 {
      IndexOfByte(n % 256);
      FromLeBytes(n / 256, w - 1);
      assert LeBytes(n, w)[1..] == LeBytes(n / 256, w - 1);
    }
  }

  lemma {:induction false} LeBytesFrom(b: Bytes)
    ensures LeBytes(FromLe(b), |b|) == b
    ensures FromLe(b) < Pow256(|b|)
  {
    hide Index, ByteAt;
    if b != [] {
      LeBytesFrom(b[1..]);
      ByteOfIndex(b[0]);
    }
  }

  lemma {:induction false} Widths()
    ensures Pow256(4) == 0x1_0000_0000
    ensures Pow256(8) == 0x1_0000_0000_0000_0000
    ensures Pow256(16) == 0x1_0000_0000_0000_0000_0000_0000_0000_0000
  {
  }
}
