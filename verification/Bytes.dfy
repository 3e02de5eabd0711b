/** Bytes and fixed-width unsigned integers in both byte orders, as they appear on the wire. */
module Bytes {

  type Byte = x: int | 0 <= x < 256

  const U32_LIMIT: nat := 0x1_0000_0000
  const U64_LIMIT: nat := 0x1_0000_0000_0000_0000

  /** The largest size `memcpy_s` accepts. */
  const MEM_MAX_LEN: nat := 0x7fffffff

  /** The pieces of a stream, put together. */
  function Flatten(pieces: seq<seq<Byte>>): seq<Byte> {
    if pieces == [] then [] else pieces[0] + Flatten(pieces[1..])
  }

  lemma {:induction false} FlattenConcat(a: seq<seq<Byte>>, b: seq<seq<Byte>>)
    ensures Flatten(a + b) == Flatten(a) + Flatten(b)
    decreases |a|
  {
    if a == [] {
      assert a + b == b;
    } else {
      FlattenConcat(a[1..], b);
      assert (a + b)[1..] == a[1..] + b;
    }
  }

  lemma FlattenOne(piece: seq<Byte>)
    ensures Flatten([piece]) == piece
  {
    assert Flatten([piece][1..]) == [];
  }

  function Pow256(n: nat): (p: nat)
    ensures p > 0
  {
    if n == 0 then 1 else 256 * Pow256(n - 1)
  }

  lemma Pow256Widths()
    ensures Pow256(4) == U32_LIMIT && Pow256(8) == U64_LIMIT
  {
    assert Pow256(2) == 256 * Pow256(1);
    assert Pow256(3) == 256 * Pow256(2);
    assert Pow256(4) == 256 * Pow256(3);
    assert Pow256(5) == 256 * Pow256(4);
    assert Pow256(6) == 256 * Pow256(5);
    assert Pow256(7) == 256 * Pow256(6);
    assert Pow256(8) == 256 * Pow256(7);
  }

  /** The `n` low bytes of `x`, least significant first: how the host stores an integer of width `n`. */
  function LittleEndian(x: nat, n: nat): (s: seq<Byte>)
    ensures |s| == n
  {
    if n == 0 then [] else [x % 256] + LittleEndian(x / 256, n - 1)
  }

  function FromLittleEndian(s: seq<Byte>): nat
  {
    if s == [] then 0 else s[0] + 256 * FromLittleEndian(s[1..])
  }

  lemma {:induction false} LittleEndianRoundTrip(x: nat, n: nat)
    requires x < Pow256(n)
    ensures FromLittleEndian(LittleEndian(x, n)) == x
  {
    if n > 0 {
      assert x / 256 < Pow256(n - 1);
      LittleEndianRoundTrip(x / 256, n - 1);
      assert LittleEndian(x, n)[1..] == LittleEndian(x / 256, n - 1);
    }
  }

  /** Four bytes as a number, least significant first. */
  function Word(a: int, b: int, c: int, d: int): int { a + 0x100 * b + 0x1_0000 * c + 0x100_0000 * d }

  lemma LittleEndianFour(s: seq<Byte>)
    requires |s| == 4
    ensures FromLittleEndian(s) == Word(s[0], s[1], s[2], s[3])
  {
    assert FromLittleEndian(s[1..][1..][1..]) == s[3] + 256 * FromLittleEndian(s[1..][1..][1..][1..]);
    assert FromLittleEndian(s[1..][1..]) == s[2] + 256 * FromLittleEndian(s[1..][1..][1..]);
  }

  lemma LittleEndianEight(s: seq<Byte>)
    requires |s| == 8
    ensures FromLittleEndian(s) == Word(s[0], s[1], s[2], s[3]) + U32_LIMIT * Word(s[4], s[5], s[6], s[7])
  {
    LittleEndianFour(s[4..]);
    assert s[1..][1..][1..][1..] == s[4..];
    assert FromLittleEndian(s[1..][1..][1..]) == s[3] + 256 * FromLittleEndian(s[4..]);
    assert FromLittleEndian(s[1..][1..]) == s[2] + 256 * FromLittleEndian(s[1..][1..][1..]);
  }

  lemma BigEndianFour(s: seq<Byte>)
    requires |s| == 4
    ensures FromBigEndian(s) == Word(s[3], s[2], s[1], s[0])
  {
    assert s[..3][..2][..1][..0] == [];
    assert FromBigEndian(s[..3][..2][..1]) == s[0];
    assert FromBigEndian(s[..3][..2]) == 256 * FromBigEndian(s[..3][..2][..1]) + s[1];
  }

  /** The `n` low bytes of `x`, most significant first: what `htonl` leaves in memory. */
  function BigEndian(x: nat, n: nat): (s: seq<Byte>)
    ensures |s| == n
  {
    if n == 0 then [] else BigEndian(x / 256, n - 1) + [x % 256]
  }

  function FromBigEndian(s: seq<Byte>): nat
  {
    if s == [] then 0 else 256 * FromBigEndian(s[..|s| - 1]) + s[|s| - 1]
  }

  lemma {:induction false} BigEndianRoundTrip(x: nat, n: nat)
    requires x < Pow256(n)
    ensures FromBigEndian(BigEndian(x, n)) == x
  {
    if n > 0 {
      assert x / 256 < Pow256(n - 1);
      BigEndianRoundTrip(x / 256, n - 1);
      assert BigEndian(x, n)[..n - 1] == BigEndian(x / 256, n - 1);
    }
  }
}
