/** Routing of identifiers to shards and partitions: utils/uuid.go. */
module Uuids {
  import opened Common
  import opened BigEndians

  /** Eight bytes of an identifier, from position `at`, as a little-endian number. */
  function LittleEndian(x: Uuid, at: nat): nat
    requires at <= 8
  {
    (x[at] as int) + 0x100 * (x[at + 1] as int) + 0x1_0000 * (x[at + 2] as int) + 0x100_0000 * (x[at + 3] as int)
    + 0x1_0000_0000 * (x[at + 4] as int) + 0x100_0000_0000 * (x[at + 5] as int)
    + 0x1_0000_0000_0000 * (x[at + 6] as int) + 0x100_0000_0000_0000 * (x[at + 7] as int)
  }

  /** Backwards, the same bytes are this number highest first. */
  lemma LittleEndianIsReversed(x: Uuid, at: nat)
    requires at <= 8
    ensures LittleEndian(x, at) ==
            Number([x[at + 7], x[at + 6], x[at + 5], x[at + 4], x[at + 3], x[at + 2], x[at + 1], x[at]])
  {
    var b: Bytes := [x[at + 7], x[at + 6], x[at + 5], x[at + 4], x[at + 3], x[at + 2], x[at + 1], x[at]];
    NumberGrows(b[..1], x[at + 6], b[..2]);
    NumberGrows(b[..2], x[at + 5], b[..3]);
    NumberGrows(b[..3], x[at + 4], b[..4]);
    NumberGrows(b[..4], x[at + 3], b[..5]);
    NumberGrows(b[..5], x[at + 2], b[..6]);
    NumberGrows(b[..6], x[at + 1], b[..7]);
    NumberGrows(b[..7], x[at], b);
    assert Number(b[..1]) == x[at + 7] by {
      assert Number(b[..1][..0]) == 0;
    }
  }

  lemma NumberGrows(b: Bytes, last: Byte, all: Bytes)
    requires all == b + [last]
    ensures Number(all) == 256 * Number(b) + last
  {
    assert all[..|all| - 1] == b;
  }

  /** Both halves reduced, added in 64 bits, and reduced again. */
  function UuidMod(x: Uuid, mod: nat): nat
    requires 0 < mod
  {
    ((LittleEndian(x, 0) % mod + LittleEndian(x, 8) % mod) % TWO_TO_THE_64) % mod
  }

  lemma RemainderIsUnique(x: nat, m: nat, q: int, r: nat)
    requires r < m && x == m * q + r
    ensures x % m == r
  {
    var d := q - x / m;
    assert m * d == x % m - r;
    MultipleIsFar(m, d);
  }

  lemma MultipleIsFar(m: nat, d: int)
    ensures d >= 1 ==> m * d >= m
    ensures d <= -1 ==> m * d <= 0 - m
  {}

  lemma AddMod(a: nat, b: nat, m: nat)
    requires 0 < m
    ensures (a % m + b % m) % m == (a + b) % m
  {
    var s := a % m + b % m;
    var q := a / m + b / m + s / m;
    assert a + b == m * q + s % m;
    RemainderIsUnique(a + b, m, q, s % m);
  }

  lemma SmallMod(x: nat, m: nat)
    requires x < m
    ensures x % m == x
  {}

  /** Up to a modulus of 2^63 the 64-bit addition does not overflow. */
  lemma UuidModIsSumMod(x: Uuid, mod: nat)
    requires 0 < mod <= 0x8000_0000_0000_0000
    ensures UuidMod(x, mod) == (LittleEndian(x, 0) + LittleEndian(x, 8)) % mod
    ensures UuidMod(x, mod) < mod
  {
    var lo, hi := LittleEndian(x, 0), LittleEndian(x, 8);
    SmallMod(lo % mod + hi % mod, TWO_TO_THE_64);
    AddMod(lo, hi, mod);
  }

  const SHARD_COUNT: nat := 16

  function ShardOf(id: Uuid): (i: nat)
    ensures i < SHARD_COUNT
  {
    UuidMod(id, SHARD_COUNT)
  }
}
