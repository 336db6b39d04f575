/** The keys under which a write-ahead log is stored, and why seeking by key is seeking by index. */
module WalKeys {
  import opened BigEndians
  import opened Common
  import opened WalLogs

  /** bytes.Compare(a, b) < 0 */
  predicate Less(a: Bytes, b: Bytes) {
    if b == [] then false
    else if a == [] then true
    else if a[0] != b[0] then a[0] < b[0]
    else Less(a[1..], b[1..])
  }

  lemma {:induction false} LessAfterPrefix(p: Bytes, a: Bytes, b: Bytes)
    ensures Less(p + a, p + b) <==> Less(a, b)
  {
    if p == [] {
      assert p + a == a && p + b == b;
    } else {
      LessAfterPrefix(p[1..], a, b);
      assert (p + a)[1..] == p[1..] + a && (p + b)[1..] == p[1..] + b;
    }
  }

  lemma {:induction false} LessByLast(a: Bytes, b: Bytes, x: Byte, y: Byte)
    requires |a| == |b|
    ensures Less(a + [x], b + [y]) <==> Less(a, b) || (a == b && x < y)
  {
    if a != [] {
      LessByLast(a[1..], b[1..], x, y);
      assert (a + [x])[1..] == a[1..] + [x] && (b + [y])[1..] == b[1..] + [y];
      assert a == [a[0]] + a[1..] && b == [b[0]] + b[1..];
    }
  }

  /** Of byte strings of the same length, the order is that of the numbers. */
  lemma {:induction false} LessIsNumberLess(a: Bytes, b: Bytes)
    requires |a| == |b|
    ensures Less(a, b) <==> Number(a) < Number(b)
    ensures a == b <==> Number(a) == Number(b)
  {
    if a != [] {
      var i, j, x, y := a[..|a| - 1], b[..|b| - 1], a[|a| - 1], b[|b| - 1];
      LessIsNumberLess(i, j);
      LessByLast(i, j, x, y);
      assert a == i + [x] && b == j + [y];
    }
  }

  function EntryKey(group: Uuid, idx: Index): Bytes { group + BigEndian(idx, 8) }

  function HardStateKey(group: Uuid): Bytes { [0x68, 0x73] + group }

  function SnapshotKey(group: Uuid): Bytes { [0x73, 0x73] + group }

  function ParseIndex(key: Bytes): nat
    requires |key| >= 24
  {
    Number(key[16..24])
  }

  lemma IndexFits(idx: Index)
    ensures idx < Power256(8)
  {
    assert Power256(4) == 0x1_0000_0000;
    assert Power256(8) == 256 * (256 * (256 * (256 * Power256(4))));
  }

  /** The index can be read back from the key. */
  lemma ParsedIndex(group: Uuid, idx: Index)
    ensures |EntryKey(group, idx)| == 24 && ParseIndex(EntryKey(group, idx)) == idx
  {
    IndexFits(idx);
    NumberOfBigEndian(idx, 8);
    assert EntryKey(group, idx)[16..24] == BigEndian(idx, 8);
  }

  /** Iterating over the keys of a group in key order is iterating over its entries in index order. */
  lemma EntryKeysInOrder(group: Uuid, i: Index, j: Index)
    ensures Less(EntryKey(group, i), EntryKey(group, j)) <==> i < j
    ensures EntryKey(group, i) == EntryKey(group, j) <==> i == j
  {
    LessAfterPrefix(group, BigEndian(i, 8), BigEndian(j, 8));
    LessIsNumberLess(BigEndian(i, 8), BigEndian(j, 8));
    IndexFits(i);
    IndexFits(j);
    NumberOfBigEndian(i, 8);
    NumberOfBigEndian(j, 8);
    ParsedIndex(group, i);
    ParsedIndex(group, j);
  }

  /** Keys of different groups, or of different kinds, differ. */
  lemma KeysAreDistinct(g: Uuid, h: Uuid, i: Index, j: Index)
    ensures EntryKey(g, i) == EntryKey(h, j) <==> g == h && i == j
    ensures HardStateKey(g) == HardStateKey(h) <==> g == h
    ensures SnapshotKey(g) == SnapshotKey(h) <==> g == h
    ensures HardStateKey(g) != SnapshotKey(h)
    ensures EntryKey(g, i) != HardStateKey(h) && EntryKey(g, i) != SnapshotKey(h)
  {
    assert EntryKey(g, i)[..16] == g && EntryKey(h, j)[..16] == h;
    assert HardStateKey(g)[2..] == g && HardStateKey(h)[2..] == h;
    assert SnapshotKey(g)[2..] == g && SnapshotKey(h)[2..] == h;
    EntryKeysInOrder(g, i, j);
    assert HardStateKey(g)[0] == 0x68 && SnapshotKey(h)[0] == 0x73;
  }

  /**
   * An iterator over a group's prefix comes across the single record of a group h exactly if the
   * group's id is the record's two letters followed by h's first 14 bytes.
   */
  lemma SingleRecordsUnderPrefix(g: Uuid, h: Uuid)
    ensures g <= HardStateKey(h) <==> g == [0x68, 0x73] + h[..14]
    ensures g <= SnapshotKey(h) <==> g == [0x73, 0x73] + h[..14]
  {
    assert HardStateKey(h)[..16] == [0x68, 0x73] + h[..14];
    assert SnapshotKey(h)[..16] == [0x73, 0x73] + h[..14];
  }

  /** A random (version 4) identifier: the version is in the high half of the seventh byte. */
  predicate IsRandomUuid(g: Uuid) { g[6] / 16 == 4 }

  /** A group with a random id never comes across its own single records. */
  lemma OwnRecordsAreNotUnderPrefix(g: Uuid)
    requires IsRandomUuid(g)
    ensures !(g <= HardStateKey(g)) && !(g <= SnapshotKey(g))
  {
    SingleRecordsUnderPrefix(g, g);
    if g == [0x68, 0x73] + g[..14] {
      PeriodTwo(g, 0x68, 0x73);
    }
    if g == [0x73, 0x73] + g[..14] {
      PeriodTwo(g, 0x73, 0x73);
    }
  }

  lemma PeriodTwo(g: Uuid, a: Byte, b: Byte)
    requires g == [a, b] + g[..14]
    ensures g[6] == a
  {
    var s := [a, b] + g[..14];
    assert s[6] == g[4] && s[4] == g[2] && s[2] == g[0] && s[0] == a;
  }
}
