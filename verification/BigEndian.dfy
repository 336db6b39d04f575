/** Unsigned numbers as bytes, highest first: encoding/binary's BigEndian. */
module BigEndians {
  import opened Common

  function Power256(w: nat): nat { if w == 0 then 1 else 256 * Power256(w - 1) }

  /** The w lowest bytes of a number, highest first. */
  function BigEndian(n: nat, w: nat): (r: Bytes)
    ensures |r| == w
  {
    if w == 0 then [] else BigEndian(n / 256, w - 1) + [n % 256]
  }

  function Number(b: Bytes): nat {
    if b == [] then 0 else 256 * Number(b[..|b| - 1]) + b[|b| - 1]
  }

  lemma {:induction false} NumberOfBigEndian(n: nat, w: nat)
    requires n < Power256(w)
    ensures Number(BigEndian(n, w)) == n
  {
    if w > 0 {
      NumberOfBigEndian(n / 256, w - 1);
    }
  }

  lemma {:induction false} NumberIsBounded(b: Bytes)
    ensures Number(b) < Power256(|b|)
  {
    if b != [] {
      NumberIsBounded(b[..|b| - 1]);
    }
  }

  lemma {:induction false} BigEndianOfNumber(b: Bytes)
    ensures BigEndian(Number(b), |b|) == b
  {
    if b != [] {
      BigEndianOfNumber(b[..|b| - 1]);
    }
  }

  /** Reading back a number that fits its width. */
  lemma NumberAtFront(n: nat, w: nat, tail: Bytes)
    requires n < Power256(w)
    ensures |BigEndian(n, w) + tail| >= w
    ensures Number((BigEndian(n, w) + tail)[..w]) == n
    ensures (BigEndian(n, w) + tail)[w..] == tail
  {
    NumberOfBigEndian(n, w);
    assert (BigEndian(n, w) + tail)[..w] == BigEndian(n, w);
  }

  lemma Widths()
    ensures Power256(1) == 0x100 && Power256(2) == 0x1_0000 && Power256(4) == 0x1_0000_0000
  {}

  /** The w bytes from `at` on are a number. */
  predicate IsField(out: Bytes, at: nat, w: nat, n: nat) {
    at + w <= |out| && Number(out[at..][..w]) == n
  }

  lemma FieldFirst(out: Bytes, at: nat, n: nat, w: nat, tail: Bytes)
    requires n < Power256(w) && at <= |out| && out[at..] == BigEndian(n, w) + tail
    ensures IsField(out, at, w, n) && |out| == at + w + |tail| && out[at + w..] == tail
  {
    NumberAtFront(n, w, tail);
    assert out[at + w..] == out[at..][w..];
  }

  /** binary.Read of an unsigned number: nothing if the input is too short. */
  method ReadNumber(input: Bytes, w: nat, ghost n: nat, ghost tail: Bytes) returns (r: Option<nat>, rest: Bytes)
    ensures input == BigEndian(n, w) + tail && n < Power256(w) ==> r == Some(n) && rest == tail
    ensures r.Some? ==> r.value < Power256(w) && input == BigEndian(r.value, w) + rest
    ensures r.None? <==> |input| < w
  {
    if |input| < w {
      return None, [];
    }
    NumberIsBounded(input[..w]);
    BigEndianOfNumber(input[..w]);
    if input == BigEndian(n, w) + tail && n < Power256(w) {
      NumberAtFront(n, w, tail);
    }
    r, rest := Some(Number(input[..w])), input[w..];
  }

  /** Read of a fixed number of bytes: nothing if the input is too short. */
  method ReadBytes(input: Bytes, n: nat, ghost b: Bytes, ghost tail: Bytes) returns (r: Option<Bytes>, rest: Bytes)
    ensures input == b + tail && |b| == n ==> r == Some(b) && rest == tail
    ensures r.Some? ==> |r.value| == n && input == r.value + rest
    ensures r.None? <==> |input| < n
  {
    if |input| < n {
      return None, [];
    }
    r, rest := Some(input[..n]), input[n..];
  }
}
