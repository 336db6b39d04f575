/** Writing lists item by item. An encoder is given what follows the item. */
module Encodings {
  import opened Common

  type Encoder<!T> = (T, Bytes) -> Bytes

  function EncodeAll<T>(enc: Encoder<T>, xs: seq<T>, tail: Bytes): Bytes {
    if xs == [] then tail else enc(xs[0], EncodeAll(enc, xs[1..], tail))
  }

  /** What follows an item does not influence how it is written. */
  ghost predicate Appends<T(!new)>(enc: Encoder<T>) {
    forall x, tail :: enc(x, tail) == enc(x, []) + tail
  }

  lemma {:induction false} EncodeAllTail<T(!new)>(enc: Encoder<T>, xs: seq<T>, tail: Bytes)
    requires Appends(enc)
    ensures EncodeAll(enc, xs, tail) == EncodeAll(enc, xs, []) + tail
  {
    if xs != [] {
      EncodeAllTail(enc, xs[1..], tail);
      assert enc(xs[0], EncodeAll(enc, xs[1..], tail)) == enc(xs[0], []) + EncodeAll(enc, xs[1..], tail);
      assert enc(xs[0], EncodeAll(enc, xs[1..], [])) == enc(xs[0], []) + EncodeAll(enc, xs[1..], []);
    }
  }

  lemma EncodeNone<T>(enc: Encoder<T>, tail: Bytes)
    ensures EncodeAll(enc, [], tail) == tail
  {}

  /** One more item, in front of what follows the list. */
  lemma {:induction false} EncodeAllMore<T>(enc: Encoder<T>, xs: seq<T>, x: T, tail: Bytes)
    ensures EncodeAll(enc, xs + [x], tail) == EncodeAll(enc, xs, enc(x, tail))
  {
    if xs == [] {
      assert (xs + [x])[1..] == [];
    } else {
      EncodeAllMore(enc, xs[1..], x, tail);
      assert (xs + [x])[1..] == xs[1..] + [x];
    }
  }

  /** Writing one more item. */
  lemma {:induction false} EncodeAllNext<T(!new)>(enc: Encoder<T>, xs: seq<T>, x: T)
    requires Appends(enc)
    ensures EncodeAll(enc, xs + [x], []) == EncodeAll(enc, xs, []) + enc(x, [])
  {
    if xs == [] {
      assert (xs + [x])[1..] == [];
    } else {
      EncodeAllNext(enc, xs[1..], x);
      assert (xs + [x])[1..] == xs[1..] + [x];
      assert enc(xs[0], EncodeAll(enc, xs[1..] + [x], [])) == enc(xs[0], []) + EncodeAll(enc, xs[1..] + [x], []);
      assert enc(xs[0], EncodeAll(enc, xs[1..], [])) == enc(xs[0], []) + EncodeAll(enc, xs[1..], []);
    }
  }

  /** Reading: the first of the items that are left. */
  lemma EncodeAllAt<T>(enc: Encoder<T>, xs: seq<T>, i: nat, tail: Bytes)
    requires i < |xs|
    ensures EncodeAll(enc, xs[i..], tail) == enc(xs[i], EncodeAll(enc, xs[i + 1..], tail))
  {
    assert xs[i..][0] == xs[i] && xs[i..][1..] == xs[i + 1..];
  }

  lemma EncodeAllEnds<T>(enc: Encoder<T>, xs: seq<T>, tail: Bytes)
    ensures EncodeAll(enc, xs[|xs|..], tail) == tail
    ensures xs[..|xs|] == xs && xs[0..] == xs
  {}
}
