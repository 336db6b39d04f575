/** Why bytes that were written for an index can be read in one way only. */
module UniqueCodes {
  import opened Common
  import opened BigEndians
  import opened Encodings
  import opened IndexBodies
  import opened IndexLoading

  /** The bytes of an item that fits, and what follows it, determine the item. */
  ghost predicate Unique<T(!new)>(enc: Encoder<T>, ok: T -> bool) {
    forall x, y, s, t :: ok(x) && ok(y) && enc(x, s) == enc(y, t) ==> x == y && s == t
  }

  lemma {:induction false} AllUnique<T(!new)>(enc: Encoder<T>, ok: T -> bool, xs: seq<T>, ys: seq<T>, s: Bytes,
          t: Bytes)
    requires Unique(enc, ok) && |xs| == |ys| && EncodeAll(enc, xs, s) == EncodeAll(enc, ys, t)
    requires forall i :: 0 <= i < |xs| ==> ok(xs[i]) && ok(ys[i])
    ensures xs == ys && s == t
  {
    if xs != [] {
      assert enc(xs[0], EncodeAll(enc, xs[1..], s)) == enc(ys[0], EncodeAll(enc, ys[1..], t));
      AllUnique(enc, ok, xs[1..], ys[1..], s, t);
      assert xs == [xs[0]] + xs[1..] && ys == [ys[0]] + ys[1..];
    }
  }

  lemma NumberUnique(a: nat, b: nat, w: nat, s: Bytes, t: Bytes)
    requires a < Power256(w) && b < Power256(w) && BigEndian(a, w) + s == BigEndian(b, w) + t
    ensures a == b && s == t
  {
    NumberAtFront(a, w, s);
    NumberAtFront(b, w, t);
  }

  lemma PrefixUnique(a: Bytes, b: Bytes, s: Bytes, t: Bytes)
    requires |a| == |b| && a + s == b + t
    ensures a == b && s == t
  {
    assert a == (a + s)[..|a|] && b == (b + t)[..|a|];
    assert s == (a + s)[|a|..] && t == (b + t)[|a|..];
  }

  ghost predicate IsKVFit(kv: M.KV) { |kv.key| < 0x100 && |kv.value| < 0x1_0000 }

  lemma KVUnique()
    ensures Unique(M.EncodeKV, kv => IsKVFit(kv))
  {
    Widths();
    forall x: M.KV, y: M.KV, s, t | IsKVFit(x) && IsKVFit(y) && M.EncodeKV(x, s) == M.EncodeKV(y, t)
      ensures x == y && s == t
    {
      var xs, ys := BigEndian(|x.value|, 2) + (x.value + s), BigEndian(|y.value|, 2) + (y.value + t);
      NumberUnique(|x.key|, |y.key|, 1, x.key + xs, y.key + ys);
      PrefixUnique(x.key, y.key, xs, ys);
      NumberUnique(|x.value|, |y.value|, 2, x.value + s, y.value + t);
      PrefixUnique(x.value, y.value, s, t);
    }
  }

  lemma MetadataUnique(x: seq<M.KV>, y: seq<M.KV>, s: Bytes, t: Bytes)
    requires M.Fits(x) && M.Fits(y) && M.EncodeMetadata(x, s) == M.EncodeMetadata(y, t)
    ensures x == y && s == t
  {
    Widths();
    NumberUnique(|x|, |y|, 2, EncodeAll(M.EncodeKV, x, s), EncodeAll(M.EncodeKV, y, t));
    KVUnique();
    AllUnique(M.EncodeKV, kv => IsKVFit(kv), x, y, s, t);
  }

  lemma VectorUnique(x: Vector, y: Vector, s: Bytes, t: Bytes)
    requires |x| == |y| && EncodeVector(x, s) == EncodeVector(y, t)
    ensures x == y && s == t
  {
    Widths();
    forall a: Float32, b: Float32, u, v | EncodeFloat(a, u) == EncodeFloat(b, v) ensures a == b && u == v {
      NumberUnique(a, b, 4, u, v);
    }
    AllUnique(EncodeFloat, a => true, x, y, s, t);
  }

  lemma VertexUnique(size: nat)
    ensures Unique(EncodeVertex, x => VertexFits(x, size))
  {
    Widths();
    forall x: VertexItem, y: VertexItem, s, t
      | VertexFits(x, size) && VertexFits(y, size) && EncodeVertex(x, s) == EncodeVertex(y, t)
      ensures x == y && s == t
    {
      var xm, ym := M.EncodeMetadata(x.kvs, s), M.EncodeMetadata(y.kvs, t);
      var xs, ys := EncodeVector(x.vector, xm), EncodeVector(y.vector, ym);
      PrefixUnique(x.id, y.id, BigEndian(x.level, 4) + xs, BigEndian(y.level, 4) + ys);
      NumberUnique(x.level, y.level, 4, xs, ys);
      VectorUnique(x.vector, y.vector, xm, ym);
      MetadataUnique(x.kvs, y.kvs, s, t);
    }
  }

  lemma ShardUnique(size: nat)
    ensures Unique(EncodeShard, xs => ShardFits(xs, size))
  {
    Widths();
    VertexUnique(size);
    forall x: seq<VertexItem>, y: seq<VertexItem>, s, t
      | ShardFits(x, size) && ShardFits(y, size) && EncodeShard(x, s) == EncodeShard(y, t)
      ensures x == y && s == t
    {
      NumberUnique(|x|, |y|, 4, EncodeAll(EncodeVertex, x, s), EncodeAll(EncodeVertex, y, t));
      AllUnique(EncodeVertex, v => VertexFits(v, size), x, y, s, t);
    }
  }

  /** Two bodies with the same bytes have the same vertices. */
  lemma BodyShardsUnique(a: Body, b: Body, size: nat)
    requires BodyFits(a, size) && BodyFits(b, size) && |a.shards| == |b.shards|
    requires EncodeBody(a, []) == EncodeBody(b, [])
    ensures a.entrypoint == b.entrypoint && a.shards == b.shards
  {
    var s, t := EncodeAll(EncodeOwners, a.edges, []), EncodeAll(EncodeOwners, b.edges, []);
    PrefixUnique(a.entrypoint, b.entrypoint, EncodeAll(EncodeShard, a.shards, s), EncodeAll(EncodeShard, b.shards, t));
    ShardUnique(size);
    AllUnique(EncodeShard, xs => ShardFits(xs, size), a.shards, b.shards, s, t);
  }
}
