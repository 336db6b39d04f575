/** Where what is written of an index is found in the bytes, and how many bytes it takes. */
module Layouts {
  import opened Common
  import opened BigEndians
  import opened Encodings
  import opened Graphs
  import opened IndexTable
  import opened MetadataIO
  import opened IndexBodies

  /** These bytes stand at `at`. */
  predicate IsAt(out: Bytes, at: nat, b: Bytes) {
    at + |b| <= |out| && out[at..][..|b|] == b
  }

  lemma BytesFirst(out: Bytes, at: nat, b: Bytes, tail: Bytes)
    requires at <= |out| && out[at..] == b + tail
    ensures IsAt(out, at, b) && |out| == at + |b| + |tail| && out[at + |b|..] == tail
  {
    assert out[at + |b|..] == out[at..][|b|..];
  }

  /** A pair: the length of the key in one byte, the key, the length of the value in two, the value. */
  lemma KVLayout(kv: KV, tail: Bytes)
    requires |kv.key| < 0x100 && |kv.value| < 0x1_0000
    ensures var out, k := EncodeKV(kv, tail), |kv.key|;
            && IsField(out, 0, 1, k) && IsAt(out, 1, kv.key)
            && IsField(out, 1 + k, 2, |kv.value|) && IsAt(out, 3 + k, kv.value)
            && |out| == 3 + k + |kv.value| + |tail| && out[3 + k + |kv.value|..] == tail
  {
    hide IsField, IsAt;
    Widths();
    var out, k := EncodeKV(kv, tail), |kv.key|;
    var t2 := kv.value + tail;
    var t1 := BigEndian(|kv.value|, 2) + t2;
    assert out[0..] == BigEndian(k, 1) + (kv.key + t1);
    FieldFirst(out, 0, k, 1, kv.key + t1);
    BytesFirst(out, 1, kv.key, t1);
    FieldFirst(out, 1 + k, |kv.value|, 2, t2);
    BytesFirst(out, 3 + k, kv.value, tail);
  }

  /** A vector: four bytes for each component. */
  lemma {:induction false} VectorLayout(out: Bytes, at: nat, v: Vector, tail: Bytes)
    requires at <= |out| && out[at..] == EncodeVector(v, tail)
    ensures forall i :: 0 <= i < |v| ==> IsField(out, at + 4 * i, 4, v[i])
    ensures |out| == at + 4 * |v| + |tail| && out[at + 4 * |v|..] == tail
    decreases |v|
  {
    hide IsField;
    if v != [] {
      Widths();
      FieldFirst(out, at, v[0], 4, EncodeVector(v[1..], tail));
      VectorLayout(out, at + 4, v[1..], tail);
      forall i | 0 <= i < |v| ensures IsField(out, at + 4 * i, 4, v[i]) {
        if i > 0 {
          assert IsField(out, at + 4 + 4 * (i - 1), 4, v[1..][i - 1]);
        }
      }
    }
  }

  /** A vertex: id, level, components, the number of its pairs, and then these. */
  lemma VertexLayout(x: VertexItem, tail: Bytes)
    requires x.level < 0x8000_0000 && |x.kvs| < 0x1_0000
    ensures var out, n := EncodeVertex(x, tail), |x.vector|;
            && IsAt(out, 0, x.id) && IsField(out, 16, 4, x.level)
            && (forall i :: 0 <= i < n ==> IsField(out, 20 + 4 * i, 4, x.vector[i]))
            && IsField(out, 20 + 4 * n, 2, |x.kvs|) && out[22 + 4 * n..] == EncodeAll(EncodeKV, x.kvs, tail)
  {
    hide IsField, IsAt;
    Widths();
    var out, n := EncodeVertex(x, tail), |x.vector|;
    var t2 := EncodeMetadata(x.kvs, tail);
    var t1 := EncodeVector(x.vector, t2);
    assert out[0..] == x.id + (BigEndian(x.level, 4) + t1);
    BytesFirst(out, 0, x.id, BigEndian(x.level, 4) + t1);
    FieldFirst(out, 16, x.level, 4, t1);
    VectorLayout(out, 20, x.vector, t2);
    FieldFirst(out, 20 + 4 * n, |x.kvs|, 2, EncodeAll(EncodeKV, x.kvs, tail));
  }

  /** An edge: the id of its end, and its length in four bytes. */
  predicate IsEdgeAt(out: Bytes, at: nat, e: EdgeItem) {
    IsAt(out, at, e.to) && IsField(out, at + 16, 4, e.distance)
  }

  lemma EdgeLayout(out: Bytes, at: nat, e: EdgeItem, tail: Bytes)
    requires at <= |out| && out[at..] == EncodeEdge(e, tail)
    ensures IsEdgeAt(out, at, e) && |out| == at + 20 + |tail| && out[at + 20..] == tail
  {
    hide IsField, IsAt;
    Widths();
    BytesFirst(out, at, e.to, BigEndian(e.distance, 4) + tail);
    FieldFirst(out, at + 16, e.distance, 4, tail);
  }

  lemma {:induction false} EdgesLayout(out: Bytes, at: nat, es: seq<EdgeItem>, tail: Bytes)
    requires at <= |out| && out[at..] == EncodeAll(EncodeEdge, es, tail)
    ensures forall i :: 0 <= i < |es| ==> IsEdgeAt(out, at + 20 * i, es[i])
    ensures |out| == at + 20 * |es| + |tail| && out[at + 20 * |es|..] == tail
    decreases |es|
  {
    hide IsEdgeAt;
    if es != [] {
      EdgeLayout(out, at, es[0], EncodeAll(EncodeEdge, es[1..], tail));
      EdgesLayout(out, at + 20, es[1..], tail);
      forall i | 0 <= i < |es| ensures IsEdgeAt(out, at + 20 * i, es[i]) {
        if i > 0 {
          assert IsEdgeAt(out, at + 20 + 20 * (i - 1), es[1..][i - 1]);
        }
      }
    }
  }

  /** The edges of one level: their number, and then 20 bytes for each. */
  lemma LevelLayout(es: seq<EdgeItem>, tail: Bytes)
    requires |es| < 0x1_0000_0000
    ensures var out := EncodeLevel(es, tail);
            && IsField(out, 0, 4, |es|) && |out| == 4 + 20 * |es| + |tail| && out[4 + 20 * |es|..] == tail
            && forall i :: 0 <= i < |es| ==> IsEdgeAt(out, 4 + 20 * i, es[i])
  {
    hide IsField, IsEdgeAt;
    Widths();
    var out, t1 := EncodeLevel(es, tail), EncodeAll(EncodeEdge, es, tail);
    assert out[0..] == BigEndian(|es|, 4) + t1;
    FieldFirst(out, 0, |es|, 4, t1);
    EdgesLayout(out, 4, es, tail);
  }

  lemma {:induction false} PairsSize(kvs: seq<KV>, tail: Bytes)
    requires DistinctKeys(kvs)
    ensures |EncodeAll(EncodeKV, kvs, tail)| == MetadataBytes(AsMetadata(kvs)) + 3 * |kvs| + |tail|
  {
    if kvs != [] {
      var init, last := kvs[..|kvs| - 1], kvs[|kvs| - 1];
      PairsSize(init, EncodeKV(last, tail));
      KVAppends();
      EncodeAllTail(EncodeKV, kvs, tail);
      EncodeAllTail(EncodeKV, init, EncodeKV(last, tail));
      assert kvs == init + [last];
      EncodeAllNext(EncodeKV, init, last);
      assert |EncodeKV(last, tail)| == |last.key| + |last.value| + 3 + |tail|;
      assert |EncodeKV(last, [])| == |last.key| + |last.value| + 3;
      LastKeyIsNew(kvs);
      MetadataBytesRemove(AsMetadata(kvs), last.key);
    }
  }

  lemma LastKeyIsNew(kvs: seq<KV>)
    requires DistinctKeys(kvs) && kvs != []
    ensures var last := kvs[|kvs| - 1];
            last.key in AsMetadata(kvs) && AsMetadata(kvs)[last.key] == last.value &&
            AsMetadata(kvs) - {last.key} == AsMetadata(kvs[..|kvs| - 1])
  {
    var init, last := kvs[..|kvs| - 1], kvs[|kvs| - 1];
    if last.key in AsMetadata(init) {
      AsMetadataHas(init, KV(last.key, AsMetadata(init)[last.key]));
    }
  }

  /** The size counted for a vertex is the size of what is written for it, without its level and the lengths. */
  lemma WrittenSize(x: VertexItem, v: Vertex)
    requires Describes(x, v)
    ensures |EncodeVertex(x, [])| == VertexBytes(v) + 6 + 3 * |v.metadata|
  {
    PairsSize(x.kvs, []);
    ListSize(x.kvs);
    VectorSize(x.vector, EncodeMetadata(x.kvs, []));
  }

  lemma VectorSize(v: Vector, tail: Bytes)
    ensures |EncodeVector(v, tail)| == 4 * |v| + |tail|
  {
    assert EncodeVector(v, tail)[0..] == EncodeVector(v, tail);
    VectorLayout(EncodeVector(v, tail), 0, v, tail);
  }
}
