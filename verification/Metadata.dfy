/** The stored form of metadata: index/metadata.go. */
module MetadataIO {
  import opened Common
  import opened BigEndians
  import opened Encodings

  datatype KV = KV(key: Bytes, value: Bytes)

  /** The map a list of pairs stands for; a later pair wins. */
  function AsMetadata(kvs: seq<KV>): Metadata {
    if kvs == [] then map[] else AsMetadata(kvs[..|kvs| - 1])[kvs[|kvs| - 1].key := kvs[|kvs| - 1].value]
  }

  ghost predicate DistinctKeys(kvs: seq<KV>) {
    forall i, j :: 0 <= i < j < |kvs| ==> kvs[i].key != kvs[j].key
  }

  /** The pairs of m, each once, in some order. */
  ghost predicate Lists(kvs: seq<KV>, m: Metadata) {
    DistinctKeys(kvs) && AsMetadata(kvs) == m
  }

  lemma {:induction false} AsMetadataHas(kvs: seq<KV>, kv: KV)
    requires DistinctKeys(kvs)
    ensures kv in kvs <==> kv.key in AsMetadata(kvs) && AsMetadata(kvs)[kv.key] == kv.value
    ensures kv.key in AsMetadata(kvs) ==> KV(kv.key, AsMetadata(kvs)[kv.key]) in kvs
  {
    if kvs != [] {
      var init, last := kvs[..|kvs| - 1], kvs[|kvs| - 1];
      AsMetadataHas(init, kv);
      assert kvs == init + [last];
      if kv in init {
        var i :| 0 <= i < |init| && init[i] == kv;
        assert kvs[i].key != kvs[|kvs| - 1].key;
      }
    }
  }

  lemma {:induction false} ListSize(kvs: seq<KV>)
    requires DistinctKeys(kvs)
    ensures |kvs| == |AsMetadata(kvs)|
  {
    if kvs != [] {
      var init, last := kvs[..|kvs| - 1], kvs[|kvs| - 1];
      ListSize(init);
      forall i | 0 <= i < |init| ensures init[i].key != last.key {
        assert kvs[i].key != kvs[|kvs| - 1].key;
      }
      if last.key in AsMetadata(init) {
        AsMetadataHas(init, KV(last.key, AsMetadata(init)[last.key]));
      }
      assert AsMetadata(kvs).Keys == AsMetadata(init).Keys + {last.key};
    }
  }

  /** Sizes that fit the length prefixes. */
  ghost predicate InRange(m: Metadata) {
    |m| < 0x1_0000 && StringsFit(m)
  }

  ghost predicate StringsFit(m: Metadata) {
    forall k :: k in m ==> |k| < 0x100 && |m[k]| < 0x1_0000
  }

  ghost predicate Fits(kvs: seq<KV>) {
    |kvs| < 0x1_0000 && forall i :: 0 <= i < |kvs| ==> |kvs[i].key| < 0x100 && |kvs[i].value| < 0x1_0000
  }

  lemma InRangeFits(kvs: seq<KV>, m: Metadata)
    requires Lists(kvs, m)
    ensures InRange(m) <==> Fits(kvs)
  {
    ListSize(kvs);
    if InRange(m) {
      forall i | 0 <= i < |kvs| ensures |kvs[i].key| < 0x100 && |kvs[i].value| < 0x1_0000 {
        AsMetadataHas(kvs, kvs[i]);
      }
    }
    if Fits(kvs) {
      forall k | k in m ensures |k| < 0x100 && |m[k]| < 0x1_0000 {
        AsMetadataHas(kvs, KV(k, m[k]));
      }
    }
  }

  // The encoding, followed by `tail`. Lengths are cut to the width of their prefix.

  function EncodeKV(kv: KV, tail: Bytes): Bytes {
    BigEndian(|kv.key|, 1) + (kv.key + (BigEndian(|kv.value|, 2) + (kv.value + tail)))
  }

  function EncodeMetadata(kvs: seq<KV>, tail: Bytes): Bytes {
    BigEndian(|kvs|, 2) + EncodeAll(EncodeKV, kvs, tail)
  }

  lemma KVAppends()
    ensures Appends(EncodeKV)
  {
    forall kv, tail ensures EncodeKV(kv, tail) == EncodeKV(kv, []) + tail {}
  }

  lemma MetadataAppends()
    ensures Appends(EncodeMetadata)
  {
    KVAppends();
    forall kvs, tail ensures EncodeMetadata(kvs, tail) == EncodeMetadata(kvs, []) + tail {
      EncodeAllTail(EncodeKV, kvs, tail);
    }
  }

  method SaveKV(k: Bytes, v: Bytes) returns (out: Bytes)
    ensures out == EncodeKV(KV(k, v), [])
  {
    out := BigEndian(|k|, 1);
    out := out + k;
    out := out + BigEndian(|v|, 2);
    out := out + v;
  }

  /** All pairs but those of `todo` have been written. */
  ghost predicate Written(m: Metadata, todo: set<Bytes>, kvs: seq<KV>, out: Bytes) {
    todo <= m.Keys && Lists(kvs, m - todo) && out == EncodeAll(EncodeKV, kvs, [])
  }

  lemma WrittenNext(m: Metadata, todo: set<Bytes>, kvs: seq<KV>, out: Bytes, k: Bytes)
    requires Written(m, todo, kvs, out) && k in todo
    ensures Written(m, todo - {k}, kvs + [KV(k, m[k])], out + EncodeKV(KV(k, m[k]), []))
  {
    var kv := KV(k, m[k]);
    forall i | 0 <= i < |kvs| ensures kvs[i].key != k {
      AsMetadataHas(kvs, kvs[i]);
    }
    assert (kvs + [kv])[..|kvs|] == kvs;
    assert (m - todo)[k := m[k]] == m - (todo - {k});
    KVAppends();
    EncodeAllNext(EncodeKV, kvs, kv);
  }

  lemma WrittenAll(m: Metadata, kvs: seq<KV>, out: Bytes)
    requires Written(m, {}, kvs, out)
    ensures Lists(kvs, m) && BigEndian(|m|, 2) + out == EncodeMetadata(kvs, [])
  {
    assert m - {} == m;
    ListSize(kvs);
  }

  /** The pairs are written in whatever order the map is walked. */
  method Save(m: Metadata) returns (out: Bytes, ghost kvs: seq<KV>)
    ensures Lists(kvs, m) && out == EncodeMetadata(kvs, [])
  {
    hide Written, Lists, EncodeMetadata;
    out, kvs := [], [];
    var todo := m.Keys;
    WrittenStart(m);
    while todo != {}
      invariant Written(m, todo, kvs, out) && todo <= m.Keys
      decreases todo
    {
      var k :| k in todo;
      var kv := SaveKV(k, m[k]);
      WrittenNext(m, todo, kvs, out, k);
      out, kvs := out + kv, kvs + [KV(k, m[k])];
      todo := todo - {k};
    }
    WrittenAll(m, kvs, out);
    out := BigEndian(|m|, 2) + out;
  }

  lemma WrittenStart(m: Metadata)
    ensures Written(m, m.Keys, [], [])
  {
    assert m - m.Keys == map[];
  }

  ghost predicate KVFits(kv: KV) {
    |kv.key| < 0x100 && |kv.value| < 0x1_0000
  }

  method LoadKV(input: Bytes, ghost kv: KV, ghost tail: Bytes) returns (r: Option<KV>, rest: Bytes)
    ensures input == EncodeKV(kv, tail) && KVFits(kv) ==> r == Some(kv) && rest == tail
    ensures r.Some? ==> KVFits(r.value) && input == EncodeKV(r.value, rest)
  {
    Widths();
    ghost var good := input == EncodeKV(kv, tail) && KVFits(kv);
    var keyLength, valLength;
    var keyBytes, valBytes;
    keyLength, rest := ReadNumber(input, 1, |kv.key|, kv.key + (BigEndian(|kv.value|, 2) + (kv.value + tail)));
    if keyLength.None? {
      return None, [];
    }
    keyBytes, rest := ReadBytes(rest, keyLength.value, kv.key, BigEndian(|kv.value|, 2) + (kv.value + tail));
    if keyBytes.None? {
      return None, [];
    }
    valLength, rest := ReadNumber(rest, 2, |kv.value|, kv.value + tail);
    if valLength.None? {
      return None, [];
    }
    valBytes, rest := ReadBytes(rest, valLength.value, kv.value, tail);
    if valBytes.None? {
      return None, [];
    }
    r := Some(KV(keyBytes.value, valBytes.value));
  }

  lemma GrowInRange(m: Metadata, kv: KV, i: nat)
    requires |m| <= i && StringsFit(m) && KVFits(kv)
    ensures |m[kv.key := kv.value]| <= i + 1 && StringsFit(m[kv.key := kv.value])
  {
    var after := m[kv.key := kv.value];
    assert after.Keys == m.Keys + {kv.key};
    assert |after.Keys| <= |m.Keys| + 1;
  }

  lemma ReadMore(read: seq<KV>, kv: KV, rest: Bytes)
    ensures EncodeAll(EncodeKV, read + [kv], rest) == EncodeAll(EncodeKV, read, EncodeKV(kv, rest))
    ensures AsMetadata(read + [kv]) == AsMetadata(read)[kv.key := kv.value]
  {
    EncodeAllMore(EncodeKV, read, kv, rest);
    assert (read + [kv])[..|read|] == read;
  }

  /**
   * Loading gives back what was saved if its sizes are in range. What it gives always is, and what is read was written
   * for it.
   */
  method Load(input: Bytes, ghost kvs: seq<KV>, ghost tail: Bytes)
    returns (m: Option<Metadata>, rest: Bytes, ghost read: seq<KV>)
    ensures input == EncodeMetadata(kvs, tail) && Fits(kvs) ==> m == Some(AsMetadata(kvs)) && rest == tail
    ensures m.Some? ==> InRange(m.value)
    ensures m.Some? ==> input == EncodeMetadata(read, rest) && Fits(read) && m.value == AsMetadata(read)
  {
    hide EncodeKV, EncodeAll;
    Widths();
    EncodeAllEnds(EncodeKV, kvs, tail);
    read := [];
    ghost var good := input == EncodeMetadata(kvs, tail) && Fits(kvs);
    var length;
    length, rest := ReadNumber(input, 2, |kvs|, EncodeAll(EncodeKV, kvs, tail));
    if length.None? {
      return None, [], read;
    }
    var result: Metadata := map[];
    ghost var whole := rest;
    EncodeNone(EncodeKV, rest);
    for i := 0 to length.value
      invariant |result| <= i && StringsFit(result)
      invariant |read| == i && whole == EncodeAll(EncodeKV, read, rest) && result == AsMetadata(read)
      invariant forall j :: 0 <= j < i ==> KVFits(read[j])
      invariant good ==>
                  length.value == |kvs| && result == AsMetadata(kvs[..i]) && rest == EncodeAll(EncodeKV, kvs[i..], tail)
    {
      var kv;
      ghost var next := if good then kvs[i] else KV([], []);
      if good {
        EncodeAllAt(EncodeKV, kvs, i, tail);
        assert kvs[..i + 1][..i] == kvs[..i];
      }
      kv, rest := LoadKV(rest, next, EncodeAll(EncodeKV, if good then kvs[i + 1..] else [], tail));
      if kv.None? {
        return None, [], read;
      }
      GrowInRange(result, kv.value, i);
      ReadMore(read, kv.value, rest);
      read := read + [kv.value];
      result := result[kv.value.key := kv.value.value];
    }
    m := Some(result);
    assert kvs[..|kvs|] == kvs;
  }

  /** Metadata survives saving and loading exactly if its sizes are in range. */
  method SaveAndLoad(m: Metadata) returns (r: Option<Metadata>, rest: Bytes)
    ensures r == Some(m) <==> InRange(m)
    ensures InRange(m) ==> rest == []
  {
    var out;
    ghost var kvs;
    out, kvs := Save(m);
    InRangeFits(kvs, m);
    ghost var read;
    r, rest, read := Load(out, kvs, []);
  }
}
