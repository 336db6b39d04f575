/** The stored form of an index: what index/hnsw_persistence.go writes, as lists in the order written. */
module IndexBodies {
  import opened Common
  import opened Uuids
  import opened BigEndians
  import opened Encodings
  import opened Graphs
  import opened IndexTable
  import M = MetadataIO

  // Vectors: math/vector.go

  function EncodeFloat(x: Float32, tail: Bytes): Bytes {
    BigEndian(x, 4) + tail
  }

  lemma FloatAppends()
    ensures Appends(EncodeFloat)
  {
    forall x, tail ensures EncodeFloat(x, tail) == EncodeFloat(x, []) + tail {}
  }

  function EncodeVector(v: Vector, tail: Bytes): Bytes {
    EncodeAll(EncodeFloat, v, tail)
  }

  method SaveVector(v: Vector) returns (out: Bytes)
    ensures out == EncodeVector(v, [])
  {
    FloatAppends();
    out := [];
    for i := 0 to |v|
      invariant out == EncodeVector(v[..i], [])
    {
      EncodeAllNext(EncodeFloat, v[..i], v[i]);
      assert v[..i + 1] == v[..i] + [v[i]];
      out := out + EncodeFloat(v[i], []);
    }
    assert v[..|v|] == v;
  }

  method LoadVector(input: Bytes, size: nat, ghost saved: Vector, ghost tail: Bytes)
    returns (v: Option<Vector>, rest: Bytes)
    ensures input == EncodeVector(saved, tail) && |saved| == size ==> v == Some(saved) && rest == tail
    ensures v.Some? ==> |v.value| == size && input == EncodeVector(v.value, rest)
  {
    Widths();
    ghost var good := input == EncodeVector(saved, tail) && |saved| == size;
    var result: Vector := [];
    rest := input;
    for i := 0 to size
      invariant |result| == i && input == EncodeVector(result, rest)
      invariant good ==> result == saved[..i] && rest == EncodeVector(saved[i..], tail)
    {
      if good {
        EncodeAllAt(EncodeFloat, saved, i, tail);
      }
      var x;
      ghost var after := if good then EncodeVector(saved[i + 1..], tail) else [];
      x, rest := ReadNumber(rest, 4, if good then saved[i] else 0, after);
      if x.None? {
        return None, [];
      }
      EncodeAllMore<Float32>(EncodeFloat, result, x.value, rest);
      result := result + [x.value];
    }
    assert saved[..|saved|] == saved && saved[|saved|..] == [];
    v := Some(result);
  }

  // Lists of vertices and edges

  datatype VertexItem = VertexItem(id: Uuid, level: nat, vector: Vector, kvs: seq<M.KV>)

  datatype EdgeItem = EdgeItem(to: Uuid, distance: Distance)

  /** The edges of a vertex, top level first. */
  datatype EdgesItem = EdgesItem(id: Uuid, levels: seq<seq<EdgeItem>>)

  datatype Body = Body(entrypoint: Uuid, shards: seq<seq<VertexItem>>, edges: seq<seq<EdgesItem>>)

  function EncodeVertex(x: VertexItem, tail: Bytes): Bytes {
    x.id + (BigEndian(x.level, 4) + EncodeVector(x.vector, M.EncodeMetadata(x.kvs, tail)))
  }

  function EncodeShard(xs: seq<VertexItem>, tail: Bytes): Bytes {
    BigEndian(|xs|, 4) + EncodeAll(EncodeVertex, xs, tail)
  }

  function EncodeEdge(e: EdgeItem, tail: Bytes): Bytes {
    e.to + (BigEndian(e.distance, 4) + tail)
  }

  function EncodeLevel(es: seq<EdgeItem>, tail: Bytes): Bytes {
    BigEndian(|es|, 4) + EncodeAll(EncodeEdge, es, tail)
  }

  function EncodeOwner(x: EdgesItem, tail: Bytes): Bytes {
    x.id + EncodeAll(EncodeLevel, x.levels, tail)
  }

  function EncodeOwners(xs: seq<EdgesItem>, tail: Bytes): Bytes {
    EncodeAll(EncodeOwner, xs, tail)
  }

  /** The entrypoint, all vertices, and then all edges. */
  function EncodeBody(b: Body, tail: Bytes): Bytes {
    b.entrypoint + EncodeAll(EncodeShard, b.shards, EncodeAll(EncodeOwners, b.edges, tail))
  }

  lemma VertexAppends()
    ensures Appends(EncodeVertex)
  {
    FloatAppends();
    M.MetadataAppends();
    forall x: VertexItem, tail ensures EncodeVertex(x, tail) == EncodeVertex(x, []) + tail {
      EncodeAllTail(EncodeFloat, x.vector, M.EncodeMetadata(x.kvs, tail));
      EncodeAllTail(EncodeFloat, x.vector, M.EncodeMetadata(x.kvs, []));
      assert M.EncodeMetadata(x.kvs, tail) == M.EncodeMetadata(x.kvs, []) + tail;
    }
  }

  lemma ShardAppends()
    ensures Appends(EncodeShard)
  {
    VertexAppends();
    forall xs, tail ensures EncodeShard(xs, tail) == EncodeShard(xs, []) + tail {
      EncodeAllTail(EncodeVertex, xs, tail);
    }
  }

  lemma EdgeAppends()
    ensures Appends(EncodeEdge)
  {
    forall e: EdgeItem, tail ensures EncodeEdge(e, tail) == EncodeEdge(e, []) + tail {}
  }

  lemma LevelAppends()
    ensures Appends(EncodeLevel)
  {
    EdgeAppends();
    forall es, tail ensures EncodeLevel(es, tail) == EncodeLevel(es, []) + tail {
      EncodeAllTail(EncodeEdge, es, tail);
    }
  }

  lemma OwnerAppends()
    ensures Appends(EncodeOwner) && Appends(EncodeOwners)
  {
    LevelAppends();
    forall x: EdgesItem, tail ensures EncodeOwner(x, tail) == EncodeOwner(x, []) + tail {
      EncodeAllTail(EncodeLevel, x.levels, tail);
    }
    forall xs, tail ensures EncodeOwners(xs, tail) == EncodeOwners(xs, []) + tail {
      EncodeAllTail(EncodeOwner, xs, tail);
    }
  }

  // What the lists say of an index

  ghost predicate DistinctIds(xs: seq<VertexItem>) {
    forall i, j :: 0 <= i < j < |xs| ==> xs[i].id != xs[j].id
  }

  ghost predicate DistinctOwners(xs: seq<EdgesItem>) {
    forall i, j :: 0 <= i < j < |xs| ==> xs[i].id != xs[j].id
  }

  ghost predicate DistinctTargets(es: seq<EdgeItem>) {
    forall i, j :: 0 <= i < j < |es| ==> es[i].to != es[j].to
  }

  function ItemIds(xs: seq<VertexItem>): set<Uuid> { set i | 0 <= i < |xs| :: xs[i].id }

  function OwnerIds(xs: seq<EdgesItem>): set<Uuid> { set i | 0 <= i < |xs| :: xs[i].id }

  ghost predicate Describes(x: VertexItem, v: Vertex) {
    x.id == v.id && x.level == v.level && x.vector == v.vector && M.Lists(x.kvs, v.metadata)
  }

  /** xs lists the vertices of the shard, each once. */
  ghost predicate ListsShard(xs: seq<VertexItem>, shard: Table) {
    && DistinctIds(xs) && ItemIds(xs) == shard.Keys
    && forall i :: 0 <= i < |xs| ==> Describes(xs[i], shard[xs[i].id])
  }

  /** The edge set es stands for: targets are looked up in the table. */
  function AsEdges(es: seq<EdgeItem>, table: Table): EdgeSet {
    if es == [] then map[]
    else
      var last := es[|es| - 1];
      if last.to in table then AsEdges(es[..|es| - 1], table)[table[last.to] := last.distance]
      else AsEdges(es[..|es| - 1], table)
  }

  ghost predicate Known(es: seq<EdgeItem>, table: Table) {
    forall i :: 0 <= i < |es| ==> es[i].to in table
  }

  /** es lists the edges of e, each once. */
  ghost predicate ListsEdges(es: seq<EdgeItem>, table: Table, e: EdgeSet) {
    DistinctTargets(es) && Known(es, table) && AsEdges(es, table) == e
  }

  /** x lists the live edges of v, level by level from the top. */
  ghost predicate ListsLevels(x: EdgesItem, table: Table, g: Graph, v: Vertex) {
    && |x.levels| == v.level + 1
    && forall l: nat :: l <= v.level ==> ListsEdges(x.levels[v.level - l], table, LivePart(g, EdgesAt(g, v, l)))
  }

  ghost predicate ListsOwners(xs: seq<EdgesItem>, shard: Table, table: Table, g: Graph) {
    && DistinctOwners(xs) && OwnerIds(xs) == shard.Keys
    && forall i :: 0 <= i < |xs| ==> ListsLevels(xs[i], table, g, shard[xs[i].id])
  }

  /** The body lists what is live in the index: vertices and edges in whatever order. */
  ghost predicate ListsIndex(b: Body, shards: seq<Table>, table: Table, g: Graph) {
    && |b.shards| == |b.edges| == |shards| == SHARD_COUNT
    && (forall i :: 0 <= i < SHARD_COUNT ==> ListsShard(b.shards[i], shards[i]))
    && (forall i :: 0 <= i < SHARD_COUNT ==> ListsOwners(b.edges[i], shards[i], table, g))
  }

  lemma {:induction false} ItemIdsSize(xs: seq<VertexItem>)
    requires DistinctIds(xs)
    ensures |ItemIds(xs)| == |xs|
  {
    if xs == [] {
      assert ItemIds(xs) == {};
    } else {
      var init, last := xs[..|xs| - 1], xs[|xs| - 1];
      ItemIdsSize(init);
      ItemIdsNext(init, last);
      assert xs == init + [last];
      forall i | 0 <= i < |init| ensures init[i].id != last.id {
        assert xs[i].id != xs[|xs| - 1].id;
      }
    }
  }

  lemma ItemIdsNext(xs: seq<VertexItem>, x: VertexItem)
    ensures ItemIds(xs + [x]) == ItemIds(xs) + {x.id}
  {
    var all := xs + [x];
    forall id | id in ItemIds(xs) ensures id in ItemIds(all) {
      var i :| 0 <= i < |xs| && xs[i].id == id;
      assert all[i].id == id;
    }
    assert all[|xs|].id == x.id;
  }

  lemma OwnerIdsNext(xs: seq<EdgesItem>, x: EdgesItem)
    ensures OwnerIds(xs + [x]) == OwnerIds(xs) + {x.id}
  {
    var all := xs + [x];
    forall id | id in OwnerIds(xs) ensures id in OwnerIds(all) {
      var i :| 0 <= i < |xs| && xs[i].id == id;
      assert all[i].id == id;
    }
    assert all[|xs|].id == x.id;
  }

  /** The list of a shard has as many items as the shard has vertices. */
  lemma ShardListSize(xs: seq<VertexItem>, shard: Table)
    requires ListsShard(xs, shard)
    ensures |xs| == |shard|
  {
    ItemIdsSize(xs);
    assert |shard| == |shard.Keys|;
  }

  /** The edges read from a list are those listed. */
  lemma {:induction false} AsEdgesHas(es: seq<EdgeItem>, table: Table, to: Uuid, d: Distance)
    requires DistinctTargets(es) && Known(es, table) && Keyed(table)
    ensures EdgeItem(to, d) in es <==>
            to in table && table[to] in AsEdges(es, table) && AsEdges(es, table)[table[to]] == d
    ensures forall u :: u in AsEdges(es, table) ==> Listed(table, u)
  {
    if es != [] {
      var init, last := es[..|es| - 1], es[|es| - 1];
      AsEdgesHas(init, table, to, d);
      assert es == init + [last];
      forall i | 0 <= i < |init| ensures init[i].to != last.to {
        assert es[i].to != es[|es| - 1].to;
      }
    }
  }

  lemma {:induction false} EdgeListSize(es: seq<EdgeItem>, table: Table)
    requires DistinctTargets(es) && Known(es, table) && Keyed(table)
    ensures |es| == |AsEdges(es, table)|
  {
    if es != [] {
      var init, last := es[..|es| - 1], es[|es| - 1];
      EdgeListSize(init, table);
      forall i | 0 <= i < |init| ensures init[i].to != last.to {
        assert es[i].to != es[|es| - 1].to;
      }
      var e: EdgeSet := AsEdges(init, table);
      if table[last.to] in e {
        AsEdgesHas(init, table, last.to, e[table[last.to]]);
      }
      assert AsEdges(es, table).Keys == e.Keys + {table[last.to]};
    }
  }
}
