/** Loading an index: the second half of index/hnsw_persistence.go. */
module IndexLoading {
  import opened Common
  import opened Uuids
  import opened BigEndians
  import opened Encodings
  import opened Graphs
  import opened Weaving
  import opened IndexTable
  import opened IndexBodies

  // Sizes that fit the fields they are written to

  ghost predicate VertexFits(x: VertexItem, size: nat) {
    x.level < 0x8000_0000 && |x.vector| == size && M.Fits(x.kvs)
  }

  ghost predicate ShardFits(xs: seq<VertexItem>, size: nat) {
    |xs| < 0x1_0000_0000 && forall i :: 0 <= i < |xs| ==> VertexFits(xs[i], size)
  }

  ghost predicate LevelsFit(levels: seq<seq<EdgeItem>>) {
    forall l :: 0 <= l < |levels| ==> |levels[l]| < 0x1_0000_0000
  }

  ghost predicate OwnerFits(x: EdgesItem) {
    LevelsFit(x.levels)
  }

  ghost predicate BodyFits(b: Body, size: nat) {
    && (forall i :: 0 <= i < |b.shards| ==> ShardFits(b.shards[i], size))
    && (forall i, j :: 0 <= i < |b.edges| && 0 <= j < |b.edges[i]| ==> OwnerFits(b.edges[i][j]))
  }

  /** A vertex as it comes from the vertex part: without edges. */
  ghost predicate Bare(v: Vertex)
    reads v
  {
    !v.deleted && v.edges == Isolated(v.level).edges
  }

  ghost predicate Made(x: VertexItem, v: Vertex) {
    x.id == v.id && x.level == v.level && x.vector == v.vector && M.AsMetadata(x.kvs) == v.metadata
  }

  ghost const NO_VERTEX := VertexItem(seq(16, _ => 0), 0, [], [])

  method LoadVertex(input: Bytes, size: nat, ghost x: VertexItem, ghost tail: Bytes)
    returns (r: Option<Vertex>, rest: Bytes, ghost read: VertexItem)
    ensures r.Some? ==> fresh(r.value) && Bare(r.value)
    ensures r.Some? ==> input == EncodeVertex(read, rest) && Made(read, r.value) && VertexFits(read, size)
    ensures input == EncodeVertex(x, tail) && VertexFits(x, size) ==> r.Some? && Made(x, r.value) && rest == tail
  {
    Widths();
    read := NO_VERTEX;
    ghost var meta := M.EncodeMetadata(x.kvs, tail);
    ghost var vec := EncodeVector(x.vector, meta);
    var id, level, vector, metadata;
    id, rest := ReadBytes(input, 16, x.id, BigEndian(x.level, 4) + vec);
    if id.None? {
      return None, [], read;
    }
    level, rest := ReadNumber(rest, 4, x.level, vec);
    if level.None? || level.value >= 0x8000_0000 {
      return None, [], read;
    }
    vector, rest := LoadVector(rest, size, x.vector, meta);
    if vector.None? {
      return None, [], read;
    }
    ghost var kvs;
    metadata, rest, kvs := M.Load(rest, x.kvs, tail);
    if metadata.None? {
      return None, [], read;
    }
    read := VertexItem(id.value, level.value, vector.value, kvs);
    var v := new Vertex(id.value, vector.value, metadata.value, level.value);
    r := Some(v);
  }

  /** The shard holds the vertices made from the first items. */
  ghost predicate ShardMade(xs: seq<VertexItem>, shard: Table) {
    && DistinctIds(xs) && ItemIds(xs) == shard.Keys
    && forall i :: 0 <= i < |xs| ==> Made(xs[i], shard[xs[i].id])
  }

  lemma ShardMadeStart(xs: seq<VertexItem>)
    ensures ShardMade(xs[..0], map[]) && TableBytes(map[]) == 0 && xs[0..] == xs
  {
    assert ItemIds([]) == {} && xs[..0] == [];
  }

  lemma ShardMadeNext(xs: seq<VertexItem>, n: nat, shard: Table, v: Vertex)
    requires n < |xs| && DistinctIds(xs) && ShardMade(xs[..n], shard) && Made(xs[n], v)
    ensures ShardMade(xs[..n + 1], shard[v.id := v])
    ensures TableBytes(shard[v.id := v]) == TableBytes(shard) + VertexBytes(v)
  {
    ItemIdsNext(xs[..n], xs[n]);
    assert xs[..n + 1] == xs[..n] + [xs[n]];
    forall i | 0 <= i < n ensures xs[i].id != xs[n].id {}
    TableBytesRemove(shard[v.id := v], v.id);
    assert shard[v.id := v] - {v.id} == shard;
  }

  lemma ShardMadeIsListed(xs: seq<VertexItem>, shard: Table)
    requires ShardMade(xs, shard) && forall i :: 0 <= i < |xs| ==> M.DistinctKeys(xs[i].kvs)
    ensures ListsShard(xs, shard)
  {}

  /** The shard maps to the new vertices. */
  ghost predicate Inside(shard: Table, made: set<Vertex>) {
    forall id :: id in shard ==> shard[id] in made
  }

  ghost predicate AllBare(made: set<Vertex>)
    reads made
  {
    forall v :: v in made ==> Bare(v)
  }

  method LoadShard(input: Bytes, size: nat, ghost xs: seq<VertexItem>, ghost tail: Bytes)
    returns (shard: Option<Table>, shardSize: nat, bytes: nat, rest: Bytes, ghost made: set<Vertex>,
          ghost read: seq<VertexItem>)
    ensures fresh(made) && AllBare(made)
    ensures shard.Some? ==> input == EncodeShard(read, rest) && ShardFits(read, size) && shardSize == |read|
    ensures shard.Some? ==> Inside(shard.value, made)
    ensures input == EncodeShard(xs, tail) && ShardFits(xs, size) && DistinctIds(xs) ==>
              && shard.Some? && ShardMade(xs, shard.value) && rest == tail
              && shardSize == |xs| && bytes == TableBytes(shard.value)
  {
    hide EncodeVertex, EncodeAll, ShardMade, DistinctIds, VertexFits, Made, TableBytes, VertexBytes;
    Widths();
    ghost var good := input == EncodeShard(xs, tail) && ShardFits(xs, size) && DistinctIds(xs);
    made, bytes, shardSize, read := {}, 0, 0, [];
    var n;
    n, rest := ReadNumber(input, 4, |xs|, EncodeAll(EncodeVertex, xs, tail));
    if n.None? {
      return None, 0, 0, [], made, read;
    }
    shardSize := n.value;
    ghost var whole := rest;
    var table: Table := map[];
    ShardMadeStart(xs);
    EncodeNone(EncodeVertex, rest);
    for i := 0 to shardSize
      invariant fresh(made) && AllBare(made) && Inside(table, made)
      invariant |read| == i && whole == EncodeAll(EncodeVertex, read, rest)
      invariant forall j :: 0 <= j < i ==> VertexFits(read[j], size)
      invariant good ==>
                  shardSize == |xs| && ShardMade(xs[..i], table) && rest == EncodeAll(EncodeVertex, xs[i..], tail)
      invariant good ==> bytes == TableBytes(table)
    {
      if good {
        EncodeAllAt(EncodeVertex, xs, i, tail);
      }
      var vertex;
      ghost var item;
      vertex, rest, item := LoadVertex(rest, size, if good then xs[i] else NO_VERTEX,
                                       if good then EncodeAll(EncodeVertex, xs[i + 1..], tail) else []);
      if vertex.None? {
        return None, 0, 0, [], made, read;
      }
      EncodeAllMore(EncodeVertex, read, item, rest);
      read := read + [item];
      if good {
        ShardMadeNext(xs, i, table, vertex.value);
      }
      var vertexBytes := BytesSize(vertex.value);
      bytes := bytes + vertexBytes;
      made := made + {vertex.value};
      table := table[vertex.value.id := vertex.value];
    }
    EncodeAllEnds(EncodeVertex, xs, tail);
    shard := Some(table);
  }

  // All shards

  /** The first shards of a table. */
  ghost predicate FirstShards(shards: seq<Table>, table: Table) {
    && |shards| <= SHARD_COUNT
    && (forall i :: 0 <= i < |shards| ==> shards[i] == Shard(table, i))
    && (forall id :: id in table ==> ShardOf(id) < |shards|)
  }

  lemma MergeRemove(a: Table, b: Table, id: Uuid)
    requires a.Keys !! b.Keys && id in b
    ensures (a + b) - {id} == a + (b - {id}) && (a + b)[id] == b[id] && id in a + b
  {}

  lemma MergeEmpty(a: Table, b: Table)
    requires b.Keys == {}
    ensures a + b == a && |b| == 0 && TableBytes(b) == 0
  {
    assert b == map[];
  }

  lemma {:induction false} MergeSizes(a: Table, b: Table)
    requires a.Keys !! b.Keys
    ensures |a + b| == |a| + |b| && TableBytes(a + b) == TableBytes(a) + TableBytes(b)
    decreases |b|
  {
    hide TableBytes;
    if b.Keys == {} {
      MergeEmpty(a, b);
    } else {
      var id :| id in b;
      TableShrinks(b, id);
      MergeRemove(a, b, id);
      TableShrinks(a + b, id);
      MergeSizes(a, b - {id});
    }
  }

  lemma ShardOfMerge(table: Table, shard: Table, n: nat, i: nat)
    requires (forall id :: id in table ==> ShardOf(id) < n) && (forall id :: id in shard ==> ShardOf(id) == n) && i <= n
    ensures Shard(table + shard, i) == if i == n then shard else Shard(table, i)
  {}

  ghost predicate OfShard(shard: Table, i: nat) {
    forall id :: id in shard ==> ShardOf(id) == i
  }

  lemma FirstShardsNext(shards: seq<Table>, table: Table, shard: Table)
    requires FirstShards(shards, table) && |shards| < SHARD_COUNT
    requires OfShard(shard, |shards|)
    ensures FirstShards(shards + [shard], table + shard)
    ensures |table + shard| == |table| + |shard| && TableBytes(table + shard) == TableBytes(table) + TableBytes(shard)
  {
    hide Shard, TableBytes;
    MergeSizes(table, shard);
    forall i | 0 <= i <= |shards| ensures (shards + [shard])[i] == Shard(table + shard, i) {
      ShardOfMerge(table, shard, |shards|, i);
    }
  }

  /** Lists of items that may be those of the shards of an index. */
  ghost predicate Sharded(lists: seq<seq<VertexItem>>) {
    && |lists| == SHARD_COUNT
    && (forall i :: 0 <= i < |lists| ==> DistinctIds(lists[i]))
    && (forall i, id :: 0 <= i < |lists| && id in ItemIds(lists[i]) ==> ShardOf(id) == i)
  }

  ghost predicate AllFit(lists: seq<seq<VertexItem>>, size: nat) {
    forall i :: 0 <= i < |lists| ==> ShardFits(lists[i], size)
  }

  /** The first shards have been made from the first lists. */
  ghost predicate AllMade(lists: seq<seq<VertexItem>>, shards: seq<Table>) {
    |shards| <= |lists| && forall i :: 0 <= i < |shards| ==> ShardMade(lists[i], shards[i])
  }

  ghost predicate Counted(shards: seq<Table>, table: Table, len: nat, bytes: nat) {
    FirstShards(shards, table) && len == |table| && bytes == TableBytes(table)
  }

  lemma MadeIsSharded(lists: seq<seq<VertexItem>>, i: nat, shard: Table)
    requires Sharded(lists) && i < |lists| && ShardMade(lists[i], shard)
    ensures OfShard(shard, i) && |lists[i]| == |shard|
  {
    ShardMadeSize(lists[i], shard);
  }

  lemma AllMadeNext(lists: seq<seq<VertexItem>>, shards: seq<Table>, shard: Table)
    requires AllMade(lists, shards) && |shards| < |lists| && ShardMade(lists[|shards|], shard)
    ensures AllMade(lists, shards + [shard])
  {
    hide ShardMade;
  }

  lemma CountedNext(shards: seq<Table>, table: Table, len: nat, bytes: nat, shard: Table)
    requires Counted(shards, table, len, bytes) && |shards| < SHARD_COUNT
    requires OfShard(shard, |shards|)
    ensures Counted(shards + [shard], table + shard, len + |shard|, bytes + TableBytes(shard))
  {
    hide TableBytes, OfShard, FirstShards;
    FirstShardsNext(shards, table, shard);
  }

  lemma MadeNext(lists: seq<seq<VertexItem>>, shards: seq<Table>, table: Table, len: nat, bytes: nat, shard: Table,
          i: nat, n: nat)
    requires Sharded(lists) && i == |shards| < SHARD_COUNT && ShardMade(lists[i], shard) && n == |lists[i]|
    requires AllMade(lists, shards) && Counted(shards, table, len, bytes)
    ensures AllMade(lists, shards + [shard])
    ensures Counted(shards + [shard], table + shard, len + n, bytes + TableBytes(shard))
  {
    hide TableBytes, OfShard, ItemIds, FirstShards;
    MadeIsSharded(lists, i, shard);
    AllMadeNext(lists, shards, shard);
    CountedNext(shards, table, len, bytes, shard);
  }

  method LoadVertices(input: Bytes, size: nat, ghost lists: seq<seq<VertexItem>>, ghost tail: Bytes)
    returns (shards: Option<seq<Table>>, len: nat, bytes: nat, rest: Bytes, ghost made: set<Vertex>, ghost table: Table,
          ghost read: seq<seq<VertexItem>>)
    ensures fresh(made) && AllBare(made)
    ensures shards.Some? ==>
              input == EncodeAll(EncodeShard, read, rest) && AllFit(read, size) && |read| == SHARD_COUNT
    ensures shards.Some? ==> |shards.value| == SHARD_COUNT && forall i :: 0 <= i < SHARD_COUNT ==>
              Inside(shards.value[i], made)
    ensures input == EncodeAll(EncodeShard, lists, tail) && Sharded(lists) && AllFit(lists, size) ==>
              && shards.Some? && rest == tail && ShardsOk(shards.value, table)
              && len == |table| && bytes == TableBytes(table) && AllMade(lists, shards.value)
  {
    hide EncodeShard, EncodeAll, Counted, AllMade, ShardFits, DistinctIds, TableBytes, Bare;
    ghost var good := input == EncodeAll(EncodeShard, lists, tail) && Sharded(lists) && AllFit(lists, size);
    made, bytes, len, table, read := {}, 0, 0, map[], [];
    var result: seq<Table> := [];
    rest := input;
    EncodeAllEnds(EncodeShard, lists, tail);
    MadeStart(lists);
    EncodeNone(EncodeShard, rest);
    for i := 0 to SHARD_COUNT
      invariant |result| == i && fresh(made) && AllBare(made) && forall j :: 0 <= j < i ==> Inside(result[j], made)
      invariant |read| == i && input == EncodeAll(EncodeShard, read, rest) && AllFit(read, size)
      invariant good ==> AllMade(lists, result) && Counted(result, table, len, bytes)
      invariant good ==> rest == EncodeAll(EncodeShard, lists[i..], tail)
    {
      if good {
        EncodeAllAt(EncodeShard, lists, i, tail);
      }
      var shard, shardSize, shardBytes;
      ghost var more, items;
      ghost var after := if good then EncodeAll(EncodeShard, lists[i + 1..], tail) else [];
      shard, shardSize, shardBytes, rest, more, items := LoadShard(rest, size, if good then lists[i] else [], after);
      if shard.None? {
        return None, 0, 0, [], made, table, read;
      }
      EncodeAllMore(EncodeShard, read, items, rest);
      read := read + [items];
      if good {
        MadeNext(lists, result, table, len, bytes, shard.value, i, shardSize);
      }
      len, bytes := len + shardSize, bytes + shardBytes;
      result, made, table := result + [shard.value], made + more, table + shard.value;
    }
    if good {
      CountedAll(result, table, len, bytes);
    }
    shards := Some(result);
  }

  lemma MadeStart(lists: seq<seq<VertexItem>>)
    ensures AllMade(lists, []) && Counted([], map[], 0, 0)
  {}

  lemma CountedAll(shards: seq<Table>, table: Table, len: nat, bytes: nat)
    requires Counted(shards, table, len, bytes) && |shards| == SHARD_COUNT
    ensures ShardsOk(shards, table) && len == |table| && bytes == TableBytes(table)
  {}

  lemma ShardMadeSize(xs: seq<VertexItem>, shard: Table)
    requires ShardMade(xs, shard)
    ensures |xs| == |shard|
  {
    ItemIdsSize(xs);
    assert |shard| == |shard.Keys|;
  }

  // Edges

  lemma AsEdgesNext(es: seq<EdgeItem>, n: nat, table: Table)
    requires n < |es| && es[n].to in table
    ensures AsEdges(es[..n + 1], table) == AsEdges(es[..n], table)[table[es[n].to] := es[n].distance]
  {
    assert es[..n + 1][..n] == es[..n];
  }

  ghost const NO_EDGE := EdgeItem(seq(16, _ => 0), 0)

  /** One edge: the id of its end, which is looked up, and its length. */
  method LoadEdge(input: Bytes, shards: seq<Table>, ghost table: Table, ghost e: EdgeItem, ghost tail: Bytes)
    returns (neighbor: Vertex?, distance: Distance, rest: Bytes, ghost read: EdgeItem)
    requires |shards| == SHARD_COUNT
    ensures neighbor != null ==> input == EncodeEdge(read, rest) && distance == read.distance
    ensures input == EncodeEdge(e, tail) && ShardsOk(shards, table) && e.to in table ==>
              neighbor == table[e.to] && distance == e.distance && rest == tail
  {
    Widths();
    neighbor, distance, read := null, 0, NO_EDGE;
    var id, d;
    id, rest := ReadBytes(input, 16, e.to, BigEndian(e.distance, 4) + tail);
    if id.None? {
      return;
    }
    d, rest := ReadNumber(rest, 4, e.distance, tail);
    if d.None? || d.value > 0x7F80_0000 {
      return;
    }
    var s := shards[ShardOf(id.value)];
    if id.value in s {
      neighbor, distance := s[id.value], d.value;
      read := EdgeItem(id.value, d.value);
    }
  }

  ghost predicate LevelGood(input: Bytes, shards: seq<Table>, table: Table, es: seq<EdgeItem>, tail: Bytes) {
    input == EncodeLevel(es, tail) && |es| < 0x1_0000_0000 && ShardsOk(shards, table) && Known(es, table)
  }

  /** The edges of a vertex at one level. */
  method LoadLevel(input: Bytes, vertex: Vertex, l: nat, shards: seq<Table>, ghost table: Table,
          ghost es: seq<EdgeItem>, ghost tail: Bytes)
    returns (ok: bool, rest: Bytes, ghost read: seq<EdgeItem>)
    requires |shards| == SHARD_COUNT && l < |vertex.edges|
    modifies vertex`edges
    ensures ok ==> input == EncodeLevel(read, rest) && |read| < 0x1_0000_0000
    ensures |vertex.edges| == old(|vertex.edges|) && forall k :: 0 <= k < |vertex.edges| && k != l ==>
              vertex.edges[k] == old(vertex.edges)[k]
    ensures LevelGood(input, shards, table, es, tail) && old(vertex.edges)[l] == map[] ==>
              ok && rest == tail && vertex.edges[l] == AsEdges(es, table)
  {
    hide EncodeEdge, EncodeAll, ShardsOk;
    Widths();
    ghost var good := LevelGood(input, shards, table, es, tail) && vertex.edges[l] == map[];
    var numEdges;
    numEdges, rest := ReadNumber(input, 4, |es|, EncodeAll(EncodeEdge, es, tail));
    read := [];
    if numEdges.None? {
      return false, [], read;
    }
    EncodeAllEnds(EncodeEdge, es, tail);
    EncodeNone(EncodeEdge, rest);
    ghost var whole := rest;
    for i := 0 to numEdges.value
      invariant |vertex.edges| == old(|vertex.edges|)
      invariant forall k :: 0 <= k < |vertex.edges| && k != l ==> vertex.edges[k] == old(vertex.edges)[k]
      invariant |read| == i && whole == EncodeAll(EncodeEdge, read, rest)
      invariant good ==> numEdges.value == |es| && rest == EncodeAll(EncodeEdge, es[i..], tail)
      invariant good ==> vertex.edges[l] == AsEdges(es[..i], table)
    {
      if good {
        EncodeAllAt(EncodeEdge, es, i, tail);
        AsEdgesNext(es, i, table);
      }
      var neighbor, distance;
      ghost var item;
      neighbor, distance, rest, item := LoadEdge(rest, shards, table, if good then es[i] else NO_EDGE,
                                                 if good then EncodeAll(EncodeEdge, es[i + 1..], tail) else []);
      if neighbor == null {
        return false, [], read;
      }
      EncodeAllMore(EncodeEdge, read, item, rest);
      read := read + [item];
      var e: EdgeSet := vertex.edges[l][neighbor := distance];
      vertex.edges := vertex.edges[l := e];
    }
    ok := true;
  }

  /** The edge sets an item stands for, bottom level first. */
  ghost function EdgesOf(x: EdgesItem, table: Table): seq<EdgeSet> {
    seq(|x.levels|, l requires 0 <= l < |x.levels| => AsEdges(x.levels[|x.levels| - 1 - l], table))
  }

  ghost predicate OwnerGood(x: EdgesItem, shards: seq<Table>, table: Table) {
    OwnerFits(x) && ShardsOk(shards, table) && forall l :: 0 <= l < |x.levels| ==> Known(x.levels[l], table)
  }

  /** The levels of a vertex, from its top level down. */
  method LoadLevels(input: Bytes, vertex: Vertex, shards: seq<Table>, ghost table: Table, ghost x: EdgesItem,
          ghost tail: Bytes)
    returns (ok: bool, rest: Bytes, ghost read: seq<seq<EdgeItem>>)
    requires |shards| == SHARD_COUNT && |vertex.edges| == vertex.level + 1
    modifies vertex`edges
    ensures ok ==> input == EncodeAll(EncodeLevel, read, rest) && LevelsFit(read) && |read| == vertex.level + 1
    ensures |vertex.edges| == vertex.level + 1
    ensures input == EncodeAll(EncodeLevel, x.levels, tail) && OwnerGood(x, shards, table) ==>
              |x.levels| == vertex.level + 1 && old(Bare(vertex)) ==>
              ok && rest == tail && vertex.edges == EdgesOf(x, table)
  {
    hide EncodeLevel, EncodeAll, ShardsOk, AsEdges, Known;
    ghost var good := input == EncodeAll(EncodeLevel, x.levels, tail) && OwnerGood(x, shards, table)
                      && |x.levels| == vertex.level + 1 && Bare(vertex);
    rest, read := input, [];
    EncodeAllEnds(EncodeLevel, x.levels, tail);
    EncodeNone(EncodeLevel, rest);
    var l: int := vertex.level;
    while l >= 0
      invariant -1 <= l <= vertex.level && |vertex.edges| == vertex.level + 1
      invariant |read| == vertex.level - l && input == EncodeAll(EncodeLevel, read, rest) && LevelsFit(read)
      invariant good ==> forall k :: 0 <= k <= l ==> vertex.edges[k] == map[]
      invariant good ==> forall k :: l < k <= vertex.level ==>
                  vertex.edges[k] == AsEdges(x.levels[vertex.level - k], table)
      invariant good ==> rest == EncodeAll(EncodeLevel, x.levels[vertex.level - l..], tail)
    {
      ghost var i := vertex.level - l;
      if good {
        EncodeAllAt(EncodeLevel, x.levels, i, tail);
      }
      ghost var items;
      ok, rest, items := LoadLevel(rest, vertex, l, shards, table, if good then x.levels[i] else [],
                                   if good then EncodeAll(EncodeLevel, x.levels[i + 1..], tail) else []);
      if !ok {
        return false, [], read;
      }
      EncodeAllMore(EncodeLevel, read, items, rest);
      read := read + [items];
      l := l - 1;
    }
    ok := true;
  }

  /** All vertices have their edge sets. */
  ghost predicate Shaped(vs: set<Vertex>)
    reads vs
  {
    forall v :: v in vs ==> |v.edges| == v.level + 1 && !v.deleted
  }

  /** The edges of a vertex of the shard: of all its levels. */
  ghost predicate IsOwner(x: EdgesItem, shard: Table) {
    OwnerFits(x) && x.id in shard && |x.levels| == shard[x.id].level + 1
  }

  method LoadOwner(input: Bytes, shard: Table, shards: seq<Table>, ghost mine: set<Vertex>, ghost table: Table,
          ghost x: EdgesItem, ghost tail: Bytes)
    returns (ok: bool, rest: Bytes, ghost owner: Vertex?, ghost read: EdgesItem)
    requires |shards| == SHARD_COUNT && Inside(shard, mine) && Shaped(mine)
    modifies mine`edges
    ensures Shaped(mine)
    ensures ok ==> input == EncodeOwner(read, rest) && IsOwner(read, shard)
    ensures owner != null ==> owner in shard.Values
    ensures Snap(mine) == if owner == null then old(Snap(mine)) else old(Snap(mine))[owner := Node(false, owner.edges)]
    ensures input == EncodeOwner(x, tail) && OwnerGood(x, shards, table) && x.id in shard
            && |x.levels| == shard[x.id].level + 1 && old(Snap(mine))[shard[x.id]] == Isolated(shard[x.id].level) ==>
              ok && rest == tail && owner == shard[x.id] && owner.edges == EdgesOf(x, table)
  {
    hide EncodeAll, OwnerGood, EdgesOf;
    owner, read := null, EdgesItem(seq(16, _ => 0), []);
    var id;
    id, rest := ReadBytes(input, 16, x.id, EncodeAll(EncodeLevel, x.levels, tail));
    if id.None? || id.value !in shard {
      return false, [], null, read;
    }
    owner := shard[id.value];
    ghost var levels;
    ok, rest, levels := LoadLevels(rest, shard[id.value], shards, table, x, tail);
    read := EdgesItem(id.value, levels);
  }

  /** The first n owners have their edges, the others have none yet. */
  ghost predicate OwnersLoaded(xs: seq<EdgesItem>, n: nat, shard: Table, table: Table, g: Graph) {
    forall i :: 0 <= i < |xs| ==>
      && xs[i].id in shard && shard[xs[i].id] in g
      && g[shard[xs[i].id]] == if i < n then Node(false, EdgesOf(xs[i], table)) else Isolated(shard[xs[i].id].level)
  }

  /** Items that may be those of the vertices in the shard. */
  ghost predicate OwnersGood(xs: seq<EdgesItem>, shard: Table, shards: seq<Table>, table: Table) {
    && Keyed(shard) && |xs| == |shard| && DistinctOwners(xs)
    && (forall i :: 0 <= i < |xs| ==> xs[i].id in shard && |xs[i].levels| == shard[xs[i].id].level + 1)
    && forall i :: 0 <= i < |xs| ==> OwnerGood(xs[i], shards, table)
  }

  lemma OwnersLoadedNext(xs: seq<EdgesItem>, n: nat, shard: Table, shards: seq<Table>, table: Table, g: Graph)
    requires OwnersGood(xs, shard, shards, table) && n < |xs| && OwnersLoaded(xs, n, shard, table, g)
    ensures OwnersLoaded(xs, n + 1, shard, table, g[shard[xs[n].id] := Node(false, EdgesOf(xs[n], table))])
  {
    hide EdgesOf, OwnerGood;
    forall i | 0 <= i < |xs| && i != n ensures shard[xs[i].id] != shard[xs[n].id] {}
  }

  /** Only vertices of the shard have changed. */
  ghost predicate Elsewhere(g0: Graph, g: Graph, shard: Table) {
    g.Keys == g0.Keys && forall v :: v in g0 && v !in shard.Values ==> g[v] == g0[v]
  }

  lemma ElsewhereTransitive(g0: Graph, g1: Graph, g2: Graph, shard: Table)
    requires Elsewhere(g0, g1, shard) && Elsewhere(g1, g2, shard)
    ensures Elsewhere(g0, g2, shard)
  {}

  method LoadNextOwner(input: Bytes, shard: Table, shards: seq<Table>, ghost mine: set<Vertex>, ghost table: Table,
          ghost xs: seq<EdgesItem>, ghost n: nat, ghost tail: Bytes)
    returns (ok: bool, rest: Bytes, ghost read: EdgesItem)
    requires |shards| == SHARD_COUNT && Inside(shard, mine) && Shaped(mine)
    modifies mine`edges
    ensures Shaped(mine) && Elsewhere(old(Snap(mine)), Snap(mine), shard)
    ensures ok ==> input == EncodeOwner(read, rest) && IsOwner(read, shard)
    ensures n < |xs| && input == EncodeOwner(xs[n], tail) && OwnersGood(xs, shard, shards, table)
            && OwnersLoaded(xs, n, shard, table, old(Snap(mine))) ==>
              ok && rest == tail && OwnersLoaded(xs, n + 1, shard, table, Snap(mine))
  {
    hide EncodeOwner, OwnerGood, EdgesOf;
    ghost var g := Snap(mine);
    ghost var x := if n < |xs| then xs[n] else EdgesItem(seq(16, _ => 0), []);
    ghost var owner;
    ok, rest, owner, read := LoadOwner(input, shard, shards, mine, table, x, tail);
    if n < |xs| && input == EncodeOwner(xs[n], tail) && OwnersGood(xs, shard, shards, table) {
      if OwnersLoaded(xs, n, shard, table, g) {
        OwnersLoadedNext(xs, n, shard, shards, table, g);
      }
    }
  }

  /** As many as the shard has vertices. */
  ghost predicate AreOwners(xs: seq<EdgesItem>, shard: Table) {
    |xs| == |shard| && forall i :: 0 <= i < |xs| ==> IsOwner(xs[i], shard)
  }

  method LoadOwners(input: Bytes, shard: Table, shards: seq<Table>, ghost mine: set<Vertex>, ghost table: Table,
          ghost xs: seq<EdgesItem>, ghost tail: Bytes)
    returns (ok: bool, rest: Bytes, ghost read: seq<EdgesItem>)
    requires |shards| == SHARD_COUNT && Inside(shard, mine) && Shaped(mine)
    modifies mine`edges
    ensures Shaped(mine) && Elsewhere(old(Snap(mine)), Snap(mine), shard)
    ensures ok ==> input == EncodeOwners(read, rest) && AreOwners(read, shard)
    ensures input == EncodeOwners(xs, tail) && OwnersGood(xs, shard, shards, table) ==>
              OwnersLoaded(xs, 0, shard, table, old(Snap(mine))) ==>
              ok && rest == tail && OwnersLoaded(xs, |xs|, shard, table, Snap(mine))
  {
    hide EncodeOwner, EncodeAll, OwnerGood, EdgesOf, OwnersLoaded, Snap, Elsewhere;
    ghost var g := Snap(mine);
    ghost var good := input == EncodeOwners(xs, tail) && OwnersGood(xs, shard, shards, table)
                      && OwnersLoaded(xs, 0, shard, table, g);
    rest, read := input, [];
    EncodeAllEnds(EncodeOwner, xs, tail);
    EncodeNone(EncodeOwner, rest);
    NothingElsewhere(g, shard);
    for i := 0 to |shard|
      invariant Shaped(mine) && Elsewhere(g, Snap(mine), shard)
      invariant |read| == i && input == EncodeAll(EncodeOwner, read, rest)
      invariant forall j :: 0 <= j < i ==> IsOwner(read[j], shard)
      invariant good ==> OwnersLoaded(xs, i, shard, table, Snap(mine)) && rest == EncodeAll(EncodeOwner, xs[i..], tail)
    {
      if good {
        EncodeAllAt(EncodeOwner, xs, i, tail);
      }
      ghost var g1 := Snap(mine);
      ghost var after := if good then EncodeAll(EncodeOwner, xs[i + 1..], tail) else [];
      ghost var item;
      ok, rest, item := LoadNextOwner(rest, shard, shards, mine, table, xs, i, after);
      ElsewhereTransitive(g, g1, Snap(mine), shard);
      if !ok {
        return false, [], read;
      }
      EncodeAllMore(EncodeOwner, read, item, rest);
      read := read + [item];
    }
    ok := true;
  }

  lemma NothingElsewhere(g: Graph, shard: Table)
    ensures Elsewhere(g, g, shard)
  {}

  /** Lists of edges that may be those of an index. */
  ghost predicate EdgesGood(lists: seq<seq<EdgesItem>>, shards: seq<Table>, table: Table) {
    && |lists| == |shards| == SHARD_COUNT && ShardsOk(shards, table) && Keyed(table)
    && forall i :: 0 <= i < SHARD_COUNT ==> OwnersGood(lists[i], shards[i], shards, table)
  }

  /** The edges of the first n shards are there. */
  ghost predicate EdgesLoaded(lists: seq<seq<EdgesItem>>, n: nat, shards: seq<Table>, table: Table, g: Graph)
    requires |lists| == |shards|
  {
    forall i :: 0 <= i < |lists| ==> OwnersLoaded(lists[i], if i < n then |lists[i]| else 0, shards[i], table, g)
  }

  lemma OwnersElsewhere(xs: seq<EdgesItem>, n: nat, shards: seq<Table>, table: Table, i: nat, j: nat, g0: Graph,
          g: Graph)
    requires ShardsOk(shards, table) && Keyed(table) && i < SHARD_COUNT && j < SHARD_COUNT && i != j
    requires OwnersLoaded(xs, n, shards[j], table, g0) && Elsewhere(g0, g, shards[i])
    ensures OwnersLoaded(xs, n, shards[j], table, g)
  {
    hide EdgesOf;
    forall k | 0 <= k < |xs| ensures shards[j][xs[k].id] !in shards[i].Values {
      var v := shards[j][xs[k].id];
      forall id | id in shards[i] ensures shards[i][id] != v {
        assert table[id].id == id && v.id == xs[k].id && ShardOf(id) == i && ShardOf(xs[k].id) == j;
      }
    }
  }

  lemma EdgesLoadedNext(lists: seq<seq<EdgesItem>>, n: nat, shards: seq<Table>, table: Table, g0: Graph, g: Graph)
    requires EdgesGood(lists, shards, table) && n < SHARD_COUNT
    requires EdgesLoaded(lists, n, shards, table, g0) && Elsewhere(g0, g, shards[n])
    requires OwnersLoaded(lists[n], |lists[n]|, shards[n], table, g)
    ensures EdgesLoaded(lists, n + 1, shards, table, g)
  {
    hide OwnersLoaded, Elsewhere, OwnersGood, Keyed;
    forall i | 0 <= i < |lists| && i != n
      ensures OwnersLoaded(lists[i], if i < n + 1 then |lists[i]| else 0, shards[i], table, g)
    {
      OwnersElsewhere(lists[i], if i < n then |lists[i]| else 0, shards, table, n, i, g0, g);
    }
  }

  method LoadEdges(input: Bytes, shards: seq<Table>, ghost made: set<Vertex>, ghost table: Table,
          ghost lists: seq<seq<EdgesItem>>, ghost tail: Bytes)
    returns (ok: bool, rest: Bytes, ghost read: seq<seq<EdgesItem>>)
    requires |shards| == SHARD_COUNT && Shaped(made) && forall i :: 0 <= i < SHARD_COUNT ==> Inside(shards[i], made)
    modifies made`edges
    ensures Shaped(made)
    ensures ok ==> input == EncodeAll(EncodeOwners, read, rest) && |read| == SHARD_COUNT
    ensures ok ==> forall i :: 0 <= i < SHARD_COUNT ==> AreOwners(read[i], shards[i])
    ensures input == EncodeAll(EncodeOwners, lists, tail) && EdgesGood(lists, shards, table) ==>
              EdgesLoaded(lists, 0, shards, table, old(Snap(made))) ==>
              ok && rest == tail && EdgesLoaded(lists, SHARD_COUNT, shards, table, Snap(made))
  {
    hide EncodeOwners, EncodeAll, OwnersLoaded, OwnersGood, Snap, Elsewhere, Keyed, ShardsOk;
    ghost var g := Snap(made);
    ghost var good := input == EncodeAll(EncodeOwners, lists, tail) && EdgesGood(lists, shards, table)
                      && EdgesLoaded(lists, 0, shards, table, g);
    rest, read := input, [];
    EncodeAllEnds(EncodeOwners, lists, tail);
    EncodeNone(EncodeOwners, rest);
    for i := 0 to SHARD_COUNT
      invariant Shaped(made)
      invariant |read| == i && input == EncodeAll(EncodeOwners, read, rest)
      invariant forall j :: 0 <= j < i ==> AreOwners(read[j], shards[j])
      invariant good ==>
                  EdgesLoaded(lists, i, shards, table, Snap(made)) && rest == EncodeAll(EncodeOwners, lists[i..], tail)
    {
      if good {
        EncodeAllAt(EncodeOwners, lists, i, tail);
      }
      ghost var g1 := Snap(made);
      ghost var items;
      ok, rest, items := LoadOwners(rest, shards[i], shards, made, table, if good then lists[i] else [],
                                    if good then EncodeAll(EncodeOwners, lists[i + 1..], tail) else []);
      if !ok {
        return false, [], read;
      }
      EncodeAllMore(EncodeOwners, read, items, rest);
      read := read + [items];
      if good {
        EdgesLoadedNext(lists, i, shards, table, g1, Snap(made));
      }
    }
    ok := true;
  }
}
