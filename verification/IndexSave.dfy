/** Saving an index: the first half of index/hnsw_persistence.go. */
module IndexSaving {
  import opened Common
  import opened Uuids
  import opened BigEndians
  import opened Encodings
  import opened Graphs
  import opened IndexTable
  import opened IndexBodies

  method SaveVertex(v: Vertex) returns (out: Bytes, ghost x: VertexItem)
    ensures Describes(x, v) && out == EncodeVertex(x, [])
  {
    var vector := SaveVector(v.vector);
    var metadata;
    ghost var kvs;
    metadata, kvs := M.Save(v.metadata);
    FloatAppends();
    EncodeAllTail(EncodeFloat, v.vector, metadata);
    x := VertexItem(v.id, v.level, v.vector, kvs);
    out := v.id + (BigEndian(v.level, 4) + (vector + metadata));
  }

  lemma ShardNext(xs: seq<VertexItem>, shard: Table, todo: set<Uuid>, id: Uuid, x: VertexItem)
    requires Keyed(shard) && todo <= shard.Keys && ListsShard(xs, shard - todo) && id in todo && Describes(x, shard[id])
    ensures ListsShard(xs + [x], shard - (todo - {id}))
  {
    ItemIdsNext(xs, x);
    forall i | 0 <= i < |xs| ensures xs[i].id in shard && xs[i].id !in todo {
      assert xs[i].id in ItemIds(xs);
    }
    assert (shard - (todo - {id})).Keys == (shard - todo).Keys + {id};
  }

  lemma ShardStart(shard: Table)
    ensures ListsShard([], shard - shard.Keys)
    ensures shard - {} == shard
  {
    assert ItemIds([]) == {};
    assert (shard - shard.Keys).Keys == {};
  }

  /** The vertices of a shard, in whatever order the map is walked. */
  method SaveShard(shard: Table) returns (out: Bytes, ghost xs: seq<VertexItem>)
    requires Keyed(shard)
    ensures ListsShard(xs, shard) && out == EncodeShard(xs, [])
  {
    hide ListsShard, EncodeVertex, Describes;
    VertexAppends();
    out, xs := [], [];
    var todo := shard.Keys;
    ShardStart(shard);
    while todo != {}
      invariant todo <= shard.Keys && ListsShard(xs, shard - todo) && out == EncodeAll(EncodeVertex, xs, [])
      decreases todo
    {
      var id :| id in todo;
      var vertex;
      ghost var x;
      vertex, x := SaveVertex(shard[id]);
      ShardNext(xs, shard, todo, id, x);
      EncodeAllNext(EncodeVertex, xs, x);
      out, xs := out + vertex, xs + [x];
      todo := todo - {id};
    }
    ShardListSize(xs, shard);
    out := BigEndian(|shard|, 4) + out;
  }

  lemma EdgesNext(es: seq<EdgeItem>, table: Table, g: Graph, e: EdgeSet, todo: set<Vertex>, u: Vertex)
    requires TableOk(table, g) && u in todo && todo <= e.Keys && e.Keys <= g.Keys
    requires ListsEdges(es, table, LivePart(g, e - todo))
    ensures g[u].deleted ==> ListsEdges(es, table, LivePart(g, e - (todo - {u})))
    ensures !g[u].deleted ==> ListsEdges(es + [EdgeItem(u.id, e[u])], table, LivePart(g, e - (todo - {u})))
  {
    hide LivePart;
    LivePartNext(g, e, todo, u);
    if !g[u].deleted {
      assert Listed(table, u);
      var next := es + [EdgeItem(u.id, e[u])];
      forall i | 0 <= i < |es| ensures es[i].to != u.id {
        AsEdgesHas(es, table, es[i].to, es[i].distance);
      }
      assert next[..|es|] == es;
    }
  }

  lemma EdgesStart(table: Table, g: Graph, e: EdgeSet)
    ensures ListsEdges([], table, LivePart(g, e - e.Keys))
    ensures e - {} == e
  {
    assert LivePart(g, e - e.Keys) == map[];
  }

  lemma CountNext(g: Graph, e: EdgeSet, todo: set<Vertex>, u: Vertex)
    requires u in todo && todo <= e.Keys && u in g
    ensures |LivePart(g, e - (todo - {u}))| == |LivePart(g, e - todo)| + if g[u].deleted then 0 else 1
  {
    hide LivePart;
    LivePartNext(g, e, todo, u);
    var before := LivePart(g, e - todo);
    assert before[u := e[u]].Keys == before.Keys + {u};
  }

  lemma CountStart(g: Graph, e: EdgeSet)
    ensures |LivePart(g, e - e.Keys)| == 0 && e - {} == e
  {
    assert LivePart(g, e - e.Keys) == map[];
  }

  /** How many of the edges lead to live vertices. */
  method CountLive(e: EdgeSet, ghost all: set<Vertex>) returns (n: nat)
    requires e.Keys <= all
    ensures n == |LivePart(Snap(all), e)|
  {
    hide LivePart;
    n := 0;
    var todo := e.Keys;
    ghost var g := Snap(all);
    CountStart(g, e);
    while todo != {}
      invariant todo <= e.Keys && n == |LivePart(g, e - todo)|
      decreases todo
    {
      var u :| u in todo;
      CountNext(g, e, todo, u);
      todo := todo - {u};
      if !u.deleted {
        n := n + 1;
      }
    }
  }

  /** The live edges of a vertex at one level, in whatever order the map is walked. */
  method SaveLevel(e: EdgeSet, ghost table: Table, ghost all: set<Vertex>) returns (out: Bytes, ghost es: seq<EdgeItem>)
    requires e.Keys <= all && TableOk(table, Snap(all))
    ensures ListsEdges(es, table, LivePart(Snap(all), e)) && out == EncodeLevel(es, [])
  {
    hide ListsEdges, LivePart, TableOk, EncodeEdge;
    EdgeAppends();
    ghost var g := Snap(all);
    var edgesCount := CountLive(e, all);
    out, es := [], [];
    var todo := e.Keys;
    EdgesStart(table, g, e);
    while todo != {}
      invariant todo <= e.Keys && ListsEdges(es, table, LivePart(g, e - todo)) && out == EncodeAll(EncodeEdge, es, [])
      decreases todo
    {
      var u :| u in todo;
      EdgesNext(es, table, g, e, todo, u);
      todo := todo - {u};
      if !u.deleted {
        EncodeAllNext(EncodeEdge, es, EdgeItem(u.id, e[u]));
        out := out + EncodeEdge(EdgeItem(u.id, e[u]), []);
        es := es + [EdgeItem(u.id, e[u])];
      }
    }
    LevelSize(es, table, g, e);
    out := BigEndian(edgesCount, 4) + out;
  }

  lemma LevelSize(es: seq<EdgeItem>, table: Table, g: Graph, e: EdgeSet)
    requires TableOk(table, g) && ListsEdges(es, table, LivePart(g, e))
    ensures |es| == |LivePart(g, e)|
  {
    EdgeListSize(es, table);
  }

  /** The edges of a vertex, from its top level down. */
  method SaveOwner(v: Vertex, ghost table: Table, ghost all: set<Vertex>) returns (out: Bytes, ghost x: EdgesItem)
    requires v in all && TableOk(table, Snap(all)) && |v.edges| == v.level + 1
    requires forall l: nat :: l <= v.level ==> v.edges[l].Keys <= all
    ensures x.id == v.id && ListsLevels(x, table, Snap(all), v) && out == EncodeOwner(x, [])
  {
    hide ListsEdges, LivePart, TableOk, EncodeLevel;
    LevelAppends();
    ghost var g := Snap(all);
    out := [];
    ghost var levels: seq<seq<EdgeItem>> := [];
    var l: int := v.level;
    while l >= 0
      invariant -1 <= l <= v.level && |levels| == v.level - l && out == EncodeAll(EncodeLevel, levels, [])
      invariant forall k: nat :: l < k <= v.level ==>
                  ListsEdges(levels[v.level - k], table, LivePart(g, EdgesAt(g, v, k)))
    {
      var level;
      ghost var es;
      level, es := SaveLevel(v.edges[l], table, all);
      EncodeAllNext(EncodeLevel, levels, es);
      out, levels := out + level, levels + [es];
      l := l - 1;
    }
    x := EdgesItem(v.id, levels);
    out := v.id + out;
  }

  lemma OwnersNext(xs: seq<EdgesItem>, shard: Table, todo: set<Uuid>, table: Table, g: Graph, id: Uuid, x: EdgesItem)
    requires todo <= shard.Keys && ListsOwners(xs, shard - todo, table, g)
    requires id in todo && x.id == id && ListsLevels(x, table, g, shard[id])
    ensures ListsOwners(xs + [x], shard - (todo - {id}), table, g)
  {
    hide ListsLevels;
    OwnerIdsNext(xs, x);
    forall i | 0 <= i < |xs| ensures xs[i].id in shard && xs[i].id !in todo {
      assert xs[i].id in OwnerIds(xs);
    }
    assert (shard - (todo - {id})).Keys == (shard - todo).Keys + {id};
  }

  lemma OwnersStart(shard: Table, table: Table, g: Graph)
    ensures ListsOwners([], shard - shard.Keys, table, g)
    ensures shard - {} == shard
  {
    assert OwnerIds([]) == {};
    assert (shard - shard.Keys).Keys == {};
  }

  /** The vertices of the shard can be saved. */
  ghost predicate Savable(shard: Table, all: set<Vertex>)
    reads all
  {
    Keyed(shard) && forall id :: id in shard ==> CanSave(shard[id], all)
  }

  ghost predicate CanSave(v: Vertex, all: set<Vertex>)
    reads all
  {
    v in all && |v.edges| == v.level + 1 && forall l: nat :: l <= v.level ==> v.edges[l].Keys <= all
  }

  method SaveOwners(shard: Table, ghost table: Table, ghost all: set<Vertex>)
    returns (out: Bytes, ghost xs: seq<EdgesItem>)
    requires TableOk(table, Snap(all)) && Savable(shard, all)
    ensures ListsOwners(xs, shard, table, Snap(all)) && out == EncodeOwners(xs, [])
  {
    hide ListsOwners, ListsLevels, TableOk, EncodeOwner, Snap;
    OwnerAppends();
    ghost var g := Snap(all);
    out, xs := [], [];
    var todo := shard.Keys;
    OwnersStart(shard, table, g);
    while todo != {}
      invariant todo <= shard.Keys && ListsOwners(xs, shard - todo, table, g) && out == EncodeAll(EncodeOwner, xs, [])
      decreases todo
    {
      var id :| id in todo;
      var owner;
      ghost var x;
      assert CanSave(shard[id], all);
      owner, x := SaveOwner(shard[id], table, all);
      OwnersNext(xs, shard, todo, table, g, id, x);
      EncodeAllNext(EncodeOwner, xs, x);
      out, xs := out + owner, xs + [x];
      todo := todo - {id};
    }
  }

  lemma ShardIsSavable(space: Space, shards: seq<Table>, table: Table, g: Graph, all: set<Vertex>, i: nat)
    requires ShardsOk(shards, table) && TableOk(table, g) && WellFormed(space, g) && g == Snap(all) && i < SHARD_COUNT
    ensures Savable(shards[i], all)
  {
    forall id | id in shards[i] ensures CanSave(shards[i][id], all) {
      var v := table[id];
      assert g[v].edges == v.edges;
      forall l: nat | l <= v.level ensures v.edges[l].Keys <= all {
        assert EdgesOk(space, g, v, l, EdgesAt(g, v, l));
      }
    }
  }

  method SaveVertices(shards: seq<Table>, ghost all: set<Vertex>)
    returns (out: Bytes, ghost lists: seq<seq<VertexItem>>)
    requires |shards| == SHARD_COUNT && forall i :: 0 <= i < SHARD_COUNT ==> Savable(shards[i], all)
    ensures |lists| == SHARD_COUNT && forall i :: 0 <= i < SHARD_COUNT ==> ListsShard(lists[i], shards[i])
    ensures out == EncodeAll(EncodeShard, lists, [])
  {
    hide ListsShard, EncodeShard;
    ShardAppends();
    out, lists := [], [];
    for i := 0 to SHARD_COUNT
      invariant |lists| == i && forall j :: 0 <= j < i ==> ListsShard(lists[j], shards[j])
      invariant out == EncodeAll(EncodeShard, lists, [])
    {
      var shard;
      ghost var xs;
      assert Savable(shards[i], all);
      shard, xs := SaveShard(shards[i]);
      EncodeAllNext(EncodeShard, lists, xs);
      out, lists := out + shard, lists + [xs];
    }
  }

  method SaveEdges(shards: seq<Table>, ghost table: Table, ghost all: set<Vertex>)
    returns (out: Bytes, ghost lists: seq<seq<EdgesItem>>)
    requires TableOk(table, Snap(all))
    requires |shards| == SHARD_COUNT && forall i :: 0 <= i < SHARD_COUNT ==> Savable(shards[i], all)
    ensures |lists| == SHARD_COUNT && forall i :: 0 <= i < SHARD_COUNT ==>
              ListsOwners(lists[i], shards[i], table, Snap(all))
    ensures out == EncodeAll(EncodeOwners, lists, [])
  {
    hide ListsOwners, EncodeOwners, TableOk, Savable;
    OwnerAppends();
    ghost var g := Snap(all);
    out, lists := [], [];
    for i := 0 to SHARD_COUNT
      invariant |lists| == i && forall j :: 0 <= j < i ==> ListsOwners(lists[j], shards[j], table, g)
      invariant out == EncodeAll(EncodeOwners, lists, [])
    {
      var shard;
      ghost var xs;
      shard, xs := SaveOwners(shards[i], table, all);
      EncodeAllNext(EncodeOwners, lists, xs);
      out, lists := out + shard, lists + [xs];
    }
  }

  /** The body of a saved index: entrypoint id, vertices, edges. */
  method SaveBody(space: Space, shards: seq<Table>, entrypoint: Vertex, ghost table: Table, ghost all: set<Vertex>)
    returns (out: Bytes, ghost b: Body)
    requires ShardsOk(shards, table) && TableOk(table, Snap(all)) && WellFormed(space, Snap(all))
    ensures ListsIndex(b, shards, table, Snap(all)) && b.entrypoint == entrypoint.id
    ensures out == EncodeBody(b, [])
  {
    hide TableOk, WellFormed, ListsShard, ListsOwners, Savable, EncodeShard, EncodeOwners;
    forall i: nat | i < SHARD_COUNT ensures Savable(shards[i], all) {
      ShardIsSavable(space, shards, table, Snap(all), all, i);
    }
    var vertices, edges;
    ghost var vertexLists, edgeLists;
    vertices, vertexLists := SaveVertices(shards, all);
    edges, edgeLists := SaveEdges(shards, table, all);
    ShardAppends();
    EncodeAllTail(EncodeShard, vertexLists, edges);
    b := Body(entrypoint.id, vertexLists, edgeLists);
    out := entrypoint.id + (vertices + edges);
  }
}
