/** What it means that an index was loaded from what another one saved. */
module Copies {
  import opened Common
  import opened Uuids
  import opened Configs
  import opened Graphs
  import opened BeamSearch
  import opened Insertion
  import opened IndexTable
  import opened IndexBodies

  /** The same edges, by id, with the same lengths. */
  ghost predicate SameEdges(e0: EdgeSet, table0: Table, e: EdgeSet, table: Table) {
    && (forall u :: u in e0 ==> Listed(table0, u) && u.id in table && table[u.id] in e && e[table[u.id]] == e0[u])
    && (forall u :: u in e ==> Listed(table, u) && u.id in table0 && table0[u.id] in e0 && e0[table0[u.id]] == e[u])
  }

  ghost predicate SameVertex(v0: Vertex, v: Vertex) {
    v0.id == v.id && v0.level == v.level && v0.vector == v.vector && v0.metadata == v.metadata
  }

  /** The same ids, with the same levels, vectors and metadata, and the same live edges at each level. */
  ghost predicate IsSame(table0: Table, g0: Graph, table: Table, g: Graph) {
    && table.Keys == table0.Keys
    && forall id :: id in table0 ==> SameVertex(table0[id], table[id]) && SameLevels(table0, g0, table, g, id)
  }

  ghost predicate SameLevels(table0: Table, g0: Graph, table: Table, g: Graph, id: Uuid)
    requires id in table0 && id in table
  {
    forall l: nat :: l <= table0[id].level ==>
      SameEdges(LivePart(g0, EdgesAt(g0, table0[id], l)), table0, LivePart(g, EdgesAt(g, table[id], l)), table)
  }

  /** Two edge sets listed by the same items are the same. */
  lemma ListedEdgesAreSame(es: seq<EdgeItem>, table0: Table, e0: EdgeSet, table: Table, e: EdgeSet)
    requires Keyed(table0) && Keyed(table) && ListsEdges(es, table0, e0) && ListsEdges(es, table, e)
    ensures SameEdges(e0, table0, e, table)
  {
    forall u | u in e0 ensures Listed(table0, u) && u.id in table && table[u.id] in e && e[table[u.id]] == e0[u] {
      AsEdgesHas(es, table0, u.id, e0[u]);
      AsEdgesHas(es, table, u.id, e0[u]);
    }
    forall u | u in e ensures Listed(table, u) && u.id in table0 && table0[u.id] in e0 && e0[table0[u.id]] == e[u] {
      AsEdgesHas(es, table, u.id, e[u]);
      AsEdgesHas(es, table0, u.id, e[u]);
    }
  }

  lemma ItemOf(xs: seq<VertexItem>, shard: Table, id: Uuid) returns (i: nat)
    requires ListsShard(xs, shard) && id in shard
    ensures i < |xs| && xs[i].id == id && Describes(xs[i], shard[id])
  {
    assert id in ItemIds(xs);
    i :| 0 <= i < |xs| && xs[i].id == id;
  }

  lemma OwnerOf(xs: seq<EdgesItem>, shard: Table, table: Table, g: Graph, id: Uuid) returns (i: nat)
    requires ListsOwners(xs, shard, table, g) && id in shard
    ensures i < |xs| && xs[i].id == id && ListsLevels(xs[i], table, g, shard[id])
  {
    assert id in OwnerIds(xs);
    i :| 0 <= i < |xs| && xs[i].id == id;
  }

  lemma ListedLevelsAreSame(x: EdgesItem, table0: Table, g0: Graph, table: Table, g: Graph, id: Uuid)
    requires Keyed(table0) && Keyed(table) && id in table0 && id in table && table0[id].level == table[id].level
    requires ListsLevels(x, table0, g0, table0[id]) && ListsLevels(x, table, g, table[id])
    ensures SameLevels(table0, g0, table, g, id)
  {
    hide ListsEdges, SameEdges, LivePart, EdgesAt;
    var top := table0[id].level;
    forall l: nat | l <= top
      ensures SameEdges(LivePart(g0, EdgesAt(g0, table0[id], l)), table0, LivePart(g, EdgesAt(g, table[id], l)), table)
    {
      ListedEdgesAreSame(x.levels[top - l], table0, LivePart(g0, EdgesAt(g0, table0[id], l)), table,
                         LivePart(g, EdgesAt(g, table[id], l)));
    }
  }

  lemma ListedVertexIsSame(b: Body, shards0: seq<Table>, table0: Table, g0: Graph, shards: seq<Table>, table: Table,
          g: Graph, id: Uuid)
    requires ListsIndex(b, shards0, table0, g0) && ShardsOk(shards0, table0) && Keyed(table0) && id in table0
    requires ListsIndex(b, shards, table, g) && ShardsOk(shards, table) && Keyed(table) && id in table
    ensures SameVertex(table0[id], table[id]) && SameLevels(table0, g0, table, g, id)
  {
    hide ListsLevels, SameLevels, OwnerIds, ItemIds;
    var s := ShardOf(id);
    ShardLookup(shards0, table0, id);
    ShardLookup(shards, table, id);
    var i := ItemOf(b.shards[s], shards0[s], id);
    assert Describes(b.shards[s][i], shards[s][id]);
    var j := OwnerOf(b.edges[s], shards0[s], table0, g0, id);
    assert ListsLevels(b.edges[s][j], table, g, shards[s][id]);
    ListedLevelsAreSame(b.edges[s][j], table0, g0, table, g, id);
  }

  lemma ListedIdsAreSame(b: Body, shards0: seq<Table>, table0: Table, g0: Graph, shards: seq<Table>, table: Table,
          g: Graph)
    requires ListsIndex(b, shards0, table0, g0) && ShardsOk(shards0, table0)
    requires ListsIndex(b, shards, table, g) && ShardsOk(shards, table)
    ensures table.Keys == table0.Keys
  {
    hide ListsOwners;
    forall id ensures id in table <==> id in table0 {
      var s := ShardOf(id);
      ShardLookup(shards0, table0, id);
      ShardLookup(shards, table, id);
      assert shards[s].Keys == ItemIds(b.shards[s]) == shards0[s].Keys;
    }
  }

  /** Two indexes listed by the same body are the same. */
  lemma ListedIndexesAreSame(b: Body, shards0: seq<Table>, table0: Table, g0: Graph, shards: seq<Table>, table: Table,
          g: Graph)
    requires ListsIndex(b, shards0, table0, g0) && ShardsOk(shards0, table0) && Keyed(table0)
    requires ListsIndex(b, shards, table, g) && ShardsOk(shards, table) && Keyed(table)
    ensures IsSame(table0, g0, table, g)
  {
    hide ListsIndex, ShardsOk, SameVertex, SameLevels;
    ListedIdsAreSame(b, shards0, table0, g0, shards, table, g);
    forall id | id in table0 ensures SameVertex(table0[id], table[id]) && SameLevels(table0, g0, table, g, id) {
      ListedVertexIsSame(b, shards0, table0, g0, shards, table, g, id);
    }
  }

  // Sizes and soundness of a copy

  lemma {:induction false} SameBytes(table0: Table, table: Table)
    requires table.Keys == table0.Keys && forall id :: id in table0 ==> SameVertex(table0[id], table[id])
    ensures |table| == |table0| && TableBytes(table) == TableBytes(table0)
    decreases |table0|
  {
    if table0.Keys == {} {
      assert table0 == map[] && table == map[];
    } else {
      hide TableBytes;
      var id :| id in table0;
      TableShrinks(table0, id);
      TableShrinks(table, id);
      SameBytes(table0 - {id}, table - {id});
    }
  }

  /** A graph that holds exactly the vertices of the table, none of them deleted. */
  ghost predicate JustTable(table: Table, g: Graph) {
    && Keyed(table) && g.Keys == table.Values
    && forall v :: v in g ==> !g[v].deleted && |g[v].edges| == v.level + 1
  }

  lemma JustTableIsOk(table: Table, g: Graph)
    requires JustTable(table, g)
    ensures TableOk(table, g)
  {
    forall v | v in g ensures Listed(table, v) {
      var id :| id in table && table[id] == v;
    }
  }

  lemma CopiedEdges(space: Space, table0: Table, g0: Graph, table: Table, g: Graph, v: Vertex, l: nat)
    requires WellFormed(space, g0) && TableOk(table0, g0) && JustTable(table, g) && IsSame(table0, g0, table, g)
    requires v in g && forall u :: u in EdgesAt(g, v, l) ==> u in g
    ensures EdgesOk(space, g, v, l, EdgesAt(g, v, l))
    ensures l <= v.level ==> v.id in table0 && |EdgesAt(g, v, l)| <= |EdgesAt(g0, table0[v.id], l)|
  {
    var id :| id in table && table[id] == v;
    var v0 := table0[id];
    if l <= v.level {
      var e0 := LivePart(g0, EdgesAt(g0, v0, l));
      var e := EdgesAt(g, v, l);
      assert LivePart(g, e) == e;
      assert SameEdges(e0, table0, e, table);
      assert EdgesOk(space, g0, v0, l, EdgesAt(g0, v0, l));
      SameEdgesSize(e0, table0, e, table);
      SubsetSize(e0.Keys, EdgesAt(g0, v0, l).Keys);
      forall u | u in e ensures u in g && u != v && l <= u.level && e[u] == space.distance(v.vector, u.vector) {
        var u0 := table0[u.id];
        assert u0 in e0 && u0 in EdgesAt(g0, v0, l);
        assert SameVertex(table0[u.id], table[u.id]);
      }
    }
  }

  lemma SameEdgesRemove(e0: EdgeSet, table0: Table, e: EdgeSet, table: Table, u: Vertex)
    requires Keyed(table0) && Keyed(table) && SameEdges(e0, table0, e, table) && u in e
    ensures u.id in table0 && table0[u.id] in e0
    ensures SameEdges(e0 - {table0[u.id]}, table0, e - {u}, table)
  {}

  lemma {:induction false} SameEdgesSize(e0: EdgeSet, table0: Table, e: EdgeSet, table: Table)
    requires Keyed(table0) && Keyed(table) && SameEdges(e0, table0, e, table)
    ensures |e| <= |e0|
    decreases |e|
  {
    hide SameEdges, Keyed;
    if e.Keys != {} {
      var u :| u in e;
      SameEdgesRemove(e0, table0, e, table, u);
      var u0 := table0[u.id];
      RemoveSize(e, u);
      RemoveSize(e0, u0);
      SameEdgesSize(e0 - {u0}, table0, e - {u}, table);
    }
  }

  /** A copy of a sound index is sound. */
  lemma CopyIsSound(config: Config, space: Space, table0: Table, g0: Graph, table: Table, g: Graph)
    requires GraphOk(config, space, g0) && TableOk(table0, g0) && JustTable(table, g) && IsSame(table0, g0, table, g)
    requires forall v, l: nat, u :: v in g && u in EdgesAt(g, v, l) ==> u in g
    ensures GraphOk(config, space, g)
  {
    hide IsSame, TableOk, JustTable;
    forall v, l: nat | v in g
      ensures EdgesOk(space, g, v, l, EdgesAt(g, v, l)) && |EdgesAt(g, v, l)| <= config.Limit()(l)
    {
      CopyIsSoundAt(config, space, table0, g0, table, g, v, l);
    }
    assert forall v :: v in g ==> |g[v].edges| == v.level + 1 by {
      ShapesOf(table, g);
    }
  }

  lemma ShapesOf(table: Table, g: Graph)
    requires JustTable(table, g)
    ensures forall v :: v in g ==> |g[v].edges| == v.level + 1
  {}

  lemma CopyIsSoundAt(config: Config, space: Space, table0: Table, g0: Graph, table: Table, g: Graph, v: Vertex, l: nat)
    requires GraphOk(config, space, g0) && TableOk(table0, g0) && JustTable(table, g) && IsSame(table0, g0, table, g)
    requires v in g && forall u :: u in EdgesAt(g, v, l) ==> u in g
    ensures EdgesOk(space, g, v, l, EdgesAt(g, v, l)) && |EdgesAt(g, v, l)| <= config.Limit()(l)
  {
    hide IsSame, EdgesOk;
    CopiedEdges(space, table0, g0, table, g, v, l);
    if l <= v.level {
      assert |EdgesAt(g0, table0[v.id], l)| <= config.Limit()(l);
    }
  }
}
