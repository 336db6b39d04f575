/** The HNSW index: index/hnsw.go. */
module Hnsws {
  import opened Common
  import opened Uuids
  import opened Configs
  import opened Graphs
  import opened Linking
  import opened IndexTable
  import opened Answers
  import opened Greedy
  import opened Weaving
  import opened Insertion
  import opened Removal
  import opened Querying

  datatype Error = ItemNotFoundError | ItemAlreadyExistsError

  /** Shards, table and counters hold together. */
  ghost predicate IndexOk(shards: seq<Table>, table: Table, len: nat, bytesSize: nat, g: Graph) {
    ShardsOk(shards, table) && TableOk(table, g) && CountsOk(table, len, bytesSize)
  }

  lemma StoreKeepsIndex(shards: seq<Table>, table: Table, len: nat, bytesSize: nat, g: Graph, v: Vertex, home: nat,
          after: Table)
    requires IndexOk(shards, table, len, bytesSize, g)
    requires v !in g && v.id !in table && home == ShardOf(v.id) && after == table[v.id := v]
    ensures IndexOk(shards[home := Shard(table, home)[v.id := v]], after, Add64(len, 1),
                    Add64(bytesSize, VertexBytes(v)), g[v := Isolated(v.level)])
  {
    hide ShardsOk, TableOk, CountsOk, Shard, ShardOf, VertexBytes;
    ShardsStore(shards, table, v.id, v, home);
    TableStore(table, g, v, Isolated(v.level));
    assert after - {v.id} == table;
    StoreKeepsCounts(table, len, bytesSize, after, v.id);
  }

  function Deleted(g: Graph, v: Vertex): Graph
    requires v in g
  {
    g[v := Node(true, g[v].edges)]
  }

  lemma DeleteKeepsIndex(shards: seq<Table>, table: Table, len: nat, bytesSize: nat, g: Graph, id: Uuid, v: Vertex,
          home: nat, after: Table)
    requires IndexOk(shards, table, len, bytesSize, g)
    requires id in table && v == table[id] && home == ShardOf(id) && after == table - {id}
    ensures IndexOk(shards[home := Shard(table, home) - {id}], after, Add64(len, Not64(0)),
                    Add64(bytesSize, Not64(VertexBytes(v) - 1)), Deleted(g, v))
  {
    hide ShardsOk, TableOk, CountsOk, Shard, ShardOf, VertexBytes;
    ShardsDelete(shards, table, id, home);
    TableDelete(table, g, id);
    DeleteKeepsCounts(table, len, bytesSize, id);
  }

  lemma DeletedKeepsGraph(config: Config, space: Space, g: Graph, v: Vertex)
    requires GraphOk(config, space, g) && v in g
    ensures GraphOk(config, space, Deleted(g, v))
  {
    var h := Deleted(g, v);
    forall w, l: nat | w in h
      ensures EdgesOk(space, h, w, l, EdgesAt(h, w, l)) && |EdgesAt(h, w, l)| <= config.Limit()(l)
    {
      assert EdgesAt(h, w, l) == EdgesAt(g, w, l);
      assert EdgesOk(space, g, w, l, EdgesAt(g, w, l));
    }
  }

  /** An index that has only been inserted into: nothing is deleted, and level 0 is connected. */
  ghost predicate IsPristine(all: set<Vertex>, table: Table, entrypoint: Vertex?, g: Graph) {
    all == table.Values && (entrypoint == null ==> all == {}) && Intact(g, all)
  }

  /** The graph g0, with entrypoint entry0, after v has been inserted. */
  ghost predicate IsInserted(config: Config, space: Space, g0: Graph, entry0: Vertex?, v: Vertex,
          course: Course, entrypoint: Vertex?, g: Graph) {
    var stored := g0[v := Isolated(v.level)];
    if entry0 == null then g == stored && entrypoint == v
    else
      && IsConnected(config, space, stored, g, v, entry0, course)
      && entrypoint == if v.level > entry0.level then v else entry0
  }

  lemma ValuesGrow(table: Table, id: Uuid, v: Vertex)
    requires id !in table
    ensures table[id := v].Values == table.Values + {v}
  {
    var after := table[id := v];
    forall w | w in table.Values + {v} ensures w in after.Values {
      if w in table.Values {
        var k :| k in table && table[k] == w;
        assert after[k] == w;
      } else {
        assert after[id] == w;
      }
    }
  }

  lemma AloneIsIntact(v: Vertex)
    ensures Intact(map[v := Isolated(v.level)], {v})
  {}

  /** While no vertex has more neighbours than the bottom level allows, inserting keeps the index pristine. */
  lemma InsertKeepsPristine(config: Config, space: Space, all: set<Vertex>, table: Table, entry0: Vertex?, g0: Graph,
          id: Uuid, v: Vertex, course: Course, entrypoint: Vertex?, g: Graph)
    requires GraphOk(config, space, g0) && IsPristine(all, table, entry0, g0) && g0.Keys == all
    requires id !in table && v !in all && IsInserted(config, space, g0, entry0, v, course, entrypoint, g)
    requires config.m > 0 && |all| <= config.mMax0
    ensures IsPristine(all + {v}, table[id := v], entrypoint, g)
  {
    ValuesGrow(table, id, v);
    if entry0 == null {
      AloneIsIntact(v);
      assert g == map[v := Isolated(v.level)];
    } else {
      StoreKeepsSound(space, config.Limit(), g0, v);
      StoreKeepsIntact(g0, all, v);
      WovenKeepsIntact(config, space, g0[v := Isolated(v.level)], g, v, Min(entry0.level, v.level), course.chosen,
                       all);
    }
  }

  class Hnsw {
    var size: nat
    var bytesSize: nat
    var space: Space
    var config: Config
    var len: nat
    var vertices: seq<Table>
    var entrypoint: Vertex?

    /** All vertices ever stored, deleted or not. */
    ghost var all: set<Vertex>
    /** The shards as one table. */
    ghost var table: Table

    ghost predicate Valid()
      reads this, all
    {
      && IndexOk(vertices, table, len, bytesSize, Snap(all))
      && GraphOk(config, space, Snap(all))
      && (entrypoint != null ==> entrypoint in all)
    }

    /** What clients have stored. */
    ghost function Contents(): map<Uuid, Doc>
      reads this
    {
      DocsOf(table)
    }

    constructor (size: nat, space: Space, config: Config)
      requires config.Supported() && Symmetric(space)
      ensures Valid() && this.size == size && this.space == space && this.config == config
      ensures table == map[] && all == {} && entrypoint == null
    {
      this.size, this.space, this.config := size, space, config;
      len, bytesSize := 0, 0;
      entrypoint := null;
      all, table := {}, map[];
      vertices := [];
      new;
      for i := 0 to SHARD_COUNT
        invariant |vertices| == i && forall j :: 0 <= j < i ==> vertices[j] == map[]
        invariant this.size == size && this.space == space && this.config == config
        invariant len == 0 && bytesSize == 0 && entrypoint == null && all == {} && table == map[]
      {
        vertices := vertices + [map[]];
      }
      EmptyShardsOk(vertices);
    }

    method GetVertex(id: Uuid) returns (vertex: Vertex?)
      requires Valid()
      ensures if id in table then vertex == table[id] else vertex == null
    {
      ShardLookup(vertices, table, id);
      var m := vertices[ShardOf(id)];
      vertex := if id in m then m[id] else null;
    }

    method StoreVertex(vertex: Vertex) returns (err: Option<Error>)
      requires Valid() && vertex !in all && !vertex.deleted && vertex.edges == Isolated(vertex.level).edges
      modifies this`vertices, this`len, this`bytesSize, this`all, this`table
      ensures Valid()
      ensures err == if vertex.id in old(table) then Some(ItemAlreadyExistsError) else None
      ensures err.Some? ==> Same(old(table), old(all), old(entrypoint), old(Snap(all)))
      ensures err.None? ==> Stored(old(table), old(all), vertex.id, vertex.vector, vertex.metadata, vertex.level)
      ensures err.None? ==> table[vertex.id] == vertex && Untouched(Snap(all), vertex)
      ensures err.None? ==> Snap(all) == old(Snap(all))[vertex := Isolated(vertex.level)]
    {
      hide Snap, WellFormed, DegreesOk, TableOk, CountsOk, Symmetric;
      ShardLookup(vertices, table, vertex.id);
      var shardIdx := ShardOf(vertex.id);
      var m: Table := vertices[shardIdx];
      if vertex.id in m {
        return Some(ItemAlreadyExistsError);
      }
      StoreKeepsIndex(vertices, table, len, bytesSize, Snap(all), vertex, shardIdx, table[vertex.id := vertex]);
      StoreKeepsSound(space, config.Limit(), Snap(all), vertex);
      Put(vertex, m[vertex.id := vertex], shardIdx, table[vertex.id := vertex]);
      err := None;
    }

    ghost predicate Pristine()
      reads this, all
    {
      IsPristine(all, table, entrypoint, Snap(all))
    }

    /** Insert, seen from the graph: the edges of the new vertex v and of the vertices it was linked to. */
    ghost predicate Inserted(g0: Graph, entry0: Vertex?, v: Vertex, course: Course)
      reads this, all
    {
      IsInserted(config, space, g0, entry0, v, course, entrypoint, Snap(all))
    }

    method Insert(id: Uuid, value: Vector, metadata: Metadata, vertexLevel: nat)
      returns (err: Option<Error>, ghost course: Course)
      requires Valid()
      modifies this`vertices, this`len, this`bytesSize, this`all, this`table, this`entrypoint, all`edges
      ensures Valid()
      ensures err == if id in old(table) then Some(ItemAlreadyExistsError) else None
      ensures err.Some? ==> Same(old(table), old(all), old(entrypoint), old(Snap(all)))
      ensures err.None? ==>
                Stored(old(table), old(all), id, value, metadata, if old(entrypoint) == null then 0 else vertexLevel)
      ensures err.None? ==> fresh(table[id]) && Inserted(old(Snap(all)), old(entrypoint), table[id], course)
    {
      if entrypoint == null {
        course := Course([], map[]);
        err := InsertFirst(id, value, metadata);
      } else {
        err, course := InsertNext(id, value, metadata, vertexLevel);
      }
    }

    /** The table has v under id, and is otherwise as before. */
    ghost predicate Stored(table0: Table, all0: set<Vertex>, id: Uuid, value: Vector, metadata: Metadata, level: nat)
      reads this
    {
      && id in table && table == table0[id := table[id]] && all == all0 + {table[id]}
      && table[id].id == id && table[id].vector == value && table[id].metadata == metadata && table[id].level == level
    }

    ghost predicate Same(table0: Table, all0: set<Vertex>, entry0: Vertex?, g0: Graph)
      reads this, all
    {
      table == table0 && all == all0 && entrypoint == entry0 && Snap(all) == g0
    }

    method Create(id: Uuid, value: Vector, metadata: Metadata, level: nat) returns (err: Option<Error>, vertex: Vertex)
      requires Valid()
      modifies this`vertices, this`len, this`bytesSize, this`all, this`table
      ensures Valid() && fresh(vertex) && entrypoint != vertex
      ensures err == if id in old(table) then Some(ItemAlreadyExistsError) else None
      ensures err.Some? ==> Same(old(table), old(all), old(entrypoint), old(Snap(all)))
      ensures err.None? ==> Stored(old(table), old(all), id, value, metadata, level) && table[id] == vertex
      ensures err.None? ==> Untouched(Snap(all), vertex)
      ensures err.None? ==> Snap(all) == old(Snap(all))[vertex := Isolated(level)]
    {
      hide Snap, WellFormed, DegreesOk, TableOk, CountsOk, ShardsOk, Symmetric, Untouched;
      vertex := new Vertex(id, value, metadata, level);
      err := StoreVertex(vertex);
    }

    method InsertFirst(id: Uuid, value: Vector, metadata: Metadata) returns (err: Option<Error>)
      requires Valid() && entrypoint == null
      modifies this`vertices, this`len, this`bytesSize, this`all, this`table, this`entrypoint
      ensures Valid()
      ensures err == if id in old(table) then Some(ItemAlreadyExistsError) else None
      ensures err.Some? ==> Same(old(table), old(all), old(entrypoint), old(Snap(all)))
      ensures err.None? ==> Stored(old(table), old(all), id, value, metadata, 0)
      ensures err.None? ==> fresh(table[id]) && Inserted(old(Snap(all)), null, table[id], Course([], map[]))
    {
      hide Snap, WellFormed, DegreesOk, TableOk, CountsOk, Symmetric, Untouched;
      var vertex;
      err, vertex := Create(id, value, metadata, 0);
      if err.None? {
        entrypoint := vertex;
      }
    }

    method InsertNext(id: Uuid, value: Vector, metadata: Metadata, vertexLevel: nat)
      returns (err: Option<Error>, ghost course: Course)
      requires Valid() && entrypoint != null
      modifies this`vertices, this`len, this`bytesSize, this`all, this`table, this`entrypoint, all`edges
      ensures Valid()
      ensures err == if id in old(table) then Some(ItemAlreadyExistsError) else None
      ensures err.Some? ==> Same(old(table), old(all), old(entrypoint), old(Snap(all)))
      ensures err.None? ==> Stored(old(table), old(all), id, value, metadata, vertexLevel)
      ensures err.None? ==> fresh(table[id]) && Inserted(old(Snap(all)), old(entrypoint), table[id], course)
    {
      hide Snap, WellFormed, DegreesOk, TableOk, CountsOk, Symmetric, Untouched;
      course := Course([], map[]);
      var vertex;
      err, vertex := Create(id, value, metadata, vertexLevel);
      if err.None? {
        course := ConnectStored(vertex);
      }
    }

    /** The part of Insert that links a stored vertex and moves the entrypoint up to it. */
    method ConnectStored(vertex: Vertex) returns (ghost course: Course)
      requires Valid() && vertex in all && entrypoint != null && entrypoint != vertex && Untouched(Snap(all), vertex)
      modifies this`entrypoint, all`edges
      ensures Valid()
      ensures IsConnected(config, space, old(Snap(all)), Snap(all), vertex, old(entrypoint), course)
      ensures entrypoint == if vertex.level > old(entrypoint).level then vertex else old(entrypoint)
    {
      hide Snap, WellFormed, DegreesOk, TableOk, CountsOk, ShardsOk, Symmetric, IsConnected, Untouched, SameNodes;
      course := Connect(config, space, vertex, entrypoint, all);
      ConnectedNodes(config, space, old(Snap(all)), Snap(all), vertex, entrypoint, course);
      TableSameNodes(table, old(Snap(all)), Snap(all));
      if vertex.level > entrypoint.level {
        entrypoint := vertex;
      }
    }

    method Put(vertex: Vertex, shard: Table, shardIdx: nat, ghost after: Table)
      requires shardIdx < |vertices|
      requires vertex !in all && Node(vertex.deleted, vertex.edges) == Isolated(vertex.level)
      modifies this`vertices, this`len, this`bytesSize, this`all, this`table
      ensures vertices == old(vertices)[shardIdx := shard]
      ensures len == Add64(old(len), 1) && bytesSize == Add64(old(bytesSize), VertexBytes(vertex))
      ensures table == after && all == old(all) + {vertex}
      ensures Snap(all) == old(Snap(all))[vertex := Isolated(vertex.level)]
    {
      hide Snap, Add64, VertexBytes, Isolated;
      SnapWith(all, vertex);
      var vertexBytes := BytesSize(vertex);
      vertices := vertices[shardIdx := shard];
      len := Add64(len, 1);
      bytesSize := Add64(bytesSize, vertexBytes);
      table, all := after, all + {vertex};
    }

    /** Take a vertex out of the table and mark it deleted. */
    method RemoveVertex(id: Uuid) returns (vertex: Vertex?)
      requires Valid()
      modifies this`vertices, this`len, this`bytesSize, this`table, all`deleted
      ensures Valid()
      ensures vertex == if id in old(table) then old(table)[id] else null
      ensures vertex == null ==> Same(old(table), old(all), old(entrypoint), old(Snap(all)))
      ensures vertex != null ==>
                vertex in all && table == old(table) - {id} && Snap(all) == Deleted(old(Snap(all)), vertex)
    {
      vertex := GetVertex(id);
      if vertex != null {
        DeleteStored(id, vertex);
      }
    }

    method DeleteStored(id: Uuid, vertex: Vertex)
      requires Valid() && id in table && table[id] == vertex && vertex in all
      modifies this`vertices, this`len, this`bytesSize, this`table, all`deleted
      ensures Valid()
      ensures table == old(table) - {id} && Snap(all) == Deleted(old(Snap(all)), vertex)
    {
      hide Snap, WellFormed, DegreesOk, TableOk, CountsOk, Symmetric;
      var shardIdx := ShardOf(id);
      ghost var after := table - {id};
      DeleteKeepsIndex(vertices, table, len, bytesSize, Snap(all), id, vertex, shardIdx, after);
      DeletedKeepsGraph(config, space, Snap(all), vertex);
      TakeOut(vertex, vertices[shardIdx] - {id}, shardIdx, after);
      vertex.SetDeleted(all);
    }

    method TakeOut(vertex: Vertex, shard: Table, shardIdx: nat, ghost after: Table)
      requires shardIdx < |vertices|
      modifies this`vertices, this`len, this`bytesSize, this`table
      ensures vertices == old(vertices)[shardIdx := shard]
      ensures len == Add64(old(len), Not64(0))
      ensures bytesSize == Add64(old(bytesSize), Not64(VertexBytes(vertex) - 1))
      ensures table == after && Snap(all) == old(Snap(all))
    {
      var vertexBytes := BytesSize(vertex);
      vertices := vertices[shardIdx := shard];
      len := Add64(len, Not64(0));
      bytesSize := Add64(bytesSize, Not64(vertexBytes - 1));
      table := after;
    }

    /** Remove, seen from the graph: x is deleted, its neighbours are unlinked from it and cut down. */
    ghost predicate Removed(g0: Graph, entry0: Vertex?, x: Vertex, at: int)
      reads this, all
    {
      && x in g0
      && Detached(Deleted(g0, x), Snap(all), x, -1, {}, config.Caps())
      && if entry0 == x then Replaces(Deleted(g0, x), x, entrypoint, at) else entrypoint == entry0
    }

    method Remove(id: Uuid) returns (err: Option<Error>, ghost at: int)
      requires Valid()
      modifies this`vertices, this`len, this`bytesSize, this`table, this`entrypoint, all
      ensures Valid() && all == old(all)
      ensures err == if id in old(table) then None else Some(ItemNotFoundError)
      ensures err.Some? ==> Same(old(table), old(all), old(entrypoint), old(Snap(all)))
      ensures err.None? ==> table == old(table) - {id} && Removed(old(Snap(all)), old(entrypoint), old(table)[id], at)
    {
      hide Snap, WellFormed, DegreesOk, TableOk, CountsOk, Symmetric, Detached, Deleted;
      var vertex := RemoveVertex(id);
      if vertex == null {
        return Some(ItemNotFoundError), -1;
      }
      at := Leave(vertex);
      err := None;
    }

    /** What Remove does after the vertex is taken out of the table. */
    method Leave(x: Vertex) returns (ghost at: int)
      requires Valid() && x in all
      modifies this`entrypoint, all`edges
      ensures Valid() && Detached(old(Snap(all)), Snap(all), x, -1, {}, config.Caps())
      ensures if old(entrypoint) == x then Replaces(old(Snap(all)), x, entrypoint, at)
              else entrypoint == old(entrypoint)
    {
      hide WellFormed, DegreesOk, TableOk, CountsOk, ShardsOk, Symmetric, Detached, Replaces;
      at := MoveEntrypoint(x);
      UnlinkRemoved(x);
    }

    /** If x was the entrypoint, move it to a neighbour. */
    method MoveEntrypoint(x: Vertex) returns (ghost at: int)
      requires Valid() && x in all
      modifies this`entrypoint
      ensures Valid()
      ensures if old(entrypoint) == x then Replaces(Snap(all), x, entrypoint, at) else entrypoint == old(entrypoint)
    {
      hide Snap, DegreesOk, TableOk, CountsOk, ShardsOk, Symmetric;
      at := -1;
      if entrypoint == x {
        entrypoint, at := NextEntrypoint(x, all);
        ReplacementInGraph(space, Snap(all), x, entrypoint, at);
      }
    }

    method UnlinkRemoved(vertex: Vertex)
      requires Valid() && vertex in all
      modifies all`edges
      ensures Valid() && Detached(old(Snap(all)), Snap(all), vertex, -1, {}, config.Caps())
    {
      ghost var g := Snap(all);
      UnlinkLevels(config, space, vertex, all);
      TableSameNodes(table, g, Snap(all));
      DetachedKeepsWellFormed(space, g, Snap(all), vertex, -1, {}, config.Caps());
      DetachedKeepsDegrees(g, Snap(all), vertex, -1, {}, config.Caps(), config.Limit());
    }

    /** What a search can come to: the vertices that are not deleted, and the entrypoint. */
    ghost function Findable(): set<Vertex>
      reads this, all
    {
      set v | v in all && (v == entrypoint || !v.deleted)
    }

    method Search(query: Vector, k: nat) returns (result: seq<Hit>, ghost trace: Option<Trace>)
      requires Valid()
      ensures entrypoint == null ==> result == []
      ensures entrypoint != null ==>
                trace.Some? && IsAnswerOf(config, space, Snap(all), query, k, entrypoint, trace.value, result)
      ensures entrypoint != null ==>
                trace.Some? && AnswerOk(space, Findable(), query, k, entrypoint, trace.value.vs, result)
      ensures Pristine() && |table| <= Max(config.ef, k) ==> IsExactAnswer(space, Contents(), query, k, result)
    {
      hide WellFormed, DegreesOk, CountsOk, ShardsOk, Symmetric, IsAnswerOf, AnswerOk, IsExactAnswer, Intact, DocsOf,
           ClosedEverywhere;
      ValuesSize(table, Snap(all));
      if entrypoint == null {
        NothingIsExact(space, table, query, k);
        return [], None;
      }
      FindableIsClosed(Snap(all), Findable());
      ghost var how;
      result, how := SearchFrom(config, space, query, k, entrypoint, all, Findable(), table, Contents());
      trace := Some(how);
    }
  }

  lemma NothingIsExact(space: Space, table: Table, query: Vector, k: nat)
    ensures |table| == 0 ==> IsExactAnswer(space, DocsOf(table), query, k, [])
  {
    if |table| == 0 {
      assert table == map[];
    }
  }

  lemma FindableIsClosed(g: Graph, safe: set<Vertex>)
    requires forall v :: v in g && !g[v].deleted ==> v in safe
    ensures ClosedEverywhere(g, safe)
  {}

  lemma ValuesSize(table: Table, g: Graph)
    requires TableOk(table, g)
    ensures Keyed(table) && |table.Values| == |table|
  {
    KeyedSize(table);
  }

  lemma ReplacementInGraph(space: Space, g: Graph, x: Vertex, next: Vertex?, at: int)
    requires WellFormed(space, g) && x in g && Replaces(g, x, next, at)
    ensures next != null ==> next in g && next != x
  {
    if next != null {
      assert EdgesOk(space, g, x, at, EdgesAt(g, x, at));
    }
  }

  lemma EmptyShardsOk(shards: seq<Table>)
    requires |shards| == SHARD_COUNT && forall i :: 0 <= i < SHARD_COUNT ==> shards[i] == map[]
    ensures ShardsOk(shards, map[])
  {}
}
