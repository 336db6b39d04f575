/** Runs of the index after which its entrypoint is not what one may expect. */
module EntrypointRuns {
  import opened Common
  import opened Configs
  import opened Nearest
  import opened Graphs
  import opened BeamSearch
  import opened Linking
  import opened LevelLinks
  import opened IndexTable
  import opened Answers
  import opened Weaving
  import opened Removal
  import opened Querying
  import opened Hnsws
  import opened ExactRuns

  /** After inserting into an empty index: one vertex without edges, which is the entrypoint. */
  ghost predicate HoldsOne(index: Hnsw, space: Space, config: Config, item: Entry)
    reads index, index.all
  {
    && index.Valid() && index.space == space && index.config == config
    && index.table.Keys == {item.id} && index.all == {index.table[item.id]}
    && index.entrypoint == index.table[item.id] && index.entrypoint.level == 0
    && index.entrypoint.id == item.id && index.entrypoint.vector == item.vector
    && index.entrypoint.metadata == item.metadata
    && Snap(index.all) == map[index.entrypoint := Isolated(0)]
  }

  method StartWith(size: nat, space: Space, config: Config, item: Entry) returns (index: Hnsw)
    requires config.Supported() && Symmetric(space)
    ensures fresh(index) && fresh(index.all) && HoldsOne(index, space, config, item)
  {
    hide Snap, WellFormed, DegreesOk, TableOk, CountsOk, ShardsOk, Symmetric;
    index := new Hnsw(size, space, config);
    EmptySnap(index.all);
    var err, chosen := index.Insert(item.id, item.vector, item.metadata, item.level);
  }

  lemma EmptySnap(all: set<Vertex>)
    requires all == {}
    ensures Snap(all) == map[]
  {}

  /** All edges between vertices that are too far apart count as infinite. */
  lemma NoFiniteEdges(space: Space, g: Graph, x: Vertex)
    requires WellFormed(space, g) && x in g
    requires forall u :: u in g && u != x ==> MAX_FLOAT <= space.distance(x.vector, u.vector)
    ensures forall l: nat :: NoFiniteEdge(EdgesAt(g, x, l))
  {
    forall l: nat ensures NoFiniteEdge(EdgesAt(g, x, l)) {
      assert EdgesOk(space, g, x, l, EdgesAt(g, x, l));
    }
  }

  lemma DeletedEdges(g: Graph, x: Vertex, l: nat)
    requires x in g
    ensures forall v :: EdgesAt(Deleted(g, x), v, l) == EdgesAt(g, v, l)
  {}

  /** A removed entrypoint without finite edges is replaced by none. */
  lemma LostEntrypoint(space: Space, g: Graph, x: Vertex, next: Vertex?, at: int)
    requires WellFormed(space, g) && x in g && Replaces(Deleted(g, x), x, next, at)
    requires forall u :: u in g && u != x ==> MAX_FLOAT <= space.distance(x.vector, u.vector)
    ensures next == null
  {
    hide EdgesAt, NoFiniteEdge, WellFormed;
    NoFiniteEdges(space, g, x);
    forall l: nat ensures NoFiniteEdge(EdgesAt(Deleted(g, x), x, l)) {
      DeletedEdges(g, x, l);
    }
    ReplacementIsNone(Deleted(g, x), x, next, at);
  }

  /** Another item, at the bottom level. */
  method AddAtBottom(index: Hnsw, item: Entry) returns (ghost vertex: Vertex, ghost chosen: map<nat, Choice>)
    requires index.Valid() && index.entrypoint != null && item.id !in index.table
    modifies index, index.all
    ensures index.Valid() && fresh(vertex)
    ensures index.space == old(index.space) && index.config == old(index.config)
    ensures index.table == old(index.table)[item.id := vertex] && index.all == old(index.all) + {vertex}
    ensures vertex.id == item.id && vertex.vector == item.vector
    ensures vertex.metadata == item.metadata && vertex.level == 0
    ensures index.entrypoint == old(index.entrypoint)
    ensures Woven(index.config, index.space, old(Snap(index.all))[vertex := Isolated(0)], Snap(index.all), vertex, -1,
                  0, chosen)
  {
    hide Snap, WellFormed, DegreesOk, TableOk, CountsOk, ShardsOk, Symmetric, Woven;
    var err;
    ghost var course;
    err, course := index.Insert(item.id, item.vector, item.metadata, 0);
    chosen := course.chosen;
    vertex := index.table[item.id];
  }

  /** Remove the entrypoint of an index whose other vertices are all too far away. */
  method RemoveEntrypoint(index: Hnsw, id: Uuid)
    requires index.Valid() && id in index.table && index.table[id] in index.all && index.entrypoint == index.table[id]
    requires forall u :: u in index.all && u != index.entrypoint ==>
               MAX_FLOAT <= index.space.distance(index.entrypoint.vector, u.vector)
    modifies index, index.all
    ensures index.Valid() && index.entrypoint == null && index.table == old(index.table) - {id}
  {
    hide Snap, DegreesOk, TableOk, CountsOk, ShardsOk, Symmetric, Replaces, Deleted, DocsOf, Detached, WellFormed;
    ghost var g, x := Snap(index.all), index.entrypoint;
    var err, at := index.Remove(id);
    LostEntrypoint(index.space, g, x, index.entrypoint, at);
  }

  /**
   * Two items at no finite distance from each other, and the first one removed: there is no entrypoint any more,
   * one item is left, and no query finds it.
   */
  method LoseEntrypoint(size: nat, space: Space, config: Config, a: Entry, b: Entry, query: Vector, k: nat)
    returns (index: Hnsw, result: seq<Hit>)
    requires config.Supported() && Symmetric(space) && a.id != b.id && MAX_FLOAT <= space.distance(a.vector, b.vector)
    ensures fresh(index) && index.Valid() && index.entrypoint == null
    ensures index.table.Keys == {b.id} && index.Contents().Keys == {b.id}
    ensures result == []
  {
    hide Snap, WellFormed, DegreesOk, TableOk, CountsOk, ShardsOk, Symmetric, Woven, DocsOf, Hnsw.Valid, Hnsw.Pristine,
         IsAnswerOf, AnswerOk, IsExactAnswer;
    index := StartWith(size, space, config, a);
    ghost var second, chosen := AddAtBottom(index, b);
    RemoveEntrypoint(index, a.id);
    DocsIds(index.table);
    ghost var trace;
    result, trace := index.Search(query, k);
  }

  // An entrypoint that is deleted: edges in one direction only outlive the vertex they lead to

  /** One edge from v at the bottom level. */
  ghost predicate OneEdge(space: Space, g: Graph, v: Vertex, u: Vertex) {
    EdgesAt(g, v, 0) == map[u := space.distance(v.vector, u.vector)]
  }

  lemma OnlyTarget(config: Config, space: Space, g: Graph, x: Vertex, e: EdgeSet, u: Vertex)
    requires Targets(config, space, g, x, 0, e) && config.m > 0 && e.Keys <= {u}
    ensures e == map[u := space.distance(x.vector, u.vector)]
  {
    assert e.Keys != {};
    assert u in e;
  }

  lemma IsolatedEdges(x: Vertex, y: Vertex)
    ensures EdgesAt(map[x := Isolated(0)][y := Isolated(0)], x, 0) == map[]
  {}

  lemma FirstEdges(space: Space, g0: Graph, g: Graph, x: Vertex, y: Vertex, cap: nat)
    requires Symmetric(space) && x in g0 && x != y && EdgesAt(g0, x, 0) == map[] && cap > 0
    requires LinkedAt(g0, g, y, 0, map[x := space.distance(y.vector, x.vector)], cap)
    ensures OneEdge(space, g, x, y) && OneEdge(space, g, y, x)
  {
    hide EdgesAt;
    var none: EdgeSet := map[];
    AddSize(none, y, space.distance(y.vector, x.vector));
  }

  /** The second vertex is linked to the first, both ways. */
  lemma SecondIsLinked(config: Config, space: Space, x: Vertex, y: Vertex, g: Graph, chosen: map<nat, Choice>)
    requires config.m > 0 && config.mMax0 > 0 && Symmetric(space) && x != y
    requires Woven(config, space, map[x := Isolated(0)][y := Isolated(0)], g, y, -1, 0, chosen)
    ensures OneEdge(space, g, x, y) && OneEdge(space, g, y, x)
    ensures SameNodes(map[x := Isolated(0)][y := Isolated(0)], g)
  {
    hide WasSearched, LinkedAt, EdgesAt, SameNodes, Isolated, Symmetric;
    var g0 := map[x := Isolated(0)][y := Isolated(0)];
    var e := chosen[0].edges;
    assert LevelWoven(config, space, g0, g, y, 0, chosen[0]);
    OnlyTarget(config, space, g0, y, e, x);
    IsolatedEdges(x, y);
    FirstEdges(space, g0, g, x, y, config.mMax0);
  }

  /** From the bottom level {x, y}, a search for z finds y, if that is nearer than x. */
  lemma SearchFindsNearer(space: Space, t: Task, p: Progress, x: Vertex, y: Vertex)
    requires Completed(t, p) && t.entrypoint in {x, y} && t.Dist(y) < t.Dist(x)
    requires LiveNeighbors(t.g, x, t.level) == {y} && LiveNeighbors(t.g, y, t.level) == {x}
    ensures y in p.found && p.found.Keys <= {x, y}
  {
    assert Closed(t.g, t.level, {x, y});
    ReachIsLeast(t.g, t.level, t.entrypoint, {x, y});
    assert p.best in p.found;
    assert LiveNeighbors(t.g, p.best, t.level) <= p.visited;
  }

  lemma NearestOfTwo(found: EdgeSet, e: EdgeSet, x: Vertex, y: Vertex)
    requires IsNearestPart(found, 1, e) && y in found && found.Keys <= {x, y}
    requires x in found ==> found[y] < found[x]
    ensures e.Keys == {y}
  {
    assert |e.Keys| == 1;
    var u :| u in e;
    SubsetSize({u}, e.Keys);
  }

  /** A search from a vertex without edges finds that vertex. */
  lemma SearchFindsItself(t: Task, p: Progress)
    requires Completed(t, p) && LiveNeighbors(t.g, t.entrypoint, t.level) == {}
    ensures p.found.Keys <= {t.entrypoint}
  {
    assert Closed(t.g, t.level, {t.entrypoint});
    ReachIsLeast(t.g, t.level, t.entrypoint, {t.entrypoint});
  }

  /** Two linked live vertices, and one without edges. */
  ghost predicate PairAndOne(space: Space, g: Graph, x: Vertex, y: Vertex, z: Vertex) {
    && x != y && z !in {x, y} && g.Keys == {x, y, z}
    && (forall v :: v in g ==> !g[v].deleted)
    && OneEdge(space, g, x, y) && OneEdge(space, g, y, x) && EdgesAt(g, z, 0) == map[]
  }

  lemma PairNeighbors(space: Space, g0: Graph, g: Graph, x: Vertex, y: Vertex, z: Vertex)
    requires PairAndOne(space, g0, x, y, z) && SameNodes(g0, g) && SameAt(g0, g, 0)
    ensures LiveNeighbors(g, x, 0) == {y} && LiveNeighbors(g, y, 0) == {x} && LiveNeighbors(g, z, 0) == {}
  {
    assert EdgesAt(g, x, 0) == EdgesAt(g0, x, 0) && EdgesAt(g, y, 0) == EdgesAt(g0, y, 0);
    assert EdgesAt(g, z, 0) == EdgesAt(g0, z, 0);
  }

  /** What z is linked to is the nearer of the two. */
  lemma NearerIsChosen(config: Config, space: Space, g0: Graph, x: Vertex, y: Vertex, z: Vertex, c: Choice)
    requires PairAndOne(space, g0, x, y, z) && config.m == 1
    requires space.distance(z.vector, y.vector) < space.distance(z.vector, x.vector)
    requires WasSearched(config, space, g0, z, 0, c) && Targets(config, space, g0, z, 0, c.edges)
    ensures c.edges == map[y := space.distance(z.vector, y.vector)]
  {
    hide LiveNeighbors, SameAt, Searching, IsNearestPart, OneEdge, Reach;
    PairNeighbors(space, g0, c.task.g, x, y, z);
    PartIsFound(c.progress.found, 1, c.edges);
    NotOnlyItself(config, space, g0, z, c.edges);
    if c.task.entrypoint == z {
      SearchFindsItself(c.task, c.progress);
    } else {
      assert c.task.entrypoint in {x, y};
      SearchFindsNearer(space, c.task, c.progress, x, y);
      FoundAreExact(c.task, c.progress);
      NearestOfTwo(c.progress.found, c.edges, x, y);
      OnlyTarget(config, space, g0, z, c.edges, y);
    }
  }

  lemma NotOnlyItself(config: Config, space: Space, g: Graph, x: Vertex, e: EdgeSet)
    requires Targets(config, space, g, x, 0, e) && config.m > 0
    ensures !(e.Keys <= {x})
  {
    assert e.Keys != {};
    var u :| u in e;
    assert u != x;
  }

  lemma PartIsFound(found: EdgeSet, k: nat, e: EdgeSet)
    requires IsNearestPart(found, k, e)
    ensures e.Keys <= found.Keys
  {}

  lemma FoundAreExact(t: Task, p: Progress)
    requires Completed(t, p)
    ensures Exact(t, p.found)
  {}

  /** Over the limit of one edge, y forgets x for the nearer z. */
  lemma NearerIsKept(space: Space, g0: Graph, x: Vertex, y: Vertex, z: Vertex, after: EdgeSet)
    requires PairAndOne(space, g0, x, y, z) && Symmetric(space)
    requires space.distance(z.vector, y.vector) < space.distance(y.vector, x.vector)
    requires Capped(g0, EdgesAt(g0, y, 0)[z := space.distance(z.vector, y.vector)], after, 1)
    ensures after == map[z := space.distance(y.vector, z.vector)]
  {
    var both: EdgeSet := EdgesAt(g0, y, 0)[z := space.distance(z.vector, y.vector)];
    assert both.Keys == {x, z};
    assert LivePart(g0, both) == both;
    NearestOfTwo(both, after, x, z);
  }

  /** The nearer one forgets its edge to the farther one, which keeps its own. */
  lemma ThirdIsLinked(config: Config, space: Space, g0: Graph, x: Vertex, y: Vertex, z: Vertex, g: Graph,
          chosen: map<nat, Choice>)
    requires PairAndOne(space, g0, x, y, z) && config.m == 1 && config.mMax0 == 1 && Symmetric(space)
    requires space.distance(z.vector, y.vector) < space.distance(z.vector, x.vector)
    requires space.distance(z.vector, y.vector) < space.distance(y.vector, x.vector)
    requires Woven(config, space, g0, g, z, -1, 0, chosen)
    ensures SameNodes(g0, g) && OneEdge(space, g, x, y) && OneEdge(space, g, y, z) && OneEdge(space, g, z, y)
  {
    hide WasSearched, EdgesAt, Capped, Targets;
    assert LevelWoven(config, space, g0, g, z, 0, chosen[0]);
    NearerIsChosen(config, space, g0, x, y, z, chosen[0]);
    NearerIsKept(space, g0, x, y, z, EdgesAt(g, y, 0));
  }

  lemma PairStored(space: Space, x: Vertex, y: Vertex, z: Vertex, g: Graph)
    requires x != y && z !in {x, y} && SameNodes(map[x := Isolated(0)][y := Isolated(0)], g)
    requires OneEdge(space, g, x, y) && OneEdge(space, g, y, x)
    ensures PairAndOne(space, g[z := Isolated(0)], x, y, z)
  {
    var h := g[z := Isolated(0)];
    assert EdgesAt(h, x, 0) == EdgesAt(g, x, 0) && EdgesAt(h, y, 0) == EdgesAt(g, y, 0);
    assert EdgesAt(h, z, 0) == map[];
  }

  /** Removing y does not touch x, to which it has no edge. */
  lemma EdgeOutlives(space: Space, g0: Graph, g: Graph, x: Vertex, y: Vertex, z: Vertex, cap: nat -> nat)
    requires y in g0 && x in g0 && x !in {y, z} && OneEdge(space, g0, x, y) && OneEdge(space, g0, y, z)
    requires Detached(Deleted(g0, y), g, y, -1, {}, cap)
    ensures OneEdge(space, g, x, y) && y in g && g[y].deleted
  {
    DeletedEdges(g0, y, 0);
    assert x !in EdgesAt(Deleted(g0, y), y, 0);
  }

  /** Then removing x makes the deleted y the entrypoint. */
  lemma DeletedIsNearest(space: Space, g0: Graph, x: Vertex, y: Vertex, next: Vertex?, at: int)
    requires x in g0 && x.level == 0 && OneEdge(space, g0, x, y) && space.distance(x.vector, y.vector) < MAX_FLOAT
    requires Replaces(Deleted(g0, x), x, next, at)
    ensures next == y
  {
    DeletedEdges(g0, x, 0);
    assert y in EdgesAt(Deleted(g0, x), x, 0);
  }

  lemma StaysDeleted(g0: Graph, g: Graph, x: Vertex, y: Vertex, cap: nat -> nat)
    requires x in g0 && y in g0 && g0[y].deleted && Detached(Deleted(g0, x), g, x, -1, {}, cap)
    ensures y in g && g[y].deleted
  {}

  /** What the run needs: one edge for each vertex, and b between a and c, nearer to c. */
  ghost predicate Between(space: Space, config: Config, a: Vector, b: Vector, c: Vector) {
    && config.Supported() && Symmetric(space) && config.m == 1 && config.mMax0 == 1
    && space.distance(c, b) < space.distance(c, a) && space.distance(c, b) < space.distance(b, a)
    && space.distance(a, b) < MAX_FLOAT
  }

  /** Three vertices in a row, at the bottom level: a leads to b, and b and c to each other. */
  ghost predicate InRow(index: Hnsw, space: Space, config: Config, a: Vertex, b: Vertex, c: Vertex)
    reads index, index.all
  {
    && index.Valid() && index.space == space && index.config == config
    && index.table == map[a.id := a][b.id := b][c.id := c] && index.all == {a, b, c}
    && a.id != b.id && c.id !in {a.id, b.id} && a.level == 0
    && index.entrypoint == a
    && OneEdge(space, Snap(index.all), a, b) && OneEdge(space, Snap(index.all), b, c)
  }

  method BuildPair(size: nat, space: Space, config: Config, a: Entry, b: Entry)
    returns (index: Hnsw, ghost x: Vertex, ghost y: Vertex)
    requires config.Supported() && Symmetric(space) && config.m > 0 && config.mMax0 > 0 && a.id != b.id
    ensures fresh(index) && fresh(index.all) && index.Valid() && index.space == space && index.config == config
    ensures index.table == map[a.id := x][b.id := y] && index.all == {x, y} && x != y && index.entrypoint == x
    ensures x.id == a.id && x.vector == a.vector && x.level == 0 && y.id == b.id && y.vector == b.vector
    ensures SameNodes(map[x := Isolated(0)][y := Isolated(0)], Snap(index.all))
    ensures OneEdge(space, Snap(index.all), x, y) && OneEdge(space, Snap(index.all), y, x)
  {
    hide Snap, Hnsw.Valid, Symmetric, Woven, OneEdge, SameNodes, Isolated;
    index := StartWith(size, space, config, a);
    x := index.entrypoint;
    assert index.table == map[a.id := x];
    ghost var chosen;
    y, chosen := AddAtBottom(index, b);
    SecondIsLinked(config, space, x, y, Snap(index.all), chosen);
  }

  method BuildRow(size: nat, space: Space, config: Config, a: Entry, b: Entry, c: Entry)
    returns (index: Hnsw, ghost x: Vertex, ghost y: Vertex, ghost z: Vertex)
    requires Between(space, config, a.vector, b.vector, c.vector) && a.id != b.id && c.id !in {a.id, b.id}
    ensures fresh(index) && fresh(index.all) && InRow(index, space, config, x, y, z)
    ensures x.id == a.id && x.vector == a.vector && y.id == b.id && y.vector == b.vector
    ensures z.id == c.id && z.vector == c.vector
  {
    hide Snap, Hnsw.Valid, Symmetric, Woven, OneEdge, SameNodes, Isolated, PairAndOne;
    index, x, y := BuildPair(size, space, config, a, b);
    ghost var g := Snap(index.all);
    ghost var chosen;
    z, chosen := AddAtBottom(index, c);
    PairStored(space, x, y, z, g);
    ThirdIsLinked(config, space, g[z := Isolated(0)], x, y, z, Snap(index.all), chosen);
  }

  /** A deleted vertex that the entrypoint leads to, at the bottom level. */
  ghost predicate LeadsToDeleted(index: Hnsw, space: Space, config: Config, x: Vertex, y: Vertex)
    reads index, index.all
  {
    && index.Valid() && index.space == space && index.config == config
    && index.entrypoint == x && x in index.all && x.level == 0
    && OneEdge(space, Snap(index.all), x, y) && y in index.all && y.deleted
  }

  /** Remove the second of three in a row. */
  method RemoveSecond(index: Hnsw, id: Uuid, ghost space: Space, ghost config: Config, ghost x: Vertex, ghost y: Vertex,
          ghost z: Vertex)
    requires InRow(index, space, config, x, y, z) && y.id == id
    modifies index, index.all
    ensures LeadsToDeleted(index, space, config, x, y)
    ensures index.table == map[x.id := x][z.id := z] && index.all == {x, y, z}
  {
    hide Snap, Hnsw.Valid, Hnsw.Same, OneEdge, Replaces, Deleted, Detached;
    ghost var g := Snap(index.all);
    var err, at := index.Remove(id);
    EdgeOutlives(space, g, Snap(index.all), x, y, z, config.Caps());
    assert Snap(index.all)[y].deleted == y.deleted;
  }

  /** Remove the entrypoint: the deleted vertex it leads to takes its place. */
  method RemoveFirst(index: Hnsw, id: Uuid, ghost space: Space, ghost config: Config, ghost x: Vertex, ghost y: Vertex)
    requires LeadsToDeleted(index, space, config, x, y) && space.distance(x.vector, y.vector) < MAX_FLOAT
    requires id in index.table && index.table[id] == x
    modifies index, index.all
    ensures index.Valid() && index.space == space && index.config == config
    ensures index.table == old(index.table) - {id} && index.all == old(index.all)
    ensures index.entrypoint == y && y.deleted
  {
    hide Snap, Hnsw.Valid, Hnsw.Same, OneEdge, Replaces, Deleted, Detached;
    ghost var g := Snap(index.all);
    var err, at := index.Remove(id);
    DeletedIsNearest(space, g, x, y, index.entrypoint, at);
    StaysDeleted(g, Snap(index.all), x, y, config.Caps());
    assert Snap(index.all)[y].deleted == y.deleted;
  }

  lemma FirstIsNearest(space: Space, safe: set<Vertex>, query: Vector, k: nat, y: Vertex, vs: seq<Vertex>,
          result: seq<Hit>)
    requires AnswerOk(space, safe, query, k, y, vs, result) && k > 0
    requires forall v :: v in safe && v != y ==> space.distance(query, y.vector) < space.distance(query, v.vector)
    ensures |result| > 0 && result[0].id == y.id
  {
    assert vs[0] in safe;
  }

  lemma RowVertices(index: Hnsw, space: Space, config: Config, x: Vertex, y: Vertex, z: Vertex)
    requires InRow(index, space, config, x, y, z)
    ensures index.all == {x, y, z} && x.id != y.id && z.id !in {x.id, y.id}
  {}

  /**
   * Three items in a row, with one edge each: insert them, remove the second and then the first. The deleted
   * second vertex is the entrypoint, and searching for it finds it, although only the third is stored.
   */
  method FindDeleted(size: nat, space: Space, config: Config, a: Entry, b: Entry, c: Entry, k: nat)
    returns (index: Hnsw, result: seq<Hit>)
    requires Between(space, config, a.vector, b.vector, c.vector) && a.id != b.id && c.id !in {a.id, b.id}
    requires k > 0 && space.distance(b.vector, b.vector) < space.distance(c.vector, b.vector)
    ensures fresh(index) && index.Valid() && index.table.Keys == {c.id}
    ensures index.entrypoint != null && index.entrypoint.deleted && index.entrypoint.id == b.id
    ensures |result| > 0 && result[0].id == b.id
  {
    hide Snap, Hnsw.Valid, InRow, LeadsToDeleted, AnswerOk, IsAnswerOf, Between, IsExactAnswer, Hnsw.Pristine;
    ghost var x, y, z;
    index, x, y, z := BuildRow(size, space, config, a, b, c);
    FarFromSecond(space, config, a.vector, b.vector, c.vector);
    RowVertices(index, space, config, x, y, z);
    RemoveSecond(index, b.id, space, config, x, y, z);
    RemoveFirst(index, a.id, space, config, x, y);
    ghost var trace;
    result, trace := index.Search(b.vector, k);
    FirstIsNearest(space, index.Findable(), b.vector, k, y, trace.value.vs, result);
  }

  lemma FarFromSecond(space: Space, config: Config, a: Vector, b: Vector, c: Vector)
    requires Between(space, config, a, b, c) && space.distance(b, b) < space.distance(c, b)
    ensures space.distance(b, b) < space.distance(b, a) && space.distance(b, b) < space.distance(b, c)
    ensures space.distance(a, b) < MAX_FLOAT
  {}
}
