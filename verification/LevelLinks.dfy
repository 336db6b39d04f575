/** Linking a new vertex at one level, and pruning: the half of index/hnsw.go that changes edges. */
module LevelLinks {
  import opened Common
  import opened Configs
  import opened PriorityQueues
  import opened Nearest
  import opened Selection
  import opened Graphs
  import opened BeamSearch
  import opened BeamWalk
  import opened BeamRuns
  import opened LevelSearch
  import opened Linking

  method SelectSimple(neighbors: Queue, k: nat, ghost all: set<Vertex>)
    requires neighbors.Valid() && neighbors.isMax
    modifies neighbors`len, neighbors.buf
    ensures neighbors.Valid() && IsNearest(old(neighbors.Items()), k, neighbors.Items())
    ensures Snap(all) == old(Snap(all))
  {
    SelectNeighbors(neighbors, k);
  }

  method SelectHeuristic(neighbors: Queue, k: nat, keepPruned: bool, ghost all: set<Vertex>) returns (result: Queue)
    requires neighbors.Valid() && neighbors.isMax
    modifies neighbors.buf
    ensures fresh(result) && fresh(result.buf) && result.Valid() && result.isMax
    ensures IsNearest(old(neighbors.Items()), k, result.Items())
    ensures Snap(all) == old(Snap(all))
  {
    result := SelectNeighborsHeuristic(neighbors, k, keepPruned);
  }

  /** The configured selection algorithm, on a queue that holds the entries of e. */
  method Select(config: Config, neighbors: Queue, k: nat, ghost e: EdgeSet, ghost all: set<Vertex>)
    returns (result: Queue, ghost part: EdgeSet)
    requires config.Supported() && Holds(neighbors, true, e)
    modifies neighbors`len, neighbors.buf
    ensures result == neighbors || (fresh(result) && fresh(result.buf))
    ensures Holds(result, true, part) && IsNearestPart(e, k, part)
    ensures Snap(all) == old(Snap(all))
  {
    if config.searchAlgorithm == SEARCH_SIMPLE {
      SelectSimple(neighbors, k, all);
      result := neighbors;
    } else {
      result := SelectHeuristic(neighbors, k, config.heuristicKeepPruned, all);
    }
    part := KeptPart(e, result.Items());
    NearestItemsArePart(e, k, result.Items());
  }

  lemma LivePartEnds(g: Graph, e: EdgeSet)
    ensures AsItems(LivePart(g, e - e.Keys)) == multiset{}
    ensures e - {} == e
  {
    assert AsSet(LivePart(g, e - e.Keys)) == {};
  }

  /** The live edges of a vertex at one level, on a fresh queue. */
  method QueueLiveEdges(edges: EdgeSet, ghost all: set<Vertex>) returns (queue: Queue)
    requires edges.Keys <= all
    ensures fresh(queue) && fresh(queue.buf)
    ensures Holds(queue, true, LivePart(Snap(all), edges))
    ensures Snap(all) == old(Snap(all))
  {
    hide LivePart, AsItems, AsSet;
    ghost var g := Snap(all);
    queue := new PriorityQueue(true);
    var todo := edges.Keys;
    LivePartEnds(g, edges);
    while todo != {}
      invariant todo <= edges.Keys && Snap(all) == g
      invariant fresh(queue) && fresh(queue.buf) && Holds(queue, true, LivePart(g, edges - todo))
      decreases todo
    {
      var neighbor :| neighbor in todo;
      assert neighbor.deleted == g[neighbor].deleted;
      LivePartNext(g, edges, todo, neighbor);
      if !neighbor.deleted {
        PushEntry(queue, neighbor, edges[neighbor], true, LivePart(g, edges - todo), all);
      }
      todo := todo - {neighbor};
    }
  }

  /** The items of a queue as an edge set. */
  method ToEdgeSet(queue: Queue, ghost part: EdgeSet) returns (e: EdgeSet)
    requires Holds(queue, true, part)
    ensures e == part
  {
    e := map[];
    var i := 0;
    while i < queue.len
      invariant i <= queue.len && e.Keys <= part.Keys
      invariant forall u :: u in e ==> e[u] == part[u]
      invariant forall j :: 0 <= j < i ==> queue.buf[j].value in e
    {
      var item := queue.buf[i];
      assert queue.buf[..queue.len][i] in queue.Items();
      ItemsIn(part, item);
      e := e[item.value := item.priority];
      i := i + 1;
    }
    forall u | u in part ensures u in e {
      ItemsIn(part, Item(part[u], u));
      assert Item(part[u], u) in queue.buf[..queue.len];
    }
  }

  /** pruneNeighbors: keep the k nearest of the live neighbours, and no deleted one. */
  method PruneNeighbors(config: Config, vertex: Vertex, k: nat, l: nat, ghost all: set<Vertex>)
    requires config.Supported() && vertex in all && l < |vertex.edges| && vertex.edges[l].Keys <= all
    modifies vertex`edges
    ensures l < |vertex.edges|
    ensures IsNearestPart(LivePart(old(Snap(all)), old(vertex.edges[l])), k, vertex.edges[l])
    ensures Snap(all) == WithEdges(old(Snap(all)), vertex, l, vertex.edges[l])
  {
    var queue := QueueLiveEdges(vertex.edges[l], all);
    ghost var part;
    queue, part := Select(config, queue, k, LivePart(Snap(all), vertex.edges[l]), all);
    var newNeighbors := ToEdgeSet(queue, part);
    vertex.SetEdges(l, newNeighbors, all);
  }

  /** Link two vertices both ways, and prune the old one if it now has too many neighbours. */
  method LinkNeighbor(config: Config, vertex: Vertex, neighbor: Vertex, distance: Distance, l: nat,
          ghost all: set<Vertex>)
    requires config.Supported() && vertex in all && neighbor in all && vertex != neighbor
    requires l < |vertex.edges| && l < |neighbor.edges| && neighbor.edges[l].Keys <= all
    modifies vertex`edges, neighbor`edges
    ensures var g := old(Snap(all));
            var both := WithEdges(WithEdges(g, vertex, l, EdgesAt(g, vertex, l)[neighbor := distance]),
                                  neighbor, l, EdgesAt(g, neighbor, l)[vertex := distance]);
            && SameBut(both, Snap(all), l)
            && (forall w :: w in both && w != neighbor ==> EdgesAt(Snap(all), w, l) == EdgesAt(both, w, l))
            && Capped(both, EdgesAt(both, neighbor, l), EdgesAt(Snap(all), neighbor, l), config.Cap(l))
  {
    vertex.AddEdge(l, neighbor, distance, all);
    neighbor.AddEdge(l, vertex, distance, all);
    ghost var both := Snap(all);
    if |neighbor.edges[l]| > config.Cap(l) {
      PruneNeighbors(config, neighbor, config.Cap(l), l, all);
      WithEdgesAt(both, neighbor, l, neighbor.edges[l]);
    }
  }

  ghost predicate Linkable(g: Graph, vertex: Vertex, neighbor: Vertex, l: nat) {
    && vertex in g && neighbor in g && vertex != neighbor
    && l < |g[vertex].edges| && l < |g[neighbor].edges| && EdgesAt(g, neighbor, l).Keys <= g.Keys
  }

  lemma TargetsAreLinkable(space: Space, g: Graph, vertex: Vertex, l: nat, chosen: EdgeSet)
    requires WellFormed(space, g) && vertex in g && l <= vertex.level && EdgesOk(space, g, vertex, l, chosen)
    ensures forall u :: u in chosen ==> Linkable(g, vertex, u, l)
  {
    forall u | u in chosen ensures Linkable(g, vertex, u, l) {
      assert EdgesOk(space, g, u, l, EdgesAt(g, u, l));
    }
  }

  /** One turn of the linking loop: `done` are the neighbours linked so far. */
  method LinkNext(config: Config, vertex: Vertex, neighbor: Vertex, distance: Distance, l: nat, ghost g0: Graph,
          ghost done: EdgeSet, ghost queue: Queue, ghost rest: EdgeSet, ghost all: set<Vertex>)
    requires Holds(queue, true, rest)
    requires config.Supported() && g0.Keys == all && Linkable(g0, vertex, neighbor, l) && neighbor !in done
    requires SameBut(g0, Snap(all), l) && LinkedAt(g0, Snap(all), vertex, l, done, config.Cap(l))
    modifies vertex`edges, neighbor`edges
    ensures SameBut(g0, Snap(all), l)
    ensures LinkedAt(g0, Snap(all), vertex, l, done[neighbor := distance], config.Cap(l))
    ensures Holds(queue, true, rest) && queue.len == old(queue.len)
  {
    ghost var g1 := Snap(all);
    assert vertex.edges == g1[vertex].edges && neighbor.edges == g1[neighbor].edges;
    LinkNeighbor(config, vertex, neighbor, distance, l, all);
    ghost var both := WithEdges(WithEdges(g1, vertex, l, done[neighbor := distance]),
                                neighbor, l, EdgesAt(g1, neighbor, l)[vertex := distance]);
    LinkOne(g0, g1, both, Snap(all), vertex, l, done, neighbor, distance, config.Cap(l));
  }

  /** `chosen` is made up of the neighbours already linked and the rest. */
  ghost predicate Split(chosen: EdgeSet, done: EdgeSet, rest: EdgeSet) {
    done.Keys !! rest.Keys && chosen == done + rest
  }

  lemma SplitNext(chosen: EdgeSet, done: EdgeSet, rest: EdgeSet, u: Vertex, d: Distance)
    requires Split(chosen, done, rest) && u in rest && rest[u] == d
    ensures Split(chosen, done[u := d], rest - {u})
    ensures u in chosen && u !in done
  {}

  lemma SplitAll(chosen: EdgeSet, done: EdgeSet, rest: EdgeSet)
    requires Split(chosen, done, rest) && |rest| == 0
    ensures done == chosen
  {
    assert rest == map[];
  }

  /** The state of the linking loop: `done` of `chosen` are linked, the rest is queued. */
  ghost predicate LinkState(q: Queue, g0: Graph, g: Graph, x: Vertex, l: nat, chosen: EdgeSet, done: EdgeSet,
          rest: EdgeSet, cap: nat)
    reads q, q.buf
  {
    Holds(q, true, rest) && Split(chosen, done, rest) && SameBut(g0, g, l) && LinkedAt(g0, g, x, l, done, cap)
  }

  method PopAndLink(config: Config, vertex: Vertex, neighbors: Queue, l: nat, ghost g0: Graph, ghost chosen: EdgeSet,
          ghost done: EdgeSet, ghost rest: EdgeSet, ghost all: set<Vertex>)
    returns (neighbor: Vertex, ghost done': EdgeSet, ghost rest': EdgeSet)
    requires config.Supported() && g0.Keys == all && neighbors.len > 0
    requires forall u :: u in chosen ==> Linkable(g0, vertex, u, l)
    requires LinkState(neighbors, g0, Snap(all), vertex, l, chosen, done, rest, config.Cap(l))
    modifies neighbors`len, neighbors.buf, all`edges
    ensures LinkState(neighbors, g0, Snap(all), vertex, l, chosen, done', rest', config.Cap(l))
    ensures neighbors.len == old(neighbors.len) - 1
    ensures neighbor in rest && neighbor !in done && IsLastEntry(true, rest, rest[neighbor])
    ensures done' == done[neighbor := rest[neighbor]] && rest' == rest - {neighbor}
  {
    var item := PopEntry(neighbors, true, rest, all);
    neighbor := item.value;
    SplitNext(chosen, done, rest, neighbor, item.priority);
    rest' := rest - {neighbor};
    LinkNext(config, vertex, neighbor, item.priority, l, g0, done, neighbors, rest', all);
    done' := done[neighbor := item.priority];
  }

  lemma LinkStart(q: Queue, g: Graph, x: Vertex, l: nat, chosen: EdgeSet, cap: nat)
    requires Holds(q, true, chosen) && x in g && EdgesAt(g, x, l) == map[]
    ensures LinkState(q, g, g, x, l, chosen, map[], chosen, cap)
  {}

  lemma LinkEnd(q: Queue, g0: Graph, g: Graph, x: Vertex, l: nat, chosen: EdgeSet, done: EdgeSet, rest: EdgeSet,
          cap: nat)
    requires LinkState(q, g0, g, x, l, chosen, done, rest, cap) && q.len == 0
    ensures done == chosen && SameBut(g0, g, l) && LinkedAt(g0, g, x, l, chosen, cap)
  {
    HoldsLen(q, true, rest);
    SplitAll(chosen, done, rest);
  }

  /** Where the level below is searched from: the nearest of the vertices linked to, or else where this one was. */
  ghost predicate IsNext(start: Vertex, linked: EdgeSet, next: Vertex) {
    if linked == map[] then next == start else next in linked && forall u :: u in linked ==> linked[next] <= linked[u]
  }

  /** Vertices have been linked farthest first, and `last` last. */
  ghost predicate FarthestFirst(start: Vertex, done: EdgeSet, rest: EdgeSet, last: Vertex) {
    IsNext(start, done, last) && forall u, w :: u in done && w in rest ==> rest[w] <= done[u]
  }

  lemma FarthestFirstNext(start: Vertex, done: EdgeSet, rest: EdgeSet, last: Vertex, u: Vertex)
    requires FarthestFirst(start, done, rest, last) && u in rest && u !in done && IsLastEntry(true, rest, rest[u])
    ensures FarthestFirst(start, done[u := rest[u]], rest - {u}, u)
  {}

  lemma NothingLinked(start: Vertex, rest: EdgeSet)
    ensures FarthestFirst(start, map[], rest, start)
  {}

  lemma LastIsNext(start: Vertex, done: EdgeSet, rest: EdgeSet, last: Vertex)
    requires FarthestFirst(start, done, rest, last)
    ensures IsNext(start, done, last)
  {}

  /** The linking loop of Insert at one level: link to every vertex of the queue, farthest first. */
  method LinkAll(config: Config, vertex: Vertex, start: Vertex, neighbors: Queue, l: nat, ghost chosen: EdgeSet,
          ghost all: set<Vertex>)
    returns (entrypoint: Vertex)
    requires config.Supported() && vertex in all && Holds(neighbors, true, chosen)
    requires forall u :: u in chosen ==> Linkable(Snap(all), vertex, u, l)
    requires EdgesAt(Snap(all), vertex, l) == map[]
    modifies neighbors`len, neighbors.buf, all`edges
    ensures SameBut(old(Snap(all)), Snap(all), l)
    ensures LinkedAt(old(Snap(all)), Snap(all), vertex, l, chosen, config.Cap(l))
    ensures IsNext(start, chosen, entrypoint)
  {
    hide IsNext, FarthestFirst, Split, LinkState;
    entrypoint := start;
    ghost var g0 := Snap(all);
    ghost var rest, done: EdgeSet := chosen, map[];
    HoldsLen(neighbors, true, chosen);
    LinkStart(neighbors, g0, vertex, l, chosen, config.Cap(l));
    NothingLinked(start, chosen);
    while neighbors.len > 0
      invariant LinkState(neighbors, g0, Snap(all), vertex, l, chosen, done, rest, config.Cap(l))
      invariant FarthestFirst(start, done, rest, entrypoint)
      decreases neighbors.len
    {
      ghost var linked, queued, last := done, rest, entrypoint;
      entrypoint, done, rest := PopAndLink(config, vertex, neighbors, l, g0, chosen, done, rest, all);
      FarthestFirstNext(start, linked, queued, last, entrypoint);
    }
    LinkEnd(neighbors, g0, Snap(all), vertex, l, chosen, done, rest, config.Cap(l));
    LastIsNext(start, done, rest, entrypoint);
  }

  /** The vertices x will be linked to: the m nearest of those a search from `start` finds. */
  ghost predicate Chosen(config: Config, t: Task, p: Progress, space: Space, g: Graph, x: Vertex, start: Vertex, l: nat,
          chosen: EdgeSet) {
    && t == Task(space, g, x.vector, start, config.efConstruction, l, Reach(g, l, start))
    && Completed(t, p) && IsNearestPart(p.found, config.m, chosen)
  }

  /** Proper targets for the edges of x, in the right number. */
  ghost predicate Targets(config: Config, space: Space, g: Graph, x: Vertex, l: nat, chosen: EdgeSet) {
    EdgesOk(space, g, x, l, chosen) && |chosen| <= config.m && (config.m > 0 ==> |chosen| > 0)
  }

  lemma FoundAreReachable(t: Task, p: Progress)
    requires Completed(t, p)
    ensures p.found.Keys <= t.reach && t.reach <= t.g.Keys && Exact(t, p.found) && |p.found| > 0
  {}

  /** What a search for x from another vertex finds are proper targets for x's edges. */
  lemma ChosenAreTargets(config: Config, t: Task, p: Progress, space: Space, g: Graph, x: Vertex, start: Vertex, l: nat,
          chosen: EdgeSet)
    requires WellFormed(space, g) && start in g && l <= start.level && start != x && Untargeted(g, x, l)
    requires Chosen(config, t, p, space, g, x, start, l, chosen)
    ensures Targets(config, space, g, x, l, chosen)
  {
    hide Completed, Searching, WellFormed, Untargeted, Reach;
    FoundAreReachable(t, p);
    ReachHasLevel(space, g, l, start);
    ReachAvoids(g, l, start, x);
  }

  /** Search one level and keep the k nearest of what is found, by the configured algorithm. */
  method SearchAndSelect(config: Config, space: Space, query: Vector, start: Vertex, ef: nat, k: nat, l: nat,
          ghost all: set<Vertex>)
    returns (neighbors: Queue, ghost part: EdgeSet, ghost t: Task, ghost p: Progress)
    requires config.Supported() && WellFormed(space, Snap(all)) && start in all && l <= start.level
    ensures fresh(neighbors) && fresh(neighbors.buf) && Holds(neighbors, true, part)
    ensures t == Task(space, old(Snap(all)), query, start, ef, l, Reach(old(Snap(all)), l, start))
    ensures Completed(t, p) && IsNearestPart(p.found, k, part)
    ensures Snap(all) == old(Snap(all))
  {
    hide Holds, Completed, IsNearestPart, WellFormed, IsRun, NoOrderMatters, NearestOfVisited;
    ghost var turns;
    neighbors, t, p, turns := SearchLevel(space, query, start, ef, l, all);
    neighbors, part := Select(config, neighbors, k, p.found, all);
  }

  lemma LinkedIsSound(config: Config, space: Space, g0: Graph, g: Graph, x: Vertex, l: nat, chosen: EdgeSet)
    requires WellFormed(space, g0) && DegreesOk(g0, config.Limit()) && Symmetric(space)
    requires x in g0 && l <= x.level && Targets(config, space, g0, x, l, chosen)
    requires SameBut(g0, g, l) && LinkedAt(g0, g, x, l, chosen, config.Cap(l))
    ensures WellFormed(space, g) && DegreesOk(g, config.Limit())
  {
    LinkedKeepsWellFormed(space, g0, g, x, l, chosen, config.Cap(l));
    LinkedKeepsDegrees(g0, g, x, l, chosen, config.Cap(l), config.Limit());
  }

  /** One level of Insert: search, select, link. Returns where to search the level below. */
  method LinkLevel(config: Config, space: Space, vertex: Vertex, start: Vertex, l: nat, ghost all: set<Vertex>)
    returns (entrypoint: Vertex, ghost chosen: EdgeSet, ghost t: Task, ghost p: Progress)
    requires config.Supported() && WellFormed(space, Snap(all))
    requires vertex in all && start in all && vertex != start && l <= vertex.level && l <= start.level
    requires Untargeted(Snap(all), vertex, l) && EdgesAt(Snap(all), vertex, l) == map[]
    modifies all`edges
    ensures Chosen(config, t, p, space, old(Snap(all)), vertex, start, l, chosen)
    ensures Targets(config, space, old(Snap(all)), vertex, l, chosen)
    ensures SameBut(old(Snap(all)), Snap(all), l)
    ensures LinkedAt(old(Snap(all)), Snap(all), vertex, l, chosen, config.Cap(l))
    ensures IsNext(start, chosen, entrypoint)
  {
    hide IsNext;
    var neighbors: Queue;
    neighbors, chosen, t, p := SearchAndSelect(config, space, vertex.vector, start, config.efConstruction, config.m,
            l, all);
    ChosenAreTargets(config, t, p, space, Snap(all), vertex, start, l, chosen);
    TargetsAreLinkable(space, Snap(all), vertex, l, chosen);
    entrypoint := LinkAll(config, vertex, start, neighbors, l, chosen, all);
  }
}
