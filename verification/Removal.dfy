/** The walk of Remove through the levels: a new entrypoint, and unlinking the neighbours. */
module Removal {
  import opened Common
  import opened Configs
  import opened Nearest
  import opened Graphs
  import opened Linking
  import opened LevelLinks

  /** A distance that is finite, but not the largest, with which the search for the nearest edge begins. */
  ghost predicate IsNearEnough(d: Distance) {
    IsFinite(d) && d != MAX_FLOAT
  }

  /** The nearest of the edges of finite length, the largest excepted. */
  ghost predicate IsNearestEdge(e: EdgeSet, closest: Vertex) {
    closest in e && IsNearEnough(e[closest]) && forall u :: u in e ==> e[closest] <= e[u]
  }

  ghost predicate NoFiniteEdge(e: EdgeSet) {
    forall u :: u in e ==> !IsNearEnough(e[u])
  }

  method NearestEdge(e: EdgeSet) returns (closest: Vertex?)
    ensures if closest == null then NoFiniteEdge(e) else IsNearestEdge(e, closest)
  {
    closest := null;
    var minDistance := MAX_FLOAT;
    var todo := e.Keys;
    while todo != {}
      invariant todo <= e.Keys
      invariant closest == null ==> minDistance == MAX_FLOAT
      invariant closest != null ==> closest in e && e[closest] == minDistance < MAX_FLOAT
      invariant forall u :: u in e && u !in todo ==> minDistance <= e[u]
      decreases todo
    {
      var neighbor :| neighbor in todo;
      todo := todo - {neighbor};
      if e[neighbor] < minDistance {
        minDistance, closest := e[neighbor], neighbor;
      }
    }
  }

  /** The entrypoint that replaces x: its nearest neighbour on the highest level where it has one. */
  ghost predicate Replaces(g: Graph, x: Vertex, next: Vertex?, at: int) {
    && (forall l: nat :: at < l <= x.level ==> NoFiniteEdge(EdgesAt(g, x, l)))
    && (next == null ==> at == -1)
    && (next != null ==> 0 <= at <= x.level && IsNearestEdge(EdgesAt(g, x, at), next))
  }

  lemma ReplacementIsNone(g: Graph, x: Vertex, next: Vertex?, at: int)
    requires Replaces(g, x, next, at)
    ensures next == null <==> forall l: nat :: l <= x.level ==> NoFiniteEdge(EdgesAt(g, x, l))
  {
    if next != null {
      assert !NoFiniteEdge(EdgesAt(g, x, at));
    }
  }

  ghost predicate IsLive(g: Graph, v: Vertex?) {
    v != null && v in g && !g[v].deleted
  }

  /** The highest level of x with a finite edge, if any. */
  ghost predicate IsHighestFinite(g: Graph, x: Vertex, l: nat) {
    && l <= x.level && !NoFiniteEdge(EdgesAt(g, x, l))
    && forall k: nat :: l < k <= x.level ==> NoFiniteEdge(EdgesAt(g, x, k))
  }

  /** There is such a level, and each of its nearest edges leads to a live vertex. */
  ghost predicate NearestAreLive(g: Graph, x: Vertex) {
    exists l: nat :: IsHighestFinite(g, x, l) && forall u ::
      u in EdgesAt(g, x, l) && IsNearestEdge(EdgesAt(g, x, l), u) ==> IsLive(g, u)
  }

  lemma {:induction false} SomeHighestFinite(g: Graph, x: Vertex, k: nat) returns (l: nat)
    requires k <= x.level && !NoFiniteEdge(EdgesAt(g, x, k))
    ensures IsHighestFinite(g, x, l)
    decreases x.level - k
  {
    l := k;
    if i: nat :| k < i <= x.level && !NoFiniteEdge(EdgesAt(g, x, i)) {
      l := SomeHighestFinite(g, x, i);
    }
  }

  /** In whatever order the edges are walked, a live vertex becomes entrypoint: under exactly this condition. */
  lemma ReplacementIsLive(g: Graph, x: Vertex)
    ensures (forall next, at | Replaces(g, x, next, at) :: IsLive(g, next)) <==> NearestAreLive(g, x)
  {
    if NearestAreLive(g, x) {
      var l: nat :| IsHighestFinite(g, x, l) && forall u ::
        u in EdgesAt(g, x, l) && IsNearestEdge(EdgesAt(g, x, l), u) ==> IsLive(g, u);
      forall next, at | Replaces(g, x, next, at) ensures IsLive(g, next) {
        ReplacementIsNone(g, x, next, at);
        assert at == l;
      }
    } else if k: nat :| k <= x.level && !NoFiniteEdge(EdgesAt(g, x, k)) {
      var l := SomeHighestFinite(g, x, k);
      var u :| u in EdgesAt(g, x, l) && IsNearestEdge(EdgesAt(g, x, l), u) && !IsLive(g, u);
      assert Replaces(g, x, u, l);
    } else {
      assert Replaces(g, x, null, -1);
    }
  }

  method NextEntrypoint(vertex: Vertex, ghost all: set<Vertex>) returns (next: Vertex?, ghost at: int)
    requires vertex in all && |vertex.edges| == vertex.level + 1
    ensures Replaces(Snap(all), vertex, next, at)
  {
    ghost var g := Snap(all);
    var l: int := vertex.level;
    while l >= 0
      invariant -1 <= l <= vertex.level
      invariant forall k: nat :: l < k <= vertex.level ==> NoFiniteEdge(EdgesAt(g, vertex, k))
    {
      assert vertex.edges[l] == EdgesAt(g, vertex, l);
      next := NearestEdge(vertex.edges[l]);
      if next != null {
        at := l;
        return;
      }
      l := l - 1;
    }
    next, at := null, -1;
  }

  /** What the unlinking loops may rely on at one neighbour. */
  ghost predicate Unlinkable(g0: Graph, x: Vertex, l: nat, u: Vertex) {
    u in g0 && u != x && l < |g0[u].edges| && EdgesAt(g0, u, l).Keys <= g0.Keys
  }

  lemma NeighborsAreUnlinkable(space: Space, g: Graph, x: Vertex, l: nat)
    requires WellFormed(space, g) && x in g
    ensures forall u :: u in EdgesAt(g, x, l) ==> Unlinkable(g, x, l, u)
  {
    assert EdgesOk(space, g, x, l, EdgesAt(g, x, l));
    forall u | u in EdgesAt(g, x, l) ensures Unlinkable(g, x, l, u) {
      assert EdgesOk(space, g, u, l, EdgesAt(g, u, l));
    }
  }

  lemma WithEdgesTwice(g: Graph, v: Vertex, l: nat, e: EdgeSet)
    requires v in g && l < |g[v].edges|
    ensures var h := WithEdges(g, v, l, e);
            h[v].edges[l] == e && LivePart(h, e) == LivePart(g, e)
            && forall e' :: WithEdges(h, v, l, e') == WithEdges(g, v, l, e')
  {
    var h := WithEdges(g, v, l, e);
    forall e' ensures WithEdges(h, v, l, e') == WithEdges(g, v, l, e') {
      assert g[v].edges[l := e][l := e'] == g[v].edges[l := e'];
    }
  }

  method RemoveAndPrune(config: Config, x: Vertex, neighbor: Vertex, l: nat, ghost all: set<Vertex>)
    requires config.Supported() && neighbor in all && l < |neighbor.edges| && neighbor.edges[l].Keys <= all
    modifies neighbor`edges
    ensures l < |neighbor.edges|
    ensures Snap(all) == WithEdges(old(Snap(all)), neighbor, l, neighbor.edges[l])
    ensures IsNearestPart(LivePart(old(Snap(all)), old(neighbor.edges[l]) - {x}), config.Cap(l), neighbor.edges[l])
  {
    ghost var g1 := Snap(all);
    ghost var e: EdgeSet := neighbor.edges[l] - {x};
    neighbor.RemoveEdge(l, x, all);
    WithEdgesTwice(g1, neighbor, l, e);
    PruneNeighbors(config, neighbor, config.Cap(l), l, all);
  }

  /** Unlink one neighbour from x at level l, and cut its edges down. */
  method Unlink(config: Config, x: Vertex, neighbor: Vertex, l: nat, ghost g0: Graph, ghost done: set<Vertex>,
          ghost all: set<Vertex>)
    requires config.Supported() && g0.Keys == all && Unlinkable(g0, x, l, neighbor)
    requires neighbor in EdgesAt(g0, x, l) && neighbor !in done
    requires Detached(g0, Snap(all), x, l, done, config.Caps())
    modifies neighbor`edges
    ensures Detached(g0, Snap(all), x, l, done + {neighbor}, config.Caps())
  {
    ghost var g1 := Snap(all);
    assert neighbor.edges == g1[neighbor].edges;
    assert neighbor.edges[l] == EdgesAt(g1, neighbor, l) == EdgesAt(g0, neighbor, l);
    RemoveAndPrune(config, x, neighbor, l, all);
    DetachOne(g0, g1, Snap(all), x, l, done, neighbor, neighbor.edges[l], config.Caps());
  }

  /** Unlinking leaves the edges of x itself as they are. */
  lemma EdgesOfX(x: Vertex, l: nat, g0: Graph, all: set<Vertex>, cap: nat -> nat)
    requires g0.Keys == all && x in all && l < |g0[x].edges| && x !in EdgesAt(g0, x, l)
    requires Detached(g0, Snap(all), x, l, {}, cap)
    ensures l < |x.edges| && x.edges[l] == EdgesAt(g0, x, l)
  {
    assert x.edges == Snap(all)[x].edges;
    assert EdgesAt(Snap(all), x, l) == EdgesAt(g0, x, l);
  }

  /** All neighbours of x at level l. */
  method UnlinkLevel(config: Config, x: Vertex, l: nat, ghost g0: Graph, ghost all: set<Vertex>)
    requires config.Supported() && g0.Keys == all && x in all && l < |g0[x].edges|
    requires forall u :: u in EdgesAt(g0, x, l) ==> Unlinkable(g0, x, l, u)
    requires Detached(g0, Snap(all), x, l, {}, config.Caps()) && x !in EdgesAt(g0, x, l)
    modifies all`edges
    ensures Detached(g0, Snap(all), x, l, EdgesAt(g0, x, l).Keys, config.Caps())
  {
    hide Detached, Snap, EdgesAt;
    EdgesOfX(x, l, g0, all, config.Caps());
    var neighbors := x.edges[l].Keys;
    ghost var done: set<Vertex> := {};
    while neighbors != {}
      invariant neighbors !! done && neighbors + done == EdgesAt(g0, x, l).Keys
      invariant Detached(g0, Snap(all), x, l, done, config.Caps())
      decreases neighbors
    {
      var neighbor :| neighbor in neighbors;
      neighbors := neighbors - {neighbor};
      Unlink(config, x, neighbor, l, g0, done, all);
      done := done + {neighbor};
    }
    assert done == EdgesAt(g0, x, l).Keys;
  }

  lemma DetachStart(g: Graph, x: Vertex, cap: nat -> nat)
    requires x in g && |g[x].edges| == x.level + 1
    ensures Detached(g, g, x, x.level, {}, cap)
  {}

  lemma DetachLevelDone(g0: Graph, g: Graph, x: Vertex, l: nat, cap: nat -> nat)
    requires Detached(g0, g, x, l, EdgesAt(g0, x, l).Keys, cap)
    ensures Detached(g0, g, x, l - 1, {}, cap)
  {}

  /** All neighbours of x, from its top level down. */
  method UnlinkLevels(config: Config, space: Space, x: Vertex, ghost all: set<Vertex>)
    requires config.Supported() && WellFormed(space, Snap(all)) && x in all
    modifies all`edges
    ensures Detached(old(Snap(all)), Snap(all), x, -1, {}, config.Caps())
  {
    ghost var g0 := Snap(all);
    DetachStart(g0, x, config.Caps());
    var l: int := x.level;
    while l >= 0
      invariant -1 <= l <= x.level && Detached(g0, Snap(all), x, l, {}, config.Caps())
    {
      NeighborsAreUnlinkable(space, g0, x, l);
      UnlinkLevel(config, x, l, g0, all);
      DetachLevelDone(g0, Snap(all), x, l, config.Caps());
      l := l - 1;
    }
  }
}
