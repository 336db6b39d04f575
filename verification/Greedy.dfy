/** The greedy walk at one level, and the descent through the levels that Insert and Search begin with. */
module Greedy {
  import opened Common
  import opened Graphs
  import opened BeamSearch
  import opened LevelSearch

  /** From v, when the best distance is d, the walk goes on to the nearest live neighbour, which is nearer. */
  ghost predicate IsGreedyStep(t: Task, d: Distance, v: Vertex, next: Vertex) {
    && next in LiveNeighbors(t.g, v, t.level) && t.Dist(next) < d
    && forall u :: u in LiveNeighbors(t.g, v, t.level) ==> t.Dist(next) <= t.Dist(u)
  }

  /** The best distance after i steps of a walk that began with minDistance. */
  ghost function Best(t: Task, minDistance: Distance, path: seq<Vertex>, i: nat): Distance
    requires i < |path|
  {
    if i == 0 then minDistance else t.Dist(path[i])
  }

  /** The walk has come this way. */
  ghost predicate IsGreedyPath(t: Task, minDistance: Distance, path: seq<Vertex>) {
    && path != [] && path[0] == t.entrypoint
    && forall i :: 0 <= i < |path| - 1 ==> IsGreedyStep(t, Best(t, minDistance, path, i), path[i], path[i + 1])
  }

  /** The walk has come this way and ends here: no live neighbour is nearer. */
  ghost predicate IsGreedyWalk(t: Task, minDistance: Distance, path: seq<Vertex>) {
    && IsGreedyPath(t, minDistance, path)
    && var last := |path| - 1;
       forall u :: u in LiveNeighbors(t.g, path[last], t.level) ==> Best(t, minDistance, path, last) <= t.Dist(u)
  }

  function Last(path: seq<Vertex>): Vertex
    requires path != []
  {
    path[|path| - 1]
  }

  lemma PathGoesOn(t: Task, minDistance: Distance, path: seq<Vertex>, next: Vertex)
    requires IsGreedyPath(t, minDistance, path)
    requires IsGreedyStep(t, Best(t, minDistance, path, |path| - 1), Last(path), next)
    ensures IsGreedyPath(t, minDistance, path + [next])
  {
    var after := path + [next];
    forall i | 0 <= i < |path| ensures IsGreedyStep(t, Best(t, minDistance, after, i), after[i], after[i + 1]) {
      assert Best(t, minDistance, after, i) == Best(t, minDistance, path, i);
    }
  }

  /** With no two reachable vertices equally far, a walk can go only one way, in whatever order edges are walked. */
  ghost predicate AllDifferent(t: Task) {
    forall u, v :: u in t.reach && v in t.reach && t.Dist(u) == t.Dist(v) ==> u == v
  }

  lemma {:induction false} PathsAgree(t: Task, minDistance: Distance, a: seq<Vertex>, b: seq<Vertex>, n: nat)
    requires t.Valid() && AllDifferent(t)
    requires IsGreedyPath(t, minDistance, a) && IsGreedyPath(t, minDistance, b) && n < |a| && n < |b|
    ensures a[n] == b[n] && a[n] in t.reach
  {
    hide Reach, LiveNeighbors;
    ReachIsClosed(t.g, t.level, t.entrypoint);
    if n > 0 {
      PathsAgree(t, minDistance, a, b, n - 1);
      var before := Best(t, minDistance, a, n - 1);
      assert IsGreedyStep(t, before, a[n - 1], a[n - 1 + 1]) && IsGreedyStep(t, before, b[n - 1], b[n - 1 + 1]);
    }
  }

  lemma WalkIsNotLonger(t: Task, minDistance: Distance, a: seq<Vertex>, b: seq<Vertex>)
    requires t.Valid() && AllDifferent(t)
    requires IsGreedyWalk(t, minDistance, a) && IsGreedyPath(t, minDistance, b)
    ensures |b| <= |a|
  {
    if |a| < |b| {
      var last := |a| - 1;
      assert IsGreedyStep(t, Best(t, minDistance, b, last), b[last], b[last + 1]);
      PathsAgree(t, minDistance, a, b, last);
    }
  }

  lemma WalksAgree(t: Task, minDistance: Distance, a: seq<Vertex>, b: seq<Vertex>)
    requires t.Valid() && AllDifferent(t)
    requires IsGreedyWalk(t, minDistance, a) && IsGreedyWalk(t, minDistance, b)
    ensures a == b
  {
    WalkIsNotLonger(t, minDistance, a, b);
    WalkIsNotLonger(t, minDistance, b, a);
    forall n | 0 <= n < |a| ensures a[n] == b[n] {
      PathsAgree(t, minDistance, a, b, n);
    }
  }

  /** One round of the walk: the nearest live neighbour that is nearer than minDistance, if any. */
  method NearerNeighbor(space: Space, query: Vector, entrypoint: Vertex, minDistance: Distance, level: nat,
          ghost all: set<Vertex>)
    returns (closest: Vertex?, distance: Distance)
    requires entrypoint in all && level < |entrypoint.edges| && entrypoint.edges[level].Keys <= all
    ensures closest == null ==> distance == minDistance
    ensures closest != null ==> closest in LiveNeighbors(Snap(all), entrypoint, level)
    ensures closest != null ==> distance == space.distance(query, closest.vector) && distance < minDistance
    ensures forall u :: u in LiveNeighbors(Snap(all), entrypoint, level) ==> distance <= space.distance(query, u.vector)
  {
    closest, distance := null, minDistance;
    var todo := entrypoint.edges[level].Keys;
    ghost var g := Snap(all);
    while todo != {}
      invariant todo <= entrypoint.edges[level].Keys
      invariant closest == null ==> distance == minDistance
      invariant closest != null ==> closest in LiveNeighbors(g, entrypoint, level)
      invariant closest != null ==> distance == space.distance(query, closest.vector) && distance < minDistance
      invariant forall u :: u in LiveNeighbors(g, entrypoint, level) && u !in todo ==>
                  distance <= space.distance(query, u.vector)
      decreases todo
    {
      var neighbor :| neighbor in todo;
      todo := todo - {neighbor};
      if !neighbor.deleted && space.distance(query, neighbor.vector) < distance {
        closest, distance := neighbor, space.distance(query, neighbor.vector);
      }
    }
  }

  /** What a greedy walk of one level looks for. */
  ghost function WalkTask(space: Space, g: Graph, query: Vector, start: Vertex, level: nat): Task {
    Task(space, g, query, start, 0, level, Reach(g, level, start))
  }

  method GreedyClosestNeighbor(space: Space, query: Vector, start: Vertex, minDistance: Distance, level: nat,
          ghost all: set<Vertex>)
    returns (entrypoint: Vertex, distance: Distance, ghost t: Task, ghost path: seq<Vertex>)
    requires WellFormed(space, Snap(all)) && start in all && level <= start.level
    ensures t == WalkTask(space, Snap(all), query, start, level)
    ensures entrypoint in all && entrypoint in t.reach && level <= entrypoint.level && distance <= minDistance
    ensures IsGreedyWalk(t, minDistance, path)
    ensures entrypoint == Last(path) && distance == Best(t, minDistance, path, |path| - 1)
  {
    hide LiveNeighbors, WellFormed, Reach;
    t := WalkTask(space, Snap(all), query, start, level);
    WellFormedIsExplorable(t);
    entrypoint, distance, path := start, minDistance, [start];
    while true
      invariant entrypoint in t.reach && distance <= minDistance
      invariant IsGreedyPath(t, minDistance, path)
      invariant entrypoint == Last(path) && distance == Best(t, minDistance, path, |path| - 1)
      decreases distance
    {
      CanExpand(t, entrypoint);
      var closest, nearer := NearerNeighbor(space, query, entrypoint, distance, level, all);
      if closest == null {
        break;
      }
      PathGoesOn(t, minDistance, path, closest);
      path := path + [closest];
      entrypoint, distance := closest, nearer;
    }
  }

  // The descent

  /** Where the first i walks of a descent have led. */
  function Stop(start: Vertex, walks: seq<seq<Vertex>>, i: nat): Vertex
    requires i <= |walks|
  {
    if i == 0 || walks[i - 1] == [] then start else Last(walks[i - 1])
  }

  /** The walk of one level, from where the level above was left. */
  ghost predicate IsWalkFrom(space: Space, g: Graph, query: Vector, from: Vertex, level: nat, walk: seq<Vertex>) {
    IsGreedyWalk(WalkTask(space, g, query, from, level), space.distance(query, from.vector), walk)
  }

  /** A greedy walk at each level above `low`, from the level of the start downwards. */
  ghost predicate IsDescent(space: Space, g: Graph, query: Vector, start: Vertex, low: nat, walks: seq<seq<Vertex>>) {
    && |walks| == (if low < start.level then start.level - low else 0)
    && forall i :: 0 <= i < |walks| ==>
         IsWalkFrom(space, g, query, Stop(start, walks, i), start.level - i, walks[i])
  }

  lemma DescentStarts(space: Space, g: Graph, query: Vector, start: Vertex, low: nat)
    requires start.level <= low
    ensures IsDescent(space, g, query, start, low, []) && Stop(start, [], 0) == start
  {}

  lemma WalkedFrom(t: Task, walk: seq<Vertex>)
    requires t == WalkTask(t.space, t.g, t.query, t.entrypoint, t.level)
    requires IsGreedyWalk(t, t.Dist(t.entrypoint), walk)
    ensures walk != [] && IsWalkFrom(t.space, t.g, t.query, t.entrypoint, t.level, walk)
    ensures Best(t, t.Dist(t.entrypoint), walk, |walk| - 1) == t.Dist(Last(walk))
  {}

  lemma DescentGoesOn(space: Space, g: Graph, query: Vector, start: Vertex, low: nat, walks: seq<seq<Vertex>>,
          walk: seq<Vertex>)
    requires 0 < low <= start.level && IsDescent(space, g, query, start, low, walks)
    requires walk != [] && IsWalkFrom(space, g, query, Stop(start, walks, |walks|), low, walk)
    ensures IsDescent(space, g, query, start, low - 1, walks + [walk])
    ensures Stop(start, walks + [walk], |walks| + 1) == Last(walk)
  {
    hide IsGreedyWalk;
    var after := walks + [walk];
    forall i | 0 <= i < |after|
      ensures IsWalkFrom(space, g, query, Stop(start, after, i), start.level - i, after[i])
    {
      assert Stop(start, after, i) == Stop(start, walks, i);
    }
  }

  /** Where a descent ends, no live neighbour on the lowest level that it walked is nearer. */
  lemma DescentEndsNearest(space: Space, g: Graph, query: Vector, start: Vertex, low: nat, walks: seq<seq<Vertex>>,
          u: Vertex)
    requires IsDescent(space, g, query, start, low, walks) && low < start.level
    requires u in LiveNeighbors(g, Stop(start, walks, |walks|), low + 1)
    ensures space.distance(query, Stop(start, walks, |walks|).vector) <= space.distance(query, u.vector)
  {
    var n := |walks| - 1;
    assert IsWalkFrom(space, g, query, Stop(start, walks, n), start.level - n, walks[n]);
  }

  /** Live edges do not leave `safe`, at any level. */
  ghost predicate ClosedEverywhere(g: Graph, safe: set<Vertex>) {
    forall l: nat :: Closed(g, l, safe)
  }

  /** Greedy search from the top level down to the one above `low`. */
  method Descend(space: Space, query: Vector, start: Vertex, low: nat, ghost all: set<Vertex>, ghost safe: set<Vertex>)
    returns (entrypoint: Vertex, minDistance: Distance, ghost walks: seq<seq<Vertex>>)
    requires WellFormed(space, Snap(all)) && start in all && start in safe && ClosedEverywhere(Snap(all), safe)
    ensures entrypoint in all && entrypoint in safe
    ensures minDistance == space.distance(query, entrypoint.vector) <= space.distance(query, start.vector)
    ensures if start.level <= low then entrypoint == start else low < entrypoint.level
    ensures IsDescent(space, Snap(all), query, start, low, walks) && entrypoint == Stop(start, walks, |walks|)
  {
    hide WellFormed, IsWalkFrom, IsGreedyWalk, IsDescent, Reach, Closed, Stop;
    entrypoint, walks := start, [];
    minDistance := space.distance(query, entrypoint.vector);
    var l := entrypoint.level;
    DescentStarts(space, Snap(all), query, start, Max(low, l));
    DescentStarts(space, Snap(all), query, start, l);
    while l > low
      invariant entrypoint in all && entrypoint in safe && l <= entrypoint.level && l <= start.level
      invariant minDistance == space.distance(query, entrypoint.vector) <= space.distance(query, start.vector)
      invariant l == start.level || low <= l < entrypoint.level
      invariant l == start.level ==> entrypoint == start && walks == []
      invariant IsDescent(space, Snap(all), query, start, l, walks) && entrypoint == Stop(start, walks, |walks|)
    {
      assert Closed(Snap(all), l, safe);
      ReachIsLeast(Snap(all), l, entrypoint, safe);
      ghost var t, walk;
      entrypoint, minDistance, t, walk := GreedyClosestNeighbor(space, query, entrypoint, minDistance, l, all);
      WalkedFrom(t, walk);
      DescentGoesOn(space, Snap(all), query, start, l, walks, walk);
      walks := walks + [walk];
      l := l - 1;
    }
  }
}
