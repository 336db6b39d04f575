/** The state of a best-first search of one level, and what every step of the search keeps. */
module BeamSearch {
  import opened Common
  import opened Graphs

  /**
   * visited:    vertices whose distance was computed (and the entrypoint)
   * accepted:   those ever put in the queues
   * candidates: accepted vertices still to be expanded
   * found:      the present result
   * best:       a nearest vertex of the result
   */
  datatype Progress = Progress(visited: set<Vertex>, accepted: set<Vertex>, candidates: EdgeSet, found: EdgeSet,
                               best: Vertex)

  /** What is searched for; `reach` is the set of vertices the search can come to. */
  datatype Task = Task(space: Space, g: Graph, query: Vector, entrypoint: Vertex, ef: nat, level: nat,
                       reach: set<Vertex>)
  {
    ghost function Dist(v: Vertex): Distance { space.distance(query, v.vector) }

    ghost predicate Valid() {
      entrypoint in g && reach == Reach(g, level, entrypoint)
    }
  }

  ghost predicate Exact(t: Task, e: EdgeSet) {
    forall u :: u in e ==> e[u] == t.Dist(u)
  }

  /** The number of results kept out of n accepted vertices. */
  function Kept(ef: nat, n: nat): nat { Min(Max(ef, 1), n) }

  ghost predicate Bounded(t: Task, p: Progress) {
    && t.entrypoint in p.accepted && p.accepted <= p.visited <= t.reach
    && p.candidates.Keys <= p.accepted && Exact(t, p.candidates)
    && p.found.Keys <= p.accepted && Exact(t, p.found)
  }

  /** Out of the accepted vertices, `found` holds the ef nearest. */
  ghost predicate KeepsNearest(t: Task, p: Progress) {
    && |p.found| == Kept(t.ef, |p.accepted|)
    && forall a, r :: a in p.accepted && a !in p.found && r in p.found ==> t.Dist(r) <= t.Dist(a)
  }

  /** No visited vertex is nearer than the nearest found. */
  ghost predicate KeepsClosest(t: Task, p: Progress) {
    p.best in p.found && forall v :: v in p.visited ==> t.Dist(p.best) <= t.Dist(v)
  }

  ghost predicate AcceptsAllIfRoom(t: Task, p: Progress) {
    |t.reach| <= t.ef ==> p.accepted == p.visited
  }

  ghost predicate Searching(t: Task, p: Progress) {
    Bounded(t, p) && KeepsNearest(t, p) && KeepsClosest(t, p) && AcceptsAllIfRoom(t, p)
  }

  /** Accepted vertices outside `open` have had all their live neighbours visited. */
  ghost predicate Expanded(t: Task, p: Progress, open: set<Vertex>) {
    forall v :: v in p.accepted && v !in open ==> LiveNeighbors(t.g, v, t.level) <= p.visited
  }

  function Start(t: Task, d: Distance): Progress {
    Progress({t.entrypoint}, {t.entrypoint}, map[t.entrypoint := d], map[t.entrypoint := d], t.entrypoint)
  }

  lemma StartSearching(t: Task)
    requires t.Valid()
    ensures Searching(t, Start(t, t.Dist(t.entrypoint)))
    ensures Expanded(t, Start(t, t.Dist(t.entrypoint)), {t.entrypoint})
  {
    ReachIsClosed(t.g, t.level, t.entrypoint);
    var found: EdgeSet := map[t.entrypoint := t.Dist(t.entrypoint)];
    assert found.Keys == {t.entrypoint};
    assert t.entrypoint in found;
  }

  function Rejected(p: Progress, u: Vertex): Progress {
    p.(visited := p.visited + {u})
  }

  /** A full result that leaves out a reachable vertex cannot hold everything reachable. */
  lemma FullIsSmall(t: Task, p: Progress, u: Vertex)
    requires Bounded(t, p) && u in t.reach && u !in p.visited
    requires t.ef <= |p.found|
    ensures t.ef < |t.reach|
  {
    SubsetSize(p.found.Keys, t.reach - {u});
    assert t.reach == (t.reach - {u}) + {u};
  }

  lemma Reject(t: Task, p: Progress, u: Vertex)
    requires Searching(t, p)
    requires u in t.reach && u !in p.visited
    requires t.Dist(p.best) <= t.Dist(u) && t.ef <= |p.found|
    ensures Searching(t, Rejected(p, u))
  {
    FullIsSmall(t, p, u);
  }

  ghost function Accepted(t: Task, p: Progress, u: Vertex): Progress {
    var d := t.Dist(u);
    Progress(p.visited + {u}, p.accepted + {u}, p.candidates[u := d], p.found[u := d],
             if d < t.Dist(p.best) then u else p.best)
  }

  ghost function Evicted(p: Progress, far: Vertex): Progress {
    var rest := p.found - {far};
    p.(found := rest, best := if p.best != far || rest == map[] then p.best else var o :| o in rest; o)
  }

  lemma AddSize(e: EdgeSet, u: Vertex, d: Distance)
    requires u !in e
    ensures |e[u := d]| == |e| + 1
    ensures e[u := d].Keys == e.Keys + {u}
  {
    assert e[u := d].Keys == e.Keys + {u};
  }

  lemma RemoveSize(e: EdgeSet, u: Vertex)
    requires u in e
    ensures |e - {u}| == |e| - 1
    ensures (e - {u}).Keys == e.Keys - {u}
  {
    assert (e - {u}).Keys == e.Keys - {u};
  }

  /** Accepting u while there is room. */
  lemma Accept(t: Task, p: Progress, u: Vertex)
    requires Searching(t, p)
    requires u in t.reach && u !in p.visited
    requires |p.found| < t.ef
    ensures Searching(t, Accepted(t, p, u)) && t.Dist(Accepted(t, p, u).best) <= t.Dist(p.best)
  {
    AcceptBounded(t, p, u);
    AcceptKeepsNearest(t, p, u);
  }

  lemma AcceptBounded(t: Task, p: Progress, u: Vertex)
    requires Bounded(t, p) && KeepsClosest(t, p) && u in t.reach
    ensures Bounded(t, Accepted(t, p, u)) && KeepsClosest(t, Accepted(t, p, u))
  {}

  lemma AcceptKeepsNearest(t: Task, p: Progress, u: Vertex)
    requires Bounded(t, p) && KeepsNearest(t, p) && u !in p.visited
    requires |p.found| < t.ef
    ensures KeepsNearest(t, Accepted(t, p, u))
  {
    AddSize(p.found, u, t.Dist(u));
    SubsetSize(p.found.Keys, p.accepted);
    assert |p.accepted + {u}| == |p.accepted| + 1;
  }

  ghost predicate IsFarthest(t: Task, e: EdgeSet, far: Vertex) {
    far in e && forall r :: r in e ==> t.Dist(r) <= t.Dist(far)
  }

  /** With a vertex turned away or dropped, the result is full, and what is reachable does not fit. */
  lemma StaysSmall(t: Task, p: Progress, u: Vertex)
    requires Bounded(t, p) && KeepsClosest(t, p) && u in t.reach && u !in p.visited && t.ef <= |p.found|
    ensures |Accepted(t, p, u).found| >= 2 && t.ef < |t.reach|
  {
    FullIsSmall(t, p, u);
    AddSize(p.found, u, t.Dist(u));
    assert p.found.Keys != {};
  }

  /** Accepting u when the result is full: the farthest is dropped. */
  lemma AcceptAndEvict(t: Task, p: Progress, u: Vertex, far: Vertex)
    requires Searching(t, p)
    requires u in t.reach && u !in p.visited
    requires t.ef <= |p.found| && IsFarthest(t, Accepted(t, p, u).found, far)
    ensures Searching(t, Evicted(Accepted(t, p, u), far))
    ensures t.Dist(Evicted(Accepted(t, p, u), far).best) <= t.Dist(p.best)
  {
    hide Bounded, KeepsNearest, KeepsClosest, IsFarthest;
    StaysSmall(t, p, u);
    AcceptBounded(t, p, u);
    EvictBounded(t, Accepted(t, p, u), far);
    EvictKeepsClosest(t, Accepted(t, p, u), far);
    EvictKeepsNearest(t, p, u, far);
  }

  lemma EvictBounded(t: Task, q: Progress, far: Vertex)
    requires Bounded(t, q)
    ensures Bounded(t, Evicted(q, far))
  {}

  lemma EvictKeepsClosest(t: Task, q: Progress, far: Vertex)
    requires KeepsClosest(t, q) && |q.found| >= 2 && IsFarthest(t, q.found, far)
    ensures KeepsClosest(t, Evicted(q, far)) && t.Dist(Evicted(q, far).best) <= t.Dist(q.best)
  {
    RemoveSize(q.found, far);
    assert Evicted(q, far).best in q.found;
  }

  lemma EvictKeepsNearest(t: Task, p: Progress, u: Vertex, far: Vertex)
    requires Bounded(t, p) && KeepsNearest(t, p) && u !in p.visited
    requires t.ef <= |p.found| && IsFarthest(t, Accepted(t, p, u).found, far)
    ensures KeepsNearest(t, Evicted(Accepted(t, p, u), far))
  {
    var q := Accepted(t, p, u);
    AddSize(p.found, u, t.Dist(u));
    RemoveSize(q.found, far);
    assert |q.accepted| == |p.accepted| + 1;
    SubsetSize(p.found.Keys, p.accepted);
  }

  /**
   * A search that has come to its end: the live neighbours of the vertices found have been visited, and
   * if everything reachable fits into the result, all of it is found.
   */
  ghost predicate Completed(t: Task, p: Progress) {
    && t.Valid() && Searching(t, p)
    && (forall v :: v in p.found ==> LiveNeighbors(t.g, v, t.level) <= p.visited)
    && (|t.reach| <= t.ef ==> p.found.Keys == t.reach)
  }

  /**
   * The end of a search: no found vertex is left unexpanded.
   */
  lemma Finish(t: Task, p: Progress, open: set<Vertex>)
    requires t.Valid() && Searching(t, p) && Expanded(t, p, open)
    requires open !! p.found.Keys && open <= p.accepted
    ensures Completed(t, p)
  {
    if |t.reach| <= t.ef {
      SubsetSize(p.accepted, t.reach);
      SubsetSize(p.found.Keys, p.accepted);
      assert open == {};
      assert Closed(t.g, t.level, p.visited);
      ReachIsLeast(t.g, t.level, t.entrypoint, p.visited);
    }
  }
}
