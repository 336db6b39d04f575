/** Best-first and greedy search of one level of the graph, with heaps: the read-only half of index/hnsw.go. */
module LevelSearch {
  import opened Common
  import opened PriorityQueues
  import opened Nearest
  import opened Graphs
  import opened BeamSearch
  import opened BeamWalk
  import opened BeamRuns

  type Queue = PriorityQueue<Vertex>

  /** The queue holds exactly the entries of e. */
  ghost predicate Holds(q: Queue, isMax: bool, e: EdgeSet)
    reads q, q.buf
  {
    q.Valid() && q.isMax == isMax && q.Items() == AsItems(e)
  }

  /** The two queues of a search, on separate arrays. */
  ghost predicate Queues(c: Queue, r: Queue, p: Progress)
    reads c, c.buf, r, r.buf
  {
    c != r && c.buf != r.buf && Holds(c, false, p.candidates) && Holds(r, true, p.found)
  }

  method PushEntry(q: Queue, v: Vertex, d: Distance, ghost isMax: bool, ghost e: EdgeSet, ghost all: set<Vertex>)
    requires Holds(q, isMax, e) && v !in e
    modifies q, q.buf
    ensures Holds(q, isMax, e[v := d]) && q.len == old(q.len) + 1
    ensures q.buf == old(q.buf) || fresh(q.buf)
    ensures Snap(all) == old(Snap(all))
  {
    q.Push(Item(d, v));
    ItemsAdd(e, v, d);
  }

  /** No entry comes after distance d (in a queue of farthest first) or before it. */
  ghost predicate IsLastEntry(isMax: bool, e: EdgeSet, d: Distance) {
    forall u :: u in e ==> if isMax then e[u] <= d else d <= e[u]
  }

  lemma ExtremeEntry(isMax: bool, e: EdgeSet, item: Item<Vertex>)
    requires IsExtreme(isMax, item, AsItems(e))
    ensures IsLastEntry(isMax, e, item.priority)
  {
    forall u | u in e ensures if isMax then e[u] <= item.priority else item.priority <= e[u] {
      ItemsIn(e, Item(e[u], u));
    }
  }

  /** Pop, seen from the graph: its vertices do not change. */
  method PopItem(q: Queue, ghost all: set<Vertex>) returns (item: Item<Vertex>)
    requires q.Valid() && q.len > 0
    modifies q`len, q.buf
    ensures q.Valid() && q.len == old(q.len) - 1
    ensures old(q.Items()) == q.Items() + multiset{item}
    ensures IsExtreme(q.isMax, item, old(q.Items()))
    ensures Snap(all) == old(Snap(all))
  {
    item := q.Pop();
  }

  method PopEntry(q: Queue, ghost isMax: bool, ghost e: EdgeSet, ghost all: set<Vertex>) returns (item: Item<Vertex>)
    requires Holds(q, isMax, e) && q.len > 0
    modifies q`len, q.buf
    ensures q.len == old(q.len) - 1
    ensures item.value in e && e[item.value] == item.priority
    ensures Holds(q, isMax, e - {item.value})
    ensures IsLastEntry(isMax, e, item.priority)
    ensures Snap(all) == old(Snap(all))
  {
    item := PopItem(q, all);
    ItemsRemove(e, item);
    ExtremeEntry(isMax, e, item);
  }

  lemma HoldsLen(q: Queue, isMax: bool, e: EdgeSet)
    requires Holds(q, isMax, e)
    ensures q.len == |e|
  {
    ItemsSize(e);
  }

  /** From p to next, the search has seen u and expanded nothing. */
  ghost predicate Saw(t: Task, p: Progress, next: Progress, u: Vertex) {
    && next.visited == p.visited + {u}
    && p.accepted <= next.accepted
    && next.accepted - next.candidates.Keys == p.accepted - p.candidates.Keys
    && t.Dist(next.best) <= t.Dist(p.best)
  }

  lemma AcceptedSaw(t: Task, p: Progress, u: Vertex)
    requires Bounded(t, p) && u !in p.visited
    ensures Saw(t, p, Accepted(t, p, u), u)
  {}

  method PushBoth(u: Vertex, distance: Distance, c: Queue, r: Queue, ghost candidates: EdgeSet, ghost found: EdgeSet,
          ghost all: set<Vertex>)
    requires c != r && c.buf != r.buf && Holds(c, false, candidates) && Holds(r, true, found)
    requires u !in candidates && u !in found
    modifies c, c.buf, r, r.buf
    ensures c.buf != r.buf && Holds(c, false, candidates[u := distance]) && Holds(r, true, found[u := distance])
    ensures Snap(all) == old(Snap(all))
    ensures (c.buf == old(c.buf) || fresh(c.buf)) && (r.buf == old(r.buf) || fresh(r.buf))
  {
    PushEntry(c, u, distance, false, candidates, all);
    PushEntry(r, u, distance, true, found, all);
  }

  /** Push a vertex on both queues, and drop the farthest of the results if they are too many. */
  method PushBounded(u: Vertex, distance: Distance, ef: nat, c: Queue, r: Queue, ghost candidates: EdgeSet,
          ghost found: EdgeSet, ghost all: set<Vertex>)
    returns (ghost far: Option<Vertex>)
    requires c != r && c.buf != r.buf && Holds(c, false, candidates) && Holds(r, true, found)
    requires u !in candidates && u !in found
    modifies c, c.buf, r, r.buf
    ensures c.buf != r.buf && Holds(c, false, candidates[u := distance])
    ensures far.None? <==> |found[u := distance]| <= ef
    ensures far.None? ==> Holds(r, true, found[u := distance])
    ensures far.Some? ==> Holds(r, true, found[u := distance] - {far.value})
    ensures far.Some? ==> IsLast(found[u := distance], far.value)
    ensures Snap(all) == old(Snap(all))
    ensures (c.buf == old(c.buf) || fresh(c.buf)) && (r.buf == old(r.buf) || fresh(r.buf))
  {
    PushBoth(u, distance, c, r, candidates, found, all);
    HoldsLen(r, true, found[u := distance]);
    far := None;
    if r.len > ef {
      var item := PopEntry(r, true, found[u := distance], all);
      far := Some(item.value);
    }
  }

  ghost predicate IsLast(e: EdgeSet, far: Vertex) {
    far in e && forall r :: r in e ==> e[r] <= e[far]
  }

  /** What accepting u makes of the search. */
  lemma TakenIn(t: Task, p: Progress, u: Vertex, far: Option<Vertex>) returns (next: Progress)
    requires Searching(t, p) && u in t.reach && u !in p.visited
    requires far.None? <==> |p.found[u := t.Dist(u)]| <= t.ef
    requires far.Some? ==> IsLast(p.found[u := t.Dist(u)], far.value)
    ensures Searching(t, next) && Saw(t, p, next, u)
    ensures next == if far.None? then Accepted(t, p, u) else Evicted(Accepted(t, p, u), far.value)
    ensures next.candidates == p.candidates[u := t.Dist(u)]
    ensures next.found == if far.None? then p.found[u := t.Dist(u)] else p.found[u := t.Dist(u)] - {far.value}
  {
    next := Accepted(t, p, u);
    AcceptedSaw(t, p, u);
    AddSize(p.found, u, t.Dist(u));
    if far.Some? {
      AcceptBounded(t, p, u);
      AcceptAndEvict(t, p, u, far.value);
      next := Evicted(next, far.value);
    } else {
      Accept(t, p, u);
    }
  }

  lemma TakenInIsStep(t: Task, bound: Distance, p: Progress, u: Vertex, far: Option<Vertex>, next: Progress)
    requires Bounded(t, p) && u !in p.visited
    requires t.Dist(u) < bound || |p.found| < t.ef
    requires far.None? <==> |p.found[u := t.Dist(u)]| <= t.ef
    requires far.Some? ==> IsLast(p.found[u := t.Dist(u)], far.value)
    requires next == if far.None? then Accepted(t, p, u) else Evicted(Accepted(t, p, u), far.value)
    ensures IsStep(t, bound, p, u, next)
  {
    if far.Some? {
      assert IsFarthest(t, Accepted(t, p, u).found, far.value);
    }
  }

  /** One step of the inner loop of searchLevel: a live neighbour seen for the first time. */
  method Visit(u: Vertex, distance: Distance, ef: nat, lowerBound: Distance, c: Queue, r: Queue, ghost t: Task,
          ghost p: Progress, ghost all: set<Vertex>)
    returns (ghost next: Progress)
    requires Queues(c, r, p) && Searching(t, p)
    requires u in t.reach && u !in p.visited && distance == t.Dist(u) && ef == t.ef
    requires t.Dist(p.best) <= lowerBound
    modifies c, c.buf, r, r.buf
    ensures Queues(c, r, next) && Searching(t, next) && Saw(t, p, next, u)
    ensures IsStep(t, lowerBound, p, u, next)
    ensures Snap(all) == old(Snap(all))
    ensures (c.buf == old(c.buf) || fresh(c.buf)) && (r.buf == old(r.buf) || fresh(r.buf))
  {
    HoldsLen(r, true, p.found);
    if distance < lowerBound || r.len < ef {
      ghost var far := PushBounded(u, distance, ef, c, r, p.candidates, p.found, all);
      next := TakenIn(t, p, u, far);
      TakenInIsStep(t, lowerBound, p, u, far, next);
    } else {
      Reject(t, p, u);
      next := Rejected(p, u);
    }
  }

  lemma NothingWalked(t: Task, bound: Distance, p: Progress)
    ensures LeadsTo(t, bound, p, {}, [], [p], p)
  {
    assert {} !! p.visited;
  }

  lemma LeadsFurther(t: Task, bound: Distance, p: Progress, us: set<Vertex>, order: seq<Vertex>, ps: seq<Progress>,
          mid: Progress, u: Vertex, next: Progress)
    requires LeadsTo(t, bound, p, us, order, ps, mid)
    requires u !in mid.visited && Saw(t, mid, next, u) && IsStep(t, bound, mid, u, next)
    ensures LeadsTo(t, bound, p, us + {u}, order + [u], ps + [next], next)
  {
    hide IsStep;
    WalkedThen(t, bound, p, us, order, ps, u, next);
  }

  /** All of `live` was seen, and nothing else was walked through. */
  lemma LedThroughUnseen(t: Task, bound: Distance, p: Progress, us: set<Vertex>, order: seq<Vertex>, ps: seq<Progress>,
          next: Progress, live: set<Vertex>)
    requires LeadsTo(t, bound, p, us, order, ps, next)
    requires us <= live <= next.visited
    ensures LeadsTo(t, bound, p, live - p.visited, order, ps, next)
  {
    assert us == live - p.visited;
  }

  /** What the inner loop of searchLevel leaves: all live neighbours seen, nothing else expanded. */
  ghost predicate SawAll(t: Task, p: Progress, next: Progress, us: set<Vertex>) {
    && p.visited + us <= next.visited
    && p.accepted <= next.accepted
    && next.accepted - next.candidates.Keys == p.accepted - p.candidates.Keys
    && t.Dist(next.best) <= t.Dist(p.best)
  }

  lemma SawAllThen(t: Task, p: Progress, mid: Progress, next: Progress, us: set<Vertex>, u: Vertex)
    requires SawAll(t, p, mid, us) && Saw(t, mid, next, u)
    ensures SawAll(t, p, next, us + {u})
  {}

  lemma StillSawAll(t: Task, p: Progress, next: Progress, us: set<Vertex>, u: Vertex)
    requires SawAll(t, p, next, us) && u in next.visited
    ensures SawAll(t, p, next, us + {u})
  {}

  method Expand(space: Space, query: Vector, candidate: Vertex, ef: nat, level: nat, lowerBound: Distance, c: Queue,
          r: Queue, visited: set<Vertex>, ghost t: Task, ghost p: Progress, ghost all: set<Vertex>)
    returns (seen: set<Vertex>, ghost next: Progress, ghost order: seq<Vertex>, ghost ps: seq<Progress>)
    requires t == Task(space, Snap(all), query, t.entrypoint, ef, level, t.reach)
    requires candidate in all && level < |candidate.edges| && candidate.edges[level].Keys <= all
    requires LiveNeighbors(t.g, candidate, level) <= t.reach
    requires Queues(c, r, p) && Searching(t, p) && visited == p.visited
    requires t.Dist(p.best) <= lowerBound
    modifies c, c.buf, r, r.buf
    ensures Queues(c, r, next) && Searching(t, next) && seen == next.visited
    ensures SawAll(t, p, next, LiveNeighbors(t.g, candidate, level))
    ensures LeadsTo(t, lowerBound, p, LiveNeighbors(t.g, candidate, level) - p.visited, order, ps, next)
    ensures Snap(all) == old(Snap(all))
    ensures (c.buf == old(c.buf) || fresh(c.buf)) && (r.buf == old(r.buf) || fresh(r.buf))
  {
    hide KeepsNearest, KeepsClosest, AcceptsAllIfRoom, Holds, IsStep, LeadsTo;
    seen, next, order, ps := visited, p, [], [p];
    NothingWalked(t, lowerBound, p);
    var todo := candidate.edges[level].Keys;
    ghost var done: set<Vertex> := {};
    ghost var us: set<Vertex> := {};
    while todo != {}
      invariant todo <= all && Snap(all) == t.g
      invariant LiveNeighbors(t.g, candidate, level) <= done + todo
      invariant Queues(c, r, next) && Searching(t, next) && seen == next.visited
      invariant SawAll(t, p, next, done)
      invariant us <= LiveNeighbors(t.g, candidate, level)
      invariant LeadsTo(t, lowerBound, p, us, order, ps, next)
      invariant (c.buf == old(c.buf) || fresh(c.buf)) && (r.buf == old(r.buf) || fresh(r.buf))
      decreases todo
    {
      var neighbor :| neighbor in todo;
      todo := todo - {neighbor};
      assert neighbor.deleted == t.g[neighbor].deleted;
      if neighbor.deleted {
        continue;
      }
      if neighbor in seen {
        StillSawAll(t, p, next, done, neighbor);
        done := done + {neighbor};
        continue;
      }
      seen := seen + {neighbor};
      ghost var mid := next;
      next := Visit(neighbor, space.distance(query, neighbor.vector), ef, lowerBound, c, r, t, mid, all);
      SawAllThen(t, p, mid, next, done, neighbor);
      LeadsFurther(t, lowerBound, p, us, order, ps, mid, neighbor, next);
      us, order, ps := us + {neighbor}, order + [neighbor], ps + [next];
      done := done + {neighbor};
    }
    LedThroughUnseen(t, lowerBound, p, us, order, ps, next, LiveNeighbors(t.g, candidate, level));
  }

  /** What the search needs to know of the vertices it can come to. */
  ghost predicate Explorable(t: Task) {
    && t.reach <= t.g.Keys
    && t.entrypoint in t.reach
    && forall v :: v in t.reach ==> t.level <= v.level && LiveNeighbors(t.g, v, t.level) <= t.reach
  }

  lemma WellFormedIsExplorable(t: Task)
    requires t.Valid() && WellFormed(t.space, t.g) && t.level <= t.entrypoint.level
    ensures Explorable(t)
  {
    ReachIsClosed(t.g, t.level, t.entrypoint);
    ReachHasLevel(t.space, t.g, t.level, t.entrypoint);
  }

  lemma PoppedKeeps(t: Task, p: Progress, v: Vertex)
    requires Searching(t, p) && Expanded(t, p, p.candidates.Keys) && v in p.candidates
    ensures Searching(t, Popped(p, v)) && Expanded(t, Popped(p, v), p.candidates.Keys)
  {}

  lemma ExpandedNext(t: Task, p: Progress, v: Vertex, next: Progress)
    requires Expanded(t, p, p.candidates.Keys) && v in p.candidates && p.candidates.Keys <= p.accepted
    requires SawAll(t, Popped(p, v), next, LiveNeighbors(t.g, v, t.level))
    ensures Expanded(t, next, next.candidates.Keys)
  {
    forall a | a in next.accepted && a !in next.candidates ensures LiveNeighbors(t.g, a, t.level) <= next.visited {
      assert a in p.accepted - Popped(p, v).candidates.Keys;
      if a != v {
        assert LiveNeighbors(t.g, a, t.level) <= p.visited;
      }
    }
  }

  /** The search may stop: what is left to expand is farther than everything found. */
  lemma NothingNearerLeft(t: Task, p: Progress, d: Distance, bound: Distance)
    requires Searching(t, p) && IsLastEntry(false, p.candidates, d)
    requires IsLastEntry(true, p.found, bound) && bound < d
    ensures p.candidates.Keys !! p.found.Keys
  {}

  method SearchLevel(space: Space, query: Vector, entrypoint: Vertex, ef: nat, level: nat, ghost all: set<Vertex>)
    returns (resultVertices: Queue, ghost t: Task, ghost p: Progress, ghost turns: seq<Turn>)
    requires WellFormed(space, Snap(all)) && entrypoint in all && level <= entrypoint.level
    ensures fresh(resultVertices) && fresh(resultVertices.buf)
    ensures t == Task(space, Snap(all), query, entrypoint, ef, level, Reach(Snap(all), level, entrypoint))
    ensures Completed(t, p) && Holds(resultVertices, true, p.found)
    ensures IsRun(t, turns, p) && (NoOrderMatters(t, turns) ==> NearestOfVisited(t, p))
    ensures Snap(all) == old(Snap(all))
  {
    t := Task(space, Snap(all), query, entrypoint, ef, level, Reach(Snap(all), level, entrypoint));
    var candidateVertices: Queue;
    WellFormedIsExplorable(t);
    candidateVertices, resultVertices, p := StartSearch(space, query, entrypoint, t, all);
    p, turns := BestFirst(space, query, entrypoint, ef, level, candidateVertices, resultVertices, t, p, all);
    Finish(t, p, p.candidates.Keys);
    if NoOrderMatters(t, turns) {
      RunKeepsNearest(t, turns, p);
    }
  }

  method StartSearch(space: Space, query: Vector, entrypoint: Vertex, ghost t: Task, ghost all: set<Vertex>)
    returns (c: Queue, r: Queue, ghost p: Progress)
    requires t.Valid() && t.space == space && t.query == query && t.entrypoint == entrypoint
    ensures fresh(c) && fresh(c.buf) && fresh(r) && fresh(r.buf)
    ensures Queues(c, r, p) && Searching(t, p) && Expanded(t, p, p.candidates.Keys)
    ensures p == Start(t, t.Dist(entrypoint))
    ensures Snap(all) == old(Snap(all))
  {
    var entrypointDistance := space.distance(query, entrypoint.vector);
    StartSearching(t);
    p := Start(t, entrypointDistance);
    ghost var none: EdgeSet := map[];
    assert none[entrypoint := entrypointDistance] == p.candidates == p.found;
    c := new PriorityQueue(false);
    r := new PriorityQueue(true);
    PushBoth(entrypoint, entrypointDistance, c, r, none, none, all);
  }

  method PeekEntry(q: Queue, ghost isMax: bool, ghost e: EdgeSet) returns (d: Distance)
    requires Holds(q, isMax, e) && q.len > 0
    ensures IsLastEntry(isMax, e, d) && exists u :: u in e && e[u] == d
  {
    var item := q.Peek();
    ExtremeEntry(isMax, e, item);
    ItemsIn(e, item);
    d := item.priority;
  }

  /** A vertex that can be come to has edges at this level, to vertices of the graph. */
  lemma CanExpand(t: Task, v: Vertex)
    requires Explorable(t) && WellFormed(t.space, t.g) && v in t.reach
    ensures v in t.g && t.level < |t.g[v].edges| && t.g[v].edges[t.level].Keys <= t.g.Keys
    ensures LiveNeighbors(t.g, v, t.level) <= t.reach
  {
    assert EdgesOk(t.space, t.g, v, t.level, EdgesAt(t.g, v, t.level));
  }

  /** The search stands: everything but the vertices of `open` has been expanded. */
  ghost predicate Stands(t: Task, p: Progress, open: set<Vertex>) {
    Searching(t, p) && Expanded(t, p, open) && open <= p.accepted
  }

  /** The nearest candidate, the bound set by the farthest result, and whether to stop. */
  method TakeNearest(c: Queue, r: Queue, ghost t: Task, ghost p: Progress, ghost all: set<Vertex>)
    returns (candidate: Vertex, lowerBound: Distance, stop: bool)
    requires Queues(c, r, p) && Stands(t, p, p.candidates.Keys) && c.len > 0
    modifies c`len, c.buf
    ensures candidate in p.candidates && Queues(c, r, Popped(p, candidate))
    ensures Stands(t, Popped(p, candidate), p.candidates.Keys)
    ensures t.Dist(p.best) <= lowerBound && IsBound(t, p, lowerBound)
    ensures forall u :: u in p.candidates ==> t.Dist(candidate) <= t.Dist(u)
    ensures !stop ==> t.Dist(candidate) <= lowerBound
    ensures stop ==> p.candidates.Keys !! p.found.Keys
    ensures Snap(all) == old(Snap(all))
  {
    HoldsLen(r, true, p.found);
    lowerBound := PeekEntry(r, true, p.found);
    var item := PopEntry(c, false, p.candidates, all);
    candidate := item.value;
    PoppedKeeps(t, p, candidate);
    stop := item.priority > lowerBound;
    if stop {
      NothingNearerLeft(t, p, item.priority, lowerBound);
    }
  }

  lemma IsTurnThen(t: Task, turn: Turn, next: Progress)
    requires turn.vertex in turn.before.candidates && IsBound(t, turn.before, turn.bound)
    requires t.Dist(turn.vertex) <= turn.bound
    requires forall u :: u in turn.before.candidates ==> t.Dist(turn.vertex) <= t.Dist(u)
    requires LeadsTo(t, turn.bound, Popped(turn.before, turn.vertex),
                     LiveNeighbors(t.g, turn.vertex, t.level) - turn.before.visited, turn.order, turn.steps, next)
    ensures IsTurn(t, turn, next)
  {}

  /** One turn of the outer loop of searchLevel; `more` is false when the loop breaks. */
  method ExpandNearest(space: Space, query: Vector, ef: nat, level: nat, c: Queue, r: Queue, visited: set<Vertex>,
          ghost t: Task, ghost p: Progress, ghost all: set<Vertex>)
    returns (more: bool, seen: set<Vertex>, ghost turn: Turn, ghost next: Progress)
    requires t == Task(space, Snap(all), query, t.entrypoint, ef, level, t.reach)
    requires Explorable(t) && WellFormed(space, t.g)
    requires Queues(c, r, p) && Stands(t, p, p.candidates.Keys) && visited == p.visited && c.len > 0
    modifies c, c.buf, r, r.buf
    ensures Holds(r, true, next.found) && Stands(t, next, next.candidates.Keys) && seen == next.visited
    ensures more ==> Queues(c, r, next) && turn.before == p && IsTurn(t, turn, next)
    ensures more ==> p.accepted - p.candidates.Keys < next.accepted - next.candidates.Keys
    ensures !more ==> next == p && p.candidates.Keys !! p.found.Keys
    ensures Snap(all) == old(Snap(all))
    ensures (c.buf == old(c.buf) || fresh(c.buf)) && (r.buf == old(r.buf) || fresh(r.buf))
  {
    hide IsStep, LeadsTo, Holds, KeepsNearest, KeepsClosest, AcceptsAllIfRoom, WellFormed, IsBound, IsTurn, Expanded;
    var candidate, lowerBound, stop := TakeNearest(c, r, t, p, all);
    turn, next := Turn(p, lowerBound, candidate, [], []), p;
    if stop {
      return false, visited, turn, next;
    }
    CanExpand(t, candidate);
    ghost var order, steps;
    seen, next, order, steps := Expand(space, query, candidate, ef, level, lowerBound, c, r, visited, t,
            Popped(p, candidate), all);
    turn := Turn(p, lowerBound, candidate, order, steps);
    IsTurnThen(t, turn, next);
    ExpandedNext(t, p, candidate, next);
    more := true;
  }

  method BestFirst(space: Space, query: Vector, entrypoint: Vertex, ef: nat, level: nat, c: Queue, r: Queue,
          ghost t: Task, ghost start: Progress, ghost all: set<Vertex>)
    returns (ghost p: Progress, ghost turns: seq<Turn>)
    requires t == Task(space, Snap(all), query, entrypoint, ef, level, t.reach)
    requires Explorable(t) && WellFormed(space, t.g)
    requires start == Start(t, t.Dist(entrypoint))
    requires Queues(c, r, start) && Stands(t, start, start.candidates.Keys)
    modifies c, c.buf, r, r.buf
    ensures Holds(r, true, p.found) && Stands(t, p, p.candidates.Keys) && p.candidates.Keys !! p.found.Keys
    ensures IsRun(t, turns, p)
    ensures r.buf == old(r.buf) || fresh(r.buf)
    ensures Snap(all) == old(Snap(all))
  {
    hide IsRun, IsTurn;
    p, turns := start, [];
    NoTurns(t);
    var visited := {entrypoint};
    while c.len > 0
      invariant Queues(c, r, p) && Stands(t, p, p.candidates.Keys) && visited == p.visited && Snap(all) == t.g
      invariant (c.buf == old(c.buf) || fresh(c.buf)) && (r.buf == old(r.buf) || fresh(r.buf))
      invariant IsRun(t, turns, p)
      decreases t.reach - (p.accepted - p.candidates.Keys)
    {
      ghost var before := p;
      var more;
      ghost var turn;
      more, visited, turn, p := ExpandNearest(space, query, ef, level, c, r, visited, t, p, all);
      if !more {
        return;
      }
      OneMoreTurn(t, turns, before, turn, p);
      turns := turns + [turn];
    }
    HoldsLen(c, false, p.candidates);
    assert p.candidates.Keys == {};
  }
}
