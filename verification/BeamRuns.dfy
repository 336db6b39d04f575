/**
 * Whole best-first searches of one level, as runs of turns: when the result holds the nearest of all visited,
 * and a search that loses a near neighbour.
 */
module BeamRuns {
  import opened Common
  import opened Graphs
  import opened BeamSearch
  import opened BeamWalk

  function Popped(p: Progress, v: Vertex): Progress {
    p.(candidates := p.candidates - {v})
  }

  /** One turn of a search: the vertex that is expanded, the bound, and the walk through its unseen neighbours. */
  datatype Turn = Turn(before: Progress, bound: Distance, vertex: Vertex, order: seq<Vertex>, steps: seq<Progress>)

  /** The nearest candidate is expanded, under the bound of the farthest result; it is not beyond it. */
  ghost predicate IsTurn(t: Task, turn: Turn, next: Progress) {
    && turn.vertex in turn.before.candidates
    && (forall u :: u in turn.before.candidates ==> t.Dist(turn.vertex) <= t.Dist(u))
    && IsBound(t, turn.before, turn.bound) && t.Dist(turn.vertex) <= turn.bound
    && LeadsTo(t, turn.bound, Popped(turn.before, turn.vertex), Unseen(t, turn), turn.order, turn.steps, next)
  }

  function Unseen(t: Task, turn: Turn): set<Vertex> {
    LiveNeighbors(t.g, turn.vertex, t.level) - turn.before.visited
  }

  /** Where the search is after its first i turns. */
  function Stage(turns: seq<Turn>, p: Progress, i: nat): Progress {
    if i < |turns| then turns[i].before else p
  }

  /** The search has come to p by these turns. */
  ghost predicate IsRun(t: Task, turns: seq<Turn>, p: Progress) {
    && Stage(turns, p, 0) == Start(t, t.Dist(t.entrypoint))
    && forall i: nat :: i < |turns| ==> IsTurn(t, turns[i], Stage(turns, p, i + 1))
  }

  lemma NoTurns(t: Task)
    ensures IsRun(t, [], Start(t, t.Dist(t.entrypoint)))
  {}

  lemma OneMoreTurn(t: Task, turns: seq<Turn>, p: Progress, turn: Turn, next: Progress)
    requires IsRun(t, turns, p) && turn.before == p && IsTurn(t, turn, next)
    ensures IsRun(t, turns + [turn], next)
  {
    hide IsTurn;
    var more := turns + [turn];
    forall i: nat | i < |more| ensures IsTurn(t, more[i], Stage(more, next, i + 1)) {
      if i < |turns| {
        assert Stage(more, next, i + 1) == Stage(turns, p, i + 1);
      }
    }
  }

  lemma UnseenAreReachable(t: Task, turn: Turn)
    requires t.Valid() && Searching(t, turn.before) && turn.vertex in turn.before.candidates
    ensures Unseen(t, turn) <= t.reach
  {
    hide Reach;
    ReachIsClosed(t.g, t.level, t.entrypoint);
  }

  lemma {:induction false} WalkKeepsSearching(t: Task, bound: Distance, p: Progress, us: set<Vertex>,
          order: seq<Vertex>, ps: seq<Progress>, i: nat)
    requires CanWalk(t, bound, p, us) && Walked(t, bound, p, us, order, ps) && i <= |order|
    ensures Searching(t, ps[i]) && t.Dist(ps[i].best) <= bound
    ensures ps[i].visited == p.visited + (set u | u in order[..i])
  {
    hide KeepsNearest, AcceptsAllIfRoom, IsStep;
    if i == 0 {
      assert p.visited == p.visited + (set u | u in order[..0]);
    } else {
      WalkKeepsSearching(t, bound, p, us, order, ps, i - 1);
      OnlyOnce(us, order, i - 1);
      StepKeepsSearching(t, bound, ps[i - 1], order[i - 1], ps[i]);
      assert order[..i] == order[..i - 1] + [order[i - 1]];
    }
  }

  lemma PoppedSearching(t: Task, p: Progress, v: Vertex)
    requires Searching(t, p)
    ensures Searching(t, Popped(p, v)) && (NearestOfVisited(t, p) ==> NearestOfVisited(t, Popped(p, v)))
  {}

  lemma TurnKeepsSearching(t: Task, turn: Turn, next: Progress)
    requires t.Valid() && IsTurn(t, turn, next) && Searching(t, turn.before)
    ensures Searching(t, next)
  {
    hide IsStep, Reach, Searching, LiveNeighbors;
    UnseenAreReachable(t, turn);
    PoppedSearching(t, turn.before, turn.vertex);
    WalkKeepsSearching(t, turn.bound, Popped(turn.before, turn.vertex), Unseen(t, turn), turn.order, turn.steps,
                       |turn.order|);
  }

  lemma TurnKeepsNearest(t: Task, turn: Turn, next: Progress)
    requires IsTurn(t, turn, next) && Searching(t, turn.before) && Unseen(t, turn) <= t.reach
    requires NearestOfVisited(t, turn.before) && AnyOrderWill(t, turn.bound, turn.before, Unseen(t, turn))
    ensures NearestOfVisited(t, next)
  {
    hide IsStep, Searching, NearestOfVisited, LiveNeighbors;
    PoppedSearching(t, turn.before, turn.vertex);
    AnyOrderKeepsNearest(t, turn.bound, Popped(turn.before, turn.vertex), Unseen(t, turn), turn.order, turn.steps);
  }

  /** No turn of the search depends on the order in which edges are walked. */
  ghost predicate NoOrderMatters(t: Task, turns: seq<Turn>) {
    forall i :: 0 <= i < |turns| ==> AnyOrderWill(t, turns[i].bound, turns[i].before, Unseen(t, turns[i]))
  }

  /** A search in which no turn can lose a nearer vertex finds the nearest of all that it visits. */
  lemma {:induction false} RunKeepsNearest(t: Task, turns: seq<Turn>, p: Progress)
    requires t.Valid() && IsRun(t, turns, p) && NoOrderMatters(t, turns)
    ensures NearestOfVisited(t, p)
  {
    hide NearestOfVisited, AnyOrderWill, Searching, Reach, LeadsTo, IsBound, Unseen;
    StartIsNearest(t);
    StartSearching(t);
    for i := 0 to |turns|
      invariant Searching(t, Stage(turns, p, i)) && NearestOfVisited(t, Stage(turns, p, i))
    {
      assert IsTurn(t, turns[i], Stage(turns, p, i + 1));
      TurnKeepsSearching(t, turns[i], Stage(turns, p, i + 1));
      UnseenAreReachable(t, turns[i]);
      TurnKeepsNearest(t, turns[i], Stage(turns, p, i + 1));
    }
  }

  lemma StartIsNearest(t: Task)
    ensures NearestOfVisited(t, Start(t, t.Dist(t.entrypoint)))
  {
    assert Start(t, t.Dist(t.entrypoint)).found.Keys == {t.entrypoint};
  }

  lemma FirstNeighborIsTaken(t: Task, far: Vertex)
    requires t.ef == 2 && far != t.entrypoint && t.Dist(far) == 5
    ensures var start := Popped(Start(t, 1), t.entrypoint);
            && IsStep(t, 1, start, far, Accepted(t, start, far))
            && Accepted(t, start, far).found.Keys == {t.entrypoint, far}
            && Accepted(t, start, far).candidates.Keys == {far}
            && Accepted(t, start, far).visited == {t.entrypoint, far}
  {
    var none: EdgeSet := map[];
    AddSize(none, t.entrypoint, 1);
    AddSize(Start(t, 1).found, far, 5);
    assert Popped(Start(t, 1), t.entrypoint).candidates == none;
  }

  lemma SecondNeighborIsLost(t: Task, q: Progress, near: Vertex, far: Vertex)
    requires t.ef == |q.found| == 2 && t.Dist(near) == 3 && t.Dist(far) == 5
    requires far in q.found && near !in q.found
    ensures IsStep(t, 1, q, near, Rejected(q, near)) && !NearestOfVisited(t, Rejected(q, near))
  {
    assert near in Rejected(q, near).visited;
  }

  /** The first turn: the one at 5 is kept, and the one at 3 lost. */
  lemma FirstTurn(t: Task, far: Vertex, near: Vertex) returns (turn: Turn, next: Progress)
    requires t.ef == 2 && t.Dist(t.entrypoint) == 1 && t.Dist(far) == 5 && t.Dist(near) == 3
    requires LiveNeighbors(t.g, t.entrypoint, t.level) == {far, near} && t.entrypoint !in {far, near} && far != near
    ensures turn.before == Start(t, 1) && turn.order == [far, near] && IsTurn(t, turn, next)
    ensures next.visited == {t.entrypoint, far, near} && next.found.Keys == {t.entrypoint, far}
    ensures next.candidates.Keys == {far}
  {
    hide Reach, Accepted, IsStep, LiveNeighbors, NearestOfVisited;
    var start := Popped(Start(t, 1), t.entrypoint);
    var q := Accepted(t, start, far);
    next := Rejected(q, near);
    FirstNeighborIsTaken(t, far);
    assert |q.found.Keys| == 2;
    SecondNeighborIsLost(t, q, near, far);
    turn := Turn(Start(t, 1), 1, t.entrypoint, [far, near], [start, q, next]);
    StartBound(t, turn);
    assert multiset({far, near}) == multiset([far, near]);
    assert Unseen(t, turn) == {far, near};
  }

  lemma StartBound(t: Task, turn: Turn)
    requires turn.before == Start(t, 1) && turn.bound == 1 == t.Dist(t.entrypoint) && turn.vertex == t.entrypoint
    ensures turn.vertex in turn.before.candidates && IsBound(t, turn.before, turn.bound)
    ensures forall u :: u in turn.before.candidates ==> t.Dist(turn.vertex) <= t.Dist(u)
    ensures turn.before.visited == {t.entrypoint}
  {
    assert t.entrypoint in turn.before.found;
  }

  /** The second turn, which expands the one at 5, finds nothing new. */
  lemma SecondTurn(t: Task, p: Progress, far: Vertex, near: Vertex) returns (turn: Turn, next: Progress)
    requires t.Dist(t.entrypoint) == 1 && t.Dist(far) == 5
    requires LiveNeighbors(t.g, far, t.level) <= {t.entrypoint, near}
    requires p.visited == {t.entrypoint, far, near} && p.found.Keys == {t.entrypoint, far} && p.candidates.Keys == {far}
    ensures turn.before == p && IsTurn(t, turn, next) && next == Popped(p, far) && next.candidates == map[]
  {
    hide LiveNeighbors, IsStep;
    next := Popped(p, far);
    turn := Turn(p, 5, far, [], [next]);
    assert Unseen(t, turn) == {};
    assert multiset(Unseen(t, turn)) == multiset(turn.order);
    assert next.candidates.Keys == {};
    assert far in p.found;
  }

  /**
   * A search for two from a vertex at distance 1, with neighbours at 5 and 3, walked in this order: the one at 3 is
   * turned away because it is not nearer than 1, and the result keeps the one at 5. When nothing is left to expand
   * the search is complete, and its result is not the nearest of all visited.
   */
  lemma NearNeighborCanBeLost(t: Task, far: Vertex, near: Vertex) returns (turns: seq<Turn>, p: Progress)
    requires t.Valid() && far != near && t.entrypoint !in {far, near}
    requires LiveNeighbors(t.g, t.entrypoint, t.level) == {far, near}
    requires LiveNeighbors(t.g, far, t.level) <= {t.entrypoint, near}
    requires t.ef == 2 && t.Dist(t.entrypoint) == 1 && t.Dist(far) == 5 && t.Dist(near) == 3
    ensures |turns| == 2 && turns[0].order == [far, near] && IsRun(t, turns, p) && p.candidates == map[]
    ensures Completed(t, p) && !NearestOfVisited(t, p)
  {
    hide IsTurn, LiveNeighbors, Searching, NearestOfVisited, Reach;
    var first, mid := FirstTurn(t, far, near);
    var second;
    second, p := SecondTurn(t, mid, far, near);
    turns := [first, second];
    NoTurns(t);
    StartSearching(t);
    TurnKeepsSearching(t, first, mid);
    OneMoreTurn(t, [], Start(t, 1), first, mid);
    TurnKeepsSearching(t, second, p);
    OneMoreTurn(t, [first], mid, second, p);
    assert [] + [first] == [first] && [first] + [second] == turns;
    LosingEnd(t, p, far, near);
  }

  lemma LosingEnd(t: Task, p: Progress, far: Vertex, near: Vertex)
    requires t.Valid() && Searching(t, p) && t.ef == 2 && far != near && t.entrypoint !in {far, near}
    requires LiveNeighbors(t.g, t.entrypoint, t.level) == {far, near}
    requires LiveNeighbors(t.g, far, t.level) <= {t.entrypoint, near}
    requires p.visited == {t.entrypoint, far, near} && p.found.Keys == {t.entrypoint, far}
    requires t.Dist(far) == 5 && t.Dist(near) == 3
    ensures Completed(t, p) && !NearestOfVisited(t, p)
  {
    hide Reach, LiveNeighbors, KeepsNearest, KeepsClosest, AcceptsAllIfRoom;
    ReachIsClosed(t.g, t.level, t.entrypoint);
    assert near in p.visited && near !in p.found && far in p.found;
    SubsetSize({t.entrypoint, far, near}, t.reach);
  }
}
