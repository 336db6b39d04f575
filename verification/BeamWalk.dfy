/**
 * One expansion of a best-first search as a walk through the unseen live neighbours of a vertex. The bound
 * is read once, before the walk; what the result then holds of everything visited depends on the walking order.
 */
module BeamWalk {
  import opened Common
  import opened Graphs
  import opened BeamSearch

  /** Out of everything visited, not only of what was accepted, `found` holds the ef nearest. */
  ghost predicate NearestOfVisited(t: Task, p: Progress) {
    && |p.found| == Kept(t.ef, |p.visited|)
    && forall a, r :: a in p.visited && a !in p.found && r in p.found ==> t.Dist(r) <= t.Dist(a)
  }

  /** The distance of the farthest result. */
  ghost predicate IsBound(t: Task, p: Progress, bound: Distance) {
    && (exists r :: r in p.found && t.Dist(r) == bound)
    && forall r :: r in p.found ==> t.Dist(r) <= bound
  }

  /** What the inner loop does with a neighbour seen for the first time. */
  ghost predicate IsStep(t: Task, bound: Distance, p: Progress, u: Vertex, next: Progress) {
    if t.Dist(u) < bound || |p.found| < t.ef then
      var q := Accepted(t, p, u);
      if |q.found| <= t.ef then next == q
      else exists far :: far in q.found && IsFarthest(t, q.found, far) && next == Evicted(q, far)
    else
      next == Rejected(p, u)
  }

  /** A walk through `order` that leads from p through ps[1], ps[2] and so on. */
  ghost predicate IsWalk(t: Task, bound: Distance, p: Progress, order: seq<Vertex>, ps: seq<Progress>) {
    && |ps| == |order| + 1 && ps[0] == p
    && forall i :: 0 <= i < |order| ==> IsStep(t, bound, ps[i], order[i], ps[i + 1])
  }

  /** A walk through each vertex of us once, none of which was visited before. */
  ghost predicate Walked(t: Task, bound: Distance, p: Progress, us: set<Vertex>, order: seq<Vertex>,
          ps: seq<Progress>) {
    && us !! p.visited && multiset(order) == multiset(us)
    && IsWalk(t, bound, p, order, ps)
  }

  lemma WalkedThen(t: Task, bound: Distance, p: Progress, us: set<Vertex>, order: seq<Vertex>, ps: seq<Progress>,
          u: Vertex, next: Progress)
    requires Walked(t, bound, p, us, order, ps)
    requires u !in p.visited && u !in us && IsStep(t, bound, ps[|order|], u, next)
    ensures Walked(t, bound, p, us + {u}, order + [u], ps + [next])
  {
    assert multiset(us + {u}) == multiset(us) + multiset{u};
  }

  /** A search in progress, with what a walk may start from. */
  ghost predicate CanWalk(t: Task, bound: Distance, p: Progress, us: set<Vertex>) {
    Searching(t, p) && IsBound(t, p, bound) && us <= t.reach && us !! p.visited
  }

  // What a step keeps: only vertices beyond the bound are turned away, and only when there is no room

  ghost predicate TurnsAwayTheFar(t: Task, bound: Distance, p: Progress) {
    forall a :: a in p.visited && a !in p.accepted ==> bound <= t.Dist(a) && t.ef <= |p.accepted|
  }

  ghost predicate Stepping(t: Task, bound: Distance, p: Progress) {
    Searching(t, p) && TurnsAwayTheFar(t, bound, p) && t.Dist(p.best) <= bound
  }

  lemma StepKeepsSearching(t: Task, bound: Distance, p: Progress, u: Vertex, next: Progress)
    requires Searching(t, p) && t.Dist(p.best) <= bound && u in t.reach && u !in p.visited
    requires IsStep(t, bound, p, u, next)
    ensures Searching(t, next) && t.Dist(next.best) <= bound
    ensures next.visited == p.visited + {u}
  {
    hide KeepsNearest, KeepsClosest, AcceptsAllIfRoom, IsFarthest;
    AddSize(p.found, u, t.Dist(u));
    if t.ef <= |p.found| {
      if t.Dist(u) < bound {
        var far :| far in Accepted(t, p, u).found && IsFarthest(t, Accepted(t, p, u).found, far)
                   && next == Evicted(Accepted(t, p, u), far);
        AcceptAndEvict(t, p, u, far);
      } else {
        Reject(t, p, u);
      }
    } else {
      Accept(t, p, u);
    }
  }

  lemma StepKeeps(t: Task, bound: Distance, p: Progress, u: Vertex, next: Progress)
    requires Stepping(t, bound, p) && u in t.reach && u !in p.visited
    requires IsStep(t, bound, p, u, next)
    ensures Stepping(t, bound, next)
    ensures next.visited == p.visited + {u} && p.accepted <= next.accepted
    ensures u in next.accepted || bound <= t.Dist(u)
  {
    hide KeepsNearest, KeepsClosest, AcceptsAllIfRoom, TurnsAwayTheFar, IsStep;
    StepTurnsAwayTheFar(t, bound, p, u, next);
    StepKeepsSearching(t, bound, p, u, next);
  }

  lemma StepTurnsAwayTheFar(t: Task, bound: Distance, p: Progress, u: Vertex, next: Progress)
    requires Bounded(t, p) && TurnsAwayTheFar(t, bound, p) && IsStep(t, bound, p, u, next)
    ensures TurnsAwayTheFar(t, bound, next)
    ensures next.visited == p.visited + {u} && p.accepted <= next.accepted
    ensures u in next.accepted || bound <= t.Dist(u)
  {
    SubsetSize(p.found.Keys, p.accepted);
    SubsetSize(p.accepted, next.accepted);
  }

  lemma StartStepping(t: Task, bound: Distance, p: Progress, us: set<Vertex>)
    requires CanWalk(t, bound, p, us) && NearestOfVisited(t, p)
    ensures Stepping(t, bound, p)
  {
    if p.accepted != p.visited {
      SubsetSize(p.accepted, p.visited);
    }
  }

  lemma OnlyOnce(us: set<Vertex>, order: seq<Vertex>, i: nat)
    requires multiset(order) == multiset(us) && i < |order|
    ensures order[i] in us && order[i] !in order[..i]
    ensures forall u :: u in us <==> u in order
  {
    assert order == order[..i] + [order[i]] + order[i + 1..];
    assert multiset(order)[order[i]] <= 1;
    forall u ensures u in us <==> u in order {
      assert u in multiset(us) <==> u in us;
    }
  }

  /** Where a walk is after its first i steps. */
  ghost predicate HasWalked(t: Task, bound: Distance, p: Progress, q: Progress, seen: seq<Vertex>) {
    && Stepping(t, bound, q)
    && q.visited == p.visited + (set u | u in seen)
    && p.accepted <= q.accepted
    && forall u :: u in seen && u !in q.accepted ==> bound <= t.Dist(u)
  }

  lemma {:induction false} WalkSteps(t: Task, bound: Distance, p: Progress, us: set<Vertex>, order: seq<Vertex>,
          ps: seq<Progress>, i: nat)
    requires CanWalk(t, bound, p, us) && NearestOfVisited(t, p)
    requires Walked(t, bound, p, us, order, ps) && i <= |order|
    ensures HasWalked(t, bound, p, ps[i], order[..i])
  {
    hide NearestOfVisited, Searching, Stepping, IsStep;
    if i == 0 {
      StartStepping(t, bound, p, us);
      assert p.visited == p.visited + (set u | u in order[..0]);
    } else {
      WalkSteps(t, bound, p, us, order, ps, i - 1);
      OnlyOnce(us, order, i - 1);
      StepKeeps(t, bound, ps[i - 1], order[i - 1], ps[i]);
      assert order[..i] == order[..i - 1] + [order[i - 1]];
    }
  }

  // The exact condition under which the order does not matter

  ghost function Nearer(t: Task, bound: Distance, us: set<Vertex>): set<Vertex> {
    set u | u in us && t.Dist(u) < bound
  }

  ghost predicate EquallyFar(t: Task, us: set<Vertex>) {
    forall u, w :: u in us && w in us ==> t.Dist(u) == t.Dist(w)
  }

  /**
   * With the neighbours nearer than the bound the result is full (in particular if it is full already), or
   * all neighbours fit, or all that are not nearer than the bound are equally far.
   */
  ghost predicate AnyOrderWill(t: Task, bound: Distance, p: Progress, us: set<Vertex>) {
    || t.ef <= |p.found| + |Nearer(t, bound, us)|
    || |p.found| + |us| <= t.ef
    || EquallyFar(t, us - Nearer(t, bound, us))
  }

  lemma AnyOrderKeepsNearest(t: Task, bound: Distance, p: Progress, us: set<Vertex>, order: seq<Vertex>,
          ps: seq<Progress>)
    requires CanWalk(t, bound, p, us) && NearestOfVisited(t, p) && AnyOrderWill(t, bound, p, us)
    requires Walked(t, bound, p, us, order, ps)
    ensures NearestOfVisited(t, ps[|order|])
  {
    hide IsStep, AnyOrderWill, CanWalk, NearestOfVisited, Stepping;
    WalkSteps(t, bound, p, us, order, ps, |order|);
    assert order[..|order|] == order;
    forall u ensures u in us <==> u in order {
      assert u in multiset(us) <==> u in multiset(order);
    }
    EndOfWalk(t, bound, p, us, ps[|order|]);
  }

  lemma EndOfWalk(t: Task, bound: Distance, p: Progress, us: set<Vertex>, q: Progress)
    requires CanWalk(t, bound, p, us) && NearestOfVisited(t, p) && AnyOrderWill(t, bound, p, us)
    requires Stepping(t, bound, q) && q.visited == p.visited + us && p.accepted <= q.accepted
    requires forall u :: u in us && u !in q.accepted ==> bound <= t.Dist(u)
    ensures NearestOfVisited(t, q)
  {
    hide AnyOrderWill;
    if q.visited != q.accepted {
      Rejections(t, bound, p, us, q);
    }
  }

  /** If something was turned away, the result is full, and as near as what was turned away. */
  lemma Rejections(t: Task, bound: Distance, p: Progress, us: set<Vertex>, q: Progress)
    requires CanWalk(t, bound, p, us) && NearestOfVisited(t, p) && AnyOrderWill(t, bound, p, us)
    requires Stepping(t, bound, q) && q.visited == p.visited + us && p.accepted <= q.accepted
    requires Nearer(t, bound, us) <= q.accepted && q.visited != q.accepted
    ensures |q.found| == Kept(t.ef, |q.visited|)
    ensures forall a, r :: a in q.visited && a !in q.accepted && r in q.found ==> t.Dist(r) <= t.Dist(a)
  {
    hide KeepsClosest, AcceptsAllIfRoom;
    assert exists a :: a in q.visited && a !in q.accepted;
    SubsetSize(q.accepted, q.visited);
    assert q.accepted != {};
    SubsetSize({}, q.accepted);
    if t.ef <= |p.found| + |Nearer(t, bound, us)| {
      FullOfNear(t, bound, p, us, q);
    } else {
      SubsetSize(p.found.Keys, p.visited);
      assert p.found.Keys == p.visited;
      assert |q.visited| == |p.visited| + |us|;
    }
  }

  lemma FullOfNear(t: Task, bound: Distance, p: Progress, us: set<Vertex>, q: Progress)
    requires CanWalk(t, bound, p, us) && t.ef <= |p.found| + |Nearer(t, bound, us)|
    requires Searching(t, q) && p.accepted <= q.accepted && Nearer(t, bound, us) <= q.accepted
    ensures forall r :: r in q.found ==> t.Dist(r) <= bound
  {
    var near := p.found.Keys + Nearer(t, bound, us);
    assert |near| == |p.found| + |Nearer(t, bound, us)|;
    forall r | r in q.found ensures t.Dist(r) <= bound {
      if bound < t.Dist(r) {
        SubsetSize(near + {r}, q.found.Keys);
      }
    }
  }
  // Otherwise some order loses a near neighbour

  lemma {:induction false} Listing(us: set<Vertex>) returns (order: seq<Vertex>)
    ensures multiset(order) == multiset(us)
    decreases us
  {
    if us == {} {
      order := [];
    } else {
      var u :| u in us;
      order := Listing(us - {u});
      order := order + [u];
      assert multiset(us) == multiset(us - {u}) + multiset{u};
    }
  }

  lemma {:induction false} FarthestExists(t: Task, e: EdgeSet) returns (far: Vertex)
    requires |e| > 0
    ensures IsFarthest(t, e, far)
    decreases |e|
  {
    var u :| u in e;
    far := u;
    if |e| > 1 {
      RemoveSize(e, u);
      far := FarthestExists(t, e - {u});
      far := if t.Dist(far) < t.Dist(u) then u else far;
    } else {
      assert e.Keys - {u} == {} by {
        RemoveSize(e, u);
      }
    }
  }

  lemma {:induction false} WalkExists(t: Task, bound: Distance, p: Progress, order: seq<Vertex>)
    returns (ps: seq<Progress>)
    ensures IsWalk(t, bound, p, order, ps)
  {
    ps := [p];
    if order != [] {
      var n := |order| - 1;
      ps := WalkExists(t, bound, p, order[..n]);
      var q := Accepted(t, ps[n], order[n]);
      var next := Rejected(ps[n], order[n]);
      if t.Dist(order[n]) < bound || |ps[n].found| < t.ef {
        next := q;
        if t.ef < |q.found| {
          var far := FarthestExists(t, q.found);
          next := Evicted(q, far);
        }
      }
      assert IsStep(t, bound, ps[n], order[n], next);
      ps := ps + [next];
    }
  }

  /** After `seen`, the result has gained the first of them, as many as there was room for. */
  ghost predicate Served(p: Progress, q: Progress, seen: seq<Vertex>, room: nat) {
    && |q.found| == |p.found| + Min(|seen|, room)
    && (forall u :: u in q.found ==> u in p.found || u in seen[..Min(|seen|, room)])
    && (forall u :: u in seen[..Min(|seen|, room)] ==> u in q.found)
    && forall u :: u in seen ==> u in q.visited
  }

  lemma ServedThen(t: Task, bound: Distance, p: Progress, q: Progress, seen: seq<Vertex>, room: nat, u: Vertex,
          next: Progress)
    requires Served(p, q, seen, room) && |p.found| + room == t.ef && IsStep(t, bound, q, u, next)
    requires u !in p.found && u !in seen
    requires room <= |seen| ==> bound <= t.Dist(u)
    ensures Served(p, next, seen + [u], room)
  {
    hide Served;
    if |seen| < room {
      ServedMore(t, p, q, seen, room, u);
      AddSize(q.found, u, t.Dist(u));
    } else {
      ServedAll(p, q, seen, room, u);
    }
  }

  lemma ServedMore(t: Task, p: Progress, q: Progress, seen: seq<Vertex>, room: nat, u: Vertex)
    requires Served(p, q, seen, room) && |seen| < room
    requires u !in p.found && u !in seen
    ensures |q.found| == |p.found| + |seen| && u !in q.found
    ensures Served(p, Accepted(t, q, u), seen + [u], room)
  {
    assert (seen + [u])[..|seen| + 1] == seen + [u];
    assert seen[..|seen|] == seen;
    AddSize(q.found, u, t.Dist(u));
  }

  lemma ServedAll(p: Progress, q: Progress, seen: seq<Vertex>, room: nat, u: Vertex)
    requires Served(p, q, seen, room) && room <= |seen|
    ensures |q.found| == |p.found| + room
    ensures Served(p, Rejected(q, u), seen + [u], room)
  {
    assert (seen + [u])[..room] == seen[..room];
  }

  /** Until the result is full everything is accepted; from then on nothing is, if nothing near is left. */
  lemma {:induction false} FirstComeFirstServed(t: Task, bound: Distance, p: Progress, us: set<Vertex>,
          order: seq<Vertex>, ps: seq<Progress>, i: nat)
    requires Walked(t, bound, p, us, order, ps) && i <= |order|
    requires p.found.Keys <= p.visited && |p.found| < t.ef
    requires forall j :: t.ef - |p.found| <= j < |order| ==> bound <= t.Dist(order[j])
    ensures Served(p, ps[i], order[..i], t.ef - |p.found|)
  {
    hide Served, IsStep;
    if i == 0 {
      NothingServed(p, t.ef - |p.found|);
      assert order[..0] == [];
    } else {
      FirstComeFirstServed(t, bound, p, us, order, ps, i - 1);
      OnlyOnce(us, order, i - 1);
      assert order[..i] == order[..i - 1] + [order[i - 1]];
      ServedThen(t, bound, p, ps[i - 1], order[..i - 1], t.ef - |p.found|, order[i - 1], ps[i]);
    }
  }

  lemma NothingServed(p: Progress, room: nat)
    ensures Served(p, p, [], room)
  {}

  /** The near ones first, then a farther one in time to be accepted, and a nearer one too late. */
  lemma LosingOrder(us: set<Vertex>, near: set<Vertex>, kept: Vertex, lost: Vertex) returns (order: seq<Vertex>)
    requires near <= us && kept in us - near && lost in us - near && kept != lost
    ensures multiset(order) == multiset(us) && |order| == |us|
    ensures |near| < |order| && order[|near|] == kept && order[|order| - 1] == lost
    ensures forall j :: |near| <= j < |order| ==> order[j] in us - near
  {
    var rest := us - near - {kept, lost};
    var first := Listing(near);
    var others := Listing(rest);
    order := first + [kept] + others + [lost];
    assert us == near + {kept} + rest + {lost};
    assert multiset(us) == multiset(near) + multiset{kept} + multiset(rest) + multiset{lost};
    assert |order| == |multiset(order)| == |us|;
    assert |first| == |multiset(first)| == |near|;
    forall j | |near| <= j < |order| ensures order[j] in us - near {
      if |near| < j < |order| - 1 {
        assert order[j] == others[j - |near| - 1];
        assert order[j] in multiset(others);
      }
    }
  }

  /** A result that is not full holds all that was visited. */
  lemma NotFull(t: Task, p: Progress)
    requires Bounded(t, p) && NearestOfVisited(t, p) && |p.found| < t.ef
    ensures p.found.Keys == p.visited
  {
    SubsetSize(p.found.Keys, p.visited);
  }

  lemma SomeOrderLoses(t: Task, bound: Distance, p: Progress, us: set<Vertex>)
    returns (order: seq<Vertex>, ps: seq<Progress>)
    requires CanWalk(t, bound, p, us) && NearestOfVisited(t, p) && !AnyOrderWill(t, bound, p, us)
    ensures Walked(t, bound, p, us, order, ps) && !NearestOfVisited(t, ps[|order|])
  {
    hide KeepsNearest, KeepsClosest, AcceptsAllIfRoom, IsStep, Served, IsBound;
    var near := Nearer(t, bound, us);
    var lost, kept :| lost in us - near && kept in us - near && t.Dist(lost) < t.Dist(kept);
    NotFull(t, p);
    order := LosingOrder(us, near, kept, lost);
    ps := WalkExists(t, bound, p, order);
    FirstComeFirstServed(t, bound, p, us, order, ps, |order|);
    OnlyOnce(us, order, |order| - 1);
    LateIsLost(t, p, ps[|order|], order, |near|, |order| - 1, t.ef - |p.found|);
  }

  /** What came i-th is in the result, what came j-th is not, although it is nearer. */
  lemma LateIsLost(t: Task, p: Progress, q: Progress, order: seq<Vertex>, i: nat, j: nat, room: nat)
    requires i < room <= j < |order| && Served(p, q, order[..|order|], room)
    requires order[j] !in order[..j] && order[j] !in p.found && t.Dist(order[j]) < t.Dist(order[i])
    ensures !NearestOfVisited(t, q)
  {
    assert order[..|order|] == order;
    assert order[..room][i] == order[i];
    assert order[j] !in order[..room] by {
      assert order[..room] <= order[..j];
    }
    assert order[i] in q.found && order[j] in q.visited && order[j] !in q.found;
  }

  /** What was visited stays the measure of the result, in every walking order, under exactly that condition. */
  lemma EveryOrderKeepsNearest(t: Task, bound: Distance, p: Progress, us: set<Vertex>)
    requires CanWalk(t, bound, p, us) && NearestOfVisited(t, p)
    ensures AnyOrderWill(t, bound, p, us) <==>
            forall order, ps | Walked(t, bound, p, us, order, ps) :: NearestOfVisited(t, ps[|order|])
  {
    hide CanWalk, NearestOfVisited, AnyOrderWill;
    if AnyOrderWill(t, bound, p, us) {
      forall order, ps | Walked(t, bound, p, us, order, ps) ensures NearestOfVisited(t, ps[|order|]) {
        AnyOrderKeepsNearest(t, bound, p, us, order, ps);
      }
    } else {
      var order, ps := SomeOrderLoses(t, bound, p, us);
    }
  }

  /** A search for one result, or for as many as can be reached, finds the nearest of what it visits. */
  lemma NarrowOrWideIsNearest(t: Task, p: Progress)
    requires Completed(t, p) && (t.ef <= 1 || |t.reach| <= t.ef)
    ensures NearestOfVisited(t, p)
  {
    SubsetSize(p.found.Keys, p.visited);
    if t.ef < |t.reach| {
      SubsetSize({t.entrypoint}, p.accepted);
      assert p.found.Keys == {p.best} by {
        SubsetSize({p.best}, p.found.Keys);
      }
    }
  }

  /** The walk through us has led to `next`. */
  ghost predicate LeadsTo(t: Task, bound: Distance, p: Progress, us: set<Vertex>, order: seq<Vertex>, ps: seq<Progress>,
          next: Progress)
  {
    Walked(t, bound, p, us, order, ps) && next == ps[|order|] && next.visited == p.visited + us
  }
}
