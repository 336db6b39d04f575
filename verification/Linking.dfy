/** How inserting and removing a vertex changes the edges, and what these changes keep. */
module Linking {
  import opened Common
  import opened Nearest
  import opened Graphs

  /** Nothing but edge sets differs. */
  ghost predicate SameNodes(g0: Graph, g: Graph) {
    && g.Keys == g0.Keys
    && forall v :: v in g0 ==> g[v].deleted == g0[v].deleted && |g[v].edges| == |g0[v].edges|
  }

  ghost predicate SameAt(g0: Graph, g: Graph, l: nat) {
    forall v :: v in g0 ==> EdgesAt(g, v, l) == EdgesAt(g0, v, l)
  }

  ghost predicate SameBut(g0: Graph, g: Graph, l: nat) {
    SameNodes(g0, g) && forall k: nat :: k != l ==> SameAt(g0, g, k)
  }

  /** An edge set over the limit is cut down to the nearest live neighbours. */
  ghost predicate Capped(g: Graph, e: EdgeSet, after: EdgeSet, cap: nat) {
    if |e| <= cap then after == e else IsNearestPart(LivePart(g, e), cap, after)
  }

  /** x and the vertices of `chosen` have been linked to each other at level l. */
  ghost predicate LinkedAt(g0: Graph, g: Graph, x: Vertex, l: nat, chosen: EdgeSet, cap: nat) {
    && EdgesAt(g, x, l) == chosen
    && forall v :: v in g0 && v != x ==>
         if v in chosen then Capped(g0, EdgesAt(g0, v, l)[x := chosen[v]], EdgesAt(g, v, l), cap)
         else EdgesAt(g, v, l) == EdgesAt(g0, v, l)
  }

  lemma LivePartSame(g0: Graph, g: Graph, e: EdgeSet)
    requires SameNodes(g0, g)
    ensures LivePart(g, e) == LivePart(g0, e)
  {}

  /** Setting one edge set, seen from every vertex and level. */
  lemma WithEdgesAt(g: Graph, v: Vertex, l: nat, e: EdgeSet)
    requires v in g && l < |g[v].edges|
    ensures SameBut(g, WithEdges(g, v, l, e), l)
    ensures EdgesAt(WithEdges(g, v, l, e), v, l) == e
    ensures forall w :: w in g && w != v ==> EdgesAt(WithEdges(g, v, l, e), w, l) == EdgesAt(g, w, l)
  {}

  lemma SameButTransitive(g0: Graph, g1: Graph, g2: Graph, l: nat)
    requires SameBut(g0, g1, l) && SameBut(g1, g2, l)
    ensures SameBut(g0, g2, l)
  {
    forall k: nat | k != l ensures SameAt(g0, g2, k) {
      assert SameAt(g0, g1, k) && SameAt(g1, g2, k);
    }
  }

  /** Linking one more vertex u, at distance d. */
  lemma LinkOne(g0: Graph, g1: Graph, g2: Graph, g3: Graph, x: Vertex, l: nat, chosen: EdgeSet, u: Vertex, d: Distance,
          cap: nat)
    requires SameBut(g0, g1, l) && LinkedAt(g0, g1, x, l, chosen, cap)
    requires x in g0 && u in g0 && u != x && u !in chosen
    requires l < |g1[x].edges| && l < |g1[u].edges|
    requires g2 == WithEdges(WithEdges(g1, x, l, chosen[u := d]), u, l, EdgesAt(g1, u, l)[x := d])
    requires SameBut(g2, g3, l)
    requires forall w :: w in g2 && w != u ==> EdgesAt(g3, w, l) == EdgesAt(g2, w, l)
    requires Capped(g2, EdgesAt(g2, u, l), EdgesAt(g3, u, l), cap)
    ensures SameBut(g0, g3, l) && LinkedAt(g0, g3, x, l, chosen[u := d], cap)
  {
    var gx := WithEdges(g1, x, l, chosen[u := d]);
    WithEdgesAt(g1, x, l, chosen[u := d]);
    WithEdgesAt(gx, u, l, EdgesAt(g1, u, l)[x := d]);
    SameButTransitive(g0, g1, gx, l);
    SameButTransitive(g0, gx, g2, l);
    SameButTransitive(g0, g2, g3, l);
    LivePartSame(g0, g2, EdgesAt(g2, u, l));
  }

  /** A capped edge set is part of the uncapped one. */
  lemma CappedIsPart(g: Graph, e: EdgeSet, after: EdgeSet, cap: nat)
    requires Capped(g, e, after, cap)
    ensures |after| <= cap
    ensures forall u :: u in after ==> u in e && after[u] == e[u]
  {}

  lemma LinkedKeepsWellFormed(space: Space, g0: Graph, g: Graph, x: Vertex, l: nat, chosen: EdgeSet, cap: nat)
    requires WellFormed(space, g0) && Symmetric(space)
    requires x in g0 && l <= x.level && EdgesOk(space, g0, x, l, chosen)
    requires SameBut(g0, g, l) && LinkedAt(g0, g, x, l, chosen, cap)
    ensures WellFormed(space, g)
  {
    forall v, k: nat | v in g ensures EdgesOk(space, g, v, k, EdgesAt(g, v, k)) {
      assert EdgesOk(space, g0, v, k, EdgesAt(g0, v, k));
      if k != l {
        assert SameAt(g0, g, k);
      } else if v != x && v in chosen {
        CappedIsPart(g0, EdgesAt(g0, v, l)[x := chosen[v]], EdgesAt(g, v, l), cap);
      }
    }
  }

  /** The limits on the number of edges, level by level. */
  ghost predicate DegreesOk(g: Graph, limit: nat -> nat) {
    forall v, l: nat :: v in g ==> |EdgesAt(g, v, l)| <= limit(l)
  }

  lemma LinkedKeepsDegrees(g0: Graph, g: Graph, x: Vertex, l: nat, chosen: EdgeSet, cap: nat, limit: nat -> nat)
    requires DegreesOk(g0, limit) && cap <= limit(l) && |chosen| <= limit(l)
    requires SameBut(g0, g, l) && LinkedAt(g0, g, x, l, chosen, cap)
    ensures DegreesOk(g, limit)
  {
    forall v, k: nat | v in g ensures |EdgesAt(g, v, k)| <= limit(k) {
      if k != l {
        assert SameAt(g0, g, k);
      } else if v != x && v in chosen {
        CappedIsPart(g0, EdgesAt(g0, v, l)[x := chosen[v]], EdgesAt(g, v, l), cap);
      }
    }
  }

  // The bottom level of an index that has only been inserted into

  /** Any set of vertices that no live edge leaves is the whole of s. */
  ghost predicate Connected(g: Graph, s: set<Vertex>) {
    forall c: set<Vertex> | c <= s && c != {} && Closed(g, 0, c) :: c == s
  }

  /** s is connected at level 0 by edges that go both ways, and holds no deleted vertex. */
  ghost predicate Intact(g: Graph, s: set<Vertex>) {
    AllLive(g, s) && StaysIn(g, s) && BothWays(g, s) && Connected(g, s)
  }

  ghost predicate AllLive(g: Graph, s: set<Vertex>) {
    s <= g.Keys && forall v :: v in s ==> !g[v].deleted
  }

  ghost predicate StaysIn(g: Graph, s: set<Vertex>) {
    forall v :: v in s ==> EdgesAt(g, v, 0).Keys <= s
  }

  ghost predicate BothWays(g: Graph, s: set<Vertex>) {
    forall v, u :: v in s && u in EdgesAt(g, v, 0) ==> v in EdgesAt(g, u, 0)
  }

  /** In a connected set, everything is reachable from everywhere. */
  lemma IntactReach(g: Graph, s: set<Vertex>, a: Vertex)
    requires Intact(g, s) && a in s
    ensures Reach(g, 0, a) == s
  {
    ReachIsClosed(g, 0, a);
    assert Closed(g, 0, s);
    ReachIsLeast(g, 0, a, s);
  }

  /** Linking x to `chosen` at the bottom level, when nothing is pruned. */
  ghost predicate Joined(g0: Graph, g: Graph, s: set<Vertex>, x: Vertex, chosen: EdgeSet) {
    && EdgesAt(g, x, 0) == chosen
    && forall v :: v in s ==>
         EdgesAt(g, v, 0) == if v in chosen then EdgesAt(g0, v, 0)[x := chosen[v]] else EdgesAt(g0, v, 0)
  }

  /** A vertex of s has at most |s| - 1 neighbours in s, so it has room for x. */
  lemma RoomForOne(s: set<Vertex>, x: Vertex, v: Vertex, e: EdgeSet)
    requires v in s && x !in s && e.Keys <= s - {v} + {x}
    ensures |e| <= |s|
  {
    var room := s - {v} + {x};
    assert s == (s - {v}) + {v};
    assert room == e.Keys + (room - e.Keys);
    assert |e| == |e.Keys|;
  }

  lemma LinkedIsJoined(space: Space, g0: Graph, g: Graph, s: set<Vertex>, x: Vertex, chosen: EdgeSet, cap: nat)
    requires WellFormed(space, g0) && StaysIn(g0, s) && s <= g0.Keys && x !in s && |s| <= cap
    requires LinkedAt(g0, g, x, 0, chosen, cap)
    ensures Joined(g0, g, s, x, chosen)
  {
    forall v | v in s
      ensures EdgesAt(g, v, 0) == if v in chosen then EdgesAt(g0, v, 0)[x := chosen[v]] else EdgesAt(g0, v, 0)
    {
      if v in chosen {
        assert EdgesOk(space, g0, v, 0, EdgesAt(g0, v, 0));
        RoomForOne(s, x, v, EdgesAt(g0, v, 0)[x := chosen[v]]);
      }
    }
  }

  lemma JoinedConnects(g0: Graph, g: Graph, s: set<Vertex>, x: Vertex, chosen: EdgeSet, u: Vertex, c: set<Vertex>)
    requires Connected(g0, s) && StaysIn(g0, s) && x !in s
    requires AllLive(g, s + {x}) && SameNodes(g0, g) && Joined(g0, g, s, x, chosen)
    requires u in chosen && chosen.Keys <= s
    requires c <= s + {x} && c != {} && Closed(g, 0, c)
    ensures c == s + {x}
  {
    var rest := c - {x};
    forall v | v in rest ensures LiveNeighbors(g0, v, 0) <= rest {
      assert LiveNeighbors(g0, v, 0) <= LiveNeighbors(g, v, 0) <= c;
    }
    if x in c {
      assert u in LiveNeighbors(g, x, 0);
    }
    assert rest != {} && Closed(g0, 0, rest);
    assert x in LiveNeighbors(g, u, 0);
  }

  lemma JoinedBothWays(g0: Graph, g: Graph, s: set<Vertex>, x: Vertex, chosen: EdgeSet)
    requires StaysIn(g0, s) && BothWays(g0, s) && x !in s
    requires Joined(g0, g, s, x, chosen) && chosen.Keys <= s
    ensures StaysIn(g, s + {x}) && BothWays(g, s + {x})
  {
    forall v, u | v in s + {x} && u in EdgesAt(g, v, 0) ensures v in EdgesAt(g, u, 0) {
      if v != x && u != x {
        assert u in EdgesAt(g0, v, 0);
        assert v in EdgesAt(g0, u, 0);
      }
    }
  }

  /** At the bottom level, linking x to a non-empty part of s connects it to all of s. */
  lemma LinkedKeepsIntact(space: Space, g0: Graph, g: Graph, s: set<Vertex>, x: Vertex, chosen: EdgeSet, cap: nat)
    requires WellFormed(space, g0) && Intact(g0, s)
    requires x in g0 && x !in s && !g0[x].deleted
    requires SameNodes(g0, g) && LinkedAt(g0, g, x, 0, chosen, cap)
    requires chosen != map[] && chosen.Keys <= s && |s| <= cap
    ensures Intact(g, s + {x})
  {
    hide WellFormed, LinkedAt, Joined, StaysIn, BothWays, Closed;
    LinkedIsJoined(space, g0, g, s, x, chosen, cap);
    JoinedBothWays(g0, g, s, x, chosen);
    assert AllLive(g, s + {x});
    var u :| u in chosen;
    forall c: set<Vertex> | c <= s + {x} && c != {} && Closed(g, 0, c) ensures c == s + {x} {
      JoinedConnects(g0, g, s, x, chosen, u, c);
    }
  }

  // Removal

  /** Every neighbour of x, at levels from `low` up, has been unlinked from x and cut down. */
  ghost predicate Detached(g0: Graph, g: Graph, x: Vertex, low: int, done: set<Vertex>, cap: nat -> nat) {
    && SameNodes(g0, g)
    && forall v, l: nat :: v in g0 ==>
         if v in EdgesAt(g0, x, l) && (low < l || (low == l && v in done))
         then IsNearestPart(LivePart(g0, EdgesAt(g0, v, l) - {x}), cap(l), EdgesAt(g, v, l))
         else EdgesAt(g, v, l) == EdgesAt(g0, v, l)
  }

  /** Unlinking one more neighbour u of x at level l. */
  lemma DetachOne(g0: Graph, g1: Graph, g2: Graph, x: Vertex, l: nat, done: set<Vertex>, u: Vertex, e: EdgeSet,
          cap: nat -> nat)
    requires Detached(g0, g1, x, l, done, cap)
    requires u in g0 && u in EdgesAt(g0, x, l) && u !in done && l < |g1[u].edges|
    requires IsNearestPart(LivePart(g1, EdgesAt(g1, u, l) - {x}), cap(l), e)
    requires g2 == WithEdges(g1, u, l, e)
    ensures Detached(g0, g2, x, l, done + {u}, cap)
  {
    WithEdgesAt(g1, u, l, e);
    LivePartSame(g0, g1, EdgesAt(g0, u, l) - {x});
    forall v, k: nat | v in g0
      ensures if v in EdgesAt(g0, x, k) && (l < k || (l == k && v in done + {u}))
              then IsNearestPart(LivePart(g0, EdgesAt(g0, v, k) - {x}), cap(k), EdgesAt(g2, v, k))
              else EdgesAt(g2, v, k) == EdgesAt(g0, v, k)
    {
      if k != l {
        assert SameAt(g1, g2, k);
      }
    }
  }

  lemma DetachedKeepsWellFormed(space: Space, g0: Graph, g: Graph, x: Vertex, low: int, done: set<Vertex>,
          cap: nat -> nat)
    requires WellFormed(space, g0) && Detached(g0, g, x, low, done, cap)
    ensures WellFormed(space, g)
  {
    forall v, k: nat | v in g ensures EdgesOk(space, g, v, k, EdgesAt(g, v, k)) {
      assert EdgesOk(space, g0, v, k, EdgesAt(g0, v, k));
    }
  }

  lemma DetachedKeepsDegrees(g0: Graph, g: Graph, x: Vertex, low: int, done: set<Vertex>, cap: nat -> nat,
          limit: nat -> nat)
    requires DegreesOk(g0, limit) && Detached(g0, g, x, low, done, cap)
    requires forall l :: cap(l) <= limit(l)
    ensures DegreesOk(g, limit)
  {
    forall v, l: nat | v in g ensures |EdgesAt(g, v, l)| <= limit(l) {
      assert |EdgesAt(g0, v, l)| <= limit(l);
    }
  }
}
