/** The effect of Insert on the whole graph: the levels it links, composed. */
module Weaving {
  import opened Common
  import opened Configs
  import opened Graphs
  import opened BeamSearch
  import opened Greedy
  import opened Linking
  import opened LevelLinks

  /** A vertex without edges. */
  function Isolated(level: nat): Node {
    Node(false, seq(level + 1, _ => map[]))
  }

  lemma StoreKeepsSound(space: Space, limit: nat -> nat, g: Graph, v: Vertex)
    requires WellFormed(space, g) && DegreesOk(g, limit) && v !in g
    ensures WellFormed(space, g[v := Isolated(v.level)]) && DegreesOk(g[v := Isolated(v.level)], limit)
    ensures Untouched(g[v := Isolated(v.level)], v)
  {
    var g' := g[v := Isolated(v.level)];
    forall w, l: nat | w in g'
      ensures EdgesOk(space, g', w, l, EdgesAt(g', w, l)) && |EdgesAt(g', w, l)| <= limit(l)
      ensures v !in EdgesAt(g', w, l)
    {
      if w != v {
        assert EdgesOk(space, g, w, l, EdgesAt(g, w, l));
      }
    }
  }

  /** No edge at any level leaves x or leads to it. */
  ghost predicate Untouched(g: Graph, x: Vertex) {
    forall l: nat :: EdgesAt(g, x, l) == map[] && Untargeted(g, x, l)
  }

  /** Storing v changes no edges, and makes no vertex of s live or dead. */
  lemma StoredNeighbors(g: Graph, s: set<Vertex>, v: Vertex, w: Vertex)
    requires AllLive(g, s) && StaysIn(g, s) && v !in g && w in s
    ensures LiveNeighbors(g[v := Isolated(v.level)], w, 0) == LiveNeighbors(g, w, 0)
  {
    assert EdgesAt(g[v := Isolated(v.level)], w, 0) == EdgesAt(g, w, 0);
  }

  lemma StoreKeepsIntact(g: Graph, s: set<Vertex>, v: Vertex)
    requires Intact(g, s) && v !in g
    ensures Intact(g[v := Isolated(v.level)], s)
  {
    hide LiveNeighbors;
    var g' := g[v := Isolated(v.level)];
    forall c: set<Vertex> | c <= s && c != {} && Closed(g', 0, c) ensures c == s {
      forall w | w in c ensures LiveNeighbors(g, w, 0) <= c {
        StoredNeighbors(g, s, v, w);
      }
      assert Closed(g, 0, c);
    }
  }

  /** The edges chosen for a vertex at one level, and the search that found their ends. */
  datatype Choice = Choice(edges: EdgeSet, task: Task, progress: Progress)

  /** The choice was made by searching the level, in a graph in which the level was as in g0. */
  ghost predicate WasSearched(config: Config, space: Space, g0: Graph, x: Vertex, l: nat, c: Choice) {
    && SameNodes(g0, c.task.g) && SameAt(g0, c.task.g, l)
    && Chosen(config, c.task, c.progress, space, c.task.g, x, c.task.entrypoint, l, c.edges)
  }

  ghost predicate LevelWoven(config: Config, space: Space, g0: Graph, g: Graph, x: Vertex, l: nat, c: Choice) {
    && WasSearched(config, space, g0, x, l, c)
    && Targets(config, space, g0, x, l, c.edges) && LinkedAt(g0, g, x, l, c.edges, config.Cap(l))
  }

  /** x has been linked at the levels above `low` up to `top`, each as `chosen` says, and nothing else changed. */
  ghost predicate Woven(config: Config, space: Space, g0: Graph, g: Graph, x: Vertex, low: int, top: int,
          chosen: map<nat, Choice>) {
    && SameNodes(g0, g)
    && (forall l: nat :: low < l <= top ==> l in chosen && LevelWoven(config, space, g0, g, x, l, chosen[l]))
    && (forall l: nat :: l <= low || top < l ==> SameAt(g0, g, l))
  }

  /** Each level was searched from where the level above was left, and the top one from `start`. */
  ghost predicate Continues(chosen: map<nat, Choice>, start: Vertex, low: int, top: int) {
    forall l: nat :: low < l <= top ==> l in chosen && IsSearchedFrom(chosen, start, l, top)
  }

  ghost predicate IsSearchedFrom(chosen: map<nat, Choice>, start: Vertex, l: nat, top: int)
    requires l in chosen
  {
    if l == top then chosen[l].task.entrypoint == start
    else l + 1 in chosen && IsNext(chosen[l + 1].task.entrypoint, chosen[l + 1].edges, chosen[l].task.entrypoint)
  }

  /** The levels above l have been searched one from the other, and l is to be searched from `next`. */
  ghost predicate ComesTo(chosen: map<nat, Choice>, start: Vertex, l: int, top: nat, next: Vertex) {
    && l <= top && (forall k :: k in chosen ==> l < k) && Continues(chosen, start, l, top)
    && if l == top then next == start
       else l + 1 in chosen && IsNext(chosen[l + 1].task.entrypoint, chosen[l + 1].edges, next)
  }

  lemma ComesFirst(start: Vertex, top: nat)
    ensures ComesTo(map[], start, top, top, start)
  {}

  lemma CameThrough(chosen: map<nat, Choice>, start: Vertex, top: nat, next: Vertex)
    requires ComesTo(chosen, start, -1, top, next)
    ensures Continues(chosen, start, -1, top)
  {}

  lemma ComesNext(chosen: map<nat, Choice>, start: Vertex, l: nat, top: nat, from: Vertex, c: Choice, next: Vertex)
    requires ComesTo(chosen, start, l, top, from) && c.task.entrypoint == from && IsNext(from, c.edges, next)
    ensures ComesTo(chosen[l := c], start, l - 1, top, next)
  {
    hide IsNext;
    var after := chosen[l := c];
    forall k: nat | l - 1 < k <= top ensures k in after && IsSearchedFrom(after, start, k, top) {
      if k > l {
        assert IsSearchedFrom(chosen, start, k, top);
      }
    }
  }

  /** All that Insert does to connect x: the descent to its level, and the choice made at each of its levels. */
  datatype Course = Course(descent: seq<seq<Vertex>>, chosen: map<nat, Choice>)

  /** x has been connected, beginning at `start`. */
  ghost predicate IsConnected(config: Config, space: Space, g0: Graph, g: Graph, x: Vertex, start: Vertex,
          course: Course) {
    var top := Min(start.level, x.level);
    && IsDescent(space, g0, x.vector, start, x.level, course.descent)
    && Continues(course.chosen, Stop(start, course.descent, |course.descent|), -1, top)
    && Woven(config, space, g0, g, x, -1, top, course.chosen)
  }

  lemma ConnectedNodes(config: Config, space: Space, g0: Graph, g: Graph, x: Vertex, start: Vertex, course: Course)
    requires IsConnected(config, space, g0, g, x, start, course)
    ensures SameNodes(g0, g)
  {}

  lemma SameAtTransitive(g0: Graph, g1: Graph, g2: Graph, l: nat)
    requires g0.Keys == g1.Keys && SameAt(g0, g1, l) && SameAt(g1, g2, l)
    ensures SameAt(g0, g2, l)
  {}

  lemma LinkedSame(config: Config, space: Space, g0: Graph, g1: Graph, g2: Graph, x: Vertex, l: nat, c: Choice)
    requires LevelWoven(config, space, g0, g1, x, l, c) && SameAt(g1, g2, l) && SameNodes(g0, g1) && x in g0
    ensures LevelWoven(config, space, g0, g2, x, l, c)
  {}

  lemma LinkedAtFrom(g0: Graph, g1: Graph, g2: Graph, x: Vertex, l: nat, e: EdgeSet, cap: nat)
    requires SameAt(g0, g1, l) && SameNodes(g0, g1) && LinkedAt(g1, g2, x, l, e, cap)
    ensures LinkedAt(g0, g2, x, l, e, cap)
  {
    hide LivePart;
    forall v | v in g0 && v != x && v in e ensures Capped(g0, EdgesAt(g0, v, l)[x := e[v]], EdgesAt(g2, v, l), cap) {
      LivePartSame(g0, g1, EdgesAt(g0, v, l)[x := e[v]]);
    }
  }

  lemma SearchedFrom(config: Config, space: Space, g0: Graph, g1: Graph, x: Vertex, l: nat, c: Choice)
    requires SameAt(g0, g1, l) && SameNodes(g0, g1) && WasSearched(config, space, g1, x, l, c)
    ensures WasSearched(config, space, g0, x, l, c)
  {
    hide Chosen, EdgesAt;
    SameAtTransitive(g0, g1, c.task.g, l);
  }

  lemma LinkedFrom(config: Config, space: Space, g0: Graph, g1: Graph, g2: Graph, x: Vertex, l: nat, c: Choice)
    requires SameAt(g0, g1, l) && SameNodes(g0, g1) && LevelWoven(config, space, g1, g2, x, l, c)
    ensures LevelWoven(config, space, g0, g2, x, l, c)
  {
    hide WasSearched, LinkedAt, SameAt;
    SearchedFrom(config, space, g0, g1, x, l, c);
    LinkedAtFrom(g0, g1, g2, x, l, c.edges, config.Cap(l));
  }

  /** Linking one more level. */
  lemma WovenNext(config: Config, space: Space, g0: Graph, g1: Graph, g2: Graph, x: Vertex, l: nat, top: int,
          chosen: map<nat, Choice>, c: Choice)
    requires Woven(config, space, g0, g1, x, l, top, chosen) && l <= top && x in g0
    requires SameBut(g1, g2, l) && LevelWoven(config, space, g1, g2, x, l, c)
    ensures Woven(config, space, g0, g2, x, l - 1, top, chosen[l := c])
  {
    hide LevelWoven, SameAt, EdgesAt;
    var after := chosen[l := c];
    forall k: nat | l - 1 < k <= top ensures k in after && LevelWoven(config, space, g0, g2, x, k, after[k]) {
      if k == l {
        assert SameAt(g0, g1, l);
        LinkedFrom(config, space, g0, g1, g2, x, l, c);
      } else {
        assert SameAt(g1, g2, k);
        LinkedSame(config, space, g0, g1, g2, x, k, chosen[k]);
      }
    }
    forall k: nat | k <= l - 1 || top < k ensures SameAt(g0, g2, k) {
      assert SameAt(g0, g1, k) && SameAt(g1, g2, k);
      SameAtTransitive(g0, g1, g2, k);
    }
  }

  lemma TargetsInside(config: Config, space: Space, g: Graph, x: Vertex, e: EdgeSet, s: set<Vertex>)
    requires Targets(config, space, g, x, 0, e) && g.Keys == s + {x} && config.m > 0
    ensures e.Keys <= s && e != map[]
  {}

  /** Linked at the bottom level without pruning, x joins an intact set of vertices. */
  lemma WovenKeepsIntact(config: Config, space: Space, g0: Graph, g: Graph, x: Vertex, top: int,
          chosen: map<nat, Choice>, s: set<Vertex>)
    requires WellFormed(space, g0) && Intact(g0, s) && x in g0 && !g0[x].deleted && g0.Keys == s + {x} && x !in s
    requires Woven(config, space, g0, g, x, -1, top, chosen) && top >= 0
    requires config.m > 0 && |s| <= config.mMax0
    ensures Intact(g, s + {x})
  {
    assert LevelWoven(config, space, g0, g, x, 0, chosen[0]);
    var e := chosen[0].edges;
    TargetsInside(config, space, g0, x, e, s);
    LinkedKeepsIntact(space, g0, g, s, x, e, config.mMax0);
  }
}
