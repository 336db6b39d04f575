/** The walk of Insert through the levels: down to the new vertex's level, then linking at each. */
module Insertion {
  import opened Common
  import opened Configs
  import opened Graphs
  import opened Greedy
  import opened Linking
  import opened LevelLinks
  import opened Weaving

  ghost predicate GraphOk(config: Config, space: Space, g: Graph) {
    config.Supported() && Symmetric(space) && WellFormed(space, g) && DegreesOk(g, config.Limit())
  }

  /** With limits that admit a new vertex's m edges, no vertex has more edges than it is pruned to. */
  lemma DegreesAreCapped(config: Config, space: Space, g: Graph, v: Vertex, l: nat)
    requires GraphOk(config, space, g) && v in g && config.m <= config.mMax && config.m <= config.mMax0
    ensures |EdgesAt(g, v, l)| <= if l == 0 then config.mMax0 else config.mMax
  {
    assert |EdgesAt(g, v, l)| <= config.Limit()(l);
  }

  lemma UntouchedAt(g0: Graph, g: Graph, x: Vertex, l: nat)
    requires Untouched(g0, x) && SameNodes(g0, g) && SameAt(g0, g, l) && x in g0
    ensures Untargeted(g, x, l) && EdgesAt(g, x, l) == map[]
  {
    assert Untargeted(g0, x, l) && EdgesAt(g0, x, l) == map[];
  }

  lemma JustSearched(config: Config, space: Space, g: Graph, x: Vertex, start: Vertex, l: nat, c: Choice)
    requires Chosen(config, c.task, c.progress, space, g, x, start, l, c.edges)
    ensures WasSearched(config, space, g, x, l, c)
  {}

  /** One level of linking, in terms of the whole walk. */
  method WeaveLevel(config: Config, space: Space, vertex: Vertex, start: Vertex, l: nat, ghost g0: Graph,
          ghost top: int, ghost woven: map<nat, Choice>, ghost all: set<Vertex>)
    returns (entrypoint: Vertex, ghost choice: Choice)
    requires GraphOk(config, space, Snap(all)) && Untouched(g0, vertex) && g0.Keys == all
    requires vertex in all && start in all && start != vertex && l <= vertex.level && l <= start.level && l <= top
    requires Woven(config, space, g0, Snap(all), vertex, l, top, woven)
    modifies all`edges
    ensures GraphOk(config, space, Snap(all))
    ensures Woven(config, space, g0, Snap(all), vertex, l - 1, top, woven[l := choice])
    ensures entrypoint in all && entrypoint != vertex && l <= entrypoint.level
    ensures choice.task.entrypoint == start && IsNext(start, choice.edges, entrypoint)
  {
    ghost var g1 := Snap(all);
    assert SameAt(g0, g1, l);
    UntouchedAt(g0, g1, vertex, l);
    ghost var e, t, p;
    entrypoint, e, t, p := LinkLevel(config, space, vertex, start, l, all);
    LinkedIsSound(config, space, g1, Snap(all), vertex, l, e);
    choice := Choice(e, t, p);
    JustSearched(config, space, g1, vertex, start, l, choice);
    WovenNext(config, space, g0, g1, Snap(all), vertex, l, top, woven, choice);
  }

  lemma WovenStart(config: Config, space: Space, g: Graph, x: Vertex, top: int)
    ensures Woven(config, space, g, g, x, top, top, map[])
  {}

  /** Link a new vertex at its levels, from the top common level down to the bottom. */
  method WeaveLevels(config: Config, space: Space, vertex: Vertex, start: Vertex, top: nat, ghost all: set<Vertex>)
    returns (ghost chosen: map<nat, Choice>)
    requires GraphOk(config, space, Snap(all)) && Untouched(Snap(all), vertex)
    requires vertex in all && start in all && start != vertex && top <= vertex.level && top <= start.level
    modifies all`edges
    ensures GraphOk(config, space, Snap(all))
    ensures Woven(config, space, old(Snap(all)), Snap(all), vertex, -1, top, chosen)
    ensures Continues(chosen, start, -1, top)
  {
    hide Woven, IsNext, GraphOk, Untouched, ComesTo, Continues;
    ghost var g0 := Snap(all);
    chosen := map[];
    WovenStart(config, space, g0, vertex, top);
    ComesFirst(start, top);
    var entrypoint := start;
    var l: int := top;
    while l >= 0
      invariant -1 <= l <= top && entrypoint in all && entrypoint != vertex && l <= entrypoint.level
      invariant GraphOk(config, space, Snap(all))
      invariant Woven(config, space, g0, Snap(all), vertex, l, top, chosen)
      invariant ComesTo(chosen, start, l, top, entrypoint)
    {
      ghost var from := entrypoint;
      ghost var choice;
      entrypoint, choice := WeaveLevel(config, space, vertex, entrypoint, l, g0, top, chosen, all);
      ComesNext(chosen, start, l, top, from, choice, entrypoint);
      chosen := chosen[l := choice];
      l := l - 1;
    }
    CameThrough(chosen, start, top, entrypoint);
  }

  lemma UntouchedIsAvoided(g: Graph, x: Vertex)
    requires Untouched(g, x)
    ensures ClosedEverywhere(g, g.Keys - {x})
  {
    forall l: nat ensures Closed(g, l, g.Keys - {x}) {
      assert Untargeted(g, x, l);
    }
  }

  /** Insert into a non-empty index, after the new vertex is stored. */
  method Connect(config: Config, space: Space, vertex: Vertex, start: Vertex, ghost all: set<Vertex>)
    returns (ghost course: Course)
    requires GraphOk(config, space, Snap(all)) && Untouched(Snap(all), vertex)
    requires vertex in all && start in all && start != vertex
    modifies all`edges
    ensures GraphOk(config, space, Snap(all))
    ensures IsConnected(config, space, old(Snap(all)), Snap(all), vertex, start, course)
  {
    hide Woven, Continues, IsDescent, Stop, ClosedEverywhere;
    UntouchedIsAvoided(Snap(all), vertex);
    ghost var descent, chosen;
    var entrypoint, minDistance;
    entrypoint, minDistance, descent := Descend(space, vertex.vector, start, vertex.level, all, all - {vertex});
    chosen := WeaveLevels(config, space, vertex, entrypoint, Min(entrypoint.level, vertex.level), all);
    course := Course(descent, chosen);
  }
}
