/** The layered proximity graph: its vertices as objects, and its edges as a value to reason about. */
module Graphs {
  import opened Common

  /** What a type switch on a space sees. */
  datatype SpaceType = Euclidean | Manhattan | Cosine | OtherType

  /** A space: its type, and the distances it measures. */
  datatype Space = Space(kind: SpaceType, distance: (Vector, Vector) -> Distance)

  /** Distances do not depend on the direction. */
  ghost predicate Symmetric(space: Space) {
    forall a, b :: space.distance(a, b) == space.distance(b, a)
  }

  /** The outgoing edges of a vertex at one level, with their lengths. */
  type EdgeSet = map<Vertex, Distance>

  /** What of a vertex can change. */
  datatype Node = Node(deleted: bool, edges: seq<EdgeSet>)

  type Graph = map<Vertex, Node>

  class Vertex {
    const id: Uuid
    const vector: Vector
    const metadata: Metadata
    const level: nat
    var deleted: bool
    var edges: seq<EdgeSet>

    constructor (id: Uuid, vector: Vector, metadata: Metadata, level: nat)
      ensures this.id == id && this.vector == vector && this.metadata == metadata && this.level == level
      ensures !deleted && edges == seq(level + 1, _ => map[])
    {
      this.id, this.vector, this.metadata, this.level := id, vector, metadata, level;
      deleted := false;
      edges := [];
      new;
      SetLevel(level);
    }

    method SetLevel(level: nat)
      modifies this`edges
      ensures edges == seq(level + 1, _ => map[])
    {
      edges := [];
      for i := 0 to level + 1
        invariant |edges| == i && forall j :: 0 <= j < i ==> edges[j] == map[]
      {
        edges := edges + [map[]];
      }
    }

    method SetDeleted(ghost all: set<Vertex>)
      requires this in all
      modifies this`deleted
      ensures Snap(all) == old(Snap(all))[this := Node(true, old(edges))]
    {
      deleted := true;
    }

    method AddEdge(l: nat, u: Vertex, distance: Distance, ghost all: set<Vertex>)
      requires this in all && l < |edges|
      modifies this`edges
      ensures Snap(all) == WithEdges(old(Snap(all)), this, l, old(edges)[l][u := distance])
    {
      var e: EdgeSet := edges[l][u := distance];
      edges := edges[l := e];
    }

    method RemoveEdge(l: nat, u: Vertex, ghost all: set<Vertex>)
      requires this in all && l < |edges|
      modifies this`edges
      ensures Snap(all) == WithEdges(old(Snap(all)), this, l, old(edges)[l] - {u})
    {
      edges := edges[l := edges[l] - {u}];
    }

    method SetEdges(l: nat, e: EdgeSet, ghost all: set<Vertex>)
      requires this in all && l < |edges|
      modifies this`edges
      ensures Snap(all) == WithEdges(old(Snap(all)), this, l, e)
    {
      edges := edges[l := e];
    }
  }

  /** The present value of the graph on a set of vertices. */
  ghost function Snap(all: set<Vertex>): (g: Graph)
    reads all
    ensures g.Keys == all
    ensures forall v :: v in all ==> g[v] == Node(v.deleted, v.edges)
  {
    if all == {} then map[]
    else
      var v :| v in all;
      Snap(all - {v})[v := Node(v.deleted, v.edges)]
  }

  lemma SnapWith(all: set<Vertex>, v: Vertex)
    ensures Snap(all + {v}) == Snap(all)[v := Node(v.deleted, v.edges)]
  {}

  function WithEdges(g: Graph, v: Vertex, l: nat, e: EdgeSet): Graph
    requires v in g && l < |g[v].edges|
  {
    g[v := g[v].(edges := g[v].edges[l := e])]
  }

  function EdgesAt(g: Graph, v: Vertex, l: nat): EdgeSet {
    if v in g && l < |g[v].edges| then g[v].edges[l] else map[]
  }

  function LivePart(g: Graph, e: EdgeSet): EdgeSet {
    e - set u | u in e && (u !in g || g[u].deleted)
  }

  lemma LivePartNext(g: Graph, e: EdgeSet, todo: set<Vertex>, u: Vertex)
    requires u in todo && todo <= e.Keys && u in g
    ensures u !in LivePart(g, e - todo)
    ensures LivePart(g, e - (todo - {u})) ==
            if g[u].deleted then LivePart(g, e - todo) else LivePart(g, e - todo)[u := e[u]]
  {}

  function LiveNeighbors(g: Graph, v: Vertex, l: nat): set<Vertex> {
    LivePart(g, EdgesAt(g, v, l)).Keys
  }

  // Reachability at one level, through vertices that are not deleted

  ghost function Within(g: Graph, l: nat, a: Vertex, steps: nat): set<Vertex> {
    if steps == 0 then {a}
    else
      var near := Within(g, l, a, steps - 1);
      near + set v, u | v in near && u in LiveNeighbors(g, v, l) :: u
  }

  ghost function Reach(g: Graph, l: nat, a: Vertex): set<Vertex> {
    set v | v in g && exists steps: nat :: v in Within(g, l, a, steps)
  }

  ghost predicate Closed(g: Graph, l: nat, s: set<Vertex>) {
    forall v :: v in s ==> LiveNeighbors(g, v, l) <= s
  }

  lemma ReachIsClosed(g: Graph, l: nat, a: Vertex)
    requires a in g
    ensures a in Reach(g, l, a) && Closed(g, l, Reach(g, l, a))
  {
    assert a in Within(g, l, a, 0);
    forall v, u | v in Reach(g, l, a) && u in LiveNeighbors(g, v, l) ensures u in Reach(g, l, a) {
      var steps: nat :| v in Within(g, l, a, steps);
      assert u in Within(g, l, a, steps + 1);
    }
  }

  lemma {:induction false} WithinClosed(g: Graph, l: nat, a: Vertex, s: set<Vertex>, steps: nat)
    requires a in s && Closed(g, l, s)
    ensures Within(g, l, a, steps) <= s
  {
    if steps > 0 {
      WithinClosed(g, l, a, s, steps - 1);
    }
  }

  /** Reach is the least closed set. */
  lemma ReachIsLeast(g: Graph, l: nat, a: Vertex, s: set<Vertex>)
    requires a in s && Closed(g, l, s)
    ensures Reach(g, l, a) <= s
  {
    forall v | v in Reach(g, l, a) ensures v in s {
      var steps: nat :| v in Within(g, l, a, steps);
      WithinClosed(g, l, a, s, steps);
    }
  }

  // The structural invariant

  /** Edges of v at level l lead to other vertices present at that level, and carry the distance. */
  ghost predicate EdgesOk(space: Space, g: Graph, v: Vertex, l: nat, e: EdgeSet) {
    forall u :: u in e ==> u in g && u != v && l <= u.level && e[u] == space.distance(v.vector, u.vector)
  }

  ghost predicate WellFormed(space: Space, g: Graph) {
    && (forall v :: v in g ==> |g[v].edges| == v.level + 1)
    && (forall v, l: nat :: v in g ==> EdgesOk(space, g, v, l, EdgesAt(g, v, l)))
  }

  /** Starting at level l, a search stays at vertices that have that level. */
  lemma ReachHasLevel(space: Space, g: Graph, l: nat, a: Vertex)
    requires WellFormed(space, g) && a in g && l <= a.level
    ensures forall v :: v in Reach(g, l, a) ==> l <= v.level
    ensures forall v :: v in Reach(g, l, a) && v != a ==> !g[v].deleted
  {
    var s := set v | v in g && l <= v.level && (v == a || !g[v].deleted);
    forall v | v in s ensures LiveNeighbors(g, v, l) <= s {
      assert EdgesOk(space, g, v, l, EdgesAt(g, v, l));
    }
    ReachIsLeast(g, l, a, s);
  }

  /** Nothing leads to x at level l. */
  ghost predicate Untargeted(g: Graph, x: Vertex, l: nat) {
    forall v :: v in g ==> x !in EdgesAt(g, v, l)
  }

  lemma ReachAvoids(g: Graph, l: nat, a: Vertex, x: Vertex)
    requires a in g && a != x && Untargeted(g, x, l)
    ensures x !in Reach(g, l, a)
  {
    var s := g.Keys - {x};
    assert Closed(g, l, s);
    ReachIsLeast(g, l, a, s);
  }
}
