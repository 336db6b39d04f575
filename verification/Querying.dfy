/** Turning the queue of a finished search into an answer. */
module Querying {
  import opened Common
  import opened Configs
  import opened Nearest
  import opened Graphs
  import opened BeamSearch
  import opened LevelSearch
  import opened IndexTable
  import opened Answers
  import opened Linking
  import opened LevelLinks
  import opened Greedy

  /** vs lists the entries of `part` that are not in `rest`, nearest first; `rest` is no farther. */
  ghost predicate Listing(part: EdgeSet, rest: EdgeSet, vs: seq<Vertex>) {
    && rest.Keys <= part.Keys
    && (forall u :: u in rest ==> rest[u] == part[u])
    && (forall u :: u in vs ==> u in part && u !in rest)
    && (forall u :: u in part && u !in rest ==> u in vs)
    && (forall i, j :: 0 <= i < j < |vs| ==> vs[i] != vs[j] && part[vs[i]] <= part[vs[j]])
    && (forall u, j :: u in rest && 0 <= j < |vs| ==> part[u] <= part[vs[j]])
  }

  lemma {:induction false} DistinctSize(vs: seq<Vertex>)
    requires forall i, j :: 0 <= i < j < |vs| ==> vs[i] != vs[j]
    ensures |set u | u in vs| == |vs|
  {
    if vs != [] {
      var init, last := vs[..|vs| - 1], vs[|vs| - 1];
      DistinctSize(init);
      assert vs == init + [last];
      assert (set u | u in vs) == (set u | u in init) + {last};
    }
  }

  lemma ListSize(part: EdgeSet, vs: seq<Vertex>)
    requires Listing(part, map[], vs)
    ensures |vs| == |part|
  {
    DistinctSize(vs);
    assert (set u | u in vs) == part.Keys;
  }

  function HitOf(v: Vertex, score: Distance): Hit {
    Hit(v.id, v.metadata, score)
  }

  /** The result read off the listed vertices. */
  ghost predicate Shows(part: EdgeSet, vs: seq<Vertex>, result: seq<Hit>) {
    |result| == |vs| && forall i :: 0 <= i < |vs| ==> vs[i] in part && result[i] == HitOf(vs[i], part[vs[i]])
  }

  ghost predicate Filled(part: EdgeSet, rest: EdgeSet, vs: seq<Vertex>, result: seq<Hit>) {
    Listing(part, rest, vs) && Shows(part, vs, result)
  }

  lemma FillNext(part: EdgeSet, rest: EdgeSet, vs: seq<Vertex>, result: seq<Hit>, u: Vertex, d: Distance)
    requires Filled(part, rest, vs, result) && u in rest && rest[u] == d && IsLastEntry(true, rest, d)
    ensures Filled(part, rest - {u}, [u] + vs, [HitOf(u, d)] + result)
  {}

  lemma FillDone(part: EdgeSet, rest: EdgeSet, vs: seq<Vertex>, result: seq<Hit>)
    requires Filled(part, rest, vs, result) && |rest| == 0
    ensures Filled(part, map[], vs, result)
  {
    assert rest == map[];
  }

  /** The last loop of Search: the result is filled from its far end. */
  method FillResult(neighbors: Queue, k: nat, ghost part: EdgeSet) returns (result: seq<Hit>, ghost vs: seq<Vertex>)
    requires Holds(neighbors, true, part) && |part| <= k
    modifies neighbors`len, neighbors.buf
    ensures Filled(part, map[], vs, result)
  {
    HoldsLen(neighbors, true, part);
    var i := Min(k, neighbors.len);
    result, vs := [], [];
    ghost var rest := part;
    while i > 0
      invariant Holds(neighbors, true, rest) && neighbors.len == i
      invariant Filled(part, rest, vs, result)
    {
      var item := PopEntry(neighbors, true, rest, {});
      FillNext(part, rest, vs, result, item.value, item.priority);
      vs, rest := [item.value] + vs, rest - {item.value};
      result := [HitOf(item.value, item.priority)] + result;
      i := i - 1;
    }
    HoldsLen(neighbors, true, rest);
    FillDone(part, rest, vs, result);
  }

  lemma {:induction false} KeyedSize(table: Table)
    requires Keyed(table)
    ensures |table.Values| == |table|
    decreases |table|
  {
    if table.Keys != {} {
      var id :| id in table;
      var rest := table - {id};
      KeyedSize(rest);
      forall v | v in table.Values && v != table[id] ensures v in rest.Values {
        var other :| other in table && table[other] == v;
        assert rest[other] == v;
      }
      forall v | v in rest.Values ensures v in table.Values && v != table[id] {
        var other :| other in rest && rest[other] == v;
        assert table[other] == v;
      }
      assert table.Values == rest.Values + {table[id]};
    } else {
      assert table.Values == {};
    }
  }

  /** What the selected part of a search's findings promises. */
  ghost predicate PartOk(space: Space, query: Vector, safe: set<Vertex>, k: nat, start: Vertex, part: EdgeSet) {
    && |part| <= k && part.Keys <= safe
    && (forall u :: u in part ==> part[u] == space.distance(query, u.vector))
    && (k > 0 ==> exists u :: u in part && part[u] <= space.distance(query, start.vector))
  }

  lemma SelectedIsOk(t: Task, p: Progress, k: nat, part: EdgeSet, safe: set<Vertex>, start: Vertex)
    requires Bounded(t, p) && KeepsClosest(t, p)
    requires t.reach <= safe && t.Dist(t.entrypoint) <= t.Dist(start)
    ensures IsNearestPart(p.found, k, part) ==> PartOk(t.space, t.query, safe, k, start, part)
  {
    assert p.found[p.best] <= t.Dist(start);
  }

  /** The part is the k nearest of all the vertices in the table. */
  ghost predicate PartOfAll(space: Space, query: Vector, k: nat, table: Table, part: EdgeSet) {
    && part.Keys <= table.Values
    && (forall u :: u in part ==> part[u] == space.distance(query, u.vector))
    && |part| == Min(k, |table.Values|)
    && forall u, w :: u in part && w in table.Values && w !in part ==> part[u] <= space.distance(query, w.vector)
  }

  /** In an intact index small enough for the beam, the search finds everything. */
  lemma IntactFindsAll(t: Task, p: Progress, k: nat, part: EdgeSet, table: Table, all: set<Vertex>)
    requires t.Valid() && t.level == 0 && Searching(t, p) && IsNearestPart(p.found, k, part)
    requires |t.reach| <= t.ef ==> p.found.Keys == t.reach
    requires Intact(t.g, all) && t.entrypoint in all && |all| <= t.ef && table.Values == all
    ensures PartOfAll(t.space, t.query, k, table, part)
  {
    IntactReach(t.g, all, t.entrypoint);
    assert |p.found| == |p.found.Keys| == |all|;
  }

  /** Each hit shows what is stored under its id. */
  lemma HitsAreStored(table: Table, part: EdgeSet, vs: seq<Vertex>, result: seq<Hit>, i: nat)
    requires Keyed(table) && part.Keys <= table.Values && Filled(part, map[], vs, result) && i < |result|
    ensures result[i].id in table && table[result[i].id] == vs[i]
  {
    assert vs[i] in table.Values;
    var id :| id in table && table[id] == vs[i];
  }

  lemma LeftOutIsFarther(space: Space, table: Table, query: Vector, k: nat, part: EdgeSet, vs: seq<Vertex>,
          result: seq<Hit>, id: Uuid, i: nat)
    requires Keyed(table) && PartOfAll(space, query, k, table, part) && Filled(part, map[], vs, result)
    requires id in table && id !in Ids(result) && i < |result|
    ensures result[i].score <= space.distance(query, table[id].vector)
  {
    forall j | 0 <= j < |vs| ensures vs[j].id in Ids(result) {
      assert result[j].id == vs[j].id;
    }
    var u := table[id];
    assert u in table.Values && u !in vs;
  }

  lemma PartOfAllSize(space: Space, table: Table, docs: map<Uuid, Doc>, query: Vector, k: nat, part: EdgeSet,
          vs: seq<Vertex>, result: seq<Hit>)
    requires Keyed(table) && PartOfAll(space, query, k, table, part) && Filled(part, map[], vs, result)
    requires docs.Keys == table.Keys
    ensures |result| == Min(k, |docs|)
  {
    ListSize(part, vs);
    KeyedSize(table);
    assert |docs| == |docs.Keys| == |table.Keys|;
  }

  /** If the part was chosen among everything in the table, the answer is exact. */
  lemma PartOfAllIsExact(space: Space, table: Table, docs: map<Uuid, Doc>, query: Vector, k: nat, part: EdgeSet,
          vs: seq<Vertex>, result: seq<Hit>)
    requires Keyed(table) && PartOfAll(space, query, k, table, part) && Filled(part, map[], vs, result)
    requires Shown(docs, table)
    ensures IsExactAnswer(space, docs, query, k, result)
  {
    PartOfAllSize(space, table, docs, query, k, part, vs, result);
    forall i | 0 <= i < |result| ensures result[i].id in table && table[result[i].id] == vs[i] {
      HitsAreStored(table, part, vs, result, i);
    }
    forall id, i | id in docs && id !in Ids(result) && 0 <= i < |result|
      ensures result[i].score <= space.distance(query, docs[id].vector)
    {
      LeftOutIsFarther(space, table, query, k, part, vs, result, id, i);
    }
  }

  /** The hits are vertices of `safe` in order of their distance; the first is no farther than `start`. */
  ghost predicate AnswerOk(space: Space, safe: set<Vertex>, query: Vector, k: nat, start: Vertex, vs: seq<Vertex>,
          result: seq<Hit>) {
    && |result| == |vs| <= k
    && Ascending(result)
    && (forall i, j :: 0 <= i < j < |vs| ==> vs[i] != vs[j])
    && (forall i :: 0 <= i < |vs| ==> vs[i] in safe && result[i] == HitOf(vs[i], space.distance(query, vs[i].vector)))
    && (k > 0 ==> |result| > 0 && result[0].score <= space.distance(query, start.vector))
  }

  lemma AnswerIsOk(space: Space, query: Vector, safe: set<Vertex>, k: nat, start: Vertex, part: EdgeSet,
          vs: seq<Vertex>, result: seq<Hit>)
    requires PartOk(space, query, safe, k, start, part) && Filled(part, map[], vs, result)
    ensures AnswerOk(space, safe, query, k, start, vs, result)
  {
    ListSize(part, vs);
    if k > 0 {
      var u :| u in part && part[u] <= space.distance(query, start.vector);
      var j :| 0 <= j < |vs| && vs[j] == u;
      assert result[0].score == part[vs[0]] <= part[vs[j]];
    }
  }

  /** How an answer came about: the descent, the search of the bottom level, what was kept of it, and its order. */
  datatype Trace = Trace(descent: seq<seq<Vertex>>, task: Task, progress: Progress, part: EdgeSet, vs: seq<Vertex>)

  /** A completed search of the bottom level from a vertex no farther than `start`, and the k nearest it found. */
  ghost predicate IsBottomSearch(config: Config, space: Space, g: Graph, query: Vector, k: nat, start: Vertex, t: Task,
          p: Progress, part: EdgeSet) {
    && t == Task(space, g, query, t.entrypoint, Max(config.ef, k), 0, Reach(g, 0, t.entrypoint))
    && t.Dist(t.entrypoint) <= space.distance(query, start.vector)
    && Completed(t, p) && IsNearestPart(p.found, k, part)
  }

  /** The answer lists the k nearest of what a search found that began where the descent ended, nearest first. */
  ghost predicate IsAnswerOf(config: Config, space: Space, g: Graph, query: Vector, k: nat, start: Vertex, trace: Trace,
          result: seq<Hit>) {
    && IsDescent(space, g, query, start, 0, trace.descent)
    && trace.task.entrypoint == Stop(start, trace.descent, |trace.descent|)
    && IsBottomSearch(config, space, g, query, k, start, trace.task, trace.progress, trace.part)
    && Filled(trace.part, map[], trace.vs, result)
  }

  /** The bottom level is searched from a vertex to which no live neighbour on the level above is nearer. */
  lemma BottomIsEnteredNearest(config: Config, space: Space, g: Graph, query: Vector, k: nat, start: Vertex,
          trace: Trace, result: seq<Hit>, u: Vertex)
    requires IsAnswerOf(config, space, g, query, k, start, trace, result) && start.level > 0
    requires u in LiveNeighbors(g, trace.task.entrypoint, 1)
    ensures space.distance(query, trace.task.entrypoint.vector) <= space.distance(query, u.vector)
  {
    hide IsBottomSearch, IsDescent, LiveNeighbors;
    DescentEndsNearest(space, g, query, start, 0, trace.descent, u);
  }

  lemma CompletedIsSearching(t: Task, p: Progress)
    requires Completed(t, p)
    ensures Searching(t, p) && Bounded(t, p) && KeepsClosest(t, p)
    ensures t.Valid() && (|t.reach| <= t.ef ==> p.found.Keys == t.reach)
  {}

  /** The bottom level of Search. */
  method FindNearest(config: Config, space: Space, query: Vector, k: nat, entrypoint: Vertex, ghost all: set<Vertex>,
          ghost safe: set<Vertex>, ghost start: Vertex, ghost table: Table)
    returns (neighbors: Queue, ghost t: Task, ghost p: Progress, ghost part: EdgeSet)
    requires config.Supported() && WellFormed(space, Snap(all)) && entrypoint in all
    requires entrypoint in safe && Closed(Snap(all), 0, safe)
    requires space.distance(query, entrypoint.vector) <= space.distance(query, start.vector)
    ensures fresh(neighbors) && fresh(neighbors.buf) && Holds(neighbors, true, part)
    ensures IsBottomSearch(config, space, Snap(all), query, k, start, t, p, part) && t.entrypoint == entrypoint
    ensures PartOk(space, query, safe, k, start, part) && |part| <= k
    ensures Intact(Snap(all), all) && table.Values == all && |all| <= Max(config.ef, k) ==>
              PartOfAll(space, query, k, table, part)
  {
    hide Searching, Bounded, KeepsClosest, Completed, Closed, WellFormed, Intact, PartOk, PartOfAll, Snap;
    ghost var g := Snap(all);
    neighbors, part, t, p := SearchAndSelect(config, space, query, entrypoint, Max(config.ef, k), k, 0, all);
    CompletedIsSearching(t, p);
    ReachIsLeast(g, 0, entrypoint, safe);
    SelectedIsOk(t, p, k, part, safe, start);
    if Intact(g, all) && table.Values == all && |all| <= t.ef {
      IntactFindsAll(t, p, k, part, table, all);
    }
  }

  lemma ReadOff(space: Space, query: Vector, safe: set<Vertex>, k: nat, start: Vertex, table: Table,
          docs: map<Uuid, Doc>, part: EdgeSet, vs: seq<Vertex>, result: seq<Hit>)
    requires PartOk(space, query, safe, k, start, part) && Filled(part, map[], vs, result)
    requires Keyed(table) && Shown(docs, table)
    ensures AnswerOk(space, safe, query, k, start, vs, result)
    ensures PartOfAll(space, query, k, table, part) ==> IsExactAnswer(space, docs, query, k, result)
  {
    AnswerIsOk(space, query, safe, k, start, part, vs, result);
    if PartOfAll(space, query, k, table, part) {
      PartOfAllIsExact(space, table, docs, query, k, part, vs, result);
    }
  }

  /** The bottom level, and the answer read off it. */
  method SearchBottom(config: Config, space: Space, query: Vector, k: nat, entrypoint: Vertex, ghost all: set<Vertex>,
          ghost safe: set<Vertex>, ghost start: Vertex, ghost descent: seq<seq<Vertex>>, ghost table: Table,
          ghost docs: map<Uuid, Doc>)
    returns (result: seq<Hit>, ghost trace: Trace)
    requires config.Supported() && WellFormed(space, Snap(all))
    requires IsDescent(space, Snap(all), query, start, 0, descent) && entrypoint == Stop(start, descent, |descent|)
    requires entrypoint in all && Keyed(table) && Shown(docs, table)
    requires entrypoint in safe && Closed(Snap(all), 0, safe)
    requires space.distance(query, entrypoint.vector) <= space.distance(query, start.vector)
    ensures IsAnswerOf(config, space, Snap(all), query, k, start, trace, result)
    ensures AnswerOk(space, safe, query, k, start, trace.vs, result)
    ensures Intact(Snap(all), all) && table.Values == all && |all| <= Max(config.ef, k) ==>
              IsExactAnswer(space, docs, query, k, result)
  {
    hide WellFormed, Closed, Intact, Snap, PartOfAll, PartOk, Filled, AnswerOk, IsExactAnswer, Keyed, Shown,
         IsBottomSearch, IsDescent;
    var neighbors;
    ghost var t, p, part, vs;
    neighbors, t, p, part := FindNearest(config, space, query, k, entrypoint, all, safe, start, table);
    result, vs := FillResult(neighbors, k, part);
    ReadOff(space, query, safe, k, start, table, docs, part, vs, result);
    trace := Trace(descent, t, p, part, vs);
  }

  /** Search, from a given entrypoint. */
  method SearchFrom(config: Config, space: Space, query: Vector, k: nat, start: Vertex, ghost all: set<Vertex>,
          ghost safe: set<Vertex>, ghost table: Table, ghost docs: map<Uuid, Doc>)
    returns (result: seq<Hit>, ghost trace: Trace)
    requires config.Supported() && WellFormed(space, Snap(all)) && start in all && Keyed(table) && Shown(docs, table)
    requires start in safe && ClosedEverywhere(Snap(all), safe)
    ensures IsAnswerOf(config, space, Snap(all), query, k, start, trace, result)
    ensures AnswerOk(space, safe, query, k, start, trace.vs, result)
    ensures Intact(Snap(all), all) && table.Values == all && |all| <= Max(config.ef, k) ==>
              IsExactAnswer(space, docs, query, k, result)
  {
    hide WellFormed, Closed, Intact, Snap, AnswerOk, IsAnswerOf, IsExactAnswer, Keyed, Shown, IsDescent;
    var entrypoint, minDistance;
    ghost var descent;
    entrypoint, minDistance, descent := Descend(space, query, start, 0, all, safe);
    assert Closed(Snap(all), 0, safe);
    result, trace := SearchBottom(config, space, query, k, entrypoint, all, safe, start, descent, table, docs);
  }
}
