/** Searching an index from which items may have been removed, when what can be reached fits into the search. */
module ReachedAnswers {
  import opened Common
  import opened Nearest
  import opened Graphs
  import opened BeamSearch
  import opened Linking
  import opened IndexTable
  import opened Answers
  import opened Querying
  import opened Hnsws

  /** The hits are the k nearest of the vertices of s, nearest first, with their distances. */
  ghost predicate IsExactAmong(space: Space, s: set<Vertex>, query: Vector, k: nat, vs: seq<Vertex>, result: seq<Hit>) {
    && |result| == |vs| == Min(k, |s|)
    && Ascending(result)
    && (forall i, j :: 0 <= i < j < |vs| ==> vs[i] != vs[j])
    && (forall i :: 0 <= i < |vs| ==> vs[i] in s && result[i] == HitOf(vs[i], space.distance(query, vs[i].vector)))
    && forall v, i :: v in s && v !in vs && 0 <= i < |result| ==> result[i].score <= space.distance(query, v.vector)
  }

  /** What was kept of a search that found everything reachable. */
  lemma KeptOfAllReached(t: Task, p: Progress, k: nat, part: EdgeSet)
    requires Completed(t, p) && |t.reach| <= t.ef && IsNearestPart(p.found, k, part)
    ensures PartOfSet(t, k, part)
  {
    assert |p.found| == |p.found.Keys| == |t.reach|;
  }

  /** The part is the k nearest of everything reachable. */
  ghost predicate PartOfSet(t: Task, k: nat, part: EdgeSet) {
    && part.Keys <= t.reach && |part| == Min(k, |t.reach|) && Exact(t, part)
    && forall u, w :: u in part && w in t.reach && w !in part ==> t.Dist(u) <= t.Dist(w)
  }

  lemma FilledIsExactAmong(t: Task, k: nat, part: EdgeSet, vs: seq<Vertex>, result: seq<Hit>)
    requires PartOfSet(t, k, part) && Filled(part, map[], vs, result)
    ensures IsExactAmong(t.space, t.reach, t.query, k, vs, result)
  {
    ListSize(part, vs);
    forall v, i | v in t.reach && v !in vs && 0 <= i < |result|
      ensures result[i].score <= t.space.distance(t.query, v.vector)
    {
      assert vs[i] in part && v !in part;
    }
  }

  /** If what can be reached fits into the search, the answer is the k nearest of exactly that. */
  lemma AllReachedIsAnswered(index: Hnsw, query: Vector, k: nat, trace: Trace, result: seq<Hit>)
    requires index.entrypoint != null
    requires IsAnswerOf(index.config, index.space, Snap(index.all), query, k, index.entrypoint, trace, result)
    requires |trace.task.reach| <= Max(index.config.ef, k)
    ensures IsExactAmong(index.space, trace.task.reach, query, k, trace.vs, result)
  {
    hide Completed, IsNearestPart, Filled, Reach, Snap, IsExactAmong;
    KeptOfAllReached(trace.task, trace.progress, k, trace.part);
    FilledIsExactAmong(trace.task, k, trace.part, trace.vs, result);
  }

  /** A search from a live vertex comes to stored vertices only. */
  lemma ReachedAreStored(t: Task, table: Table)
    requires t.Valid() && WellFormed(t.space, t.g) && TableOk(table, t.g) && t.level == 0
    requires !t.g[t.entrypoint].deleted
    ensures t.reach <= table.Values
  {
    hide WellFormed;
    ReachHasLevel(t.space, t.g, t.level, t.entrypoint);
    forall v | v in t.reach ensures v in table.Values {
      assert Listed(table, v);
      assert table[v.id] == v;
    }
  }

  lemma StoredSizes(table: Table, g: Graph, docs: map<Uuid, Doc>)
    requires TableOk(table, g) && Shown(docs, table)
    ensures Keyed(table) && |docs| == |table| == |table.Values|
  {
    KeyedSize(table);
    assert |docs| == |docs.Keys| == |table.Keys|;
  }

  /** The nearest of the reachable vertices, seen as an answer for all stored ones. */
  lemma ExactIffAllReached(t: Task, k: nat, part: EdgeSet, vs: seq<Vertex>, result: seq<Hit>, table: Table,
          docs: map<Uuid, Doc>)
    requires TableOk(table, t.g) && Shown(docs, table) && t.reach <= table.Values
    requires PartOfSet(t, k, part) && Filled(part, map[], vs, result)
    ensures table.Values <= t.reach ==> IsExactAnswer(t.space, docs, t.query, k, result)
    ensures |table| <= k && IsExactAnswer(t.space, docs, t.query, k, result) ==> table.Values <= t.reach
  {
    hide TableOk, Filled, Shown;
    StoredSizes(table, t.g, docs);
    if table.Values <= t.reach {
      assert t.reach == table.Values;
      PartOfAllIsExact(t.space, table, docs, t.query, k, part, vs, result);
    }
    PartSize(part, vs, result);
    SubsetSize(t.reach, table.Values);
  }

  lemma PartSize(part: EdgeSet, vs: seq<Vertex>, result: seq<Hit>)
    requires Filled(part, map[], vs, result)
    ensures |result| == |part|
  {
    ListSize(part, vs);
  }

  /**
   * If, moreover, the search of the bottom level starts at a live vertex, the answer is exact for everything stored
   * if all that is stored can be reached from there; and asked for that many, only if.
   */
  lemma ReachedAnswerIsExactIff(index: Hnsw, query: Vector, k: nat, trace: Trace, result: seq<Hit>)
    requires index.Valid() && index.entrypoint != null
    requires IsAnswerOf(index.config, index.space, Snap(index.all), query, k, index.entrypoint, trace, result)
    requires |trace.task.reach| <= Max(index.config.ef, k)
    requires trace.task.entrypoint in index.all && !trace.task.entrypoint.deleted
    ensures trace.task.reach <= index.table.Values
    ensures trace.task.reach == index.table.Values ==>
              IsExactAnswer(index.space, index.Contents(), query, k, result)
    ensures |index.table| <= k ==>
              (IsExactAnswer(index.space, index.Contents(), query, k, result) <==>
               trace.task.reach == index.table.Values)
  {
    hide IsNearestPart, Filled, Reach, TableOk, WellFormed, DegreesOk, Symmetric, ShardsOk, CountsOk, IsExactAnswer,
         DocsOf, Searching, PartOfSet;
    KeptOfAllReached(trace.task, trace.progress, k, trace.part);
    ReachedAreStored(trace.task, index.table);
    ExactIffAllReached(trace.task, k, trace.part, trace.vs, result, index.table, index.Contents());
  }

  /** From a deleted vertex whose id is not stored, an answer that has room for all that is reachable is not exact. */
  lemma DeletedStartIsNotExact(index: Hnsw, query: Vector, k: nat, trace: Trace, result: seq<Hit>)
    requires index.Valid() && index.entrypoint != null
    requires IsAnswerOf(index.config, index.space, Snap(index.all), query, k, index.entrypoint, trace, result)
    requires |trace.task.reach| <= k && trace.task.entrypoint.id !in index.table
    ensures !IsExactAnswer(index.space, index.Contents(), query, k, result)
  {
    hide Completed, IsNearestPart, Filled, Reach, Snap, TableOk, WellFormed, DegreesOk, Symmetric, ShardsOk, CountsOk;
    AllReachedIsAnswered(index, query, k, trace, result);
    StartIsReached(trace.task, trace.progress);
    AllListed(trace.task.reach, trace.vs);
    DocsIds(index.table);
    var i :| 0 <= i < |trace.vs| && trace.vs[i] == trace.task.entrypoint;
    assert result[i].id == trace.task.entrypoint.id;
  }

  lemma StartIsReached(t: Task, p: Progress)
    requires Completed(t, p)
    ensures t.entrypoint in t.reach
  {
    hide Reach, Searching;
    ReachIsClosed(t.g, t.level, t.entrypoint);
  }

  lemma AllListed(s: set<Vertex>, vs: seq<Vertex>)
    requires |vs| == |s| && (forall i, j :: 0 <= i < j < |vs| ==> vs[i] != vs[j])
    requires forall i :: 0 <= i < |vs| ==> vs[i] in s
    ensures forall v :: v in s ==> v in vs
  {
    DistinctSize(vs);
    SubsetSize((set u | u in vs), s);
  }
}
