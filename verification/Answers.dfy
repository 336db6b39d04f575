/** What a search answers, and what it would answer if it compared everything. */
module Answers {
  import opened Common
  import opened Graphs
  import opened IndexTable

  /** What a client stored under an id. */
  datatype Doc = Doc(vector: Vector, metadata: Metadata)

  /** docs shows what is stored in the table. */
  ghost predicate Shown(docs: map<Uuid, Doc>, table: Table) {
    docs.Keys == table.Keys && forall id :: id in table ==> docs[id] == Doc(table[id].vector, table[id].metadata)
  }

  /** The contents of an index, by id. */
  ghost function DocsOf(table: Table): (docs: map<Uuid, Doc>)
    ensures Shown(docs, table)
  {
    if table == map[] then map[]
    else
      var id :| id in table;
      DocsOf(table - {id})[id := Doc(table[id].vector, table[id].metadata)]
  }

  lemma DocsIds(table: Table)
    ensures DocsOf(table).Keys == table.Keys
  {}

  lemma DocsAdd(table: Table, id: Uuid, v: Vertex)
    ensures DocsOf(table[id := v]) == DocsOf(table)[id := Doc(v.vector, v.metadata)]
  {
    assert Shown(DocsOf(table)[id := Doc(v.vector, v.metadata)], table[id := v]);
  }

  lemma DocsRemove(table: Table, id: Uuid)
    ensures DocsOf(table - {id}) == DocsOf(table) - {id}
  {
    assert Shown(DocsOf(table) - {id}, table - {id});
  }

  datatype Hit = Hit(id: Uuid, metadata: Metadata, score: Distance)

  ghost predicate Ascending(result: seq<Hit>) {
    forall i, j :: 0 <= i < j < |result| ==> result[i].score <= result[j].score
  }

  ghost predicate Distinct(result: seq<Hit>) {
    forall i, j :: 0 <= i < j < |result| ==> result[i].id != result[j].id
  }

  ghost function Ids(result: seq<Hit>): set<Uuid> {
    set i | 0 <= i < |result| :: result[i].id
  }

  /** The k items nearest to the query, nearest first, with their distances. */
  ghost predicate IsExactAnswer(space: Space, docs: map<Uuid, Doc>, query: Vector, k: nat, result: seq<Hit>) {
    && |result| == Min(k, |docs|)
    && Ascending(result)
    && Distinct(result)
    && (forall i :: 0 <= i < |result| ==>
          && result[i].id in docs
          && result[i].metadata == docs[result[i].id].metadata
          && result[i].score == space.distance(query, docs[result[i].id].vector))
    && (forall id, i :: id in docs && id !in Ids(result) && 0 <= i < |result| ==>
          result[i].score <= space.distance(query, docs[id].vector))
  }

  lemma IdsLast(init: seq<Hit>, last: Hit)
    ensures Ids(init + [last]) == Ids(init) + {last.id}
  {
    var all := init + [last];
    forall id | id in Ids(init) ensures id in Ids(all) {
      var i :| 0 <= i < |init| && init[i].id == id;
      assert all[i].id == id;
    }
    assert all[|init|].id == last.id;
  }

  lemma {:induction false} DistinctIds(result: seq<Hit>)
    requires Distinct(result)
    ensures |Ids(result)| == |result|
  {
    if result == [] {
      assert Ids(result) == {};
    } else {
      var init, last := result[..|result| - 1], result[|result| - 1];
      DistinctIds(init);
      IdsLast(init, last);
      assert result == init + [last];
      forall i | 0 <= i < |init| ensures init[i].id != last.id {
        assert result[i].id != result[|result| - 1].id;
      }
    }
  }

  lemma MoreIds(a: set<Uuid>, b: set<Uuid>) returns (id: Uuid)
    requires |a| > |b|
    ensures id in a && id !in b
  {
    if a <= b {
      SubsetSize(a, b);
    }
    id :| id in a && id !in b;
  }

  lemma FirstIds(space: Space, docs: map<Uuid, Doc>, query: Vector, k: nat, result: seq<Hit>, n: nat)
    requires IsExactAnswer(space, docs, query, k, result) && n <= |result|
    ensures |Ids(result[..n])| == n
  {
    DistinctIds(result[..n]);
  }

  /** An item among the first i + 1 answers is no farther than the last of them. */
  lemma AmongFirst(space: Space, docs: map<Uuid, Doc>, query: Vector, k: nat, result: seq<Hit>, i: nat, id: Uuid)
    requires IsExactAnswer(space, docs, query, k, result)
    requires i < |result| && id in Ids(result[..i + 1])
    ensures id in docs && space.distance(query, docs[id].vector) <= result[i].score
  {
    var at :| 0 <= at <= i && result[..i + 1][at].id == id;
    assert result[at].id == id;
  }

  /** An item that is not among the first i answers is no nearer than the next one. */
  lemma NotAmongFirst(space: Space, docs: map<Uuid, Doc>, query: Vector, k: nat, result: seq<Hit>, i: nat, id: Uuid)
    requires IsExactAnswer(space, docs, query, k, result)
    requires i < |result| && id in docs && id !in Ids(result[..i])
    ensures result[i].score <= space.distance(query, docs[id].vector)
  {
    forall h | 0 <= h < i ensures result[h].id != id {
      assert result[..i][h].id in Ids(result[..i]);
    }
    if id in Ids(result) {
      var at :| 0 <= at < |result| && result[at].id == id;
      assert result[i].score <= result[at].score;
    }
  }

  /** Two exact answers have the same scores, position by position. (One direction.) */
  lemma ExactScoresAt(space: Space, docs: map<Uuid, Doc>, query: Vector, j: nat, k: nat, a: seq<Hit>, b: seq<Hit>,
          i: nat)
    requires IsExactAnswer(space, docs, query, j, a) && IsExactAnswer(space, docs, query, k, b)
    requires i < |a| && i < |b|
    ensures a[i].score >= b[i].score
  {
    hide IsExactAnswer, Ids;
    FirstIds(space, docs, query, j, a, i + 1);
    FirstIds(space, docs, query, k, b, i);
    var id := MoreIds(Ids(a[..i + 1]), Ids(b[..i]));
    AmongFirst(space, docs, query, j, a, i, id);
    NotAmongFirst(space, docs, query, k, b, i, id);
  }

  /**
   * The scores of an exact answer do not depend on how it was found: those of the k nearest
   * are the first k of those of any ranking of everything stored.
   */
  lemma ExactAnswerIsBruteForce(space: Space, docs: map<Uuid, Doc>, query: Vector, k: nat, result: seq<Hit>,
          ranking: seq<Hit>)
    requires IsExactAnswer(space, docs, query, k, result)
    requires IsExactAnswer(space, docs, query, |docs|, ranking)
    ensures |result| <= |ranking|
    ensures forall i :: 0 <= i < |result| ==> result[i].score == ranking[i].score
  {
    forall i | 0 <= i < |result| ensures result[i].score == ranking[i].score {
      ExactScoresAt(space, docs, query, k, |docs|, result, ranking, i);
      ExactScoresAt(space, docs, query, |docs|, k, ranking, result, i);
    }
  }
}
