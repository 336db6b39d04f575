/** The whole path of a query: every partition searches its index, nodes merge, and the dataset merges. */
module DatasetSearches {
  import opened Common
  import opened PriorityQueues
  import opened Nearest
  import opened Merging
  import opened Graphs
  import opened Answers
  import opened Hnsws
  import opened Collecting
  import opened Datasets

  function ItemOf(space: Space, query: Vector, id: Uuid, doc: Doc): Item<Found> {
    Item(space.distance(query, doc.vector), Found(id, doc.metadata))
  }

  /** All documents with their distances from the query. */
  ghost function DocSet(space: Space, query: Vector, docs: map<Uuid, Doc>): set<Item<Found>> {
    set id | id in docs :: ItemOf(space, query, id, docs[id])
  }

  ghost function DocItems(space: Space, query: Vector, docs: map<Uuid, Doc>): multiset<Item<Found>> {
    multiset(DocSet(space, query, docs))
  }

  function AsItem(hit: Hit): Item<Found> {
    Item(hit.score, Found(hit.id, hit.metadata))
  }

  function HitItems(hits: seq<Hit>): (items: SearchResult)
    ensures |items| == |hits|
  {
    seq(|hits|, i requires 0 <= i < |hits| => AsItem(hits[i]))
  }

  lemma InDocSet(space: Space, query: Vector, docs: map<Uuid, Doc>, x: Item<Found>)
    ensures x in DocSet(space, query, docs) <==>
            x.value.id in docs && x == ItemOf(space, query, x.value.id, docs[x.value.id])
  {}

  lemma {:induction false} DocSetSize(space: Space, query: Vector, docs: map<Uuid, Doc>)
    ensures |DocSet(space, query, docs)| == |docs|
    decreases |docs|
  {
    if docs == map[] {
      assert DocSet(space, query, docs) == {};
    } else {
      var id :| id in docs;
      DocSetSize(space, query, docs - {id});
      var item := ItemOf(space, query, id, docs[id]);
      forall x ensures x in DocSet(space, query, docs) <==> x in DocSet(space, query, docs - {id}) + {item} {
        InDocSet(space, query, docs, x);
        InDocSet(space, query, docs - {id}, x);
      }
      assert DocSet(space, query, docs) == DocSet(space, query, docs - {id}) + {item};
      assert item !in DocSet(space, query, docs - {id});
    }
  }

  /** Distinct hits are distinct items. */
  lemma {:induction false} HitOnce(hits: seq<Hit>, x: Item<Found>)
    requires Answers.Distinct(hits)
    ensures multiset(HitItems(hits))[x] <= 1
  {
    if hits != [] {
      var n := |hits| - 1;
      HitOnce(hits[..n], x);
      assert HitItems(hits) == HitItems(hits[..n]) + [AsItem(hits[n])];
      if x == AsItem(hits[n]) {
        assert forall i :: 0 <= i < n ==> HitItems(hits[..n])[i] != x;
      }
    }
  }

  lemma HitIsDoc(space: Space, docs: map<Uuid, Doc>, query: Vector, k: nat, hits: seq<Hit>, i: nat)
    requires IsExactAnswer(space, docs, query, k, hits) && i < |hits|
    ensures hits[i].id in docs && HitItems(hits)[i] == ItemOf(space, query, hits[i].id, docs[hits[i].id])
    ensures HitItems(hits)[i] in DocSet(space, query, docs)
  {}

  /** What is left out has an id of its own. */
  lemma LeftOut(space: Space, docs: map<Uuid, Doc>, query: Vector, k: nat, hits: seq<Hit>, y: Item<Found>)
    requires IsExactAnswer(space, docs, query, k, hits)
    requires y in DocItems(space, query, docs) - multiset(HitItems(hits))
    ensures y.value.id in docs && y == ItemOf(space, query, y.value.id, docs[y.value.id])
    ensures y.value.id !in Ids(hits)
  {
    InDocSet(space, query, docs, y);
    forall j | 0 <= j < |hits| ensures hits[j].id != y.value.id {
      HitIsDoc(space, docs, query, k, hits, j);
      assert HitItems(hits)[j] in multiset(HitItems(hits));
    }
  }

  /** An exact answer of an index holds the k nearest of its documents. */
  lemma ExactIsNearest(space: Space, docs: map<Uuid, Doc>, query: Vector, k: nat, hits: seq<Hit>)
    requires IsExactAnswer(space, docs, query, k, hits)
    ensures IsNearest(DocItems(space, query, docs), k, multiset(HitItems(hits)))
  {
    var all, kept := DocItems(space, query, docs), multiset(HitItems(hits));
    DocSetSize(space, query, docs);
    forall x ensures kept[x] <= all[x] {
      HitOnce(hits, x);
      if x in kept {
        var i :| 0 <= i < |hits| && HitItems(hits)[i] == x;
        HitIsDoc(space, docs, query, k, hits, i);
      }
    }
    forall x, y | x in kept && y in all - kept ensures x.priority <= y.priority {
      var i :| 0 <= i < |hits| && HitItems(hits)[i] == x;
      LeftOut(space, docs, query, k, hits, y);
    }
  }

  /** An index that answers exactly: nothing was ever removed, and all of it fits into a search. */
  ghost predicate AnswersExactly(index: Hnsw, space: Space, k: nat)
    reads index, index.all
  {
    index.Valid() && index.Pristine() && index.space == space && |index.table| <= Max(index.config.ef, k)
  }

  /** partition.search: the k nearest of what the partition stores. */
  method SearchIndex(index: Hnsw, space: Space, query: Vector, k: nat) returns (items: SearchResult)
    requires AnswersExactly(index, space, k)
    ensures IsNearest(DocItems(space, query, index.Contents()), k, multiset(items))
  {
    hide Hnsw.Valid, Hnsw.Pristine, IsNearest, IsExactAnswer, DocItems, DocsOf;
    var hits, trace := index.Search(query, k);
    ExactIsNearest(space, index.Contents(), query, k, hits);
    items := HitItems(hits);
  }

  /** Every partition's search. */
  method SearchIndexes(indexes: map<Uuid, Hnsw>, space: Space, query: Vector, k: nat,
          ghost stored: map<Uuid, multiset<Item<Found>>>)
    returns (answers: Datasets.Answers)
    requires forall id :: id in indexes ==> AnswersExactly(indexes[id], space, k)
    requires stored.Keys == indexes.Keys
    requires forall id :: id in indexes ==> stored[id] == DocItems(space, query, indexes[id].Contents())
    ensures PartitionsAnswer(answers, stored, k) && forall id :: id in answers ==> answers[id].Some?
  {
    hide AnswersExactly, IsNearest, DocItems, DocsOf;
    answers := map[];
    var todo := indexes.Keys;
    while todo != {}
      invariant todo <= indexes.Keys && answers.Keys == indexes.Keys - todo
      invariant forall id :: id in answers ==>
                  answers[id].Some? && IsNearest(stored[id], k, multiset(answers[id].value))
      decreases todo
    {
      var id :| id in todo;
      todo := todo - {id};
      var items := SearchIndex(indexes[id], space, query, k);
      answers := answers[id := Some(items)];
    }
  }

  /** All partitions are known, and the nodes picked for them can be reached. */
  ghost predicate AllFound(partitions: seq<PartitionMeta>, nodes: seq<nat>, known: set<Uuid>, reachable: set<nat>)
    requires |nodes| == |partitions|
  {
    forall i :: 0 <= i < |partitions| ==> partitions[i].id in known && nodes[i] in reachable
  }

  /**
   * A query of the whole dataset against a comparison with everything stored. While nothing was removed from the
   * partitions and each of them fits into its search, an answer that is read promptly has exactly the scores of the
   * first k of the ranking of everything stored, whatever nodes are picked and in whatever order they reply. If,
   * moreover, the query is not cancelled, there is an answer exactly if its dimension is right, all partitions are
   * known and the nodes picked for them can be reached.
   */
  method SearchVsRanking(partitions: seq<PartitionMeta>, indexes: map<Uuid, Hnsw>, space: Space, query: Vector, k: nat,
          dimension: nat, picks: seq<nat>, reachable: set<nat>, timing: Timing,
          ghost stored: map<Uuid, multiset<Item<Found>>>, ghost ranking: SearchResult)
    returns (r: Outcome<Found>, ghost nodes: seq<nat>)
    requires |picks| == |partitions| && forall i :: 0 <= i < |picks| ==> picks[i] < |partitions[i].nodeIds|
    requires forall id :: id in indexes ==> AnswersExactly(indexes[id], space, k)
    requires stored.Keys == indexes.Keys
    requires forall id :: id in indexes ==> stored[id] == DocItems(space, query, indexes[id].Contents())
    requires InOrder(false, ranking) && multiset(ranking) == StoredIn(IdsOf(partitions), stored)
    ensures |nodes| == |partitions| && forall i :: 0 <= i < |nodes| ==> nodes[i] in partitions[i].nodeIds
    ensures timing.prompt && !timing.cancelled ==>
              (r.Answered? <==> |query| == dimension && AllFound(partitions, nodes, indexes.Keys, reachable))
    ensures r.Answered? ==> InOrder(false, r.items) && multiset(r.items) <= multiset(ranking)
    ensures r.Answered? && timing.prompt ==> Priorities(r.items) == Priorities(ranking[..Min(k, |ranking|)])
  {
    hide AnswersExactly, DocItems, DocsOf, InOrder, StoredIn, Priorities;
    var answers := SearchIndexes(indexes, space, query, k, stored);
    ghost var heard;
    r, nodes, heard := Search(partitions, dimension, query, picks, answers, reachable, k, timing, stored);
    if r.Answered? && timing.prompt {
      CutIsNearest(ranking, Min(k, |ranking|), k);
      NearestAgree(StoredIn(IdsOf(partitions), stored), k, r.items, ranking[..Min(k, |ranking|)]);
    }
  }
}
