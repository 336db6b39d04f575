/**
 * Insert-only runs: an index built by inserting n items, with n small enough for the bottom
 * level and the search beam, answers every query exactly as a comparison with all items would.
 */
module ExactRuns {
  import opened Common
  import opened Configs
  import opened Graphs
  import opened IndexTable
  import opened Answers
  import opened Insertion
  import opened Linking
  import opened Hnsws

  /** One call of Insert. */
  datatype Entry = Entry(id: Uuid, vector: Vector, metadata: Metadata, level: nat)

  ghost predicate DistinctEntries(items: seq<Entry>) {
    forall i, j :: 0 <= i < j < |items| ==> items[i].id != items[j].id
  }

  function DocsOfRun(items: seq<Entry>): map<Uuid, Doc> {
    if items == [] then map[]
    else
      var last := items[|items| - 1];
      DocsOfRun(items[..|items| - 1])[last.id := Doc(last.vector, last.metadata)]
  }

  lemma {:induction false} DocsOfRunKeys(items: seq<Entry>, id: Uuid)
    ensures id in DocsOfRun(items) <==> exists i :: 0 <= i < |items| && items[i].id == id
  {
    if items != [] {
      var init := items[..|items| - 1];
      DocsOfRunKeys(init, id);
      if id in DocsOfRun(init) {
        var i :| 0 <= i < |init| && init[i].id == id;
        assert items[i].id == id;
      }
      if i :| 0 <= i < |items| && items[i].id == id && i < |items| - 1 {
        assert init[i].id == id;
      }
    }
  }

  /** The next distinct item is new to the index. */
  lemma NextIsNew(items: seq<Entry>, i: nat)
    requires DistinctEntries(items) && i < |items|
    ensures items[i].id !in DocsOfRun(items[..i])
    ensures items[..i] + [items[i]] == items[..i + 1]
    ensures DocsOfRun(items[..i + 1]) == DocsOfRun(items[..i])[items[i].id := Doc(items[i].vector, items[i].metadata)]
  {
    DocsOfRunKeys(items[..i], items[i].id);
    assert items[..i + 1][..i] == items[..i];
    assert items[..i] + [items[i]] == items[..i + 1];
  }

  lemma RunGrows(done: seq<Entry>, item: Entry)
    ensures DocsOfRun(done + [item]) == DocsOfRun(done)[item.id := Doc(item.vector, item.metadata)]
  {
    assert (done + [item])[..|done|] == done;
  }

  lemma AllGrow(all: set<Vertex>, v: Vertex)
    requires v !in all
    ensures |all + {v}| == |all| + 1
  {}

  /** What building has established after the items of `done`. */
  ghost predicate Built(index: Hnsw, size: nat, space: Space, config: Config, done: seq<Entry>)
    reads index, index.all
  {
    && index.Valid() && index.Pristine()
    && index.space == space && index.config == config && index.size == size
    && index.Contents() == DocsOfRun(done) && |index.all| == |done|
  }

  /** Inserting a new id into a pristine index that is small enough leaves it pristine. */
  method InsertIntoPristine(index: Hnsw, item: Entry)
    requires index.Valid() && index.Pristine() && item.id !in index.table
    requires index.config.m > 0 && |index.all| <= index.config.mMax0
    modifies index, index.all
    ensures index.Valid() && index.Pristine()
    ensures index.space == old(index.space) && index.config == old(index.config) && index.size == old(index.size)
    ensures item.id in index.table && index.table[item.id] !in old(index.all) && fresh(index.table[item.id])
    ensures index.table == old(index.table)[item.id := index.table[item.id]]
    ensures index.table[item.id].vector == item.vector && index.table[item.id].metadata == item.metadata
    ensures index.all == old(index.all) + {index.table[item.id]}
  {
    hide Snap, WellFormed, DegreesOk, TableOk, CountsOk, ShardsOk, Symmetric, IsPristine, IsInserted;
    ghost var g0, all0, table0, entry0 := Snap(index.all), index.all, index.table, index.entrypoint;
    var err, course := index.Insert(item.id, item.vector, item.metadata, item.level);
    InsertKeepsPristine(index.config, index.space, all0, table0, entry0, g0, item.id, index.table[item.id], course,
                        index.entrypoint, Snap(index.all));
  }

  method InsertNew(index: Hnsw, item: Entry, ghost size: nat, ghost space: Space, ghost config: Config,
          ghost done: seq<Entry>)
    requires Built(index, size, space, config, done) && item.id !in DocsOfRun(done)
    requires config.m > 0 && |done| <= config.mMax0
    modifies index, index.all
    ensures Built(index, size, space, config, done + [item]) && fresh(index.all - old(index.all))
  {
    hide IndexOk, GraphOk, IsPristine, DocsOfRun, DocsOf, Shown, Hnsw.Valid;
    ghost var all0, table0 := index.all, index.table;
    DocsIds(table0);
    InsertIntoPristine(index, item);
    DocsAdd(table0, item.id, index.table[item.id]);
    AllGrow(all0, index.table[item.id]);
    RunGrows(done, item);
  }

  method StartRun(size: nat, space: Space, config: Config) returns (index: Hnsw)
    requires config.Supported() && Symmetric(space)
    ensures fresh(index) && fresh(index.all) && Built(index, size, space, config, [])
  {
    hide Snap, WellFormed, DegreesOk, TableOk, CountsOk, ShardsOk, Symmetric, DocsOf;
    index := new Hnsw(size, space, config);
  }

  method BuildIndex(size: nat, space: Space, config: Config, items: seq<Entry>) returns (index: Hnsw)
    requires config.Supported() && Symmetric(space)
    requires DistinctEntries(items) && config.m > 0 && |items| <= config.mMax0 + 1
    ensures fresh(index) && Built(index, size, space, config, items)
  {
    hide Built, DocsOfRun, DistinctEntries;
    index := StartRun(size, space, config);
    var i := 0;
    while i < |items|
      invariant i <= |items| && fresh(index) && fresh(index.all)
      invariant Built(index, size, space, config, items[..i])
    {
      NextIsNew(items, i);
      InsertNew(index, items[i], size, space, config, items[..i]);
      i := i + 1;
    }
    assert items[..i] == items;
  }

  lemma {:induction false} DocsOfRunSize(items: seq<Entry>)
    requires DistinctEntries(items)
    ensures |DocsOfRun(items)| == |items|
  {
    if items != [] {
      var init, last := items[..|items| - 1], items[|items| - 1];
      DocsOfRunSize(init);
      NextIsNew(items, |items| - 1);
      assert items[..|items|] == items;
      assert DocsOfRun(items).Keys == DocsOfRun(init).Keys + {last.id};
    }
  }

  /**
   * Build an index, search it, and compare with the ranking of all items by distance:
   * the hits have the distances of the k first of the ranking, in order.
   */
  method SearchVsBruteForce(size: nat, space: Space, config: Config, items: seq<Entry>, query: Vector, k: nat,
          ghost ranking: seq<Hit>)
    returns (result: seq<Hit>)
    requires config.Supported() && Symmetric(space)
    requires DistinctEntries(items) && config.m > 0 && |items| <= config.mMax0 + 1
    requires |items| <= Max(config.ef, k)
    requires IsExactAnswer(space, DocsOfRun(items), query, |items|, ranking)
    ensures IsExactAnswer(space, DocsOfRun(items), query, k, result)
    ensures |result| == Min(k, |items|) && |ranking| == |items|
    ensures forall i :: 0 <= i < |result| ==> result[i].score == ranking[i].score
  {
    hide Snap, WellFormed, DegreesOk, TableOk, CountsOk, ShardsOk, Symmetric, IsPristine, DocsOf, DistinctEntries;
    var index := BuildIndex(size, space, config, items);
    DocsOfRunSize(items);
    assert index.table.Keys == index.Contents().Keys;
    ghost var trace;
    result, trace := index.Search(query, k);
    ExactAnswerIsBruteForce(space, DocsOfRun(items), query, k, result, ranking);
  }
}
