/** The state machine of a partition, replicated by Raft: storage/partition.go. */
module Partitions {
  import opened Common
  import opened Graphs
  import opened IndexTable
  import opened Answers
  import opened Hnsws
  import opened Changes

  // The changes, carried out on the index

  /** Keys of the old metadata that the new does not have are put into the new, unless that is a nil map. */
  method MergeMetadata(before: Metadata, after: Metadata) returns (merged: Option<Metadata>)
    ensures merged == if after == map[] && before != map[] then None else Some(Merged(before, after))
  {
    var metadata, isNil := after, after == map[];
    var todo := before.Keys;
    assert (before - todo) + after == after && before - {} == before;
    while todo != {}
      invariant todo <= before.Keys && metadata == (before - todo) + after
      invariant isNil ==> todo == before.Keys
      decreases todo
    {
      var k :| k in todo;
      if k !in metadata {
        if isNil {
          return None;
        }
        metadata := metadata[k := before[k]];
      }
      todo := todo - {k};
    }
    merged := Some(metadata);
  }

  method InsertOne(index: Hnsw, item: BatchItem) returns (err: Option<Error>)
    requires index.Valid()
    modifies index, index.all
    ensures index.Valid() && fresh(index.all - old(index.all))
    ensures err == ErrorOf(old(index.Contents()), Inserts, item)
    ensures index.Contents() == After(old(index.Contents()), Inserts, item)
    ensures err.None? ==>
              && item.id in index.table
              && index.table[item.id].level == if old(index.entrypoint) == null then 0 else item.level
  {
    hide Hnsw.Valid, Hnsw.Inserted, DocsOf, Snap;
    ghost var table := index.table;
    DocsIds(table);
    ghost var course;
    err, course := index.Insert(item.id, item.value, item.metadata, item.level);
    if err.None? {
      DocsAdd(table, item.id, index.table[item.id]);
    }
  }

  method DeleteOne(index: Hnsw, id: Uuid) returns (err: Option<Error>)
    requires index.Valid()
    modifies index, index.all
    ensures index.Valid() && index.all == old(index.all)
    ensures err == if id in old(index.Contents()) then None else Some(ItemNotFoundError)
    ensures index.Contents() == old(index.Contents()) - {id}
  {
    hide Hnsw.Valid, Hnsw.Removed, DocsOf, Snap;
    ghost var table := index.table;
    DocsIds(table);
    DocsRemove(table, id);
    ghost var at;
    err, at := index.Remove(id);
    if err.Some? {
      assert table - {id} == table;
    }
  }

  /** Remove and insert again, with the same level request; metadata is merged. */
  method UpdateOne(index: Hnsw, item: BatchItem) returns (dead: bool, err: Option<Error>)
    requires index.Valid()
    modifies index, index.all
    ensures index.Valid() && fresh(index.all - old(index.all))
    ensures dead <==> Panics(old(index.Contents()), Updates, item)
    ensures !dead ==> err == ErrorOf(old(index.Contents()), Updates, item)
    ensures !dead ==> index.Contents() == After(old(index.Contents()), Updates, item)
    ensures !dead && err.None? ==>
              && item.id in old(index.table) && item.id in index.table
              && (index.table[item.id].level == old(index.table)[item.id].level || index.table[item.id].level == 0)
  {
    hide Hnsw.Valid, DocsOf, Snap;
    ghost var docs := index.Contents();
    StoredDoc(index.table, item.id);
    dead, err := false, None;
    var vertex := index.GetVertex(item.id);
    if vertex == null {
      err := Some(ItemNotFoundError);
      return;
    }
    err := DeleteOne(index, item.id);
    if err.Some? {
      return;
    }
    var metadata := MergeMetadata(vertex.metadata, item.metadata);
    if metadata.None? {
      dead := true;
      return;
    }
    err := InsertOne(index, BatchItem(item.id, item.value, metadata.value, vertex.level));
  }

  lemma StoredDoc(table: Table, id: Uuid)
    ensures id in DocsOf(table) <==> id in table
    ensures id in table ==> DocsOf(table)[id] == Doc(table[id].vector, table[id].metadata)
  {}

  /** One item of a change of the given kind. */
  method ProcessItem(index: Hnsw, kind: Kind, item: BatchItem) returns (dead: bool, err: Option<Error>)
    requires index.Valid()
    modifies index, index.all
    ensures index.Valid() && fresh(index.all - old(index.all))
    ensures dead <==> Panics(old(index.Contents()), kind, item)
    ensures !dead ==> err == ErrorOf(old(index.Contents()), kind, item)
    ensures !dead ==> index.Contents() == After(old(index.Contents()), kind, item)
  {
    hide Hnsw.Valid, Hnsw.Contents;
    dead := false;
    match kind
    case Inserts => err := InsertOne(index, item);
    case Updates => dead, err := UpdateOne(index, item);
    case Deletes => err := DeleteOne(index, item.id);
  }

  /** The items of a batch, one after the other; errors are collected by id. */
  method ProcessBatch(index: Hnsw, kind: Kind, items: seq<BatchItem>) returns (dead: bool, errors: map<Uuid, Error>)
    requires index.Valid()
    modifies index, index.all
    ensures index.Valid() && fresh(index.all - old(index.all))
    ensures dead <==> AfterBatch(old(index.Contents()), kind, items).None?
    ensures !dead ==> AfterBatch(old(index.Contents()), kind, items) == Some((index.Contents(), errors))
  {
    hide Hnsw.Valid, Hnsw.Contents, After, Panics, ErrorOf;
    errors := map[];
    ghost var docs := index.Contents();
    for i := 0 to |items|
      invariant index.Valid() && fresh(index.all - old(index.all))
      invariant AfterBatch(docs, kind, items[..i]) == Some((index.Contents(), errors))
    {
      BatchStep(docs, kind, items, i);
      var err;
      dead, err := ProcessItem(index, kind, items[i]);
      if dead {
        BatchDies(docs, kind, items, i + 1);
        return;
      }
      if err.Some? {
        errors := errors[items[i].id := err.value];
      }
    }
    dead := false;
    assert items[..|items|] == items;
  }

  lemma BatchStep(docs: Docs, kind: Kind, items: seq<BatchItem>, i: nat)
    requires i < |items|
    ensures items[..i + 1][..i] == items[..i] && items[..i + 1][i] == items[i]
  {}

  lemma {:induction false} BatchDies(docs: Docs, kind: Kind, items: seq<BatchItem>, i: nat)
    requires i <= |items| && AfterBatch(docs, kind, items[..i]).None?
    ensures AfterBatch(docs, kind, items).None?
    decreases |items| - i
  {
    if i < |items| {
      assert items[..i + 1][..i] == items[..i];
      BatchDies(docs, kind, items, i + 1);
    } else {
      assert items[..i] == items;
    }
  }

  /** process: what is stored afterwards, and the answer, depend only on what was stored and on the change. */
  method Process(index: Hnsw, change: Change) returns (answer: Answer)
    requires index.Valid()
    modifies index, index.all
    ensures index.Valid() && fresh(index.all - old(index.all))
    ensures answer == AnswerTo(old(index.Contents()), change)
    ensures answer != Panic ==> index.Contents() == DocsAfter(old(index.Contents()), change)
    ensures IsOutcome(old(index.Contents()), change, answer, index.Contents())
  {
    hide Hnsw.Valid, Hnsw.Contents, AfterBatch, After, Panics, ErrorOf, IsOutcome;
    ghost var docs := index.Contents();
    if IsBatch(change) {
      var dead, errors := ProcessBatch(index, KindOf(change), change.items);
      answer := if dead then Panic else Many(errors);
    } else {
      var dead, err := ProcessItem(index, KindOf(change), change.item);
      answer := if dead then Panic else One(err);
    }
    ChangeComesTo(docs, change, index.Contents());
  }

  /** Two replicas that process the same log store the same and give the same answers. */
  method ProcessLog(index: Hnsw, log: seq<Change>) returns (answers: seq<Answer>)
    requires index.Valid() && Replayed(index.Contents(), log).Some?
    modifies index, index.all
    ensures index.Valid() && index.Contents() == Replayed(old(index.Contents()), log).value
    ensures |answers| == |log|
    ensures forall i :: 0 <= i < |log| ==>
              Replayed(old(index.Contents()), log[..i]).Some?
              && answers[i] == AnswerTo(Replayed(old(index.Contents()), log[..i]).value, log[i])
  {
    hide Hnsw.Valid, Hnsw.Contents, AnswerTo, DocsAfter, IsOutcome;
    answers := [];
    ghost var docs := index.Contents();
    for i := 0 to |log|
      invariant index.Valid() && fresh(index.all - old(index.all)) && |answers| == i
      invariant Replayed(docs, log[..i]) == Some(index.Contents())
      invariant forall j :: 0 <= j < i ==>
                  Replayed(docs, log[..j]).Some? && answers[j] == AnswerTo(Replayed(docs, log[..j]).value, log[j])
    {
      SurvivesPrefix(docs, log, i + 1);
      assert log[..i + 1][..i] == log[..i];
      var answer := Process(index, log[i]);
      answers := answers + [answer];
    }
    assert log[..|log|] == log;
  }

  lemma {:induction false} SurvivesPrefix(docs: Docs, log: seq<Change>, i: nat)
    requires i <= |log| && Replayed(docs, log).Some?
    ensures Replayed(docs, log[..i]).Some?
    decreases |log| - i
  {
    if i < |log| {
      SurvivesPrefix(docs, log, i + 1);
      assert log[..i + 1][..i] == log[..i];
    } else {
      assert log[..i] == log;
    }
  }
}
