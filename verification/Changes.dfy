/** What the changes of a partition make of what is stored, and what is answered: storage/partition.go. */
module Changes {
  import opened Common
  import opened Answers
  import opened Hnsws

  /** An item of a change. After unmarshalling, metadata that is empty is a nil map. */
  datatype BatchItem = BatchItem(id: Uuid, value: Vector, metadata: Metadata, level: nat)

  datatype Change =
    | InsertValue(item: BatchItem)
    | UpdateValue(item: BatchItem)
    | DeleteValue(item: BatchItem)
    | BatchInsertValue(items: seq<BatchItem>)
    | BatchUpdateValue(items: seq<BatchItem>)
    | BatchDeleteValue(items: seq<BatchItem>)

  /** What the proposer is told, or that the process dies on a write to a nil map. */
  datatype Answer = One(err: Option<Error>) | Many(errors: map<Uuid, Error>) | Panic

  type Docs = map<Uuid, Doc>

  datatype Kind = Inserts | Updates | Deletes

  // The meaning of changes, on what is stored alone

  /** The old metadata with the new put over it. */
  function Merged(before: Metadata, after: Metadata): Metadata { before + after }

  /** An update without metadata of an item that has some writes to a nil map. */
  predicate Panics(docs: Docs, kind: Kind, item: BatchItem) {
    kind.Updates? && item.id in docs && item.metadata == map[] && docs[item.id].metadata != map[]
  }

  function ErrorOf(docs: Docs, kind: Kind, item: BatchItem): Option<Error> {
    match kind
    case Inserts => if item.id in docs then Some(ItemAlreadyExistsError) else None
    case _ => if item.id in docs then None else Some(ItemNotFoundError)
  }

  /** What one item makes of what is stored, if the process survives it. */
  function After(docs: Docs, kind: Kind, item: BatchItem): Docs {
    if ErrorOf(docs, kind, item).Some? then docs
    else
      match kind
      case Inserts => docs[item.id := Doc(item.value, item.metadata)]
      case Updates => docs[item.id := Doc(item.value, Merged(docs[item.id].metadata, item.metadata))]
      case Deletes => docs - {item.id}
  }

  /** What a batch makes of what is stored, and the error of each id that had one; None if the process dies. */
  function AfterBatch(docs: Docs, kind: Kind, items: seq<BatchItem>): Option<(Docs, map<Uuid, Error>)> {
    if items == [] then Some((docs, map[]))
    else
      var before := AfterBatch(docs, kind, items[..|items| - 1]);
      var last := items[|items| - 1];
      if before.None? || Panics(before.value.0, kind, last) then None
      else
        Some((After(before.value.0, kind, last), ErrorsAfter(before.value.0, kind, last, before.value.1)))
  }

  /** The errors so far, with that of one more item. */
  function ErrorsAfter(docs: Docs, kind: Kind, item: BatchItem, errors: map<Uuid, Error>): map<Uuid, Error> {
    var err := ErrorOf(docs, kind, item);
    if err.Some? then errors[item.id := err.value] else errors
  }

  function KindOf(change: Change): Kind {
    match change
    case InsertValue(_) => Inserts
    case BatchInsertValue(_) => Inserts
    case UpdateValue(_) => Updates
    case BatchUpdateValue(_) => Updates
    case DeleteValue(_) => Deletes
    case BatchDeleteValue(_) => Deletes
  }

  predicate IsBatch(change: Change) {
    change.BatchInsertValue? || change.BatchUpdateValue? || change.BatchDeleteValue?
  }

  function AnswerTo(docs: Docs, change: Change): Answer {
    if IsBatch(change) then
      var r := AfterBatch(docs, KindOf(change), change.items);
      if r.None? then Panic else Many(r.value.1)
    else if Panics(docs, KindOf(change), change.item) then Panic
    else One(ErrorOf(docs, KindOf(change), change.item))
  }

  function DocsAfter(docs: Docs, change: Change): Docs
    requires AnswerTo(docs, change) != Panic
  {
    if IsBatch(change) then AfterBatch(docs, KindOf(change), change.items).value.0
    else After(docs, KindOf(change), change.item)
  }

  // Properties of the meaning

  /** What is stored is replaced, never lost: an update keeps all ids, and all metadata keys of its item. */
  lemma UpdateKeepsIds(docs: Docs, item: BatchItem)
    requires !Panics(docs, Updates, item)
    ensures After(docs, Updates, item).Keys == docs.Keys
    ensures item.id in docs ==>
              var merged := After(docs, Updates, item)[item.id].metadata;
              && merged.Keys == docs[item.id].metadata.Keys + item.metadata.Keys
              && (forall k :: k in item.metadata ==> merged[k] == item.metadata[k])
              && (forall k :: k in docs[item.id].metadata && k !in item.metadata ==>
                    merged[k] == docs[item.id].metadata[k])
  {}

  function Single(kind: Kind, item: BatchItem): Change {
    match kind
    case Inserts => InsertValue(item)
    case Updates => UpdateValue(item)
    case Deletes => DeleteValue(item)
  }

  function Singles(kind: Kind, items: seq<BatchItem>): seq<Change> {
    if items == [] then [] else Singles(kind, items[..|items| - 1]) + [Single(kind, items[|items| - 1])]
  }

  /** What a log of changes makes of what is stored; None if the process dies on the way. */
  function Replayed(docs: Docs, log: seq<Change>): Option<Docs> {
    if log == [] then Some(docs)
    else
      var before := Replayed(docs, log[..|log| - 1]);
      if before.None? || AnswerTo(before.value, log[|log| - 1]) == Panic then None
      else Some(DocsAfter(before.value, log[|log| - 1]))
  }

  /** A batch stores what its items would have stored as single changes, one after the other. */
  lemma {:induction false} BatchIsFold(docs: Docs, kind: Kind, items: seq<BatchItem>)
    ensures AfterBatch(docs, kind, items).Some? <==> Replayed(docs, Singles(kind, items)).Some?
    ensures AfterBatch(docs, kind, items).Some? ==>
              AfterBatch(docs, kind, items).value.0 == Replayed(docs, Singles(kind, items)).value
  {
    if items != [] {
      BatchIsFold(docs, kind, items[..|items| - 1]);
      var singles := Singles(kind, items);
      assert singles[..|singles| - 1] == Singles(kind, items[..|items| - 1]);
    }
  }

  /** The errors of a batch: an id has one exactly if one of its items failed, and it is the last of them. */
  lemma {:induction false} BatchErrors(docs: Docs, kind: Kind, items: seq<BatchItem>, id: Uuid)
    requires AfterBatch(docs, kind, items).Some?
    ensures id in AfterBatch(docs, kind, items).value.1 <==>
            exists i :: 0 <= i < |items| && items[i].id == id && FailsAt(docs, kind, items, i)
    ensures id in AfterBatch(docs, kind, items).value.1 ==>
              AfterBatch(docs, kind, items).value.1[id] ==
              if kind.Inserts? then ItemAlreadyExistsError else ItemNotFoundError
  {
    if items != [] {
      var init, n := items[..|items| - 1], |items| - 1;
      BatchErrors(docs, kind, init, id);
      forall i | 0 <= i < n ensures FailsAt(docs, kind, init, i) == FailsAt(docs, kind, items, i) {
        assert init[..i] == items[..i];
      }
      assert items[..n] == init;
      if id in AfterBatch(docs, kind, init).value.1 {
        var i :| 0 <= i < |init| && init[i].id == id && FailsAt(docs, kind, init, i);
        assert items[i].id == id && FailsAt(docs, kind, items, i);
      }
      if i :| 0 <= i < |items| && items[i].id == id && FailsAt(docs, kind, items, i) && i < n {
        assert init[i].id == id && FailsAt(docs, kind, init, i);
      }
    }
  }

  /** The item fails on what the items before it left. */
  predicate FailsAt(docs: Docs, kind: Kind, items: seq<BatchItem>, i: int) {
    && 0 <= i < |items|
    && AfterBatch(docs, kind, items[..i]).Some?
    && ErrorOf(AfterBatch(docs, kind, items[..i]).value.0, kind, items[i]).Some?
  }

  // What a change comes to, said of its items alone

  function ListedIds(items: seq<BatchItem>): set<Uuid> {
    set i | 0 <= i < |items| :: items[i].id
  }

  ghost predicate IsRepeated(items: seq<BatchItem>, id: Uuid) {
    exists i, j :: 0 <= i < j < |items| && items[i].id == id && items[j].id == id
  }

  /** Every listed id is stored, a new one with what its first item carries; what was stored is as it was. */
  ghost predicate AllInserted(docs: Docs, items: seq<BatchItem>, after: Docs) {
    && after.Keys == docs.Keys + ListedIds(items)
    && (forall id :: id in docs ==> after[id] == docs[id])
    && forall i :: 0 <= i < |items| && items[i].id !in docs && items[i].id !in ListedIds(items[..i]) ==>
         after[items[i].id] == Doc(items[i].value, items[i].metadata)
  }

  /** The ids that were stored already, and those listed twice. */
  ghost predicate InsertErrors(docs: Docs, items: seq<BatchItem>, errors: map<Uuid, Error>) {
    && (forall id :: id in errors <==> id in ListedIds(items) && (id in docs || IsRepeated(items, id)))
    && forall id :: id in errors ==> errors[id] == ItemAlreadyExistsError
  }

  /** None of the listed ids is stored; what else was stored is as it was. */
  ghost predicate AllDeleted(docs: Docs, items: seq<BatchItem>, after: Docs) {
    && (forall id :: id in after <==> id in docs && id !in ListedIds(items))
    && forall id :: id in after ==> after[id] == docs[id]
  }

  /** The ids that were not stored, and those listed twice. */
  ghost predicate DeleteErrors(docs: Docs, items: seq<BatchItem>, errors: map<Uuid, Error>) {
    && (forall id :: id in errors <==> id in ListedIds(items) && (id !in docs || IsRepeated(items, id)))
    && forall id :: id in errors ==> errors[id] == ItemNotFoundError
  }

  /** The last item with this id and a value for this key. */
  ghost predicate IsLastValue(items: seq<BatchItem>, id: Uuid, k: Bytes, i: nat) {
    && i < |items| && items[i].id == id && k in items[i].metadata
    && forall j :: i < j < |items| && items[j].id == id ==> k !in items[j].metadata
  }

  /** The metadata under k is that of the last item that has some, or else what it was. */
  ghost predicate IsMerged(before: Metadata, items: seq<BatchItem>, id: Uuid, k: Bytes, after: Metadata) {
    && (forall i: nat :: IsLastValue(items, id, k, i) ==> k in after && after[k] == items[i].metadata[k])
    && ((forall i :: 0 <= i < |items| && items[i].id == id ==> k !in items[i].metadata) ==>
          (k in after <==> k in before) && (k in before ==> after[k] == before[k]))
  }

  /** The same ids are stored, those listed with the vector of their last item and all metadata merged. */
  ghost predicate AllUpdated(docs: Docs, items: seq<BatchItem>, after: Docs) {
    && after.Keys == docs.Keys
    && (forall id :: id in docs && id !in ListedIds(items) ==> after[id] == docs[id])
    && (forall i :: 0 <= i < |items| && items[i].id in docs && items[i].id !in ListedIds(items[i + 1..]) ==>
          after[items[i].id].vector == items[i].value)
    && forall id, k :: id in docs ==> IsMerged(docs[id].metadata, items, id, k, after[id].metadata)
  }

  /** The ids that were not stored. */
  ghost predicate UpdateErrors(docs: Docs, items: seq<BatchItem>, errors: map<Uuid, Error>) {
    && (forall id :: id in errors <==> id in ListedIds(items) && id !in docs)
    && forall id :: id in errors ==> errors[id] == ItemNotFoundError
  }

  /** The i-th item carries no metadata, and is to update one that has some, be it from an earlier item. */
  ghost predicate DiesAt(docs: Docs, items: seq<BatchItem>, i: nat) {
    && i < |items| && items[i].id in docs && items[i].metadata == map[]
    && (docs[items[i].id].metadata != map[] ||
        exists j :: 0 <= j < i && items[j].id == items[i].id && items[j].metadata != map[])
  }

  ghost predicate Dies(docs: Docs, items: seq<BatchItem>) {
    exists i: nat :: DiesAt(docs, items, i)
  }

  /** What the proposer is told of a change, and what is stored after it, if the process survives it. */
  ghost predicate IsOutcome(docs: Docs, change: Change, answer: Answer, after: Docs) {
    match change
    case InsertValue(item) =>
      && answer == One(if item.id in docs then Some(ItemAlreadyExistsError) else None)
      && AllInserted(docs, [item], after)
    case UpdateValue(item) =>
      if Dies(docs, [item]) then answer == Panic
      else
        && answer == One(if item.id in docs then None else Some(ItemNotFoundError))
        && AllUpdated(docs, [item], after)
    case DeleteValue(item) =>
      && answer == One(if item.id in docs then None else Some(ItemNotFoundError))
      && AllDeleted(docs, [item], after)
    case BatchInsertValue(items) =>
      answer.Many? && InsertErrors(docs, items, answer.errors) && AllInserted(docs, items, after)
    case BatchUpdateValue(items) =>
      if Dies(docs, items) then answer == Panic
      else answer.Many? && UpdateErrors(docs, items, answer.errors) && AllUpdated(docs, items, after)
    case BatchDeleteValue(items) =>
      answer.Many? && DeleteErrors(docs, items, answer.errors) && AllDeleted(docs, items, after)
  }

  lemma ListedMore(items: seq<BatchItem>)
    requires items != []
    ensures ListedIds(items) == ListedIds(items[..|items| - 1]) + {items[|items| - 1].id}
    ensures forall id :: IsRepeated(items, id) <==>
                         IsRepeated(items[..|items| - 1], id)
                         || (id == items[|items| - 1].id && id in ListedIds(items[..|items| - 1]))
  {
    var init, last := items[..|items| - 1], items[|items| - 1];
    forall id ensures id in ListedIds(items) <==> id in ListedIds(init) + {last.id} {
      if id in ListedIds(init) {
        var i :| 0 <= i < |init| && init[i].id == id;
        assert items[i].id == id;
      }
    }
    forall id ensures IsRepeated(items, id) <==> IsRepeated(init, id) || (id == last.id && id in ListedIds(init)) {
      if i, j :| 0 <= i < j < |items| && items[i].id == id && items[j].id == id {
        assert init[i].id == id;
        assert j < |init| ==> init[j].id == id;
      }
      if i, j :| 0 <= i < j < |init| && init[i].id == id && init[j].id == id {
        assert items[i].id == id && items[j].id == id;
      }
      if i :| id == last.id && 0 <= i < |init| && init[i].id == id {
        assert items[i].id == id && items[|items| - 1].id == id;
      }
    }
  }

  lemma IsListed(items: seq<BatchItem>, i: nat)
    requires i < |items|
    ensures items[i].id in ListedIds(items)
  {}

  lemma RepeatedIsListed(items: seq<BatchItem>, id: Uuid)
    ensures IsRepeated(items, id) ==> id in ListedIds(items)
  {}

  lemma InsertedNext(docs: Docs, items: seq<BatchItem>, mid: Docs)
    requires items != [] && AllInserted(docs, items[..|items| - 1], mid)
    ensures AllInserted(docs, items, After(mid, Inserts, items[|items| - 1]))
  {
    hide ListedIds, IsRepeated;
    var init, n := items[..|items| - 1], |items| - 1;
    ListedMore(items);
    var after := After(mid, Inserts, items[n]);
    forall i | 0 <= i < |items| && items[i].id !in docs && items[i].id !in ListedIds(items[..i])
      ensures items[i].id in after && after[items[i].id] == Doc(items[i].value, items[i].metadata)
    {
      if i < n {
        IsListed(init, i);
        assert items[..i] == init[..i] && items[i] == init[i] && items[i].id !in ListedIds(init[..i]);
      } else {
        assert items[..i] == init;
      }
    }
  }

  lemma InsertErrorsNext(docs: Docs, items: seq<BatchItem>, mid: Docs, errors: map<Uuid, Error>)
    requires items != [] && AllInserted(docs, items[..|items| - 1], mid)
    requires InsertErrors(docs, items[..|items| - 1], errors)
    ensures InsertErrors(docs, items, ErrorsAfter(mid, Inserts, items[|items| - 1], errors))
  {
    hide ListedIds, IsRepeated;
    ListedMore(items);
    var after := ErrorsAfter(mid, Inserts, items[|items| - 1], errors);
    forall id ensures id in after <==> id in ListedIds(items) && (id in docs || IsRepeated(items, id)) {
      RepeatedIsListed(items[..|items| - 1], id);
    }
  }

  /** What inserting a list of items comes to. */
  lemma {:induction false} InsertsCome(docs: Docs, items: seq<BatchItem>)
    ensures AfterBatch(docs, Inserts, items).Some?
    ensures AllInserted(docs, items, AfterBatch(docs, Inserts, items).value.0)
    ensures InsertErrors(docs, items, AfterBatch(docs, Inserts, items).value.1)
  {
    hide AllInserted, InsertErrors;
    if items == [] {
      NothingComes(docs);
    } else {
      InsertsCome(docs, items[..|items| - 1]);
      var mid := AfterBatch(docs, Inserts, items[..|items| - 1]).value;
      InsertedNext(docs, items, mid.0);
      InsertErrorsNext(docs, items, mid.0, mid.1);
    }
  }

  lemma NothingComes(docs: Docs)
    ensures AllInserted(docs, [], docs) && InsertErrors(docs, [], map[])
    ensures AllDeleted(docs, [], docs) && DeleteErrors(docs, [], map[])
    ensures AllUpdated(docs, [], docs) && UpdateErrors(docs, [], map[]) && !Dies(docs, [])
  {}

  lemma DeletedNext(docs: Docs, items: seq<BatchItem>, mid: Docs)
    requires items != [] && AllDeleted(docs, items[..|items| - 1], mid)
    ensures AllDeleted(docs, items, After(mid, Deletes, items[|items| - 1]))
  {
    hide ListedIds, IsRepeated;
    ListedMore(items);
  }

  lemma DeleteErrorsNext(docs: Docs, items: seq<BatchItem>, mid: Docs, errors: map<Uuid, Error>)
    requires items != [] && AllDeleted(docs, items[..|items| - 1], mid)
    requires DeleteErrors(docs, items[..|items| - 1], errors)
    ensures DeleteErrors(docs, items, ErrorsAfter(mid, Deletes, items[|items| - 1], errors))
  {
    hide ListedIds, IsRepeated;
    ListedMore(items);
    var after := ErrorsAfter(mid, Deletes, items[|items| - 1], errors);
    forall id ensures id in after <==> id in ListedIds(items) && (id !in docs || IsRepeated(items, id)) {
      RepeatedIsListed(items[..|items| - 1], id);
    }
  }

  /** What deleting a list of items comes to. */
  lemma {:induction false} DeletesCome(docs: Docs, items: seq<BatchItem>)
    ensures AfterBatch(docs, Deletes, items).Some?
    ensures AllDeleted(docs, items, AfterBatch(docs, Deletes, items).value.0)
    ensures DeleteErrors(docs, items, AfterBatch(docs, Deletes, items).value.1)
  {
    hide AllDeleted, DeleteErrors;
    if items == [] {
      NothingComes(docs);
    } else {
      DeletesCome(docs, items[..|items| - 1]);
      var mid := AfterBatch(docs, Deletes, items[..|items| - 1]).value;
      DeletedNext(docs, items, mid.0);
      DeleteErrorsNext(docs, items, mid.0, mid.1);
    }
  }

  lemma LastValueNext(items: seq<BatchItem>, id: Uuid, k: Bytes, i: nat)
    requires items != []
    ensures var n := |items| - 1;
            IsLastValue(items, id, k, i) <==>
            if items[n].id == id && k in items[n].metadata then i == n else IsLastValue(items[..n], id, k, i)
  {
    var n := |items| - 1;
    var init := items[..n];
    assert forall j :: 0 <= j < n ==> init[j] == items[j];
    if IsLastValue(items, id, k, i) && i < n {
      assert items[n].id == id ==> k !in items[n].metadata;
    }
  }

  lemma MergedNext(before: Metadata, items: seq<BatchItem>, id: Uuid, k: Bytes, mid: Metadata, after: Metadata)
    requires items != [] && IsMerged(before, items[..|items| - 1], id, k, mid)
    requires after == if items[|items| - 1].id == id then Merged(mid, items[|items| - 1].metadata) else mid
    ensures IsMerged(before, items, id, k, after)
  {
    hide IsLastValue;
    var n := |items| - 1;
    var init := items[..n];
    forall i: nat ensures IsLastValue(items, id, k, i) ==> k in after && i < |items| && k in items[i].metadata
                                                            && after[k] == items[i].metadata[k] {
      LastValueNext(items, id, k, i);
      LastValueHas(items, id, k, i);
      LastValueHas(init, id, k, i);
    }
    if forall i :: 0 <= i < |items| && items[i].id == id ==> k !in items[i].metadata {
      forall i | 0 <= i < n && init[i].id == id ensures k !in init[i].metadata {
        assert items[i] == init[i];
      }
      assert items[n].id == id ==> k !in items[n].metadata;
    }
  }

  lemma LastValueHas(items: seq<BatchItem>, id: Uuid, k: Bytes, i: nat)
    ensures IsLastValue(items, id, k, i) ==> i < |items| && k in items[i].metadata
  {}

  lemma ListedAfter(items: seq<BatchItem>, i: nat)
    requires i + 1 < |items|
    ensures ListedIds(items[i + 1..]) == ListedIds(items[..|items| - 1][i + 1..]) + {items[|items| - 1].id}
  {
    ListedMore(items[i + 1..]);
    assert items[i + 1..][..|items| - i - 2] == items[..|items| - 1][i + 1..];
  }

  lemma UpdatedNext(docs: Docs, items: seq<BatchItem>, mid: Docs)
    requires items != [] && AllUpdated(docs, items[..|items| - 1], mid)
    ensures AllUpdated(docs, items, After(mid, Updates, items[|items| - 1]))
  {
    hide ListedIds, IsRepeated, IsMerged, Merged;
    var init, n := items[..|items| - 1], |items| - 1;
    var last := items[n];
    var after := After(mid, Updates, last);
    ListedMore(items);
    forall i | 0 <= i < |items| && items[i].id in docs && items[i].id !in ListedIds(items[i + 1..])
      ensures after[items[i].id].vector == items[i].value
    {
      if i < n {
        ListedAfter(items, i);
        assert init[i] == items[i] && init[i].id !in ListedIds(init[i + 1..]);
      }
    }
    forall id, k | id in docs ensures IsMerged(docs[id].metadata, items, id, k, after[id].metadata) {
      MergedNext(docs[id].metadata, items, id, k, mid[id].metadata, after[id].metadata);
    }
  }

  lemma UpdateErrorsNext(docs: Docs, items: seq<BatchItem>, mid: Docs, errors: map<Uuid, Error>)
    requires items != [] && AllUpdated(docs, items[..|items| - 1], mid)
    requires UpdateErrors(docs, items[..|items| - 1], errors)
    ensures UpdateErrors(docs, items, ErrorsAfter(mid, Updates, items[|items| - 1], errors))
  {
    hide ListedIds, IsRepeated, IsMerged;
    ListedMore(items);
  }

  lemma {:induction false} LastValueExists(items: seq<BatchItem>, id: Uuid, k: Bytes, i: nat) returns (j: nat)
    requires i < |items| && items[i].id == id && k in items[i].metadata
    ensures IsLastValue(items, id, k, j)
    decreases |items| - i
  {
    if l :| i < l < |items| && items[l].id == id && k in items[l].metadata {
      j := LastValueExists(items, id, k, l);
    } else {
      j := i;
    }
  }

  lemma NotEmpty(m: Metadata) returns (k: Bytes)
    requires m != map[]
    ensures k in m
  {
    assert m.Keys != {};
    k :| k in m;
  }

  /** An id has metadata after some updates exactly if it had before, or one of the items has. */
  lemma HasMetadata(docs: Docs, items: seq<BatchItem>, mid: Docs, id: Uuid)
    requires AllUpdated(docs, items, mid) && id in docs
    ensures mid[id].metadata != map[] <==>
              || docs[id].metadata != map[]
              || exists j :: 0 <= j < |items| && items[j].id == id && items[j].metadata != map[]
  {
    hide IsLastValue;
    if j :| 0 <= j < |items| && items[j].id == id && items[j].metadata != map[] {
      var k := NotEmpty(items[j].metadata);
      var l := LastValueExists(items, id, k, j);
      assert IsMerged(docs[id].metadata, items, id, k, mid[id].metadata);
    } else {
      forall k ensures k in mid[id].metadata <==> k in docs[id].metadata {
        assert IsMerged(docs[id].metadata, items, id, k, mid[id].metadata);
      }
      if docs[id].metadata != map[] {
        var k := NotEmpty(docs[id].metadata);
        assert k in mid[id].metadata;
      }
    }
  }

  lemma DiesNext(docs: Docs, items: seq<BatchItem>)
    requires items != []
    ensures Dies(docs, items) <==> Dies(docs, items[..|items| - 1]) || DiesAt(docs, items, |items| - 1)
  {
    var init, n := items[..|items| - 1], |items| - 1;
    forall i: nat | i < n ensures DiesAt(docs, items, i) <==> DiesAt(docs, init, i) {
      assert forall j :: 0 <= j <= i ==> init[j] == items[j];
    }
    if i: nat :| DiesAt(docs, items, i) {
      assert i == n || DiesAt(docs, init, i);
    }
    if i: nat :| DiesAt(docs, init, i) {
      assert DiesAt(docs, items, i);
    }
  }

  lemma DiesIfPanics(docs: Docs, items: seq<BatchItem>, mid: Docs)
    requires items != [] && AllUpdated(docs, items[..|items| - 1], mid)
    ensures Panics(mid, Updates, items[|items| - 1]) <==> DiesAt(docs, items, |items| - 1)
  {
    var init, last := items[..|items| - 1], items[|items| - 1];
    assert forall j :: 0 <= j < |init| ==> init[j] == items[j];
    if last.id in docs {
      HasMetadata(docs, init, mid, last.id);
    }
  }

  /** What updating a list of items comes to. */
  lemma {:induction false} UpdatesCome(docs: Docs, items: seq<BatchItem>)
    ensures AfterBatch(docs, Updates, items).None? <==> Dies(docs, items)
    ensures !Dies(docs, items) ==> AllUpdated(docs, items, AfterBatch(docs, Updates, items).value.0)
    ensures !Dies(docs, items) ==> UpdateErrors(docs, items, AfterBatch(docs, Updates, items).value.1)
  {
    hide AllUpdated, UpdateErrors, Dies, DiesAt, After, Panics;
    if items == [] {
      NothingComes(docs);
    } else {
      UpdatesCome(docs, items[..|items| - 1]);
      DiesNext(docs, items);
      if !Dies(docs, items[..|items| - 1]) {
        var mid := AfterBatch(docs, Updates, items[..|items| - 1]).value;
        DiesIfPanics(docs, items, mid.0);
        UpdatedNext(docs, items, mid.0);
        UpdateErrorsNext(docs, items, mid.0, mid.1);
      }
    }
  }

  lemma OneItem(docs: Docs, kind: Kind, item: BatchItem)
    ensures AfterBatch(docs, kind, [item]).None? <==> Panics(docs, kind, item)
    ensures !Panics(docs, kind, item) ==> AfterBatch(docs, kind, [item]).value.0 == After(docs, kind, item)
  {
    assert [item][..0] == [];
  }

  /** Every change has the outcome that is stated of its items. */
  lemma ChangeComesTo(docs: Docs, change: Change, after: Docs)
    requires AnswerTo(docs, change) != Panic ==> after == DocsAfter(docs, change)
    ensures IsOutcome(docs, change, AnswerTo(docs, change), after)
  {
    hide AllInserted, InsertErrors, AllDeleted, DeleteErrors, AllUpdated, UpdateErrors, Dies, AfterBatch, After;
    match change
    case InsertValue(item) =>
      InsertsCome(docs, [item]);
      OneItem(docs, Inserts, item);
    case UpdateValue(item) =>
      UpdatesCome(docs, [item]);
      OneItem(docs, Updates, item);
    case DeleteValue(item) =>
      DeletesCome(docs, [item]);
      OneItem(docs, Deletes, item);
    case BatchInsertValue(items) => InsertsCome(docs, items);
    case BatchUpdateValue(items) => UpdatesCome(docs, items);
    case BatchDeleteValue(items) => DeletesCome(docs, items);
  }
}
