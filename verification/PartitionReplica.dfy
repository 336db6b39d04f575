/**
 * A replicated partition: the Raft group's machine is a partition's contents, its snapshots are what the index saves,
 * and recovery rebuilds an index.
 */
module PartitionReplicas {
  import opened Common
  import opened Uuids
  import opened Configs
  import opened Graphs
  import opened Insertion
  import opened IndexTable
  import opened IndexBodies
  import opened IndexLoading
  import opened Answers
  import opened Hnsws
  import opened Persistence
  import opened RoundTrips
  import opened PartitionRestarts
  import opened Changes
  import opened Partitions
  import opened UniqueCodes
  import opened WalLogs
  import opened WalStores
  import opened Wals
  import opened RaftGroups

  // What stored bytes stand for

  function ItemsDocs(xs: seq<VertexItem>): Docs {
    if xs == [] then map[]
    else
      var last := xs[|xs| - 1];
      ItemsDocs(xs[..|xs| - 1])[last.id := Doc(last.vector, M.AsMetadata(last.kvs))]
  }

  function ShardsDocs(shards: seq<seq<VertexItem>>): Docs {
    if shards == [] then map[] else ShardsDocs(shards[..|shards| - 1]) + ItemsDocs(shards[|shards| - 1])
  }

  lemma {:induction false} ItemsDocsKeys(xs: seq<VertexItem>)
    ensures ItemsDocs(xs).Keys == ItemIds(xs)
  {
    if xs == [] {
      assert ItemIds(xs) == {};
    } else {
      ItemsDocsKeys(xs[..|xs| - 1]);
      ItemIdsNext(xs[..|xs| - 1], xs[|xs| - 1]);
      assert xs == xs[..|xs| - 1] + [xs[|xs| - 1]];
    }
  }

  lemma {:induction false} ItemsDocsAt(xs: seq<VertexItem>, i: nat)
    requires IndexBodies.DistinctIds(xs) && i < |xs|
    ensures xs[i].id in ItemsDocs(xs) && ItemsDocs(xs)[xs[i].id] == Doc(xs[i].vector, M.AsMetadata(xs[i].kvs))
    decreases |xs|
  {
    hide M.AsMetadata;
    var init, n := xs[..|xs| - 1], |xs| - 1;
    if i < n {
      assert forall j, l :: 0 <= j < l < n ==> init[j].id == xs[j].id != xs[l].id == init[l].id;
      ItemsDocsAt(init, i);
      assert xs[i].id != xs[n].id;
    }
  }

  lemma ShardDocs(xs: seq<VertexItem>, shard: Table)
    requires ListsShard(xs, shard)
    ensures Shown(ItemsDocs(xs), shard)
  {
    ItemsDocsKeys(xs);
    forall id | id in shard
      ensures id in ItemsDocs(xs) && ItemsDocs(xs)[id] == Doc(shard[id].vector, shard[id].metadata)
    {
      assert id in ItemIds(xs);
      var i :| 0 <= i < |xs| && xs[i].id == id;
      ItemsDocsAt(xs, i);
      assert Describes(xs[i], shard[id]);
    }
  }

  /** The first n shards show what is stored at home in them. */
  lemma {:induction false} FirstShardsDocs(b: Body, shards: seq<Table>, table: Table, n: nat)
    requires |b.shards| == |shards| == SHARD_COUNT && ShardsOk(shards, table) && n <= SHARD_COUNT
    requires forall i :: 0 <= i < SHARD_COUNT ==> ListsShard(b.shards[i], shards[i])
    ensures forall id :: id in ShardsDocs(b.shards[..n]) <==> id in table && ShardOf(id) < n
    ensures forall id :: id in ShardsDocs(b.shards[..n]) ==>
              ShardsDocs(b.shards[..n])[id] == Doc(table[id].vector, table[id].metadata)
  {
    hide ShardOf, ListsShard;
    if n > 0 {
      FirstShardsDocs(b, shards, table, n - 1);
      ShardDocs(b.shards[n - 1], shards[n - 1]);
      assert b.shards[..n][..n - 1] == b.shards[..n - 1];
      assert shards[n - 1] == Shard(table, n - 1);
    }
  }

  lemma BodyDocs(b: Body, shards: seq<Table>, table: Table, g: Graph)
    requires ListsSound(b, shards, table, g)
    ensures ShardsDocs(b.shards) == DocsOf(table)
  {
    hide ListsOwners, ListsShard, TableOk, ShardOf, DocsOf, ShardsDocs;
    FirstShardsDocs(b, shards, table, SHARD_COUNT);
    assert b.shards[..SHARD_COUNT] == b.shards;
    assert Shown(ShardsDocs(b.shards), table) && Shown(DocsOf(table), table);
  }

  /** The bytes are those of a body whose sizes fit. */
  ghost predicate IsStored(b: Body, size: nat, data: Bytes) {
    |b.shards| == SHARD_COUNT && BodyFits(b, size) && data == EncodeBody(b, [])
  }

  /** What processSnapshot makes of bytes that were written for an index. */
  ghost function Restored(size: nat, data: Bytes): Option<Docs> {
    if exists b :: IsStored(b, size, data) then
      var b :| IsStored(b, size, data);
      Some(ShardsDocs(b.shards))
    else None
  }

  lemma RestoredIs(b: Body, size: nat, data: Bytes)
    requires IsStored(b, size, data)
    ensures Restored(size, data) == Some(ShardsDocs(b.shards))
  {
    var c :| IsStored(c, size, data) && Restored(size, data) == Some(ShardsDocs(c.shards));
    assert IsStored(c, size, data);
    BodyShardsUnique(b, c, size);
  }

  lemma NothingRestored(size: nat)
    ensures Restored(size, []) == None
  {
    forall b ensures !IsStored(b, size, []) {
      assert |EncodeBody(b, [])| >= 16;
    }
  }
  // The machine

  /** What a decoded change makes of the contents. A change that cannot be decoded, or that panics, ends the process. */
  function Processed(decode: Bytes -> Option<Change>, docs: Docs, data: Bytes): Docs {
    var change := decode(data);
    if change.None? || AnswerTo(docs, change.value) == Panic then docs else DocsAfter(docs, change.value)
  }

  /** A partition, as the state machine that its Raft group replicates. */
  ghost function PartitionMachine(decode: Bytes -> Option<Change>, size: nat): Machine<Docs> {
    Machine(map[], (docs, data) => Processed(decode, docs, data), data => Restored(size, data))
  }

  /** The entry does not end the process. */
  predicate CanProcess(decode: Bytes -> Option<Change>, docs: Docs, e: Entry) {
    e.kind == Normal && |e.data| > 0 ==> decode(e.data).Some? && AnswerTo(docs, decode(e.data).value) != Panic
  }

  /** No committed entry ends the process. */
  ghost predicate Processable(decode: Bytes -> Option<Change>, m: Machine<Docs>, history: seq<Entry>) {
    forall n :: 0 <= n < |history| ==> CanProcess(decode, m.StateAfter(history, n), history[n])
  }

  /** The changes among the entries. */
  function ChangesOf(decode: Bytes -> Option<Change>, es: seq<Entry>): seq<Change> {
    if es == [] then []
    else
      var before, last := ChangesOf(decode, es[..|es| - 1]), es[|es| - 1];
      if last.kind == Normal && |last.data| > 0 && decode(last.data).Some? then before + [decode(last.data).value]
      else before
  }

  /** The machine's state is what the committed changes, one after the other, make of an empty partition. */
  lemma {:induction false} StateIsReplayed(decode: Bytes -> Option<Change>, size: nat, history: seq<Entry>, n: nat)
    requires Processable(decode, PartitionMachine(decode, size), history) && n <= |history|
    ensures Replayed(map[], ChangesOf(decode, history[..n])) ==
            Some(PartitionMachine(decode, size).StateAfter(history, n))
  {
    hide Restored, AnswerTo, DocsAfter, Replayed, ChangesOf, Processable;
    if n > 0 {
      StateIsReplayed(decode, size, history, n - 1);
      StateNext(decode, size, history, n - 1);
      assert history[..n] == history[..n - 1] + [history[n - 1]];
      ReplayedNext(decode, history[..n - 1], history[n - 1]);
    } else {
      assert history[..0] == [];
      NoChanges(decode);
    }
  }

  lemma NoChanges(decode: Bytes -> Option<Change>)
    ensures Replayed(map[], ChangesOf(decode, [])) == Some(map[])
  {}

  lemma StateNext(decode: Bytes -> Option<Change>, size: nat, history: seq<Entry>, n: nat)
    requires Processable(decode, PartitionMachine(decode, size), history) && n < |history|
    ensures var m := PartitionMachine(decode, size);
            && m.StateAfter(history, n + 1) == m.Apply(m.StateAfter(history, n), history[n])
            && CanProcess(decode, m.StateAfter(history, n), history[n])
  {
    hide Restored, AnswerTo, DocsAfter;
    var m := PartitionMachine(decode, size);
    m.ReplayNext(m.init, history, n);
  }

  lemma ReplayedNext(decode: Bytes -> Option<Change>, es: seq<Entry>, e: Entry)
    requires Replayed(map[], ChangesOf(decode, es)).Some?
    requires CanProcess(decode, Replayed(map[], ChangesOf(decode, es)).value, e)
    ensures Replayed(map[], ChangesOf(decode, es + [e])) ==
            Some(PartitionMachine(decode, 0).Apply(Replayed(map[], ChangesOf(decode, es)).value, e))
  {
    hide Restored, AnswerTo, DocsAfter;
    assert (es + [e])[..|es|] == es;
    if e.kind == Normal && |e.data| > 0 {
      var before, after := ChangesOf(decode, es), ChangesOf(decode, es + [e]);
      assert after == before + [decode(e.data).value];
      assert after[..|after| - 1] == before;
    }
  }

  /** Bytes that were written for an index restore exactly its contents. */
  lemma WrittenRestores(data: Bytes, b: Body, size: nat, config: Config, space: Space, shards0: seq<Table>,
          table0: Table, g0: Graph, decode: Bytes -> Option<Change>)
    requires WrittenFor(data, b, size, config, space, shards0, table0, g0)
    ensures PartitionMachine(decode, size).restore(data) == Some(DocsOf(table0))
  {
    hide EncodeBody, BodyFits, DocsOf, Restored, GraphOk;
    BodyDocs(b, shards0, table0, g0);
    RestoredIs(b, size, data);
  }

  /** The index holds what the group's machine is in the state of. */
  ghost predicate Represents(index: Hnsw, group: RaftGroup<Docs>, decode: Bytes -> Option<Change>)
    reads index, index.all, group, group.wal, group.wal.store
  {
    && index.Valid() && group.Valid() && group.machine == PartitionMachine(decode, index.size)
    && index.Contents() == group.state
  }

  /** The stored snapshot is what the index saves: no bytes if it is empty. */
  ghost predicate HasSnapshotOf(disk: Disk, index: Hnsw, b: Body)
    reads index, index.all
  {
    && disk.snapshot.Some?
    && if index.table == map[] then disk.snapshot.value.data == []
       else WrittenFor(disk.snapshot.value.data, b, index.size, index.config, index.space, index.vertices, index.table,
                       Snap(index.all))
  }

  /**
   * The snapshot ticker of a partition. Taking a snapshot fails exactly if it is due and the partition has items but
   * no entrypoint, or else if the conf state is unknown. What is stored then can be recovered exactly if the
   * partition is not empty.
   */
  method SnapshotPartition(group: RaftGroup<Docs>, index: Hnsw, skip: nat, ghost decode: Bytes -> Option<Change>)
    returns (err: Option<SnapshotError>, ghost b: Body)
    requires Represents(index, group, decode)
    requires SizesFit(index.vertices, index.table, Snap(index.all), index.size)
    modifies group.wal`cache, group.wal`log, group.wal.store
    ensures var due := group.hasSnapshotFn
                       && group.lastAppliedIdx > SnapshotOf(old(group.wal.store.disk)).index + skip;
            && err == (if !due then None
                       else if index.table != map[] && index.entrypoint == null then Some(SnapshotFnError)
                       else if group.raftConfState.None? then Some(WalError(EmptyConfState))
                       else None)
            && (group.Valid() <==> !due || err.Some? || index.table != map[])
            && if due && err.None? then HasSnapshotOf(group.wal.store.disk, index, b)
               else group.wal.store.disk == old(group.wal.store.disk)
    ensures group.wal.Valid() && HardStateOf(group.wal.store.disk) == old(HardStateOf(group.wal.store.disk))
  {
    hide Snap, Hnsw.Valid, RaftGroup.Valid, DocsOf, SizesFit, WrittenFor, Restored;
    var taken;
    taken, b := TakeSnapshot(index);
    NothingRestored(index.size);
    if taken.Some? && index.table != map[] {
      WrittenRestores(taken.value, b, index.size, index.config, index.space, index.vertices, index.table,
                      Snap(index.all), decode);
    }
    err := group.TrySnapshot(skip, taken);
  }

  /** The stored snapshot, if any, was written for a sound index of this kind. */
  ghost predicate SnapshotIsSaved(disk: Disk, b: Body, size: nat, config: Config, space: Space, shards0: seq<Table>,
          table0: Table, g0: Graph) {
    disk.snapshot.Some? ==> WrittenFor(disk.snapshot.value.data, b, size, config, space, shards0, table0, g0)
  }

  /** A new index, with what the stored snapshot holds. */
  method LoadStored(wal: BadgerWAL, size: nat, space: Space, config: Config, spaces: Spaces,
          ghost decode: Bytes -> Option<Change>, ghost history: seq<Entry>, ghost b: Body, ghost shards0: seq<Table>,
          ghost table0: Table, ghost g0: Graph)
    returns (index: Hnsw, offset: nat)
    requires config.Supported() && Symmetric(space)
    requires wal.Valid() && Durable(PartitionMachine(decode, size), wal.store.disk, wal.log, history)
    requires SnapshotIsSaved(wal.store.disk, b, size, config, space, shards0, table0, g0)
    ensures fresh(index) && fresh(index.all) && index.Valid() && index.size == size
    ensures offset == Offset(wal.log) && offset <= |history|
    ensures index.Contents() == PartitionMachine(decode, size).StateAfter(history, offset)
  {
    hide Snap, WrittenFor, DocsOf, Holds, Coherent, Restored, IndexOk, GraphOk;
    var snap := wal.Snapshot();
    offset := snap.index;
    if snap.Empty() {
      index := new Hnsw(size, space, config);
      EmptyDocs(index.table);
    } else {
      WrittenRestores(snap.data, b, size, config, space, shards0, table0, g0, decode);
      index := RestartFrom(snap.data, size, space, config, spaces, b, shards0, table0, g0);
    }
  }

  lemma EmptyDocs(table: Table)
    requires table == map[]
    ensures DocsOf(table) == map[]
  {}

  /** One committed entry: conf changes and empty entries do not reach the partition. */
  method ProcessEntry(index: Hnsw, decode: Bytes -> Option<Change>, entry: Entry)
    requires index.Valid()
    requires CanProcess(decode, index.Contents(), entry)
    modifies index, index.all
    ensures index.Valid() && fresh(index.all - old(index.all))
    ensures index.Contents() ==
            if entry.kind == Normal && |entry.data| > 0 then Processed(decode, old(index.Contents()), entry.data)
            else old(index.Contents())
  {
    hide Hnsw.Valid, Hnsw.Contents, AnswerTo, DocsAfter, IsOutcome;
    if entry.kind == Normal && |entry.data| > 0 {
      var change := decode(entry.data);
      var answer := Process(index, change.value);
    }
  }

  /** The stored entry after index k, which is committed, is processed. */
  method ReplayStored(index: Hnsw, wal: BadgerWAL, decode: Bytes -> Option<Change>, ghost size: nat,
          ghost history: seq<Entry>, k: nat)
    requires index.Valid() && wal.Valid() && Durable(PartitionMachine(decode, size), wal.store.disk, wal.log, history)
    requires Processable(decode, PartitionMachine(decode, size), history)
    requires Offset(wal.log) <= k < HardStateOf(wal.store.disk).commit
    requires index.Contents() == PartitionMachine(decode, size).StateAfter(history, k)
    modifies index, index.all
    ensures index.Valid() && fresh(index.all - old(index.all)) && k + 1 <= |history|
    ensures index.Contents() == PartitionMachine(decode, size).StateAfter(history, k + 1)
  {
    hide Snap, DocsOf, Hnsw.Valid, Hnsw.Contents, Holds, Coherent, Restored, SnapshotOk;
    ghost var m := PartitionMachine(decode, size);
    var entry := wal.SeekEntry(k + 1);
    assert entry == Some(history[k]);
    ProcessEntry(index, decode, entry.value);
    m.ReplayNext(m.init, history, k);
  }

  /**
   * Recovery of a replicated partition. Wherever the process died, as long as what is on disk is sound, the stored
   * snapshot loaded into a new index and the committed entries after it, processed one by one, give an index that
   * satisfies every invariant and holds exactly what all committed changes make of an empty partition.
   */
  method RecoverPartition(dead: RaftGroup<Docs>, decode: Bytes -> Option<Change>, size: nat, space: Space,
          config: Config, spaces: Spaces, ghost b: Body, ghost shards0: seq<Table>, ghost table0: Table,
          ghost g0: Graph)
    returns (index: Hnsw)
    requires config.Supported() && Symmetric(space)
    requires dead.Sound() && dead.machine == PartitionMachine(decode, size)
    requires Processable(decode, dead.machine, dead.history)
    requires SnapshotIsSaved(dead.wal.store.disk, b, size, config, space, shards0, table0, g0)
    ensures fresh(index) && index.Valid()
    ensures HardStateOf(dead.wal.store.disk).commit <= |dead.history|
    ensures index.Contents() == dead.machine.StateAfter(dead.history, HardStateOf(dead.wal.store.disk).commit)
  {
    hide Snap, WrittenFor, DocsOf, Hnsw.Valid, Hnsw.Contents, Holds, Coherent, Restored, SnapshotOk, Processable;
    ghost var m := PartitionMachine(decode, size);
    var offset;
    index, offset := LoadStored(dead.wal, size, space, config, spaces, decode, dead.history, b, shards0, table0, g0);
    var hardState := dead.wal.HardState();
    var k := offset;
    while k < hardState.commit
      invariant offset <= k <= hardState.commit <= |dead.history|
      invariant fresh(index) && fresh(index.all) && index.Valid()
      invariant index.Contents() == m.StateAfter(dead.history, k)
    {
      ReplayStored(index, dead.wal, decode, size, dead.history, k);
      k := k + 1;
    }
  }

  lemma WrittenIsNotEmpty(data: Bytes, b: Body, size: nat, config: Config, space: Space, shards0: seq<Table>,
          table0: Table, g0: Graph)
    requires WrittenFor(data, b, size, config, space, shards0, table0, g0)
    ensures |data| >= 16
  {}

  lemma SupportedConfig(index: Hnsw)
    requires index.Valid()
    ensures index.config.Supported() && Symmetric(index.space)
  {}

  /**
   * Try to take a snapshot, die right afterwards, and recover: unless the snapshot taken was of an empty partition,
   * the recovered index holds what all committed changes make, whether one was taken or not.
   */
  method SnapshotAndRecover(group: RaftGroup<Docs>, index: Hnsw, skip: nat, decode: Bytes -> Option<Change>,
          spaces: Spaces, ghost b0: Body, ghost shards0: seq<Table>, ghost table0: Table, ghost g0: Graph)
    returns (err: Option<SnapshotError>, recovered: Hnsw?)
    requires Represents(index, group, decode) && Processable(decode, group.machine, group.history)
    requires SizesFit(index.vertices, index.table, Snap(index.all), index.size)
    requires SnapshotIsSaved(group.wal.store.disk, b0, index.size, index.config, index.space, shards0, table0, g0)
    modifies group.wal`cache, group.wal`log, group.wal.store
    ensures index.table != map[] ==> recovered != null
    ensures recovered != null ==>
              && recovered.Valid() && HardStateOf(group.wal.store.disk).commit <= |group.history|
              && recovered.Contents() ==
                 group.machine.StateAfter(group.history, HardStateOf(group.wal.store.disk).commit)
  {
    hide Snap, Hnsw.Valid, DocsOf, SizesFit, WrittenFor, Restored, Durable, Processable;
    SupportedConfig(index);
    ghost var disk := group.wal.store.disk;
    ghost var b;
    err, b := SnapshotPartition(group, index, skip, decode);
    var snap := group.wal.Snapshot();
    ghost var same := group.wal.store.disk == disk;
    if same && disk.snapshot.Some? {
      WrittenIsNotEmpty(snap.data, b0, index.size, index.config, index.space, shards0, table0, g0);
    } else if !same && index.table != map[] {
      WrittenIsNotEmpty(snap.data, b, index.size, index.config, index.space, index.vertices, index.table,
                        Snap(index.all));
    }
    if !snap.Empty() && |snap.data| == 0 {
      return err, null;
    }
    recovered := RecoverPartition(group, decode, index.size, index.space, index.config, spaces,
            if same then b0 else b, if same then shards0 else index.vertices, if same then table0 else index.table,
            if same then g0 else Snap(index.all));
  }
}
