/** A partition's snapshot and what a restart makes of it: the callbacks of storage/partition.go for the Raft group. */
module PartitionRestarts {
  import opened Common
  import opened Uuids
  import opened Configs
  import opened Graphs
  import opened Linking
  import opened Insertion
  import opened IndexTable
  import opened IndexBodies
  import opened IndexLoading
  import opened Answers
  import opened Copies
  import opened Hnsws
  import opened Persistence
  import opened RoundTrips

  /** The ids that have one of the first n shards as home. */
  function FirstShards(table: Table, n: nat): set<Uuid> {
    set id | id in table && ShardOf(id) < n
  }

  lemma FirstShardsNext(table: Table, n: nat)
    ensures FirstShards(table, n + 1) == FirstShards(table, n) + Shard(table, n).Keys
    ensures |FirstShards(table, n + 1)| <= |FirstShards(table, n)| + |Shard(table, n)|
  {
    hide ShardOf;
    assert FirstShards(table, n + 1) == FirstShards(table, n) + Shard(table, n).Keys;
    assert FirstShards(table, n) !! Shard(table, n).Keys;
    assert |Shard(table, n).Keys| == |Shard(table, n)|;
  }

  lemma {:induction false} FirstShardsSize(shards: seq<Table>, table: Table, n: nat)
    requires ShardsOk(shards, table) && n <= SHARD_COUNT
    requires forall i :: 0 <= i < |shards| ==> |shards[i]| < 0x1_0000_0000
    ensures |FirstShards(table, n)| <= n * 0xFFFF_FFFF
  {
    hide ShardOf, Shard, FirstShards;
    if n == 0 {
      NoShards(table);
    } else {
      FirstShardsSize(shards, table, n - 1);
      FirstShardsNext(table, n - 1);
      assert |shards[n - 1]| == |Shard(table, n - 1)|;
    }
  }

  lemma NoShards(table: Table)
    ensures FirstShards(table, 0) == {}
  {}

  /** An index whose shards can be counted in 32 bits can be counted in 64. */
  lemma LenIsSize(shards: seq<Table>, table: Table, g: Graph, size: nat, len: nat, bytesSize: nat)
    requires ShardsOk(shards, table) && SizesFit(shards, table, g, size) && CountsOk(table, len, bytesSize)
    ensures len == |table| && (len == 0 <==> table == map[])
  {
    hide VertexSizesFit, TableBytes;
    FirstShardsSize(shards, table, SHARD_COUNT);
    assert FirstShards(table, SHARD_COUNT) == table.Keys;
    assert |table| == |table.Keys|;
  }

  lemma SameDocs(table0: Table, g0: Graph, table: Table, g: Graph)
    requires IsSame(table0, g0, table, g)
    ensures DocsOf(table) == DocsOf(table0)
  {
    hide SameLevels;
    assert Shown(DocsOf(table), table0);
  }

  lemma IndexLen(index: Hnsw)
    requires index.Valid() && SizesFit(index.vertices, index.table, Snap(index.all), index.size)
    ensures index.len == |index.table| && (index.len == 0 <==> index.table == map[])
  {
    hide ShardsOk, SizesFit;
    LenIsSize(index.vertices, index.table, Snap(index.all), index.size, index.len, index.bytesSize);
  }

  lemma NewIndexHasNoBytes(index: Hnsw)
    requires index.Valid() && index.table == map[]
    ensures index.bytesSize == 0
  {}

  /** What was loaded from the bytes of a sound index into a new one. */
  lemma LoadedIsRestored(config: Config, space: Space, b: Body, shards0: seq<Table>, table0: Table, g0: Graph,
          shards: seq<Table>, table: Table, g: Graph, entrypoint: Vertex?, len: nat, bytesSize: nat)
    requires ListsSound(b, shards0, table0, g0) && GraphOk(config, space, g0)
    requires Loaded(b, shards, table, g, entrypoint, len, bytesSize, 0)
    ensures IndexOk(shards, table, len, bytesSize, g) && GraphOk(config, space, g)
    ensures entrypoint != null ==> entrypoint in g
    ensures IsSame(table0, g0, table, g) && DocsOf(table) == DocsOf(table0)
  {
    hide ListsSound, GraphOk, Loaded, IndexOk, IsSame;
    LoadedIsSound(config, space, b, shards0, table0, g0, shards, table, g, entrypoint, len, bytesSize);
    LoadedIsSame(b, shards0, table0, g0, shards, table, g, entrypoint, len, bytesSize, 0);
    SameDocs(table0, g0, table, g);
  }

  /** The bytes were written for a sound index whose sizes fit. */
  ghost predicate WrittenFor(data: Bytes, b: Body, size: nat, config: Config, space: Space, shards0: seq<Table>,
          table0: Table, g0: Graph) {
    && data == EncodeBody(b, []) && BodyFits(b, size)
    && ListsSound(b, shards0, table0, g0) && GraphOk(config, space, g0)
  }

  /** processSnapshot with a new index: no bytes fail, and from those written for an index its contents are back. */
  method RestartFrom(data: Bytes, size: nat, space: Space, config: Config, spaces: Spaces, ghost b: Body,
          ghost shards0: seq<Table>, ghost table0: Table, ghost g0: Graph)
    returns (restarted: Hnsw?)
    requires config.Supported() && Symmetric(space)
    ensures data == [] ==> restarted == null
    ensures WrittenFor(data, b, size, config, space, shards0, table0, g0) ==> restarted != null
    ensures restarted != null ==> fresh(restarted)
    ensures restarted != null && WrittenFor(data, b, size, config, space, shards0, table0, g0) ==>
              && fresh(restarted.all) && restarted.Valid() && restarted.Contents() == DocsOf(table0)
              && restarted.size == size && restarted.config == config && restarted.space == space
              && IsSame(table0, g0, restarted.table, Snap(restarted.all))
  {
    hide Snap, TableOk, CountsOk, ShardsOk, WellFormed, DegreesOk, Symmetric, ListsIndex, EncodeBody, EncodeHeader,
         BodyFits, Loaded, IsSame, DocsOf;
    ghost var h := Header(config, size, 0);
    var receiver := new Hnsw(size, space, config);
    NewIndexHasNoBytes(receiver);
    var err, rest, read, readHeader := Load(receiver, data, false, spaces, h, b, [], shards0, table0, g0);
    restarted := if err.None? then receiver else null;
    if err.None? && WrittenFor(data, b, size, config, space, shards0, table0, g0) {
      LoadedIsRestored(config, space, b, shards0, table0, g0, receiver.vertices, receiver.table, Snap(receiver.all),
                       receiver.entrypoint, receiver.len, receiver.bytesSize);
    }
  }

  /** snapshot: the bytes of the index, none of them if it is empty. */
  method TakeSnapshot(index: Hnsw) returns (data: Option<Bytes>, ghost b: Body)
    requires index.Valid() && SizesFit(index.vertices, index.table, Snap(index.all), index.size)
    ensures data.None? <==> index.table != map[] && index.entrypoint == null
    ensures index.table == map[] ==> data == Some([])
    ensures index.table != map[] && data.Some? ==>
              WrittenFor(data.value, b, index.size, index.config, index.space, index.vertices, index.table,
                         Snap(index.all))
  {
    hide Snap, CountsOk, WellFormed, DegreesOk, Symmetric, EncodeBody, EncodeHeader, BodyFits, SizesFit;
    IndexLen(index);
    data, b := Save(index, false);
    if index.entrypoint != null && index.len != 0 {
      ListedBodyFits(b, index.vertices, index.table, Snap(index.all), index.size);
    }
  }

  /**
   * Take a snapshot of a partition, and start again from it with a new index. Taking it fails exactly for a partition
   * that has items and no entrypoint; starting again fails for an empty one. Otherwise the contents are back, and
   * the new index is sound.
   */
  method SnapshotAndRestart(index: Hnsw, spaces: Spaces) returns (data: Option<Bytes>, restarted: Hnsw?)
    requires index.Valid() && SizesFit(index.vertices, index.table, Snap(index.all), index.size)
    ensures data.None? <==> index.table != map[] && index.entrypoint == null
    ensures restarted != null <==> index.table != map[] && index.entrypoint != null
    ensures restarted != null ==> fresh(restarted) && restarted.Valid() && restarted.Contents() == index.Contents()
    ensures restarted != null ==> IsSame(index.table, Snap(index.all), restarted.table, Snap(restarted.all))
  {
    hide Snap, TableOk, CountsOk, ShardsOk, WellFormed, DegreesOk, Symmetric, ListsIndex, EncodeBody, EncodeHeader,
         BodyFits, SizesFit, IsSame, DocsOf;
    ghost var b;
    data, b := TakeSnapshot(index);
    restarted := null;
    if data.Some? {
      restarted := RestartFrom(data.value, index.size, index.space, index.config, spaces, b, index.vertices,
                               index.table, Snap(index.all));
    }
  }
}
