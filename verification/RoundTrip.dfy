/** Saving an index and loading what was saved: the whole round trip. */
module RoundTrips {
  import opened Common
  import opened Uuids
  import opened Configs
  import opened Graphs
  import opened Linking
  import opened Insertion
  import opened IndexTable
  import opened IndexBodies
  import opened IndexLoading
  import opened Copies
  import opened Hnsws
  import opened Persistence

  /** Every size fits the field that it is written to. */
  ghost predicate SizesFit(shards: seq<Table>, table: Table, g: Graph, size: nat) {
    && (forall i :: 0 <= i < |shards| ==> |shards[i]| < 0x1_0000_0000)
    && forall id :: id in table ==> VertexSizesFit(table[id], g, size)
  }

  ghost predicate VertexSizesFit(v: Vertex, g: Graph, size: nat) {
    && v.level < 0x8000_0000 && |v.vector| == size && M.InRange(v.metadata)
    && forall l: nat :: l <= v.level ==> |LivePart(g, EdgesAt(g, v, l))| < 0x1_0000_0000
  }

  lemma ListedShardFits(xs: seq<VertexItem>, shard: Table, g: Graph, size: nat)
    requires ListsShard(xs, shard) && |shard| < 0x1_0000_0000 && forall id :: id in shard ==>
               VertexSizesFit(shard[id], g, size)
    ensures ShardFits(xs, size)
  {
    ShardListSize(xs, shard);
    forall i | 0 <= i < |xs| ensures VertexFits(xs[i], size) {
      assert xs[i].id in ItemIds(xs) && Describes(xs[i], shard[xs[i].id]);
      M.InRangeFits(xs[i].kvs, shard[xs[i].id].metadata);
    }
  }

  lemma ListedOwnerFits(x: EdgesItem, table: Table, g: Graph, v: Vertex, size: nat)
    requires ListsLevels(x, table, g, v) && Keyed(table) && VertexSizesFit(v, g, size)
    ensures OwnerFits(x)
  {
    forall l | 0 <= l < |x.levels| ensures |x.levels[l]| < 0x1_0000_0000 {
      var k: nat := v.level - l;
      assert ListsEdges(x.levels[v.level - k], table, LivePart(g, EdgesAt(g, v, k)));
      EdgeListSize(x.levels[l], table);
    }
  }

  /** What is written for an index whose sizes fit can be read back. */
  lemma ListedBodyFits(b: Body, shards: seq<Table>, table: Table, g: Graph, size: nat)
    requires ListsSound(b, shards, table, g) && SizesFit(shards, table, g, size)
    ensures BodyFits(b, size)
  {
    hide ListsLevels, VertexSizesFit, ShardFits, OwnerFits, DistinctIds, DistinctOwners, Describes;
    forall i | 0 <= i < |b.shards| ensures ShardFits(b.shards[i], size) {
      ListedShardFits(b.shards[i], shards[i], g, size);
    }
    forall i, j | 0 <= i < |b.edges| && 0 <= j < |b.edges[i]| ensures OwnerFits(b.edges[i][j]) {
      var id := b.edges[i][j].id;
      assert id in OwnerIds(b.edges[i]) && ListsOwners(b.edges[i], shards[i], table, g);
      ListedOwnerFits(b.edges[i][j], table, g, shards[i][id], size);
    }
  }

  lemma TableIsKeyed(table: Table, g: Graph)
    requires TableOk(table, g)
    ensures Keyed(table)
  {}

  lemma LoadedIsSame(b: Body, shards0: seq<Table>, table0: Table, g0: Graph, shards: seq<Table>, table: Table, g: Graph,
          entrypoint: Vertex?, len: nat, bytesSize: nat, bytes0: nat)
    requires ListsSound(b, shards0, table0, g0) && Loaded(b, shards, table, g, entrypoint, len, bytesSize, bytes0)
    ensures IsSame(table0, g0, table, g)
    ensures entrypoint != null <==> b.entrypoint in table0
    ensures entrypoint != null ==> entrypoint.id == b.entrypoint && entrypoint in g
  {
    hide ListsIndex, ShardsOk, SameVertex, SameLevels, TableBytes, Wrap64, StaysInside, TableOk;
    TableIsKeyed(table0, g0);
    ListedIndexesAreSame(b, shards0, table0, g0, shards, table, g);
    if b.entrypoint in table {
      assert table[b.entrypoint] in table.Values;
    }
  }

  lemma LoadedCounts(b: Body, table0: Table, g0: Graph, shards: seq<Table>, table: Table, g: Graph, entrypoint: Vertex?,
          len: nat, bytesSize: nat, bytes0: nat)
    requires Loaded(b, shards, table, g, entrypoint, len, bytesSize, bytes0) && IsSame(table0, g0, table, g)
    ensures len == Wrap64(|table0|) && bytesSize == Wrap64(bytes0 + TableBytes(table0))
  {
    hide ListsIndex, ShardsOk, JustTable, SameVertex, SameLevels, TableBytes, Wrap64, StaysInside;
    SameBytes(table0, table);
  }

  /** Adding leaves a 64-bit counter unchanged exactly if a multiple of 2^64 is added. */
  lemma WrapUnchanged(a: nat, b: nat)
    ensures Wrap64(a + b) == Wrap64(b) <==> a % TWO_TO_THE_64 == 0
  {
    var k := (a + b) / TWO_TO_THE_64 - b / TWO_TO_THE_64;
    if Wrap64(a + b) == Wrap64(b) {
      RemainderIsUnique(a, TWO_TO_THE_64, k, 0);
    }
    if a % TWO_TO_THE_64 == 0 {
      WrapShift(a + b, b, a / TWO_TO_THE_64);
    }
  }

  lemma ReloadedIsOk(config: Config, receiver: Config, space: Space, g: Graph)
    requires GraphOk(config, space, g) && !receiver.heuristicExtendCandidates
    ensures GraphOk(Reloaded(config, receiver), space, g)
  {
    hide WellFormed, Symmetric;
    var after := Reloaded(config, receiver);
    forall v, l: nat | v in g ensures |EdgesAt(g, v, l)| <= after.Limit()(l) {
      assert |EdgesAt(g, v, l)| <= config.Limit()(l);
    }
  }

  /** A loaded copy satisfies the whole invariant of an index, if the byte counter started at zero. */
  lemma LoadedIsSound(config: Config, space: Space, b: Body, shards0: seq<Table>, table0: Table, g0: Graph,
          shards: seq<Table>, table: Table, g: Graph, entrypoint: Vertex?, len: nat, bytesSize: nat)
    requires ListsSound(b, shards0, table0, g0) && GraphOk(config, space, g0)
    requires Loaded(b, shards, table, g, entrypoint, len, bytesSize, 0)
    ensures IndexOk(shards, table, len, bytesSize, g) && GraphOk(config, space, g)
    ensures entrypoint != null ==> entrypoint in g
  {
    hide ListsIndex, ShardsOk, WellFormed, DegreesOk, Symmetric, TableBytes, Wrap64;
    ListedIndexesAreSame(b, shards0, table0, g0, shards, table, g);
    JustTableIsOk(table, g);
    CopyIsSound(config, space, table0, g0, table, g);
    if entrypoint != null {
      assert table[b.entrypoint] in table.Values;
    }
  }

  lemma EntrypointIsListed(table: Table, g: Graph, entrypoint: Vertex)
    requires TableOk(table, g) && entrypoint in g && !g[entrypoint].deleted
    ensures entrypoint.id in table
  {
    assert Listed(table, entrypoint);
  }

  /** The same space and the same parameters, but for the flag that decides whether pruned candidates are kept. */
  ghost predicate Compatible(index: Hnsw, receiver: Hnsw)
    reads index, receiver
  {
    && receiver.config == Reloaded(index.config, receiver.config) && !receiver.config.heuristicExtendCandidates
    && receiver.space == index.space
  }

  /** A space of a known type is the one that its constructor makes. */
  ghost predicate IsKnown(spaces: Spaces, space: Space) {
    space.kind == OtherType || space == spaces.euclidean || space == spaces.manhattan || space == spaces.cosine
  }

  /**
   * For every non-empty index with an entrypoint whose sizes fit: loading what was saved gives the same
   * index, and nothing is left of the bytes; with a header that includes its space, if that is one of the three
   * known ones, and fails otherwise. The copy has an entrypoint exactly if the entrypoint's id
   * is stored, as it is if the entrypoint is live. The byte total is the same exactly if the receiver's
   * was zero (modulo 2^64). If the receiver, moreover, agrees on configuration and space, then every
   * invariant of the index holds of the copy.
   */
  method SaveAndLoad(index: Hnsw, receiver: Hnsw, header: bool, spaces: Spaces)
    returns (err: Option<StorageError>, rest: Bytes)
    requires index != receiver && index.Valid() && index.len != 0
    requires index.entrypoint != null
    requires SizesFit(index.vertices, index.table, Snap(index.all), index.size)
    requires HeaderFits(header, HeaderOf(index))
    requires if header then spaces.Valid() && IsKnown(spaces, index.space) else receiver.size == index.size
    modifies receiver
    ensures err == if header && index.space.kind == OtherType then Some(InvalidSpaceType) else None
    ensures err.None? ==> rest == [] && receiver.space == if header then index.space else old(receiver.space)
    ensures err.None? ==> IsSame(index.table, Snap(index.all), receiver.table, Snap(receiver.all))
    ensures err.None? ==> (receiver.entrypoint != null <==> index.entrypoint.id in index.table)
    ensures err.None? && receiver.entrypoint != null ==> receiver.entrypoint.id == index.entrypoint.id
    ensures err.None? && !index.entrypoint.deleted ==> receiver.entrypoint != null
    ensures err.None? ==> receiver.len == index.len && receiver.size == index.size
    ensures err.None? ==>
              (receiver.bytesSize == index.bytesSize <==> old(receiver.bytesSize) % TWO_TO_THE_64 == 0)
    ensures err.None? ==>
              receiver.config == if header then Reloaded(index.config, old(receiver.config)) else old(receiver.config)
    ensures err.None? && Compatible(index, receiver) && old(receiver.bytesSize) == 0 ==> receiver.Valid()
  {
    hide TableOk, WellFormed, DegreesOk, Symmetric, ListsIndex, EncodeBody, EncodeHeader, BodyFits, SizesFit, Loaded,
         IsSame, Wrap64, ShardsOk, Snap, TableBytes;
    ghost var shards0, table0, g0, bytes0 := index.vertices, index.table, Snap(index.all), receiver.bytesSize;
    ghost var h := HeaderOf(index);
    var out;
    ghost var b;
    out, b := Save(index, header);
    if !index.entrypoint.deleted {
      EntrypointOf(index);
    }
    ListedBodyFits(b, shards0, table0, g0, index.size);
    ghost var read, readHeader;
    err, rest, read, readHeader := Load(receiver, out.value, header, spaces, h, b, [], shards0, table0, g0);
    if err.Some? {
      return;
    }
    LoadedIsSame(b, shards0, table0, g0, receiver.vertices, receiver.table, Snap(receiver.all), receiver.entrypoint,
            receiver.len, receiver.bytesSize, bytes0);
    LoadedCounts(b, table0, g0, receiver.vertices, receiver.table, Snap(receiver.all), receiver.entrypoint,
            receiver.len, receiver.bytesSize, bytes0);
    WrapUnchanged(bytes0, TableBytes(table0));
    if Compatible(index, receiver) && bytes0 == 0 {
      ReloadedIsOk(index.config, receiver.config, index.space, g0);
      LoadedIsSound(receiver.config, index.space, b, shards0, table0, g0, receiver.vertices, receiver.table,
                    Snap(receiver.all), receiver.entrypoint, receiver.len, receiver.bytesSize);
    }
  }

  lemma EntrypointOf(index: Hnsw)
    requires index.Valid() && index.entrypoint != null && !index.entrypoint.deleted
    ensures index.entrypoint.id in index.table
  {
    EntrypointIsListed(index.table, Snap(index.all), index.entrypoint);
  }

  /** What is written for an empty index cannot be loaded. */
  method SaveAndLoadEmpty(index: Hnsw, receiver: Hnsw, header: bool, spaces: Spaces)
    returns (err: Option<StorageError>)
    requires index != receiver && index.Valid() && index.len == 0
    requires HeaderFits(header, HeaderOf(index))
    modifies receiver
    ensures err == Some(if header && index.space.kind == OtherType then InvalidSpaceType else Malformed)
  {
    hide EncodeHeader, Saved, Loaded;
    var out, rest;
    ghost var b;
    out, b := Save(index, header);
    ghost var read, readHeader;
    err, rest, read, readHeader := Load(receiver, out.value, header, spaces, HeaderOf(index), b, [], [], map[], map[]);
  }
}
