/** Saving and loading an index: index/hnsw_persistence.go and the header part of index/config.go. */
module Persistence {
  import opened Common
  import opened Uuids
  import opened Configs
  import opened BigEndians
  import opened Graphs
  import opened Linking
  import opened IndexTable
  import E = Encodings
  import opened IndexBodies
  import opened IndexSaving
  import opened IndexLoading
  import opened Copies
  import opened Hnsws

  datatype StorageError = NoEntrypoint | InvalidSpaceType | Malformed

  /** spaceToSpaceIdx */
  function SpaceIdx(space: Space): nat {
    match space.kind
    case Euclidean => 1
    case Manhattan => 2
    case Cosine => 3
    case OtherType => 0
  }

  /** The three known spaces, as their constructors make them. */
  datatype Spaces = Spaces(euclidean: Space, manhattan: Space, cosine: Space)
  {
    /** spaceIdxToSpace */
    function At(spaceIdx: nat): Option<Space> {
      match spaceIdx
      case 1 => Some(euclidean)
      case 2 => Some(manhattan)
      case 3 => Some(cosine)
      case _ => None
    }

    ghost predicate Valid() {
      euclidean.kind == Euclidean && manhattan.kind == Manhattan && cosine.kind == Cosine
    }
  }

  /** What stands for a space in a header, and what cannot be read back. */
  ghost predicate IsRead(spaces: Spaces, spaceIdx: nat, space: Option<Space>) {
    && (space == None <==> spaceIdx != 1 && spaceIdx != 2 && spaceIdx != 3)
    && (spaceIdx == 1 ==> space == Some(spaces.euclidean))
    && (spaceIdx == 2 ==> space == Some(spaces.manhattan))
    && (spaceIdx == 3 ==> space == Some(spaces.cosine))
  }

  datatype Header = Header(config: Config, size: nat, spaceIdx: nat)

  // The header

  function EncodeConfig(c: Config, tail: Bytes): Bytes {
    BigEndian(c.searchAlgorithm, 4) + (BigEndian(c.levelMultiplier, 4) + EncodeSizes(c, tail))
  }

  function EncodeSizes(c: Config, tail: Bytes): Bytes {
    var limits := BigEndian(c.m, 4) + (BigEndian(c.mMax, 4) + (BigEndian(c.mMax0, 4) + tail));
    BigEndian(c.ef, 4) + (BigEndian(c.efConstruction, 4) + limits)
  }

  function EncodeHeader(h: Header, tail: Bytes): Bytes {
    EncodeConfig(h.config, BigEndian(h.size, 4) + (BigEndian(h.spaceIdx, 1) + tail))
  }

  predicate ConfigFits(c: Config) {
    && c.searchAlgorithm < 0x1_0000_0000
    && c.ef < 0x8000_0000 && c.efConstruction < 0x8000_0000
    && c.m < 0x8000_0000 && c.mMax < 0x8000_0000 && c.mMax0 < 0x8000_0000
  }

  /** A header that can be read back. */
  ghost predicate HeaderFits(header: bool, h: Header) {
    header ==> ConfigFits(h.config) && h.size < 0x1_0000_0000 && h.spaceIdx < 0x100
  }

  /** Where the fields of a header are. */
  predicate IsHeader(out: Bytes, h: Header) {
    && IsField(out, 0, 4, h.config.searchAlgorithm) && IsField(out, 4, 4, h.config.levelMultiplier)
    && IsField(out, 8, 4, h.config.ef) && IsField(out, 12, 4, h.config.efConstruction)
    && IsField(out, 16, 4, h.config.m) && IsField(out, 20, 4, h.config.mMax) && IsField(out, 24, 4, h.config.mMax0)
    && IsField(out, 28, 4, h.size) && IsField(out, 32, 1, h.spaceIdx)
  }

  /** A header whose numbers fit takes 33 bytes, with each field in its place. */
  lemma HeaderLayout(h: Header, tail: Bytes)
    requires HeaderFits(true, h)
    ensures |EncodeHeader(h, tail)| == 33 + |tail| && EncodeHeader(h, tail)[33..] == tail
    ensures IsHeader(EncodeHeader(h, tail), h)
  {
    hide IsField;
    Widths();
    var c := h.config;
    var t8 := BigEndian(h.spaceIdx, 1) + tail;
    var t7 := BigEndian(h.size, 4) + t8;
    var t6 := BigEndian(c.mMax0, 4) + t7;
    var t5 := BigEndian(c.mMax, 4) + t6;
    var t4 := BigEndian(c.m, 4) + t5;
    var t3 := BigEndian(c.efConstruction, 4) + t4;
    var t2 := BigEndian(c.ef, 4) + t3;
    var t1 := BigEndian(c.levelMultiplier, 4) + t2;
    var out := EncodeHeader(h, tail);
    assert out[0..] == BigEndian(c.searchAlgorithm, 4) + t1;
    FieldFirst(out, 0, c.searchAlgorithm, 4, t1);
    FieldFirst(out, 4, c.levelMultiplier, 4, t2);
    FieldFirst(out, 8, c.ef, 4, t3);
    FieldFirst(out, 12, c.efConstruction, 4, t4);
    FieldFirst(out, 16, c.m, 4, t5);
    FieldFirst(out, 20, c.mMax, 4, t6);
    FieldFirst(out, 24, c.mMax0, 4, t7);
    FieldFirst(out, 28, h.size, 4, t8);
    FieldFirst(out, 32, h.spaceIdx, 1, tail);
  }

  /** The header carries neither of the two flags: they stay those of the receiver. */
  function Reloaded(saved: Config, receiver: Config): Config {
    saved.(heuristicExtendCandidates := receiver.heuristicExtendCandidates,
           heuristicKeepPruned := receiver.heuristicKeepPruned)
  }

  method SaveConfig(c: Config) returns (out: Bytes)
    ensures out == EncodeConfig(c, [])
  {
    out := BigEndian(c.searchAlgorithm, 4);
    out := out + BigEndian(c.levelMultiplier, 4);
    out := out + BigEndian(c.ef, 4);
    out := out + BigEndian(c.efConstruction, 4);
    out := out + BigEndian(c.m, 4);
    out := out + BigEndian(c.mMax, 4);
    out := out + BigEndian(c.mMax0, 4);
  }

  /** A signed 32-bit number that is not negative. */
  method ReadInt32(input: Bytes, ghost n: nat, ghost tail: Bytes) returns (r: Option<nat>, rest: Bytes)
    ensures input == BigEndian(n, 4) + tail && n < 0x8000_0000 ==> r == Some(n) && rest == tail
    ensures r.Some? ==> r.value < 0x8000_0000 && input == BigEndian(r.value, 4) + rest
  {
    Widths();
    r, rest := ReadNumber(input, 4, n, tail);
    if r.Some? && r.value >= 0x8000_0000 {
      r := None;
    }
  }

  function WithSizes(c: Config, sizes: (nat, nat, nat, nat, nat)): Config {
    c.(ef := sizes.0, efConstruction := sizes.1, m := sizes.2, mMax := sizes.3, mMax0 := sizes.4)
  }

  method LoadSizes(input: Bytes, ghost c: Config, ghost tail: Bytes)
    returns (sizes: Option<(nat, nat, nat, nat, nat)>, rest: Bytes)
    ensures sizes.Some? ==> var d := WithSizes(c, sizes.value);
                            input == EncodeSizes(d, rest) && ConfigFits(d.(searchAlgorithm := 0))
    ensures input == EncodeSizes(c, tail) && ConfigFits(c) ==>
              sizes == Some((c.ef, c.efConstruction, c.m, c.mMax, c.mMax0)) && rest == tail
  {
    sizes := None;
    var ef, efConstruction, m, mMax, mMax0;
    ghost var t4 := BigEndian(c.mMax0, 4) + tail;
    ghost var t3 := BigEndian(c.mMax, 4) + t4;
    ghost var t2 := BigEndian(c.m, 4) + t3;
    ghost var t1 := BigEndian(c.efConstruction, 4) + t2;
    ef, rest := ReadInt32(input, c.ef, t1);
    if ef.None? { return; }
    efConstruction, rest := ReadInt32(rest, c.efConstruction, t2);
    if efConstruction.None? { return; }
    m, rest := ReadInt32(rest, c.m, t3);
    if m.None? { return; }
    mMax, rest := ReadInt32(rest, c.mMax, t4);
    if mMax.None? { return; }
    mMax0, rest := ReadInt32(rest, c.mMax0, tail);
    if mMax0.None? { return; }
    sizes := Some((ef.value, efConstruction.value, m.value, mMax.value, mMax0.value));
  }

  /** A loaded config is the saved one exactly if the receiver had the same flags. */
  method LoadConfig(input: Bytes, receiver: Config, ghost saved: Config, ghost tail: Bytes)
    returns (r: Option<Config>, rest: Bytes)
    ensures r.Some? ==> input == EncodeConfig(r.value, rest) && ConfigFits(r.value)
    ensures input == EncodeConfig(saved, tail) && ConfigFits(saved) ==>
              r == Some(Reloaded(saved, receiver)) && rest == tail
    ensures input == EncodeConfig(saved, tail) && ConfigFits(saved) ==>
              (r == Some(saved) <==> saved.heuristicExtendCandidates == receiver.heuristicExtendCandidates
                                     && saved.heuristicKeepPruned == receiver.heuristicKeepPruned)
  {
    Widths();
    ghost var t2 := EncodeSizes(saved, tail);
    ghost var t1 := BigEndian(saved.levelMultiplier, 4) + t2;
    var searchAlgorithm, levelMultiplier, sizes;
    searchAlgorithm, rest := ReadNumber(input, 4, saved.searchAlgorithm, t1);
    if searchAlgorithm.None? {
      return None, [];
    }
    levelMultiplier, rest := ReadNumber(rest, 4, saved.levelMultiplier, t2);
    if levelMultiplier.None? {
      return None, [];
    }
    sizes, rest := LoadSizes(rest, saved, tail);
    if sizes.None? {
      return None, [];
    }
    var (ef, efConstruction, m, mMax, mMax0) := sizes.value;
    r := Some(Config.Config(searchAlgorithm.value, levelMultiplier.value, ef, efConstruction, m, mMax, mMax0,
                            receiver.heuristicExtendCandidates, receiver.heuristicKeepPruned));
  }

  method LoadHeader(input: Bytes, receiver: Config, ghost saved: Header, ghost tail: Bytes)
    returns (config: Option<Config>, size: nat, spaceIdx: nat, rest: Bytes)
    ensures config.Some? ==> var h := Header(config.value, size, spaceIdx);
                             input == EncodeHeader(h, rest) && HeaderFits(true, h)
    ensures input == EncodeHeader(saved, tail) && ConfigFits(saved.config) ==>
              saved.size < 0x1_0000_0000 && saved.spaceIdx < 0x100 ==>
              && config == Some(Reloaded(saved.config, receiver))
              && size == saved.size && spaceIdx == saved.spaceIdx && rest == tail
  {
    Widths();
    size, spaceIdx := 0, 0;
    var n, idx;
    config, rest := LoadConfig(input, receiver, saved.config, BigEndian(saved.size, 4) + (BigEndian(saved.spaceIdx,
            1) + tail));
    if config.None? {
      return;
    }
    n, rest := ReadNumber(rest, 4, saved.size, BigEndian(saved.spaceIdx, 1) + tail);
    if n.None? {
      return None, 0, 0, [];
    }
    idx, rest := ReadNumber(rest, 1, saved.spaceIdx, tail);
    if idx.None? {
      return None, 0, 0, [];
    }
    size, spaceIdx := n.value, idx.value;
  }

  // Saving

  ghost function HeaderOf(index: Hnsw): Header
    reads index
  {
    Header(index.config, index.size, SpaceIdx(index.space))
  }

  function Prefix(header: bool, h: Header, tail: Bytes): Bytes {
    if header then EncodeHeader(h, tail) else tail
  }

  lemma PrefixTail(header: bool, h: Header, tail: Bytes)
    ensures Prefix(header, h, tail) == Prefix(header, h, []) + tail
  {}

  /**
   * Save. An empty index is written as nothing, after the header if there is one; otherwise what is
   * written lists exactly what is live in the index. Without an entrypoint there is an error.
   */
  method Save(index: Hnsw, header: bool) returns (out: Option<Bytes>, ghost b: Body)
    requires index.Valid()
    ensures out.None? <==> index.len != 0 && index.entrypoint == null
    ensures index.len == 0 ==> out == Some(Prefix(header, HeaderOf(index), []))
    ensures index.len != 0 && out.Some? ==>
              && out.value == Prefix(header, HeaderOf(index), EncodeBody(b, []))
              && ListsIndex(b, index.vertices, index.table, Snap(index.all))
              && index.entrypoint != null && b.entrypoint == index.entrypoint.id
  {
    hide TableOk, WellFormed, DegreesOk, CountsOk, ListsIndex, EncodeBody, EncodeHeader, ShardsOk, Symmetric;
    ghost var h := HeaderOf(index);
    b := Body(seq(16, _ => 0), [], []);
    var head := [];
    if header {
      head := SaveHeader(index.config, index.size, SpaceIdx(index.space));
    }
    if index.len == 0 {
      return Some(head), b;
    }
    if index.entrypoint == null {
      return None, b;
    }
    var body;
    body, b := SaveBody(index.space, index.vertices, index.entrypoint, index.table, index.all);
    PrefixTail(header, h, body);
    out := Some(head + body);
  }

  method SaveHeader(config: Config, size: nat, spaceIdx: nat) returns (out: Bytes)
    ensures out == EncodeHeader(Header(config, size, spaceIdx), [])
  {
    out := SaveConfig(config);
    out := out + BigEndian(size, 4);
    out := out + BigEndian(spaceIdx, 1);
  }

  // Loading

  /** The body lists an index with these shards and this table. */
  ghost predicate ListsSound(b: Body, shards: seq<Table>, table: Table, g: Graph) {
    ListsIndex(b, shards, table, g) && ShardsOk(shards, table) && TableOk(table, g)
  }

  lemma ListsAreSharded(b: Body, shards: seq<Table>, table: Table, g: Graph)
    requires ListsSound(b, shards, table, g)
    ensures Sharded(b.shards)
  {
    hide ListsOwners, TableOk;
    forall i, id | 0 <= i < SHARD_COUNT && id in ItemIds(b.shards[i]) ensures ShardOf(id) == i {
      assert id in shards[i];
    }
  }

  lemma MadeIds(b: Body, shards0: seq<Table>, table0: Table, g0: Graph, shards: seq<Table>, table: Table)
    requires ListsSound(b, shards0, table0, g0) && AllMade(b.shards, shards) && ShardsOk(shards, table)
    ensures table.Keys == table0.Keys && Keyed(table)
    ensures forall i :: 0 <= i < SHARD_COUNT ==> shards[i].Keys == shards0[i].Keys
  {
    hide ListsOwners, TableOk;
    forall i | 0 <= i < SHARD_COUNT ensures shards[i].Keys == shards0[i].Keys {
      assert ListsShard(b.shards[i], shards0[i]) && ShardMade(b.shards[i], shards[i]);
    }
    forall id ensures id in table <==> id in table0 {
      ShardLookup(shards0, table0, id);
      ShardLookup(shards, table, id);
    }
    forall id | id in table ensures table[id].id == id {
      ShardLookup(shards, table, id);
      assert ShardMade(b.shards[ShardOf(id)], shards[ShardOf(id)]);
      MadeItem(b.shards[ShardOf(id)], shards[ShardOf(id)], id);
    }
  }

  lemma MadeItem(xs: seq<VertexItem>, shard: Table, id: Uuid)
    requires ShardMade(xs, shard) && id in shard
    ensures shard[id].id == id && exists i :: 0 <= i < |xs| && xs[i].id == id && Made(xs[i], shard[id])
  {
    assert id in ItemIds(xs);
    var i :| 0 <= i < |xs| && xs[i].id == id;
    assert Made(xs[i], shard[xs[i].id]);
  }

  lemma {:induction false} OwnerIdsSize(xs: seq<EdgesItem>)
    requires DistinctOwners(xs)
    ensures |OwnerIds(xs)| == |xs|
  {
    if xs == [] {
      assert OwnerIds(xs) == {};
    } else {
      var init, last := xs[..|xs| - 1], xs[|xs| - 1];
      OwnerIdsSize(init);
      OwnerIdsNext(init, last);
      assert xs == init + [last];
      forall i | 0 <= i < |init| ensures init[i].id != last.id {
        assert xs[i].id != xs[|xs| - 1].id;
      }
    }
  }

  lemma SameLevel(xs: seq<VertexItem>, shard0: Table, shard: Table, id: Uuid)
    requires ListsShard(xs, shard0) && ShardMade(xs, shard) && id in shard0
    ensures id in shard && shard[id].level == shard0[id].level
  {
    var i := ItemOf(xs, shard0, id);
    assert Made(xs[i], shard[xs[i].id]);
  }

  lemma OwnerIsGood(x: EdgesItem, table0: Table, g0: Graph, v0: Vertex, shards: seq<Table>, table: Table)
    requires ListsLevels(x, table0, g0, v0) && table.Keys == table0.Keys && ShardsOk(shards, table) && OwnerFits(x)
    ensures OwnerGood(x, shards, table)
  {
    forall l | 0 <= l < |x.levels| ensures Known(x.levels[l], table) {
      assert ListsEdges(x.levels[v0.level - (v0.level - l)], table0, LivePart(g0, EdgesAt(g0, v0, v0.level - l)));
    }
  }

  lemma OwnersAreGood(xs: seq<EdgesItem>, ys: seq<VertexItem>, shard0: Table, table0: Table, g0: Graph, shard: Table,
          shards: seq<Table>, table: Table)
    requires ListsOwners(xs, shard0, table0, g0) && ListsShard(ys, shard0) && ShardMade(ys, shard)
    requires table.Keys == table0.Keys && ShardsOk(shards, table) && forall j :: 0 <= j < |xs| ==> OwnerFits(xs[j])
    ensures OwnersGood(xs, shard, shards, table)
  {
    hide ListsLevels, OwnerGood, ShardsOk, DistinctIds;
    OwnerIdsSize(xs);
    assert shard.Keys == shard0.Keys == OwnerIds(xs);
    assert |shard| == |shard.Keys|;
    forall id | id in shard ensures shard[id].id == id {
      MadeItem(ys, shard, id);
    }
    forall j | 0 <= j < |xs|
      ensures xs[j].id in shard && |xs[j].levels| == shard[xs[j].id].level + 1 && OwnerGood(xs[j], shards, table)
    {
      assert xs[j].id in OwnerIds(xs);
      SameLevel(ys, shard0, shard, xs[j].id);
      LevelsOf(xs[j], table0, g0, shard0[xs[j].id]);
      OwnerIsGood(xs[j], table0, g0, shard0[xs[j].id], shards, table);
    }
  }

  lemma LevelsOf(x: EdgesItem, table: Table, g: Graph, v: Vertex)
    requires ListsLevels(x, table, g, v)
    ensures |x.levels| == v.level + 1
  {}

  /** The edge lists can be read into the vertices that were made from the vertex lists. */
  lemma EdgesAreGood(b: Body, size: nat, shards0: seq<Table>, table0: Table, g0: Graph, shards: seq<Table>,
          table: Table)
    requires ListsSound(b, shards0, table0, g0) && BodyFits(b, size)
    requires AllMade(b.shards, shards) && ShardsOk(shards, table)
    ensures EdgesGood(b.edges, shards, table) && |b.edges| == |shards| && table.Keys == table0.Keys
  {
    MadeIds(b, shards0, table0, g0, shards, table);
    hide ListsOwners, ListsShard, ShardMade, OwnersGood, OwnerFits, TableOk, ShardFits;
    forall i | 0 <= i < SHARD_COUNT ensures OwnersGood(b.edges[i], shards[i], shards, table) {
      assert ListsOwners(b.edges[i], shards0[i], table0, g0) && ListsShard(b.shards[i], shards0[i]);
      assert ShardMade(b.shards[i], shards[i]);
      OwnersAreGood(b.edges[i], b.shards[i], shards0[i], table0, g0, shards[i], shards, table);
    }
  }

  lemma NoEdgesYet(lists: seq<seq<EdgesItem>>, shards: seq<Table>, table: Table, made: set<Vertex>)
    requires EdgesGood(lists, shards, table) && AllBare(made) && forall i :: 0 <= i < SHARD_COUNT ==>
               Inside(shards[i], made)
    ensures EdgesLoaded(lists, 0, shards, table, Snap(made)) && Shaped(made)
  {
    hide OwnerGood;
    forall i | 0 <= i < SHARD_COUNT ensures OwnersLoaded(lists[i], 0, shards[i], table, Snap(made)) {
      assert OwnersGood(lists[i], shards[i], shards, table) && Inside(shards[i], made);
    }
  }

  // What has been loaded

  /** The loaded edges of a vertex are those listed for it. */
  lemma LoadedLevels(x: EdgesItem, table0: Table, g0: Graph, v0: Vertex, table: Table, g: Graph, v: Vertex)
    requires ListsLevels(x, table0, g0, v0) && v0.level == v.level && table.Keys == table0.Keys
    requires JustTable(table, g) && v in g && g[v] == Node(false, EdgesOf(x, table))
    ensures ListsLevels(x, table, g, v)
    ensures forall l: nat, u :: u in EdgesAt(g, v, l) ==> u in g
  {
    forall l: nat | l <= v.level
      ensures ListsEdges(x.levels[v.level - l], table, LivePart(g, EdgesAt(g, v, l)))
      ensures EdgesAt(g, v, l).Keys <= g.Keys
    {
      var es := x.levels[v.level - l];
      assert ListsEdges(es, table0, LivePart(g0, EdgesAt(g0, v0, l)));
      LoadedLevel(es, table, g);
      assert EdgesAt(g, v, l) == AsEdges(es, table);
    }
  }

  lemma LoadedLevel(es: seq<EdgeItem>, table: Table, g: Graph)
    requires JustTable(table, g) && DistinctTargets(es) && Known(es, table)
    ensures AsEdges(es, table).Keys <= g.Keys && LivePart(g, AsEdges(es, table)) == AsEdges(es, table)
  {
    AsEdgesHas(es, table, seq(16, _ => 0), 0);
    forall u | u in AsEdges(es, table) ensures u in g {
      assert Listed(table, u);
    }
  }

  lemma LoadedOwners(xs: seq<EdgesItem>, ys: seq<VertexItem>, shard0: Table, table0: Table, g0: Graph, shard: Table,
          table: Table, g1: Graph, g: Graph)
    requires ListsOwners(xs, shard0, table0, g0) && ListsShard(ys, shard0) && ShardMade(ys, shard)
    requires table.Keys == table0.Keys && JustTable(table, g) && shard.Values <= table.Values
    requires OwnersLoaded(xs, |xs|, shard, table, g1) && forall v :: v in g ==> v in g1 && g[v] == g1[v]
    ensures ListsOwners(xs, shard, table, g)
    ensures forall id, l: nat, u :: id in shard && u in EdgesAt(g, shard[id], l) ==> u in g
  {
    hide ListsLevels, EdgesOf, EdgesAt, DistinctIds;
    forall j | 0 <= j < |xs|
      ensures xs[j].id in shard && ListsLevels(xs[j], table, g, shard[xs[j].id])
      ensures forall l: nat, u :: u in EdgesAt(g, shard[xs[j].id], l) ==> u in g
    {
      assert xs[j].id in OwnerIds(xs);
      SameLevel(ys, shard0, shard, xs[j].id);
      LoadedLevels(xs[j], table0, g0, shard0[xs[j].id], table, g, shard[xs[j].id]);
    }
    forall id, l: nat, u | id in shard && u in EdgesAt(g, shard[id], l) ensures u in g {
      var j := OwnerOf(xs, shard, table, g, id);
      assert xs[j].id == id;
    }
  }

  /** Edges stay in the graph. */
  ghost predicate StaysInside(g: Graph) {
    forall v, l: nat, u :: v in g && u in EdgesAt(g, v, l) ==> u in g
  }

  lemma ShardValues(shards: seq<Table>, table: Table, i: nat)
    requires ShardsOk(shards, table) && i < SHARD_COUNT
    ensures shards[i].Values <= table.Values
  {
    forall v | v in shards[i].Values ensures v in table.Values {
      var id :| id in shards[i] && shards[i][id] == v;
      assert table[id] == v;
    }
  }

  lemma LoadedIsListed(b: Body, shards0: seq<Table>, table0: Table, g0: Graph, shards: seq<Table>, table: Table,
          g1: Graph, g: Graph)
    requires ListsSound(b, shards0, table0, g0) && AllMade(b.shards, shards)
    requires ShardsOk(shards, table) && JustTable(table, g)
    requires |b.edges| == |shards| && EdgesLoaded(b.edges, SHARD_COUNT, shards, table, g1)
    requires forall v :: v in g ==> v in g1 && g[v] == g1[v]
    ensures ListsIndex(b, shards, table, g) && StaysInside(g)
  {
    MadeIds(b, shards0, table0, g0, shards, table);
    hide ListsShard, ListsOwners, ShardMade, OwnersLoaded, JustTable, TableOk, EdgesAt;
    forall i | 0 <= i < SHARD_COUNT
      ensures ListsShard(b.shards[i], shards[i]) && ListsOwners(b.edges[i], shards[i], table, g)
      ensures forall id, l: nat, u :: id in shards[i] && u in EdgesAt(g, shards[i][id], l) ==> u in g
    {
      assert ListsOwners(b.edges[i], shards0[i], table0, g0) && ListsShard(b.shards[i], shards0[i]);
      assert ShardMade(b.shards[i], shards[i]) && OwnersLoaded(b.edges[i], |b.edges[i]|, shards[i], table, g1);
      ListedItemsAreDistinct(b.shards[i], shards0[i]);
      ShardMadeIsListed(b.shards[i], shards[i]);
      ShardValues(shards, table, i);
      LoadedOwners(b.edges[i], b.shards[i], shards0[i], table0, g0, shards[i], table, g1, g);
    }
    forall v, l: nat, u | v in g && u in EdgesAt(g, v, l) ensures u in g {
      var id := IdIn(table, g, v);
      ShardLookup(shards, table, id);
      assert shards[ShardOf(id)][id] == v;
    }
  }

  lemma IdIn(table: Table, g: Graph, v: Vertex) returns (id: Uuid)
    requires JustTable(table, g) && v in g
    ensures id in table && table[id] == v
  {
    id :| id in table && table[id] == v;
  }

  lemma ListedItemsAreDistinct(xs: seq<VertexItem>, shard: Table)
    requires ListsShard(xs, shard)
    ensures forall i :: 0 <= i < |xs| ==> M.DistinctKeys(xs[i].kvs)
  {
    forall i | 0 <= i < |xs| ensures M.DistinctKeys(xs[i].kvs) {
      assert Describes(xs[i], shard[xs[i].id]);
    }
  }

  /** Everything in the index after loading; bytes0 is what the byte counter was before. */
  ghost predicate Loaded(b: Body, shards: seq<Table>, table: Table, g: Graph, entrypoint: Vertex?, len: nat,
          bytesSize: nat, bytes0: nat) {
    && ListsIndex(b, shards, table, g) && ShardsOk(shards, table) && JustTable(table, g) && StaysInside(g)
    && entrypoint == (if b.entrypoint in table then table[b.entrypoint] else null)
    && len == Wrap64(|table|) && bytesSize == Wrap64(bytes0 + TableBytes(table))
  }

  /** What a loader may be given: the bytes written for a sound index whose sizes fit. */
  ghost predicate SavedBody(input: Bytes, b: Body, tail: Bytes, size: nat, shards0: seq<Table>, table0: Table,
          g0: Graph) {
    input == EncodeBody(b, tail) && BodyFits(b, size) && ListsSound(b, shards0, table0, g0)
  }

  lemma MadeJustTable(b: Body, shards0: seq<Table>, table0: Table, g0: Graph, shards: seq<Table>, table: Table,
          made: set<Vertex>)
    requires ListsSound(b, shards0, table0, g0) && AllMade(b.shards, shards) && ShardsOk(shards, table)
    requires Shaped(made) && forall i :: 0 <= i < SHARD_COUNT ==> Inside(shards[i], made)
    ensures table.Values <= made && JustTable(table, Snap(table.Values))
  {
    MadeIds(b, shards0, table0, g0, shards, table);
    forall v | v in table.Values ensures v in made {
      var id :| id in table && table[id] == v;
      ShardLookup(shards, table, id);
      assert Inside(shards[ShardOf(id)], made);
    }
  }

  /** What has been read is what the body lists, with its length and bytes. */
  ghost predicate GraphRead(b: Body, shards: seq<Table>, table: Table, g: Graph, len: nat, bytes: nat) {
    && ListsIndex(b, shards, table, g) && ShardsOk(shards, table) && JustTable(table, g) && StaysInside(g)
    && len == |table| && bytes == TableBytes(table)
  }

  /** The vertices and edges of a body, read into new vertices. */
  method LoadGraph(input: Bytes, size: nat, ghost b: Body, ghost tail: Bytes, ghost shards0: seq<Table>,
          ghost table0: Table, ghost g0: Graph)
    returns (shards: Option<seq<Table>>, len: nat, bytes: nat, rest: Bytes, ghost table: Table, ghost read: Body)
    ensures shards.Some? ==> |shards.value| == SHARD_COUNT
    ensures shards.Some? ==> read.entrypoint + input == EncodeBody(read, rest) && BodyFits(read, size)
    ensures b.entrypoint + input == EncodeBody(b, tail) && BodyFits(b, size) && ListsSound(b, shards0, table0, g0) ==>
              && shards.Some? && rest == tail && fresh(table.Values)
              && GraphRead(b, shards.value, table, Snap(table.Values), len, bytes)
  {
    hide EncodeShard, EncodeOwners, ListsIndex, EdgesGood, ShardsOk, JustTable, TableBytes, Inside, TableOk,
         StaysInside, Snap;
    ghost var good := b.entrypoint + input == EncodeBody(b, tail) && BodyFits(b, size)
                      && ListsSound(b, shards0, table0, g0);
    ghost var edgesPart := E.EncodeAll(EncodeOwners, b.edges, tail);
    if good {
      assert input == E.EncodeAll(EncodeShard, b.shards, edgesPart) by {
        assert (b.entrypoint + input)[16..] == input;
        assert EncodeBody(b, tail)[16..] == E.EncodeAll(EncodeShard, b.shards, edgesPart);
      }
      ListsAreSharded(b, shards0, table0, g0);
    }

    ghost var made;
    ghost var lists, owners;
    read := b;
    shards, len, bytes, rest, made, table, lists := LoadVertices(input, size, b.shards, edgesPart);
    if shards.None? {
      return None, 0, 0, [], table, read;
    }
    if good {
      EdgesAreGood(b, size, shards0, table0, g0, shards.value, table);
      NoEdgesYet(b.edges, shards.value, table, made);
    }
    BareIsShaped(made);
    var ok;
    ok, rest, owners := LoadEdges(rest, shards.value, made, table, b.edges, tail);
    if !ok {
      return None, 0, 0, [], table, read;
    }
    read := Body(b.entrypoint, lists, owners);
    OwnersFit(owners, shards.value);
    if good {
      MadeJustTable(b, shards0, table0, g0, shards.value, table, made);
      SnapOfPart(table.Values, made);
      LoadedIsListed(b, shards0, table0, g0, shards.value, table, Snap(made), Snap(table.Values));
    }
  }

  lemma OwnersFit(owners: seq<seq<EdgesItem>>, shards: seq<Table>)
    requires |owners| == |shards| && forall i :: 0 <= i < |owners| ==> AreOwners(owners[i], shards[i])
    ensures forall i, j :: 0 <= i < |owners| && 0 <= j < |owners[i]| ==> OwnerFits(owners[i][j])
  {}

  lemma SnapOfPart(part: set<Vertex>, all: set<Vertex>)
    requires part <= all
    ensures forall v :: v in Snap(part) ==> v in Snap(all) && Snap(part)[v] == Snap(all)[v]
  {}

  lemma BareIsShaped(made: set<Vertex>)
    requires AllBare(made)
    ensures Shaped(made)
  {}

  /** What the caller gave to Load: what Save wrote. */
  ghost predicate Saved(input: Bytes, header: bool, h: Header, b: Body, tail: Bytes, size: nat, shards0: seq<Table>,
          table0: Table, g0: Graph) {
    && input == Prefix(header, h, EncodeBody(b, tail))
    && BodyFits(b, if header then h.size else size) && ListsSound(b, shards0, table0, g0)
  }

  method LoadHeaderInto(index: Hnsw, input: Bytes, spaces: Spaces, ghost h: Header, ghost tail: Bytes)
    returns (err: Option<StorageError>, rest: Bytes, ghost read: Header)
    modifies index`config, index`size, index`space
    ensures err.None? ==>
              && input == EncodeHeader(read, rest) && HeaderFits(true, read)
              && IsRead(spaces, read.spaceIdx, Some(index.space))
              && read.config == index.config && read.size == index.size
    ensures input == EncodeHeader(h, tail) && HeaderFits(true, h) ==>
              && index.config == Reloaded(h.config, old(index.config))
              && (err.None? || err == Some(InvalidSpaceType))
              && IsRead(spaces, h.spaceIdx, if err.None? then Some(index.space) else None)
              && (err.None? ==> rest == tail && index.size == h.size)
  {
    var config, size, spaceIdx;
    config, size, spaceIdx, rest := LoadHeader(input, index.config, h, tail);
    read := h;
    if config.None? {
      return Some(Malformed), [], read;
    }
    index.config := config.value;
    var space := spaces.At(spaceIdx);
    if space.None? {
      return Some(InvalidSpaceType), [], read;
    }
    read := Header(config.value, size, spaceIdx);
    index.size, index.space := size, space.value;
    err := None;
  }

  /** The body: afterwards the index holds what is listed, and nothing else, except for the byte counter. */
  method LoadBody(index: Hnsw, input: Bytes, ghost b: Body, ghost tail: Bytes, ghost shards0: seq<Table>,
          ghost table0: Table, ghost g0: Graph)
    returns (err: Option<StorageError>, rest: Bytes, ghost read: Body)
    modifies index`vertices, index`len, index`bytesSize, index`entrypoint, index`all, index`table
    ensures err.None? ==> input == EncodeBody(read, rest) && BodyFits(read, index.size)
    ensures SavedBody(input, b, tail, index.size, shards0, table0, g0) ==>
              && err.None? && rest == tail && index.all == index.table.Values && fresh(index.all)
              && Loaded(b, index.vertices, index.table, Snap(index.all), index.entrypoint, index.len, index.bytesSize,
                        old(index.bytesSize))
    ensures |input| < 16 ==> err == Some(Malformed)
  {
    hide EncodeBody, BodyFits, ListsSound, ListsIndex, JustTable, StaysInside, Wrap64, Snap, TableBytes, Loaded,
         GraphRead;
    var entrypointId, shards, len, bytes;
    ghost var table;
    BodyStart(b, tail);
    entrypointId, rest := ReadBytes(input, 16, b.entrypoint, EncodeBody(b, tail)[16..]);
    read := b;
    if entrypointId.None? {
      return Some(Malformed), [], read;
    }
    ghost var graph;
    ghost var after := rest;
    shards, len, bytes, rest, table, graph := LoadGraph(rest, index.size, b, tail, shards0, table0, g0);
    if shards.None? {
      return Some(Malformed), [], read;
    }
    read := Body(entrypointId.value, graph.shards, graph.edges);
    OtherEntrypoint(graph, read, after, rest, index.size);
    Install(index, entrypointId.value, shards.value, len, bytes, b, table);
    err := None;
  }

  /** The entrypoint is what comes first, and has no influence on the rest. */
  lemma OtherEntrypoint(a: Body, b: Body, input: Bytes, tail: Bytes, size: nat)
    requires a.entrypoint + input == EncodeBody(a, tail) && b == Body(b.entrypoint, a.shards, a.edges)
    ensures b.entrypoint + input == EncodeBody(b, tail) && (BodyFits(a, size) ==> BodyFits(b, size))
  {
    assert (a.entrypoint + input)[16..] == input;
    assert EncodeBody(a, tail)[16..] == E.EncodeAll(EncodeShard, a.shards, E.EncodeAll(EncodeOwners, a.edges, tail));
  }

  function Lookup(shards: seq<Table>, id: Uuid): Vertex?
    requires |shards| == SHARD_COUNT
  {
    var s := shards[ShardOf(id)];
    if id in s then s[id] else null
  }

  lemma GraphReadIsLoaded(b: Body, shards: seq<Table>, table: Table, g: Graph, len: nat, bytes: nat, bytes0: nat)
    requires |shards| == SHARD_COUNT && GraphRead(b, shards, table, g, len, bytes)
    ensures Loaded(b, shards, table, g, Lookup(shards, b.entrypoint), Wrap64(len), Wrap64(bytes0 + bytes), bytes0)
  {
    hide ListsIndex, JustTable, StaysInside, Wrap64, TableBytes;
    ShardLookup(shards, table, b.entrypoint);
  }

  /** Give the index its new shards, counters and entrypoint. */
  method Install(index: Hnsw, entrypointId: Uuid, shards: seq<Table>, len: nat, bytes: nat, ghost b: Body,
          ghost table: Table)
    requires |shards| == SHARD_COUNT
    modifies index`vertices, index`len, index`bytesSize, index`entrypoint, index`all, index`table
    ensures index.table == table && index.all == table.Values
    ensures entrypointId == b.entrypoint && GraphRead(b, shards, table, old(Snap(table.Values)), len, bytes) ==>
              Loaded(b, index.vertices, index.table, Snap(index.all), index.entrypoint, index.len, index.bytesSize,
                     old(index.bytesSize))
  {
    hide GraphRead, Loaded, Wrap64, Snap;
    if entrypointId == b.entrypoint && GraphRead(b, shards, table, Snap(table.Values), len, bytes) {
      GraphReadIsLoaded(b, shards, table, Snap(table.Values), len, bytes, index.bytesSize);
    }
    index.vertices := shards;
    index.len, index.bytesSize := Wrap64(len), Wrap64(index.bytesSize + bytes);
    index.table, index.all := table, table.Values;
    index.entrypoint := Lookup(shards, entrypointId);
  }

  lemma BodyIsNotEmpty(header: bool, h: Header, b: Body, tail: Bytes)
    ensures Prefix(header, h, EncodeBody(b, tail)) != Prefix(header, h, [])
  {
    PrefixTail(header, h, EncodeBody(b, tail));
  }

  lemma BodyStart(b: Body, tail: Bytes)
    ensures EncodeBody(b, tail) == b.entrypoint + EncodeBody(b, tail)[16..]
  {}

  /**
   * Load. From what Save wrote for a sound index whose sizes fit, the receiver gets an index that the
   * same body lists, and exactly the bytes of it are consumed. The byte counter is added to, not set. With a
   * header, it gets the Euclidean, Manhattan or cosine space for the byte 1, 2 or 3, and fails for any other. An
   * empty body cannot be read.
   */
  method Load(index: Hnsw, input: Bytes, header: bool, spaces: Spaces, ghost h: Header, ghost b: Body,
          ghost tail: Bytes, ghost shards0: seq<Table>, ghost table0: Table, ghost g0: Graph)
    returns (err: Option<StorageError>, rest: Bytes, ghost read: Body, ghost readHeader: Header)
    modifies index
    ensures err.None? ==> input == Prefix(header, readHeader, EncodeBody(read, rest)) && BodyFits(read, index.size)
    ensures err.None? && header ==>
              && HeaderFits(header, readHeader) && IsRead(spaces, readHeader.spaceIdx, Some(index.space))
              && readHeader.config == index.config && readHeader.size == index.size
    ensures Saved(input, header, h, b, tail, old(index.size), shards0, table0, g0) && HeaderFits(header, h) ==>
              err == if header && h.spaceIdx !in {1, 2, 3} then Some(InvalidSpaceType) else None
    ensures Saved(input, header, h, b, tail, old(index.size), shards0, table0, g0) && HeaderFits(header, h) &&
            err.None? ==>
              && rest == tail && index.all == index.table.Values && fresh(index.all)
              && Loaded(b, index.vertices, index.table, Snap(index.all), index.entrypoint, index.len, index.bytesSize,
                        old(index.bytesSize))
              && index.config == (if header then Reloaded(h.config, old(index.config)) else old(index.config))
              && index.size == (if header then h.size else old(index.size))
              && (if header then IsRead(spaces, h.spaceIdx, Some(index.space)) else index.space == old(index.space))
    ensures input == Prefix(header, h, []) && HeaderFits(header, h) ==>
              err == Some(if header && h.spaceIdx !in {1, 2, 3} then InvalidSpaceType else Malformed)
  {
    hide EncodeBody, EncodeHeader, BodyFits, ListsSound, Loaded, Snap;
    rest, read, readHeader := input, b, h;
    BodyIsNotEmpty(header, h, b, tail);
    if header {
      ghost var saved := Saved(input, header, h, b, tail, index.size, shards0, table0, g0);
      err, rest, readHeader := LoadHeaderInto(index, input, spaces, h, if saved then EncodeBody(b, tail) else []);
      if err.Some? {
        return;
      }
    }
    err, rest, read := LoadBody(index, rest, b, tail, shards0, table0, g0);
  }
}
