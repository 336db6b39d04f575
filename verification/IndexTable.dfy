/** The sharded id table of the index and its counters. */
module IndexTable {
  import opened Common
  import opened Uuids
  import opened Graphs
  import opened Linking

  type Table = map<Uuid, Vertex>

  /** The entries of the table that belong to shard i. */
  function Shard(table: Table, i: nat): Table {
    table - set id | id in table && ShardOf(id) != i
  }

  ghost predicate ShardsOk(shards: seq<Table>, table: Table) {
    |shards| == SHARD_COUNT && forall i :: 0 <= i < SHARD_COUNT ==> shards[i] == Shard(table, i)
  }

  /** Every id names its own vertex. */
  ghost predicate Keyed(table: Table) {
    forall id :: id in table ==> table[id].id == id
  }

  /** The table has v under its id. */
  ghost predicate Listed(table: Table, v: Vertex) {
    v.id in table && table[v.id] == v
  }

  /** The table holds exactly the vertices that are not deleted, each under its id. */
  ghost predicate TableOk(table: Table, g: Graph) {
    && (forall id :: id in table ==> table[id] in g && table[id].id == id && !g[table[id]].deleted)
    && (forall v {:trigger Listed(table, v)} :: v in g && !g[v].deleted ==> Listed(table, v))
  }

  lemma ShardLookup(shards: seq<Table>, table: Table, id: Uuid)
    requires ShardsOk(shards, table)
    ensures id in shards[ShardOf(id)] <==> id in table
    ensures id in table ==> shards[ShardOf(id)][id] == table[id]
  {}

  lemma ShardStore(table: Table, id: Uuid, v: Vertex, home: nat, i: nat)
    requires home == ShardOf(id)
    ensures Shard(table[id := v], i) == if i == home then Shard(table, i)[id := v] else Shard(table, i)
  {}

  lemma ShardDelete(table: Table, id: Uuid, home: nat, i: nat)
    requires home == ShardOf(id)
    ensures Shard(table - {id}, i) == if i == home then Shard(table, i) - {id} else Shard(table, i)
  {}

  lemma ShardsStore(shards: seq<Table>, table: Table, id: Uuid, v: Vertex, home: nat)
    requires ShardsOk(shards, table) && home == ShardOf(id)
    ensures ShardsOk(shards[home := Shard(table, home)[id := v]], table[id := v])
  {
    var after := shards[home := Shard(table, home)[id := v]];
    forall i | 0 <= i < SHARD_COUNT ensures after[i] == Shard(table[id := v], i) {
      ShardStore(table, id, v, home, i);
    }
  }

  lemma ShardsDelete(shards: seq<Table>, table: Table, id: Uuid, home: nat)
    requires ShardsOk(shards, table) && home == ShardOf(id)
    ensures ShardsOk(shards[home := Shard(table, home) - {id}], table - {id})
  {
    var after := shards[home := Shard(table, home) - {id}];
    forall i | 0 <= i < SHARD_COUNT ensures after[i] == Shard(table - {id}, i) {
      ShardDelete(table, id, home, i);
    }
  }

  lemma TableStore(table: Table, g: Graph, v: Vertex, node: Node)
    requires TableOk(table, g) && v !in g && v.id !in table && !node.deleted
    ensures TableOk(table[v.id := v], g[v := node])
  {
    var t, h := table[v.id := v], g[v := node];
    forall w | w in h && !h[w].deleted ensures Listed(t, w) {
      assert w == v || Listed(table, w);
    }
  }

  lemma TableDelete(table: Table, g: Graph, id: Uuid)
    requires TableOk(table, g) && id in table
    ensures TableOk(table - {id}, g[table[id] := Node(true, g[table[id]].edges)])
  {
    var t, h := table - {id}, g[table[id] := Node(true, g[table[id]].edges)];
    forall w | w in h && !h[w].deleted ensures Listed(t, w) {
      assert Listed(table, w);
    }
  }

  lemma TableSameNodes(table: Table, g0: Graph, g: Graph)
    requires TableOk(table, g0) && SameNodes(g0, g)
    ensures TableOk(table, g)
  {}

  // Sizes

  const VECTOR_COMPONENT_BYTES: nat := 4

  ghost function MetadataBytes(m: Metadata): nat {
    if m == map[] then 0
    else
      var k :| k in m;
      |k| + |m[k]| + MetadataBytes(m - {k})
  }

  lemma {:induction false} MetadataBytesRemove(m: Metadata, k: Bytes)
    requires k in m
    ensures MetadataBytes(m) == |k| + |m[k]| + MetadataBytes(m - {k})
    decreases |m|
  {
    var first :| first in m && MetadataBytes(m) == |first| + |m[first]| + MetadataBytes(m - {first});
    if first != k {
      MetadataBytesRemove(m - {first}, k);
      MetadataBytesRemove(m - {k}, first);
      assert m - {first} - {k} == m - {k} - {first};
    }
  }

  /** The sum does not depend on the order in which the map is walked. */
  method MetadataBytesSize(m: Metadata) returns (n: nat)
    ensures n == MetadataBytes(m)
  {
    n := 0;
    var rest := m;
    while rest.Keys != {}
      invariant n + MetadataBytes(rest) == MetadataBytes(m)
      decreases |rest|
    {
      var k :| k in rest.Keys;
      MetadataBytesRemove(rest, k);
      n := n + |k| + |rest[k]|;
      rest := rest - {k};
    }
    assert rest == map[];
  }

  /** bytesSize of a vertex: id, vector components, and the keys and values of its metadata. */
  ghost function VertexBytes(v: Vertex): nat {
    16 + VECTOR_COMPONENT_BYTES * |v.vector| + MetadataBytes(v.metadata)
  }

  method BytesSize(v: Vertex) returns (n: nat)
    ensures n == VertexBytes(v)
  {
    var metadataBytes := MetadataBytesSize(v.metadata);
    n := 16 + VECTOR_COMPONENT_BYTES * |v.vector| + metadataBytes;
  }

  ghost function TableBytes(table: Table): nat {
    if table == map[] then 0
    else
      var id :| id in table;
      VertexBytes(table[id]) + TableBytes(table - {id})
  }

  lemma {:induction false} TableBytesRemove(table: Table, id: Uuid)
    requires id in table
    ensures TableBytes(table) == VertexBytes(table[id]) + TableBytes(table - {id})
    decreases |table|
  {
    var first :| first in table && TableBytes(table) == VertexBytes(table[first]) + TableBytes(table - {first});
    if first != id {
      TableBytesRemove(table - {first}, id);
      TableBytesRemove(table - {id}, first);
      assert table - {first} - {id} == table - {id} - {first};
    }
  }

  // 64-bit arithmetic

  function Wrap64(a: nat): nat { a % TWO_TO_THE_64 }

  function Add64(a: nat, b: nat): nat { Wrap64(a + b) }

  /** The bitwise complement of a 64-bit value. */
  function Not64(a: nat): nat { TWO_TO_THE_64 - 1 - Wrap64(a) }

  /** Values that differ by a multiple of 2^64 wrap to the same value. */
  lemma WrapShift(a: nat, b: nat, k: int)
    requires a == b + TWO_TO_THE_64 * k
    ensures Wrap64(a) == Wrap64(b)
  {
    RemainderIsUnique(a, TWO_TO_THE_64, b / TWO_TO_THE_64 + k, b % TWO_TO_THE_64);
  }

  lemma AddAgain(total: nat, b: nat)
    ensures Add64(Wrap64(total), b) == Wrap64(total + b)
  {
    WrapShift(Wrap64(total) + b, total + b, 0 - total / TWO_TO_THE_64);
  }

  /** Adding the complement of b - 1 subtracts b. */
  lemma AddComplement(total: nat, b: nat)
    requires 0 < b <= total
    ensures Add64(Wrap64(total), Not64(b - 1)) == Wrap64(total - b)
  {
    WrapShift(Wrap64(total) + Not64(b - 1), total - b, (b - 1) / TWO_TO_THE_64 + 1 - total / TWO_TO_THE_64);
  }

  /** The counters of the index: how many vertices it holds, and their bytes. */
  ghost predicate CountsOk(table: Table, len: nat, bytesSize: nat) {
    len == Wrap64(|table|) && bytesSize == Wrap64(TableBytes(table))
  }

  lemma TableShrinks(table: Table, id: Uuid)
    requires id in table
    ensures |table - {id}| == |table| - 1
    ensures TableBytes(table - {id}) == TableBytes(table) - VertexBytes(table[id])
  {
    TableBytesRemove(table, id);
    assert table.Keys == (table - {id}).Keys + {id};
  }

  lemma StoreKeepsCounts(table: Table, len: nat, bytesSize: nat, after: Table, id: Uuid)
    requires CountsOk(table, len, bytesSize) && id in after && table == after - {id}
    ensures CountsOk(after, Add64(len, 1), Add64(bytesSize, VertexBytes(after[id])))
  {
    TableShrinks(after, id);
    AddAgain(|table|, 1);
    AddAgain(TableBytes(table), VertexBytes(after[id]));
  }

  lemma DeleteKeepsCounts(table: Table, len: nat, bytesSize: nat, id: Uuid)
    requires CountsOk(table, len, bytesSize) && id in table
    ensures CountsOk(table - {id}, Add64(len, Not64(0)), Add64(bytesSize, Not64(VertexBytes(table[id]) - 1)))
  {
    TableShrinks(table, id);
    AddComplement(|table|, 1);
    AddComplement(TableBytes(table), VertexBytes(table[id]));
  }
}
