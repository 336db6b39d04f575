/** The two neighbour selection algorithms of index/hnsw.go, without candidate extension. */
module Selection {
  import opened PriorityQueues
  import opened Nearest

  /** selectNeighbors: drop the farthest until k are left. */
  method SelectNeighbors<T>(neighbors: PriorityQueue<T>, k: nat)
    requires neighbors.Valid() && neighbors.isMax
    modifies neighbors`len, neighbors.buf
    ensures neighbors.Valid() && IsNearest(old(neighbors.Items()), k, neighbors.Items())
  {
    ghost var all := neighbors.Items();
    while neighbors.len > k
      invariant neighbors.Valid() && |neighbors.Items()| == neighbors.len
      invariant IsNearest(all, neighbors.len, neighbors.Items())
      invariant neighbors.len >= k || neighbors.len == |all|
    {
      ghost var before := neighbors.Items();
      var far := neighbors.Pop();
      DropFarthest(all, before, far);
    }
  }

  /** Move the nearest candidate over to the result. */
  method MoveNearest<T>(from: PriorityQueue<T>, to: PriorityQueue<T>, ghost all: multiset<Item<T>>)
    requires from != to && from.buf != to.buf && from.Valid() && to.Valid() && !from.isMax && to.isMax
    requires from.len > 0 && IsNearerPart(all, to.Items(), from.Items())
    modifies from`len, from.buf, to, to.buf
    ensures from.Valid() && to.Valid() && from.len == old(from.len) - 1 && to.len == old(to.len) + 1
    ensures to.buf == old(to.buf) || fresh(to.buf)
    ensures IsNearerPart(all, to.Items(), from.Items())
  {
    ghost var taken, rest := to.Items(), from.Items();
    var near := from.Pop();
    TakeNearest(all, taken, rest, near);
    assert from.Items() == rest - multiset{near};
    to.Push(near);
  }

  /** The loop of selectNeighborsHeuristic: take the nearest while there are fewer than k. */
  method TakeUpTo<T>(from: PriorityQueue<T>, to: PriorityQueue<T>, k: nat, ghost all: multiset<Item<T>>)
    requires from != to && from.buf != to.buf && from.Valid() && to.Valid() && !from.isMax && to.isMax
    requires to.len <= k && IsNearerPart(all, to.Items(), from.Items())
    modifies from`len, from.buf, to, to.buf
    ensures from.Valid() && to.Valid()
    ensures to.buf == old(to.buf) || fresh(to.buf)
    ensures to.len == k || (to.len < k && from.len == 0)
    ensures IsNearerPart(all, to.Items(), from.Items())
  {
    while from.len > 0 && to.len < k
      invariant from.Valid() && to.Valid()
      invariant to.buf == old(to.buf) || fresh(to.buf)
      invariant to.len <= k && IsNearerPart(all, to.Items(), from.Items())
      decreases from.len
    {
      MoveNearest(from, to, all);
    }
  }

  /** selectNeighborsHeuristic with extendCandidates off: re-heapify nearest first, take k. */
  method SelectNeighborsHeuristic<T>(neighbors: PriorityQueue<T>, k: nat, keepPruned: bool)
    returns (result: PriorityQueue<T>)
    requires neighbors.Valid() && neighbors.isMax
    modifies neighbors.buf
    ensures fresh(result) && fresh(result.buf) && result.Valid() && result.isMax
    ensures IsNearest(old(neighbors.Items()), k, result.Items())
  {
    ghost var all := neighbors.Items();
    var candidateVertices := neighbors.Reverse();
    result := new PriorityQueue(true);
    TakeUpTo(candidateVertices, result, k, all);
    if keepPruned {
      TakeUpTo(candidateVertices, result, k, all);
    }
    assert |result.Items()| == result.len;
    NearerPartIsNearest(all, k, result.Items(), candidateVertices.Items());
  }
}
