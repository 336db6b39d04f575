/** Binary heaps over a shared backing array: utils/priority_queue.go and Go's container/heap. */
module PriorityQueues {
  import opened Common

  datatype Item<T> = Item(priority: Distance, value: T)

  /** The order of minPriorityQueue, or of maxPriorityQueue when isMax. */
  predicate Less<T>(isMax: bool, a: Item<T>, b: Item<T>) {
    if isMax then a.priority > b.priority else a.priority < b.priority
  }

  function Parent(c: int): int { (c - 1) / 2 }

  /** Position c is not ordered before its parent. */
  ghost predicate Respects<T>(isMax: bool, s: seq<Item<T>>, c: int) {
    0 < c < |s| ==> !Less(isMax, s[c], s[Parent(c)])
  }

  /** Every child of a position from `lo` on respects its parent. */
  ghost predicate HeapFrom<T>(isMax: bool, s: seq<Item<T>>, lo: int) {
    forall c :: lo <= Parent(c) ==> Respects(isMax, s, c)
  }

  ghost predicate IsHeap<T>(isMax: bool, s: seq<Item<T>>) {
    HeapFrom(isMax, s, 0)
  }

  /** The root of a heap is extreme. */
  lemma {:induction false} RootIsExtreme<T>(isMax: bool, s: seq<Item<T>>, i: nat)
    requires IsHeap(isMax, s) && i < |s|
    ensures !Less(isMax, s[i], s[0])
    decreases i
  {
    if i > 0 {
      assert Respects(isMax, s, i);
      RootIsExtreme(isMax, s, Parent(i));
    }
  }

  function Swapped<T>(s: seq<T>, i: nat, j: nat): (r: seq<T>)
    requires i < |s| && j < |s|
    ensures |r| == |s|
  {
    s[i := s[j]][j := s[i]]
  }

  lemma SwapKeepsMultiset<T>(s: seq<T>, i: nat, j: nat)
    requires i < |s| && j < |s|
    ensures multiset(Swapped(s, i, j)) == multiset(s)
  {}

  /** Sifting up: a heap but for position j, whose children respect j's parent. */
  ghost predicate HeapButUp<T>(isMax: bool, s: seq<Item<T>>, j: nat) {
    && j < |s|
    && (forall c :: c != j && 0 <= Parent(c) ==> Respects(isMax, s, c))
    && (forall c :: 0 < j && 0 < c < |s| && Parent(c) == j ==> !Less(isMax, s[c], s[Parent(j)]))
  }

  lemma UpStep<T>(isMax: bool, s: seq<Item<T>>, j: nat)
    requires HeapButUp(isMax, s, j) && 0 < j && Less(isMax, s[j], s[Parent(j)])
    ensures HeapButUp(isMax, Swapped(s, Parent(j), j), Parent(j))
  {
    var p, t := Parent(j), Swapped(s, Parent(j), j);
    forall c | c != p && 0 <= Parent(c) ensures Respects(isMax, t, c) {
      if c != j { assert Respects(isMax, s, c); }
    }
    assert Respects(isMax, s, p);
    forall c | 0 < p && 0 < c < |s| && Parent(c) == p ensures !Less(isMax, t[c], t[Parent(p)]) {
      if c != j { assert Respects(isMax, s, c); }
    }
  }

  /** Sifting down from i0: a heap from i0 but for position i's children, which respect i's parent. */
  ghost predicate HeapButDown<T>(isMax: bool, s: seq<Item<T>>, i0: nat, i: nat) {
    && i0 <= i < |s|
    && (i0 < i ==> i0 <= Parent(i))
    && (forall c :: i0 <= Parent(c) != i ==> Respects(isMax, s, c))
    && (forall c :: i0 < i && 0 < c < |s| && Parent(c) == i ==> !Less(isMax, s[c], s[Parent(i)]))
  }

  /** j is i's extreme child. */
  ghost predicate ExtremeChild<T>(isMax: bool, s: seq<Item<T>>, i: nat, j: nat) {
    && i < j < |s|
    && Parent(j) == i
    && (forall c :: 0 < c < |s| && Parent(c) == i ==> !Less(isMax, s[c], s[j]))
  }

  lemma DownStep<T>(isMax: bool, s: seq<Item<T>>, i0: nat, i: nat, j: nat)
    requires HeapButDown(isMax, s, i0, i) && ExtremeChild(isMax, s, i, j) && Less(isMax, s[j], s[i])
    ensures HeapButDown(isMax, Swapped(s, i, j), i0, j)
  {
    var t := Swapped(s, i, j);
    forall c | i0 <= Parent(c) != j ensures Respects(isMax, t, c) {
      if Parent(c) != i { assert Respects(isMax, s, c); }
    }
    forall c | 0 < c < |s| && Parent(c) == j ensures !Less(isMax, t[c], t[Parent(j)]) {
      assert Respects(isMax, s, c);
    }
  }

  /** Sifting down stops at a leaf, or where the extreme child is not ordered before its parent. */
  lemma DownDone<T>(isMax: bool, s: seq<Item<T>>, i0: nat, i: nat)
    requires HeapButDown(isMax, s, i0, i)
    requires forall c :: 0 < c < |s| && Parent(c) == i ==> !Less(isMax, s[c], s[i])
    ensures HeapFrom(isMax, s, i0)
  {
    forall c | i0 <= Parent(c) ensures Respects(isMax, s, c) {}
  }

  /** No element of `all` is ordered before the item. */
  ghost predicate IsExtreme<T>(isMax: bool, item: Item<T>, all: multiset<Item<T>>) {
    forall x :: x in all ==> !Less(isMax, x, item)
  }

  lemma RootIsExtremeOfAll<T>(isMax: bool, s: seq<Item<T>>)
    requires IsHeap(isMax, s) && 0 < |s|
    ensures IsExtreme(isMax, s[0], multiset(s))
  {
    forall x | x in multiset(s) ensures !Less(isMax, x, s[0]) {
      var i :| 0 <= i < |s| && s[i] == x;
      RootIsExtreme(isMax, s, i);
    }
  }

  /** Moving the last element of a heap to the root disturbs the root only. */
  lemma RootReplaced<T>(isMax: bool, s: seq<Item<T>>, t: seq<Item<T>>)
    requires IsHeap(isMax, s) && 0 < |s|
    requires t == Swapped(s, 0, |s| - 1)[..|s| - 1]
    ensures HeapFrom(isMax, t, 1)
    ensures multiset(s) == multiset(t) + multiset{s[0]}
  {
    SwapKeepsMultiset(s, 0, |s| - 1);
    assert Swapped(s, 0, |s| - 1) == t + [s[0]];
    forall c | 1 <= Parent(c) ensures Respects(isMax, t, c) {
      assert Respects(isMax, s, c);
    }
  }

  lemma EmptyIsHeap<T>(isMax: bool, s: seq<Item<T>>)
    requires s == []
    ensures IsHeap(isMax, s)
  {}

  /** No later item is ordered before an earlier one. */
  ghost predicate InOrder<T>(isMax: bool, s: seq<Item<T>>) {
    forall i, j :: 0 <= i < j < |s| ==> !Less(isMax, s[j], s[i])
  }

  /** Items popped so far, and the items still queued. */
  ghost predicate PoppedFirst<T>(isMax: bool, popped: seq<Item<T>>, rest: multiset<Item<T>>) {
    InOrder(isMax, popped) && forall i :: 0 <= i < |popped| ==> IsExtreme(isMax, popped[i], rest)
  }

  lemma PopNext<T>(isMax: bool, popped: seq<Item<T>>, before: multiset<Item<T>>, item: Item<T>,
          after: multiset<Item<T>>, tail: seq<Item<T>>)
    requires PoppedFirst(isMax, popped, before)
    requires before == after + multiset{item} && IsExtreme(isMax, item, before)
    ensures PoppedFirst(isMax, popped + [item], after)
    ensures Reversed(popped + [item]) + tail == [item] + (Reversed(popped) + tail)
    ensures multiset(popped + [item]) == multiset(popped) + multiset{item}
  {}

  function Reversed<T>(s: seq<T>): (r: seq<T>)
    ensures |r| == |s|
    ensures forall i :: 0 <= i < |s| ==> r[i] == s[|s| - 1 - i]
  {
    if s == [] then [] else [s[|s| - 1]] + Reversed(s[..|s| - 1])
  }

  lemma {:induction false} ReversedKeepsMultiset<T>(s: seq<T>)
    ensures multiset(Reversed(s)) == multiset(s)
  {
    if s != [] {
      ReversedKeepsMultiset(s[..|s| - 1]);
      assert s == s[..|s| - 1] + [s[|s| - 1]];
    }
  }

  /** What one order pops first, read backwards, is a heap of the opposite order. */
  lemma ReversedOrderIsHeap<T>(isMax: bool, s: seq<Item<T>>)
    requires InOrder(isMax, s)
    ensures IsHeap(!isMax, Reversed(s))
  {
    var r := Reversed(s);
    forall c | 0 <= Parent(c) ensures Respects(!isMax, r, c) {
      if 0 < c < |s| {
        assert !Less(isMax, s[|s| - 1 - Parent(c)], s[|s| - 1 - c]);
      }
    }
  }

  class PriorityQueue<T> {
    const isMax: bool
    var buf: array<Item<T>>
    var len: nat

    ghost predicate Valid()
      reads this, buf
    {
      len <= buf.Length && IsHeap(isMax, buf[..len])
    }

    ghost function Items(): multiset<Item<T>>
      reads this, buf
      requires len <= buf.Length
    {
      multiset(buf[..len])
    }

    /** newMin/MaxPriorityQueue without items: an empty slice. */
    constructor (isMax: bool)
      ensures Valid() && fresh(buf)
      ensures this.isMax == isMax && len == 0 && Items() == multiset{}
    {
      this.isMax := isMax;
      buf := new Item<T>[0];
      len := 0;
    }

    /** A queue of the given order over an existing backing array, heapified in place. */
    constructor Over(isMax: bool, buf: array<Item<T>>, len: nat)
      requires len <= buf.Length
      modifies buf
      ensures Valid() && this.isMax == isMax && this.buf == buf && this.len == len
      ensures multiset(buf[..len]) == old(multiset(buf[..len]))
      ensures buf[len..] == old(buf[len..])
    {
      this.isMax := isMax;
      this.buf := buf;
      this.len := len;
      new;
      // heap.Init
      var i := len / 2;
      while i > 0
        invariant i <= len / 2 && this.buf == buf && this.len == len
        invariant HeapFrom(isMax, buf[..len], i)
        invariant multiset(buf[..len]) == old(multiset(buf[..len]))
        invariant buf[len..] == old(buf[len..])
      {
        i := i - 1;
        Down(i, len);
      }
    }

    method Swap(i: nat, j: nat, ghost s: seq<Item<T>>)
      requires i < |s| && j < |s| <= buf.Length
      requires buf[..|s|] == s
      modifies buf
      ensures buf[..|s|] == Swapped(s, i, j)
      ensures multiset(Swapped(s, i, j)) == multiset(s)
      ensures buf[|s|..] == old(buf[|s|..])
    {
      SwapKeepsMultiset(s, i, j);
      buf[i], buf[j] := buf[j], buf[i];
    }

    method Up()
      requires 0 < len <= buf.Length
      requires IsHeap(isMax, buf[..len - 1])
      modifies buf
      ensures Valid() && Items() == old(Items())
    {
      var j: nat := len - 1;
      ghost var s := buf[..len];
      forall c | c != j && 0 <= Parent(c) ensures Respects(isMax, s, c) {
        assert Respects(isMax, buf[..len - 1], c);
      }
      while true
        invariant buf[..len] == s && multiset(s) == old(Items())
        invariant HeapButUp(isMax, s, j)
        decreases j
      {
        var i := if j == 0 then 0 else (j - 1) / 2;
        if i == j || !Less(isMax, buf[j], buf[i]) {
          break;
        }
        UpStep(isMax, s, j);
        Swap(i, j, s);
        s, j := Swapped(s, i, j), i;
      }
    }

    method Down(i0: nat, n: nat)
      requires i0 < n <= buf.Length
      requires HeapFrom(isMax, buf[..n], i0 + 1)
      modifies buf
      ensures HeapFrom(isMax, buf[..n], i0)
      ensures multiset(buf[..n]) == old(multiset(buf[..n]))
      ensures buf[n..] == old(buf[n..])
    {
      var i := i0;
      ghost var s := buf[..n];
      while true
        invariant buf[..n] == s && multiset(s) == old(multiset(buf[..n]))
        invariant HeapButDown(isMax, s, i0, i)
        invariant buf[n..] == old(buf[n..])
        decreases n - i
      {
        var j := 2 * i + 1;
        if j >= n {
          break;
        }
        if j + 1 < n && Less(isMax, buf[j + 1], buf[j]) {
          j := j + 1;
        }
        assert ExtremeChild(isMax, s, i, j);
        if !Less(isMax, buf[j], buf[i]) {
          break;
        }
        DownStep(isMax, s, i0, i, j);
        Swap(i, j, s);
        s, i := Swapped(s, i, j), j;
      }
      DownDone(isMax, s, i0, i);
    }

    /** heap.Push: append, then sift up. A full backing array is replaced by a larger one. */
    method Push(item: Item<T>)
      requires Valid()
      modifies this, buf
      ensures Valid() && len == old(len) + 1
      ensures Items() == old(Items()) + multiset{item}
      ensures buf == old(buf) || fresh(buf)
    {
      if len == buf.Length {
        var bigger := new Item<T>[2 * len + 1](_ => item);
        forall i | 0 <= i < len {
          bigger[i] := buf[i];
        }
        assert bigger[..len] == buf[..len];
        buf := bigger;
      } else {
        buf[len] := item;
      }
      assert buf[..len] == old(buf[..len]);
      len := len + 1;
      assert buf[..len] == old(buf[..len]) + [item];
      assert buf[..len - 1] == old(buf[..len]);
      Up();
    }

    /** heap.Pop: swap the root with the last element, sift down, cut the last element off. */
    method Pop() returns (item: Item<T>)
      requires Valid() && len > 0
      modifies this`len, buf
      ensures Valid() && len == old(len) - 1
      ensures old(Items()) == Items() + multiset{item}
      ensures IsExtreme(isMax, item, old(Items()))
      ensures buf[len..] == [item] + old(buf[len..])
    {
      hide HeapFrom, IsExtreme, Less;
      RootIsExtremeOfAll(isMax, buf[..len]);
      item := MoveRootLast();
      len := len - 1;
      if len > 0 {
        Down(0, len);
      } else {
        EmptyIsHeap(isMax, buf[..len]);
      }
    }

    /** The first half of heap.Pop: the root and the last element change places. */
    method MoveRootLast() returns (item: Item<T>)
      requires Valid() && len > 0
      modifies buf
      ensures HeapFrom(isMax, buf[..len - 1], 1)
      ensures item == old(buf[0])
      ensures old(Items()) == multiset(buf[..len - 1]) + multiset{item}
      ensures buf[len - 1..] == [item] + old(buf[len..])
    {
      ghost var s := buf[..len];
      Swap(0, len - 1, s);
      item := buf[len - 1];
      assert buf[..len - 1] == Swapped(s, 0, len - 1)[..len - 1];
      RootReplaced(isMax, s, buf[..len - 1]);
    }

    /** The extreme item, left in place. */
    method Peek() returns (item: Item<T>)
      requires Valid() && len > 0
      ensures item == buf[0] && item in Items() && IsExtreme(isMax, item, Items())
    {
      RootIsExtremeOfAll(isMax, buf[..len]);
      item := buf[0];
      assert buf[..len][0] == item;
    }

    /** A queue of the opposite order on the same backing array. This queue loses its order. */
    method Reverse() returns (q: PriorityQueue<T>)
      requires Valid()
      modifies buf
      ensures fresh(q) && q.Valid() && q.isMax == !isMax && q.buf == buf && q.len == len
      ensures q.Items() == old(Items()) && buf[len..] == old(buf[len..])
    {
      q := new PriorityQueue.Over(!isMax, buf, len);
    }

    /** ToIterator: pop until the queue is empty. The popped items pile up backwards in the array. */
    method Drain() returns (items: seq<Item<T>>)
      requires Valid()
      modifies this`len, buf
      ensures len == 0 && buf == old(buf) && |items| == old(len)
      ensures multiset(items) == old(Items()) && InOrder(isMax, items)
      ensures buf[..] == Reversed(items) + old(buf[len..])
    {
      items := [];
      ghost var tail := buf[len..];
      while len > 0
        invariant Valid() && |items| + len == old(len)
        invariant Items() + multiset(items) == old(Items())
        invariant PoppedFirst(isMax, items, Items())
        invariant buf[len..] == Reversed(items) + tail
        decreases len
      {
        ghost var before := Items();
        var item := Pop();
        PopNext(isMax, items, before, item, Items(), tail);
        items := items + [item];
      }
      assert buf[..] == buf[0..];
    }
  }

  /**
   * The reversed queue shares the original's array. Draining it completely leaves the
   * original queue a heap again, with exactly the items it had.
   */
  method DrainReversed<T>(q: PriorityQueue<T>) returns (items: seq<Item<T>>)
    requires q.Valid()
    modifies q.buf
    ensures q.Valid() && q.Items() == old(q.Items())
    ensures multiset(items) == old(q.Items()) && InOrder(!q.isMax, items)
    ensures q.buf[..q.len] == Reversed(items)
  {
    var r := q.Reverse();
    items := r.Drain();
    ReversedOrderIsHeap(!q.isMax, items);
    ReversedKeepsMultiset(items);
  }
}
