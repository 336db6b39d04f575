/** What it means to keep the k nearest of a collection of items. */
module Nearest {
  import opened Common
  import opened PriorityQueues

  /** `kept` holds k items of `all` (or all of them), none farther than an item left out. */
  ghost predicate IsNearest<T>(all: multiset<Item<T>>, k: nat, kept: multiset<Item<T>>) {
    && kept <= all
    && |kept| == Min(k, |all|)
    && forall x, y :: x in kept && y in all - kept ==> x.priority <= y.priority
  }

  /** Dropping a farthest item of the j nearest leaves the j - 1 nearest. */
  lemma DropFarthest<T>(all: multiset<Item<T>>, kept: multiset<Item<T>>, far: Item<T>)
    requires IsNearest(all, |kept|, kept)
    requires far in kept && IsExtreme(true, far, kept)
    ensures IsNearest(all, |kept| - 1, kept - multiset{far})
  {
    var less := kept - multiset{far};
    assert kept == less + multiset{far};
    forall x, y | x in less && y in all - less ensures x.priority <= y.priority {
      assert x in kept;
      if y !in all - kept {
        assert y == far;
      }
    }
  }

  /** `taken` and `rest` make up `all`, and nothing in `rest` is nearer than something taken. */
  ghost predicate IsNearerPart<T>(all: multiset<Item<T>>, taken: multiset<Item<T>>, rest: multiset<Item<T>>) {
    && all == taken + rest
    && forall x, y :: x in taken && y in rest ==> x.priority <= y.priority
  }

  lemma TakeNearest<T>(all: multiset<Item<T>>, taken: multiset<Item<T>>, rest: multiset<Item<T>>, near: Item<T>)
    requires IsNearerPart(all, taken, rest)
    requires near in rest && IsExtreme(false, near, rest)
    ensures IsNearerPart(all, taken + multiset{near}, rest - multiset{near})
  {
    assert rest == (rest - multiset{near}) + multiset{near};
    forall x, y | x in taken + multiset{near} && y in rest - multiset{near} ensures x.priority <= y.priority {
      assert y in rest;
    }
  }

  lemma NearerPartIsNearest<T>(all: multiset<Item<T>>, k: nat, taken: multiset<Item<T>>, rest: multiset<Item<T>>)
    requires IsNearerPart(all, taken, rest)
    requires |taken| == k || (|taken| < k && rest == multiset{})
    ensures IsNearest(all, k, taken)
  {
    assert all - taken == rest;
  }

  lemma SubMultisetSize<T>(a: multiset<T>, b: multiset<T>)
    ensures a <= b ==> |a| <= |b|
  {
    if a <= b {
      assert b == a + (b - a);
    }
  }

  lemma MoreItems<T>(a: multiset<T>, b: multiset<T>) returns (x: T)
    requires |a| > |b|
    ensures x in a && a[x] > b[x]
  {
    SubMultisetSize(a, b);
    x :| x in a && a[x] > b[x];
  }

  /**
   * The k nearest items are unique up to ties: two choices, put in ascending order, have the
   * same priorities. (Stated for one position, in one direction.)
   */
  lemma NearestAgreeAt<T>(all: multiset<Item<T>>, k: nat, a: seq<Item<T>>, b: seq<Item<T>>, i: nat)
    requires IsNearest(all, k, multiset(a)) && InOrder(false, a)
    requires IsNearest(all, k, multiset(b)) && InOrder(false, b)
    requires i < |a| && i < |b|
    ensures a[i].priority >= b[i].priority
  {
    var x := MoreItems(multiset(a[..i + 1]), multiset(b[..i]));
    assert x in a[..i + 1] && x.priority <= a[i].priority;
    if x !in b[i..] {
      CountSplit(a, i + 1, x);
      CountSplit(b, i, x);
      assert x in all - multiset(b);
      assert b[i] in multiset(b);
    }
  }

  lemma CountSplit<T>(s: seq<T>, i: nat, x: T)
    requires i <= |s|
    ensures multiset(s)[x] == multiset(s[..i])[x] + multiset(s[i..])[x]
  {
    assert s == s[..i] + s[i..];
  }

  function Priorities<T>(s: seq<Item<T>>): seq<Distance> {
    seq(|s|, i requires 0 <= i < |s| => s[i].priority)
  }

  lemma NearestAgree<T>(all: multiset<Item<T>>, k: nat, a: seq<Item<T>>, b: seq<Item<T>>)
    requires IsNearest(all, k, multiset(a)) && InOrder(false, a)
    requires IsNearest(all, k, multiset(b)) && InOrder(false, b)
    ensures Priorities(a) == Priorities(b)
  {
    assert |a| == |multiset(a)| == |multiset(b)| == |b|;
    forall i | 0 <= i < |a| ensures a[i].priority == b[i].priority {
      NearestAgreeAt(all, k, a, b, i);
      NearestAgreeAt(all, k, b, a, i);
    }
  }

  // Queues of distinct values: the items of a map from values to distances.

  function AsSet<V>(e: map<V, Distance>): set<Item<V>> {
    set u | u in e :: Item(e[u], u)
  }

  ghost function AsItems<V>(e: map<V, Distance>): multiset<Item<V>> {
    multiset(AsSet(e))
  }

  lemma ItemsIn<V>(e: map<V, Distance>, item: Item<V>)
    ensures item in AsItems(e) <==> item.value in e && e[item.value] == item.priority
  {
    assert item in AsSet(e) <==> item.value in e && item == Item(e[item.value], item.value);
  }

  lemma ItemsAdd<V>(e: map<V, Distance>, u: V, d: Distance)
    requires u !in e
    ensures AsItems(e[u := d]) == AsItems(e) + multiset{Item(d, u)}
  {
    assert AsSet(e[u := d]) == AsSet(e) + {Item(d, u)} by {
      forall x ensures x in AsSet(e[u := d]) <==> x in AsSet(e) + {Item(d, u)} {
        ItemsIn(e[u := d], x);
        ItemsIn(e, x);
      }
    }
    assert Item(d, u) !in AsSet(e);
  }

  lemma ItemsRemove<V>(e: map<V, Distance>, item: Item<V>)
    requires item in AsItems(e)
    ensures item.value in e && e[item.value] == item.priority
    ensures AsItems(e) == AsItems(e - {item.value}) + multiset{item}
  {
    ItemsIn(e, item);
    var rest := e - {item.value};
    ItemsAdd(rest, item.value, item.priority);
    assert e == rest[item.value := item.priority];
  }

  lemma {:induction false} ItemsSize<V>(e: map<V, Distance>)
    ensures |AsItems(e)| == |e|
    decreases |e|
  {
    if e.Keys != {} {
      var u :| u in e;
      ItemsIn(e, Item(e[u], u));
      ItemsRemove(e, Item(e[u], u));
      ItemsSize(e - {u});
    } else {
      assert AsSet(e) == {};
    }
  }

  /** The k nearest entries of a map. */
  ghost predicate IsNearestPart<V>(e: map<V, Distance>, k: nat, part: map<V, Distance>) {
    && part.Keys <= e.Keys
    && (forall u :: u in part ==> part[u] == e[u])
    && |part| == Min(k, |e|)
    && forall u, w :: u in part && w in e && w !in part ==> e[u] <= e[w]
  }

  /** The entries of a map whose items were kept. */
  ghost function KeptPart<V>(e: map<V, Distance>, kept: multiset<Item<V>>): map<V, Distance> {
    e - set u | u in e && Item(e[u], u) !in kept
  }

  lemma KeptItems<V>(e: map<V, Distance>, kept: multiset<Item<V>>)
    requires kept <= AsItems(e)
    ensures AsItems(KeptPart(e, kept)) == kept
  {
    var part := KeptPart(e, kept);
    forall x ensures AsItems(part)[x] == kept[x] {
      ItemsIn(e, x);
      ItemsIn(part, x);
      assert AsItems(e)[x] <= 1 && AsItems(part)[x] <= 1;
      assert kept[x] <= AsItems(e)[x];
    }
  }

  /** Keeping the k nearest items of a map is keeping its k nearest entries. */
  lemma NearestItemsArePart<V>(e: map<V, Distance>, k: nat, kept: multiset<Item<V>>)
    requires IsNearest(AsItems(e), k, kept)
    ensures AsItems(KeptPart(e, kept)) == kept
    ensures IsNearestPart(e, k, KeptPart(e, kept))
  {
    var part := KeptPart(e, kept);
    KeptItems(e, kept);
    ItemsSize(e);
    ItemsSize(part);
    forall u, w | u in part && w in e && w !in part ensures e[u] <= e[w] {
      ItemsIn(e, Item(e[w], w));
      assert Item(e[w], w) in AsItems(e) - kept;
    }
  }
}
