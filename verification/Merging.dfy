/** Why the nearest of the nearest are the nearest: merging partial answers. */
module Merging {
  import opened Common
  import opened PriorityQueues
  import opened Nearest

  /** k items of `kept` are no farther than d. */
  ghost predicate HasAsNear<T(!new)>(kept: multiset<Item<T>>, k: nat, d: Distance) {
    exists w: multiset<Item<T>> :: IsWitness(w, kept, k, d)
  }

  ghost predicate IsWitness<T>(w: multiset<Item<T>>, kept: multiset<Item<T>>, k: nat, d: Distance) {
    w <= kept && |w| == k && forall x :: x in w ==> x.priority <= d
  }

  /** For each item that is left out there are k kept ones that are no farther. */
  ghost predicate Suffices<T(!new)>(all: multiset<Item<T>>, k: nat, kept: multiset<Item<T>>) {
    kept <= all && forall x :: x in all - kept ==> HasAsNear(kept, k, x.priority)
  }

  lemma NearestSuffice<T(!new)>(all: multiset<Item<T>>, k: nat, kept: multiset<Item<T>>)
    requires IsNearest(all, k, kept)
    ensures Suffices(all, k, kept)
  {
    forall x | x in all - kept ensures HasAsNear(kept, k, x.priority) {
      SubMultisetSize(kept + multiset{x}, all);
      assert kept + multiset{x} <= all;
      assert IsWitness(kept, kept, k, x.priority);
    }
  }

  lemma SufficesTogether<T(!new)>(a: multiset<Item<T>>, b: multiset<Item<T>>, k: nat, x: multiset<Item<T>>,
          y: multiset<Item<T>>)
    requires Suffices(a, k, x) && Suffices(b, k, y)
    ensures Suffices(a + b, k, x + y)
  {
    forall z | z in (a + b) - (x + y) ensures HasAsNear(x + y, k, z.priority) {
      if z in a - x {
        var w :| IsWitness(w, x, k, z.priority);
        assert IsWitness(w, x + y, k, z.priority);
      } else {
        assert z in b - y;
        var w :| IsWitness(w, y, k, z.priority);
        assert IsWitness(w, x + y, k, z.priority);
      }
    }
  }

  lemma SubWithout<T>(w: multiset<T>, c: multiset<T>, y: T)
    requires w <= c && y in c && y !in w
    ensures |w| < |c|
  {
    assert w + multiset{y} <= c;
    SubMultisetSize(w + multiset{y}, c);
  }

  /** Any k nearest of a sufficient part are k nearest of the whole. */
  lemma NearestOfSufficient<T(!new)>(all: multiset<Item<T>>, k: nat, kept: multiset<Item<T>>, c: multiset<Item<T>>)
    requires Suffices(all, k, kept) && IsNearest(kept, k, c)
    ensures IsNearest(all, k, c)
  {
    forall y, x | y in c && x in all - c ensures y.priority <= x.priority {
      if x !in kept - c {
        assert x in all - kept;
        var w :| IsWitness(w, kept, k, x.priority);
        if x.priority < y.priority {
          forall e | e in w ensures w[e] <= c[e] {
            assert e !in kept - c;
          }
          assert w <= c;
          SubWithout(w, c, y);
        }
      }
    }
    SufficientSize(all, k, kept);
  }

  lemma SufficientSize<T(!new)>(all: multiset<Item<T>>, k: nat, kept: multiset<Item<T>>)
    requires Suffices(all, k, kept)
    ensures Min(k, |kept|) == Min(k, |all|)
  {
    SubMultisetSize(kept, all);
    if all - kept != multiset{} {
      var x :| x in all - kept;
      var w :| IsWitness(w, kept, k, x.priority);
      SubMultisetSize(w, kept);
    } else {
      forall x ensures all[x] == kept[x] {
        assert (all - kept)[x] == 0;
      }
      assert all == kept;
    }
  }

  // Sorting and cutting

  lemma PartsInOrder<T>(s: seq<Item<T>>, i: nat)
    requires InOrder(false, s) && i <= |s|
    ensures InOrder(false, s[..i]) && InOrder(false, s[i..])
  {
    forall a, b | 0 <= a < b < |s| - i ensures !Less(false, s[i..][b], s[i..][a]) {
      assert !Less(false, s[i + b], s[i + a]);
    }
  }

  lemma TogetherInOrder<T>(a: seq<Item<T>>, b: seq<Item<T>>)
    requires InOrder(false, a) && InOrder(false, b)
    requires a != [] && b != [] ==> a[|a| - 1].priority <= b[0].priority
    ensures InOrder(false, a + b)
  {
    forall i, j | 0 <= i < |a| && 0 <= j < |b| ensures !Less(false, b[j], a[i]) {
      assert i == |a| - 1 || !Less(false, a[|a| - 1], a[i]);
      assert j == 0 || !Less(false, b[j], b[0]);
    }
  }

  lemma InsertedInOrder<T>(s: seq<Item<T>>, i: nat, x: Item<T>)
    requires InOrder(false, s) && i <= |s|
    requires (i > 0 ==> s[i - 1].priority <= x.priority) && (i < |s| ==> x.priority < s[i].priority)
    ensures InOrder(false, s[..i] + [x] + s[i..])
  {
    hide Less;
    PartsInOrder(s, i);
    TogetherInOrder(s[..i], [x]);
    TogetherInOrder(s[..i] + [x], s[i..]);
  }

  lemma InsertedItems<T>(s: seq<Item<T>>, i: nat, x: Item<T>)
    requires i <= |s|
    ensures multiset(s[..i] + [x] + s[i..]) == multiset(s) + multiset{x}
  {
    assert s == s[..i] + s[i..];
  }

  method InsertByScore<T>(s: seq<Item<T>>, x: Item<T>) returns (r: seq<Item<T>>)
    requires InOrder(false, s)
    ensures InOrder(false, r) && multiset(r) == multiset(s) + multiset{x}
  {
    hide InOrder;
    var i := |s|;
    while i > 0 && x.priority < s[i - 1].priority
      invariant 0 <= i <= |s| && (i < |s| ==> x.priority < s[i].priority)
    {
      i := i - 1;
    }
    InsertedInOrder(s, i, x);
    InsertedItems(s, i, x);
    r := s[..i] + [x] + s[i..];
  }

  /** sort.Sort by score. */
  method SortByScore<T>(s: seq<Item<T>>) returns (r: seq<Item<T>>)
    ensures InOrder(false, r) && multiset(r) == multiset(s)
  {
    r := [];
    for i := 0 to |s|
      invariant InOrder(false, r) && multiset(r) == multiset(s[..i])
    {
      assert s[..i + 1] == s[..i] + [s[i]];
      r := InsertByScore(r, s[i]);
    }
    assert s[..|s|] == s;
  }

  lemma FirstAreNearer<T>(s: seq<Item<T>>, n: nat)
    requires InOrder(false, s) && n <= |s|
    ensures IsNearerPart(multiset(s), multiset(s[..n]), multiset(s[n..]))
  {
    assert s == s[..n] + s[n..];
    forall x, y | x in s[..n] && y in s[n..] ensures x.priority <= y.priority {
      var i :| 0 <= i < n && s[..n][i] == x;
      var j :| 0 <= j < |s| - n && s[n..][j] == y;
      assert !Less(false, s[n + j], s[i]);
    }
  }

  lemma CutIsNearest<T>(s: seq<Item<T>>, n: nat, k: nat)
    requires InOrder(false, s) && n == Min(k, |s|)
    ensures IsNearest(multiset(s), k, multiset(s[..n])) && InOrder(false, s[..n])
  {
    hide IsNearerPart, IsNearest, InOrder;
    FirstAreNearer(s, n);
    PartsInOrder(s, n);
    assert |multiset(s[..n])| == n && |multiset(s[n..])| == |s| - n;
    NearerPartIsNearest(multiset(s), k, multiset(s[..n]), multiset(s[n..]));
  }

  /** Sort by score and keep the first k. */
  method SortAndCut<T>(s: seq<Item<T>>, k: nat) returns (r: seq<Item<T>>)
    ensures InOrder(false, r) && IsNearest(multiset(s), k, multiset(r))
  {
    var sorted := SortByScore(s);
    CutIsNearest(sorted, Min(k, |sorted|), k);
    r := sorted[..Min(k, |sorted|)];
  }
}
