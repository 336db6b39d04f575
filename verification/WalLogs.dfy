/** The log a write-ahead log stands for: consecutive entries after a dummy that carries index and term only. */
module WalLogs {
  import opened Common

  /** Log indices are unsigned 64-bit integers. */
  type Index = i: nat | i < TWO_TO_THE_64 witness 0

  const MAX_INDEX: Index := TWO_TO_THE_64 - 1

  datatype EntryKind = Normal | ConfChange

  datatype Entry = Entry(term: nat, index: Index, kind: EntryKind, data: Bytes)

  datatype HardState = HardState(term: nat, vote: nat, commit: nat)

  const EMPTY_HARD_STATE := HardState(0, 0, 0)

  datatype ConfState = ConfState(nodes: seq<nat>, learners: seq<nat>)

  const EMPTY_CONF_STATE := ConfState([], [])

  datatype Snapshot = Captured(index: Index, term: nat, confState: ConfState, data: Bytes)
  {
    predicate Empty() { index == 0 }
  }

  const EMPTY_SNAPSHOT := Captured(0, 0, EMPTY_CONF_STATE, [])

  datatype Error = EntryNotFound | EmptyConfState | Compacted | Unavailable | SnapOutOfDate

  datatype Result<+T> = Ok(value: T) | Err(error: Error)

  function Dummy(index: Index, term: nat): Entry {
    Entry(term, index, Normal, [])
  }

  /** Entries with consecutive indices. */
  ghost predicate Consecutive(es: seq<Entry>) {
    forall i :: 0 <= i < |es| ==> es[i].index == es[0].index + i
  }

  /** A log: the dummy, and the entries after it. */
  ghost predicate IsLog(log: seq<Entry>) {
    |log| > 0 && Consecutive(log) && log[0] == Dummy(log[0].index, log[0].term)
  }

  /** The index of the dummy: the last one that has been compacted. */
  function Offset(log: seq<Entry>): Index
    requires |log| > 0
  {
    log[0].index
  }

  function First(log: seq<Entry>): nat
    requires |log| > 0
  {
    log[0].index + 1
  }

  function Last(log: seq<Entry>): nat
    requires |log| > 0
  {
    log[0].index + |log| - 1
  }

  /** The log holds an entry (or its dummy) at index k. */
  predicate Has(log: seq<Entry>, k: nat)
    requires |log| > 0
  {
    Offset(log) <= k <= Last(log)
  }

  function At(log: seq<Entry>, k: nat): Entry
    requires |log| > 0 && Has(log, k)
  {
    log[k - Offset(log)]
  }

  // Appending

  /** The entries that are not yet compacted. */
  function Fresh(log: seq<Entry>, es: seq<Entry>): seq<Entry>
    requires |log| > 0
  {
    if es == [] || es[0].index + |es| - 1 < First(log) then []
    else if es[0].index < First(log) then es[First(log) - es[0].index..]
    else es
  }

  /** es continues the log, or overwrites a part of it. */
  predicate Fits(log: seq<Entry>, es: seq<Entry>)
    requires |log| > 0
  {
    es == [] || es[0].index <= Last(log) + 1
  }

  /** The index of the first entry that is not compacted. */
  function Start(log: seq<Entry>, es: seq<Entry>): nat
    requires |log| > 0 && es != []
  {
    Max(First(log), es[0].index)
  }

  /** Drop what is compacted, keep the log below the first entry left, and put the entries after it. */
  function Appended(log: seq<Entry>, es: seq<Entry>): seq<Entry>
    requires |log| > 0 && Fits(log, es)
  {
    if Fresh(log, es) == [] then log else log[..Start(log, es) - Offset(log)] + Fresh(log, es)
  }

  lemma FreshEntries(log: seq<Entry>, es: seq<Entry>)
    requires |log| > 0 && Consecutive(es)
    ensures Fresh(log, es) == [] <==> es == [] || es[0].index + |es| <= First(log)
    ensures Consecutive(Fresh(log, es))
    ensures Fresh(log, es) != [] ==>
              && Fresh(log, es)[0].index == Start(log, es)
              && Fresh(log, es)[0].index + |Fresh(log, es)| == es[0].index + |es|
    ensures forall e :: e in Fresh(log, es) <==> e in es && First(log) <= e.index
  {
    var kept := Fresh(log, es);
    forall e | e in es && First(log) <= e.index ensures e in kept {
      var i :| 0 <= i < |es| && es[i] == e;
      if es[0].index < First(log) {
        assert kept[i - (First(log) - es[0].index)] == e;
      }
    }
  }

  lemma FreshAt(log: seq<Entry>, es: seq<Entry>, k: nat)
    requires |log| > 0 && Consecutive(es) && es != [] && Start(log, es) <= k < es[0].index + |es|
    ensures k - Start(log, es) < |Fresh(log, es)|
    ensures Fresh(log, es)[k - Start(log, es)] == es[k - es[0].index]
  {}

  lemma AppendedIsLog(log: seq<Entry>, es: seq<Entry>)
    requires IsLog(log) && Consecutive(es) && Fits(log, es)
    ensures IsLog(Appended(log, es)) && Appended(log, es)[0] == log[0]
    ensures Last(Appended(log, es)) == if Fresh(log, es) == [] then Last(log) else es[0].index + |es| - 1
  {
    hide Fresh;
    FreshEntries(log, es);
  }

  /**
   * What appending does at each index: entries that are not compacted are there, what was below the
   * first of them is untouched, and nothing is left behind the last.
   */
  lemma AppendedAt(log: seq<Entry>, es: seq<Entry>, k: nat)
    requires IsLog(log) && Consecutive(es) && Fits(log, es)
    ensures Has(Appended(log, es), k) <==>
              if es == [] || es[0].index + |es| <= First(log) then Has(log, k)
              else Offset(log) <= k < es[0].index + |es|
    ensures es != [] && First(log) <= k && es[0].index <= k < es[0].index + |es| ==>
              Has(Appended(log, es), k) && At(Appended(log, es), k) == es[k - es[0].index]
    ensures Has(Appended(log, es), k) && (k < First(log) || es == [] || k < es[0].index || es[0].index + |es| <= k) ==>
              Has(log, k) && At(Appended(log, es), k) == At(log, k)
  {
    hide Fresh;
    FreshEntries(log, es);
    AppendedIsLog(log, es);
    if es != [] && Start(log, es) <= k < es[0].index + |es| {
      FreshAt(log, es, k);
    }
  }

  // Compaction and snapshots

  /** Forget everything below index k, and keep of k itself only the term. */
  function CompactedTo(log: seq<Entry>, k: Index): seq<Entry>
    requires |log| > 0 && Has(log, k)
  {
    [Dummy(k, At(log, k).term)] + log[k - Offset(log) + 1..]
  }

  lemma CompactedAt(log: seq<Entry>, k: Index, j: nat)
    requires IsLog(log) && Has(log, k)
    ensures IsLog(CompactedTo(log, k))
    ensures Offset(CompactedTo(log, k)) == k && Last(CompactedTo(log, k)) == Last(log)
    ensures At(CompactedTo(log, k), k).term == At(log, k).term
    ensures k < j <= Last(log) ==> At(CompactedTo(log, k), j) == At(log, j)
  {}

  /** The entries after index k. */
  function After(es: seq<Entry>, k: nat): seq<Entry> {
    if es == [] || es[0].index > k then es
    else if k - es[0].index + 1 <= |es| then es[k - es[0].index + 1..]
    else []
  }

  /**
   * A snapshot can replace the log: its index is not stored, and the entries that come with it and
   * are not stored either, if there are any, begin at the snapshot's index or right after it.
   */
  predicate Installable(log: seq<Entry>, es: seq<Entry>, s: nat)
    requires |log| > 0
  {
    !Has(log, s) && (NothingNew(log, es) || s <= Max(es[0].index, Last(log) + 1) <= s + 1)
  }

  /** No entry lies beyond the log. */
  predicate NothingNew(log: seq<Entry>, es: seq<Entry>)
    requires |log| > 0
  {
    es == [] || es[0].index + |es| <= Last(log) + 1
  }

  /** The log is replaced by the snapshot's index and term, and the entries after it. */
  function Installed(log: seq<Entry>, es: seq<Entry>, snapshot: Snapshot): seq<Entry>
    requires |log| > 0
  {
    [Dummy(snapshot.index, snapshot.term)] + After(es, Max(snapshot.index, Last(log)))
  }

  lemma AfterEntries(es: seq<Entry>, k: nat)
    requires Consecutive(es)
    ensures Consecutive(After(es, k))
    ensures After(es, k) != [] ==> After(es, k)[0].index == Max(es[0].index, k + 1)
    ensures After(es, k) != [] ==> After(es, k)[0].index + |After(es, k)| == es[0].index + |es|
    ensures After(es, k) == [] <==> es == [] || es[0].index + |es| <= k + 1
    ensures forall e :: e in After(es, k) <==> e in es && k < e.index
  {
    var after := After(es, k);
    forall e | e in es && k < e.index ensures e in after {
      var i :| 0 <= i < |es| && es[i] == e;
      if es[0].index <= k {
        assert after[i - (k - es[0].index + 1)] == e;
      }
    }
  }

  lemma AfterAt(es: seq<Entry>, k: nat, j: nat)
    requires Consecutive(es) && es != [] && k < j && es[0].index <= j < es[0].index + |es|
    ensures j - Max(es[0].index, k + 1) < |After(es, k)|
    ensures After(es, k)[j - Max(es[0].index, k + 1)] == es[j - es[0].index]
  {}

  lemma InstalledIsLog(log: seq<Entry>, es: seq<Entry>, snapshot: Snapshot)
    requires |log| > 0 && Consecutive(es) && Installable(log, es, snapshot.index) && Last(log) < snapshot.index
    ensures IsLog(Installed(log, es, snapshot)) && Offset(Installed(log, es, snapshot)) == snapshot.index
    ensures Last(Installed(log, es, snapshot)) == Max(snapshot.index, if es == [] then 0 else es[0].index + |es| - 1)
    ensures forall e :: e in Installed(log, es, snapshot)[1..] <==> e in es && snapshot.index < e.index
  {
    AfterEntries(es, snapshot.index);
    assert Installed(log, es, snapshot)[1..] == After(es, snapshot.index);
  }

  lemma InstalledAt(log: seq<Entry>, es: seq<Entry>, snapshot: Snapshot, k: nat)
    requires |log| > 0 && Consecutive(es) && Installable(log, es, snapshot.index) && Last(log) < snapshot.index
    requires snapshot.index < k <= Last(Installed(log, es, snapshot))
    ensures Has(Installed(log, es, snapshot), k)
    ensures At(Installed(log, es, snapshot), k) in es && At(Installed(log, es, snapshot), k).index == k
  {
    hide After;
    AfterEntries(es, snapshot.index);
    InstalledIsLog(log, es, snapshot);
    var after := After(es, snapshot.index);
    assert At(Installed(log, es, snapshot), k) == after[k - snapshot.index - 1];
    assert after[k - snapshot.index - 1] in after;
  }

  // Reading

  function TotalSize(sizeOf: Entry -> nat, es: seq<Entry>): nat {
    if es == [] then 0 else TotalSize(sizeOf, es[..|es| - 1]) + sizeOf(es[|es| - 1])
  }

  /** The longest beginning that is not over the size limit, but at least one entry if there is one. */
  ghost predicate IsLimited(sizeOf: Entry -> nat, es: seq<Entry>, maxSize: nat, r: seq<Entry>) {
    && r <= es
    && (es != [] ==> r != [])
    && (|r| > 1 ==> TotalSize(sizeOf, r) <= maxSize)
    && (|r| < |es| ==> TotalSize(sizeOf, es[..|r| + 1]) > maxSize)
  }

  lemma {:induction false} TotalSizeGrows(sizeOf: Entry -> nat, es: seq<Entry>, i: nat, j: nat)
    requires i <= j <= |es|
    ensures TotalSize(sizeOf, es[..i]) <= TotalSize(sizeOf, es[..j])
    decreases j - i
  {
    if i < j {
      TotalSizeGrows(sizeOf, es, i, j - 1);
      assert es[..j][..j - 1] == es[..j - 1];
    }
  }

  /** The limit determines the answer. */
  lemma LimitedIsUnique(sizeOf: Entry -> nat, es: seq<Entry>, maxSize: nat, r: seq<Entry>, q: seq<Entry>)
    requires IsLimited(sizeOf, es, maxSize, r) && IsLimited(sizeOf, es, maxSize, q)
    ensures r == q
  {
    assert r == es[..|r|] && q == es[..|q|];
    if |r| < |q| {
      TotalSizeGrows(sizeOf, es, |r| + 1, |q|);
    } else if |q| < |r| {
      TotalSizeGrows(sizeOf, es, |q| + 1, |r|);
    }
  }

  /** The entries with index from lo up to, but not including, hi. */
  function Slice(log: seq<Entry>, lo: nat, hi: nat): seq<Entry>
    requires |log| > 0 && First(log) <= lo && hi <= Last(log) + 1
  {
    if hi <= lo then [] else log[lo - Offset(log)..hi - Offset(log)]
  }
}
