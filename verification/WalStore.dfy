/** The ordered key-value store under a write-ahead log, the keys of one group, and write batches. */
module WalStores {
  import opened Common
  import opened WalLogs

  /** What the store holds for one group: entries by index, and the two single records. */
  datatype Disk = Disk(entries: map<nat, Entry>, hardState: Option<HardState>, snapshot: Option<Snapshot>)

  const EMPTY_DISK := Disk(map[], None, None)

  /** The entries on disk are those of the log, each under its index. */
  ghost predicate Holds(m: map<nat, Entry>, log: seq<Entry>) {
    && |log| > 0
    && (forall k: nat :: k in m <==> Has(log, k))
    && forall k: nat :: k in m ==> m[k] == At(log, k)
  }

  lemma HoldsOne(m: map<nat, Entry>, a: seq<Entry>, b: seq<Entry>)
    requires IsLog(a) && IsLog(b) && Holds(m, a) && Holds(m, b)
    ensures a == b
  {
    assert Offset(a) in m && Offset(b) in m && Last(a) in m && Last(b) in m;
    forall i | 0 <= i < |a| ensures a[i] == b[i] {
      assert m[Offset(a) + i] == At(a, Offset(a) + i);
    }
  }

  datatype WriteOp = SetEntry(entry: Entry) | DeleteEntry(index: nat) | SetHardState(hardState: HardState) |
    SetSnapshot(snapshot: Snapshot)

  function Step(d: Disk, op: WriteOp): Disk {
    match op
    case SetEntry(e) => d.(entries := d.entries[e.index := e])
    case DeleteEntry(k) => d.(entries := d.entries - {k})
    case SetHardState(hs) => d.(hardState := Some(hs))
    case SetSnapshot(s) => d.(snapshot := Some(s))
  }

  /** The operations of a batch take effect in order: a later one on the same key wins. */
  function Effect(d: Disk, ops: seq<WriteOp>): Disk {
    if ops == [] then d else Step(Effect(d, ops[..|ops| - 1]), ops[|ops| - 1])
  }

  lemma EffectNext(d: Disk, ops: seq<WriteOp>, op: WriteOp)
    ensures Effect(d, ops + [op]) == Step(Effect(d, ops), op)
  {
    assert (ops + [op])[..|ops|] == ops;
  }

  /** The map with the entries of es put over it, in order. */
  function Overwritten(m: map<nat, Entry>, es: seq<Entry>): map<nat, Entry> {
    if es == [] then m else Overwritten(m, es[..|es| - 1])[es[|es| - 1].index := es[|es| - 1]]
  }

  lemma OverwrittenNext(m: map<nat, Entry>, es: seq<Entry>, i: nat)
    requires i < |es|
    ensures Overwritten(m, es[..i + 1]) == Overwritten(m, es[..i])[es[i].index := es[i]]
  {
    assert es[..i + 1][..i] == es[..i];
  }

  lemma {:induction false} OverwrittenAt(m: map<nat, Entry>, es: seq<Entry>, k: nat)
    requires Consecutive(es)
    ensures k in Overwritten(m, es) <==> k in m || (es != [] && es[0].index <= k < es[0].index + |es|)
    ensures k in Overwritten(m, es) ==>
              Overwritten(m, es)[k] ==
              if es != [] && es[0].index <= k < es[0].index + |es| then es[k - es[0].index] else m[k]
  {
    if es != [] {
      OverwrittenAt(m, es[..|es| - 1], k);
    }
  }

  /** The stored indices from k on. */
  function KeysFrom(m: map<nat, Entry>, k: nat): set<nat> {
    set i | i in m && k <= i
  }

  /** The stored indices below k. */
  function KeysBelow(m: map<nat, Entry>, k: nat): set<nat> {
    set i | i in m && i < k
  }

  /** A key found by seeking from k: the first at or after it, or the last at or before it. */
  ghost predicate IsSought(keys: set<nat>, k: nat, reverse: bool, found: Option<nat>) {
    match found
    case Some(i) => i in keys && (if reverse then IsLastUpTo(keys, k, i) else IsFirstFrom(keys, k, i))
    case None => forall j :: j in keys ==> if reverse then k < j else j < k
  }

  ghost predicate IsFirstFrom(keys: set<nat>, k: nat, i: nat) {
    k <= i && forall j :: j in keys && k <= j ==> i <= j
  }

  ghost predicate IsLastUpTo(keys: set<nat>, k: nat, i: nat) {
    i <= k && forall j :: j in keys && j <= k ==> j <= i
  }

  /** Whether seeking from k prefers i to what was found so far. */
  predicate Preferred(k: nat, reverse: bool, found: Option<nat>, i: nat) {
    if reverse then i <= k && (found.None? || found.value < i) else k <= i && (found.None? || i < found.value)
  }

  lemma SoughtNext(keys: set<nat>, k: nat, reverse: bool, found: Option<nat>, i: nat)
    requires IsSought(keys, k, reverse, found)
    ensures IsSought(keys + {i}, k, reverse, if Preferred(k, reverse, found, i) then Some(i) else found)
  {}

  class WriteBatch {
    var ops: seq<WriteOp>

    constructor ()
      ensures ops == []
    {
      ops := [];
    }

    method Add(op: WriteOp, ghost disk: Disk)
      modifies this`ops
      ensures Effect(disk, ops) == Step(Effect(disk, old(ops)), op)
    {
      EffectNext(disk, ops, op);
      ops := ops + [op];
    }
  }

  class Store {
    var disk: Disk

    constructor ()
      ensures disk == EMPTY_DISK
    {
      disk := EMPTY_DISK;
    }

    /** Position an iterator over the entry keys. */
    method Seek(k: nat, reverse: bool) returns (found: Option<nat>)
      ensures IsSought(disk.entries.Keys, k, reverse, found)
    {
      found := None;
      var todo := disk.entries.Keys;
      while todo != {}
        invariant todo <= disk.entries.Keys
        invariant IsSought(disk.entries.Keys - todo, k, reverse, found)
        decreases todo
      {
        var i :| i in todo;
        SoughtNext(disk.entries.Keys - todo, k, reverse, found, i);
        todo := todo - {i};
        assert disk.entries.Keys - todo == disk.entries.Keys - (todo + {i}) + {i};
        found := if Preferred(k, reverse, found, i) then Some(i) else found;
      }
      assert disk.entries.Keys - todo == disk.entries.Keys;
    }

    /** WriteBatch.Flush: all operations of the batch, in order. */
    method Flush(batch: WriteBatch)
      modifies this`disk
      ensures disk == Effect(old(disk), batch.ops)
    {
      var ops := batch.ops;
      for i := 0 to |ops|
        invariant disk == Effect(old(disk), ops[..i])
      {
        EffectNext(old(disk), ops[..i], ops[i]);
        assert ops[..i + 1] == ops[..i] + [ops[i]];
        disk := Step(disk, ops[i]);
      }
      assert ops[..|ops|] == ops;
    }
  }

  lemma DeletedNext(m: map<nat, Entry>, gone: set<nat>, i: nat)
    ensures (m - gone) - {i} == m - (gone + {i})
  {}

  // What the operations of the log make of the entries on disk

  /** Writing es: entries that are not compacted are set, and what is stored behind the last is deleted. */
  function Written(m: map<nat, Entry>, log: seq<Entry>, es: seq<Entry>): map<nat, Entry>
    requires |log| > 0
  {
    if Fresh(log, es) == [] then m
    else Overwritten(m, Fresh(log, es)) - KeysFrom(m, Fresh(log, es)[|Fresh(log, es)| - 1].index + 1)
  }

  /** Save: a snapshot's dummy is set, and then everything stored before is deleted. */
  function Saved(m: map<nat, Entry>, log: seq<Entry>, es: seq<Entry>, snapshot: Snapshot): map<nat, Entry>
    requires |log| > 0
  {
    if snapshot.Empty() then Written(m, log, es)
    else Written(m, log, es)[snapshot.index := Dummy(snapshot.index, snapshot.term)] - m.Keys
  }

  /** CreateSnapshot: the dummy is set at k, and what is below is deleted. */
  function Cut(m: map<nat, Entry>, k: Index, term: nat): map<nat, Entry> {
    m[k := Dummy(k, term)] - KeysBelow(m, k)
  }

  lemma WrittenAt(m: map<nat, Entry>, log: seq<Entry>, es: seq<Entry>, k: nat)
    requires Consecutive(es) && IsLog(log) && Holds(m, log)
    requires es != [] && First(log) < es[0].index + |es|
    ensures k in Written(m, log, es) <==>
            (Has(log, k) && k < es[0].index + |es|) || Start(log, es) <= k < es[0].index + |es|
    ensures k in Written(m, log, es) ==>
              Written(m, log, es)[k] == if Start(log, es) <= k then es[k - es[0].index] else At(log, k)
  {
    hide Overwritten, Fresh;
    FreshEntries(log, es);
    var kept := Fresh(log, es);
    OverwrittenAt(m, kept, k);
    assert kept[|kept| - 1].index == kept[0].index + (|kept| - 1);
    if Start(log, es) <= k < es[0].index + |es| {
      FreshAt(log, es, k);
    }
  }

  /** Writing entries that leave no gap is appending them to the log. */
  lemma WrittenIsAppended(m: map<nat, Entry>, log: seq<Entry>, es: seq<Entry>)
    requires Consecutive(es) && IsLog(log) && Holds(m, log) && Fits(log, es)
    ensures Holds(Written(m, log, es), Appended(log, es))
  {
    var after := Appended(log, es);
    FreshEntries(log, es);
    AppendedIsLog(log, es);
    if Fresh(log, es) != [] {
      forall k: nat ensures k in Written(m, log, es) <==> Has(after, k)
        ensures k in Written(m, log, es) ==> Written(m, log, es)[k] == At(after, k)
      {
        WrittenAt(m, log, es, k);
        AppendedAt(log, es, k);
      }
    }
  }

  lemma CutIsCompacted(m: map<nat, Entry>, log: seq<Entry>, k: Index)
    requires IsLog(log) && Holds(m, log) && Has(log, k)
    ensures Holds(Cut(m, k, At(log, k).term), CompactedTo(log, k))
  {}

  lemma SavedAt(m: map<nat, Entry>, log: seq<Entry>, es: seq<Entry>, snapshot: Snapshot, k: nat)
    requires Consecutive(es) && IsLog(log) && Holds(m, log) && !snapshot.Empty()
    ensures k in Saved(m, log, es, snapshot) <==>
              !Has(log, k) && (k == snapshot.index || (es != [] && Start(log, es) <= k < es[0].index + |es|))
    ensures k in Saved(m, log, es, snapshot) ==>
              Saved(m, log, es, snapshot)[k] ==
              if k == snapshot.index then Dummy(snapshot.index, snapshot.term) else es[k - es[0].index]
  {
    FreshEntries(log, es);
    if es != [] && First(log) < es[0].index + |es| {
      WrittenAt(m, log, es, k);
    }
  }

  /** For example: with one entry in the log, saving a snapshot of it deletes all entries, its own included. */
  lemma SnapshotCanBeLost(e: Entry, snapshot: Snapshot)
    requires e.index == 1 && snapshot.index == 1
    ensures var log := [Dummy(0, 0), e];
            var m := map[0 := Dummy(0, 0), 1 := e];
            IsLog(log) && Holds(m, log) && Saved(m, log, [], snapshot) == map[]
  {
    var log, m := [Dummy(0, 0), e], map[0 := Dummy(0, 0), 1 := e];
    forall k: nat ensures k !in Saved(m, log, [], snapshot) {
      SavedAt(m, log, [], snapshot, k);
    }
  }

  /** Saving an installable snapshot leaves its dummy and the entries after it. */
  lemma SavedIsInstalled(m: map<nat, Entry>, log: seq<Entry>, es: seq<Entry>, snapshot: Snapshot)
    requires Consecutive(es) && IsLog(log) && Holds(m, log) && !snapshot.Empty()
    requires Installable(log, es, snapshot.index)
    ensures Holds(Saved(m, log, es, snapshot), Installed(log, es, snapshot))
    ensures IsLog(Installed(log, es, snapshot))
  {
    hide Saved, After;
    var bound := Max(snapshot.index, Last(log));
    AfterEntries(es, bound);
    forall k: nat ensures k in Saved(m, log, es, snapshot) <==> Has(Installed(log, es, snapshot), k)
      ensures k in Saved(m, log, es, snapshot) ==> Saved(m, log, es, snapshot)[k] == At(Installed(log, es, snapshot), k)
    {
      SavedAt(m, log, es, snapshot, k);
      if es != [] && bound < k && es[0].index <= k < es[0].index + |es| {
        AfterAt(es, bound, k);
      }
    }
  }

  /**
   * A saved snapshot heads the log on disk exactly if it was installable. In particular, a snapshot
   * whose index is stored is lost: its entry is deleted right after it is set.
   */
  lemma SavedHeadsLogIffInstallable(m: map<nat, Entry>, log: seq<Entry>, es: seq<Entry>, snapshot: Snapshot,
          after: seq<Entry>)
    requires Consecutive(es) && IsLog(log) && Holds(m, log) && !snapshot.Empty()
    ensures Holds(Saved(m, log, es, snapshot), after) && IsLog(after) && Offset(after) == snapshot.index
            <==> Installable(log, es, snapshot.index) && after == Installed(log, es, snapshot)
    ensures Has(log, snapshot.index) ==> snapshot.index !in Saved(m, log, es, snapshot)
  {
    hide Saved;
    var saved := Saved(m, log, es, snapshot);
    SavedAt(m, log, es, snapshot, snapshot.index);
    if Holds(saved, after) && IsLog(after) && Offset(after) == snapshot.index {
      if !NothingNew(log, es) {
        SavedAt(m, log, es, snapshot, Max(es[0].index, Last(log) + 1));
        SavedAt(m, log, es, snapshot, snapshot.index + 1);
      }
      SavedIsInstalled(m, log, es, snapshot);
      HoldsOne(saved, after, Installed(log, es, snapshot));
    } else if Installable(log, es, snapshot.index) {
      SavedIsInstalled(m, log, es, snapshot);
    }
  }
}
