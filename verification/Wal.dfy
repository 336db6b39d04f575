/** The write-ahead log of a Raft group on an ordered key-value store: storage/wal/badger.go. */
module Wals {
  import opened Common
  import opened WalLogs
  import opened WalStores

  /** The three cached answers. */
  datatype Cache = Cache(snapshot: Option<Snapshot>, first: Option<nat>, last: Option<nat>)

  const EMPTY_CACHE := Cache(None, None, None)

  /** The disk holds the log, and the dummy stands for the stored snapshot, or for the beginning. */
  ghost predicate OnDisk(disk: Disk, log: seq<Entry>) {
    && IsLog(log) && Holds(disk.entries, log)
    && if disk.snapshot.Some? then SnapshotIsHead(disk.snapshot.value, log) else log[0] == Dummy(0, 0)
  }

  ghost predicate SnapshotIsHead(snapshot: Snapshot, log: seq<Entry>)
    requires |log| > 0
  {
    !snapshot.Empty() && log[0] == Dummy(snapshot.index, snapshot.term)
  }

  /** The caches agree with the disk. A stale first index is allowed only behind a cached snapshot. */
  ghost predicate Coherent(disk: Disk, cache: Cache, log: seq<Entry>)
    requires |log| > 0
  {
    && (cache.snapshot.Some? ==> cache.snapshot == disk.snapshot)
    && (cache.snapshot.None? && cache.first.Some? ==> cache.first.value == First(log))
    && (cache.last.Some? ==> cache.last.value == Last(log))
  }

  function SnapshotOf(disk: Disk): Snapshot {
    if disk.snapshot.Some? then disk.snapshot.value else EMPTY_SNAPSHOT
  }

  function HardStateOf(disk: Disk): HardState {
    if disk.hardState.Some? then disk.hardState.value else EMPTY_HARD_STATE
  }

  /** What Save can be asked to do without leaving a gap or losing the snapshot. */
  predicate Acceptable(log: seq<Entry>, es: seq<Entry>, snapshot: Snapshot)
    requires |log| > 0
  {
    if snapshot.Empty() then Fits(log, es) else Last(log) < snapshot.index && Installable(log, es, snapshot.index)
  }

  /** The log after Save. */
  function AfterSave(log: seq<Entry>, es: seq<Entry>, snapshot: Snapshot): seq<Entry>
    requires |log| > 0 && Acceptable(log, es, snapshot)
  {
    if snapshot.Empty() then Appended(log, es) else Installed(log, es, snapshot)
  }

  /** What Save leaves on disk, acceptable or not. */
  function SavedDisk(disk: Disk, log: seq<Entry>, hardState: HardState, es: seq<Entry>, snapshot: Snapshot): Disk
    requires |log| > 0
  {
    Disk(Saved(disk.entries, log, es, snapshot),
         if hardState == EMPTY_HARD_STATE then disk.hardState else Some(hardState),
         if snapshot.Empty() then disk.snapshot else Some(snapshot))
  }

  /** The caches after writing the entries. */
  function CacheWritten(cache: Cache, log: seq<Entry>, es: seq<Entry>): Cache
    requires |log| > 0
  {
    if Fresh(log, es) == [] then cache else cache.(last := Some(Fresh(log, es)[|Fresh(log, es)| - 1].index))
  }

  /** The caches after writing a snapshot. */
  function CacheHeaded(cache: Cache, snapshot: Snapshot): Cache {
    cache.(snapshot := Some(snapshot),
           last := if cache.last.Some? && cache.last.value < snapshot.index then Some(snapshot.index) else cache.last)
  }

  function SavedCache(cache: Cache, log: seq<Entry>, es: seq<Entry>, snapshot: Snapshot): Cache
    requires |log| > 0
  {
    if snapshot.Empty() then CacheWritten(cache, log, es) else CacheHeaded(CacheWritten(cache, log, es), snapshot)
  }

  lemma SaveKeepsLog(disk: Disk, cache: Cache, log: seq<Entry>, hardState: HardState, es: seq<Entry>,
          snapshot: Snapshot)
    requires OnDisk(disk, log) && Coherent(disk, cache, log) && Consecutive(es) && Acceptable(log, es, snapshot)
    ensures OnDisk(SavedDisk(disk, log, hardState, es, snapshot), AfterSave(log, es, snapshot))
    ensures Coherent(SavedDisk(disk, log, hardState, es, snapshot), SavedCache(cache, log, es, snapshot),
                     AfterSave(log, es, snapshot))
  {
    hide Saved, Written, Holds;
    FreshEntries(log, es);
    if snapshot.Empty() {
      WrittenIsAppended(disk.entries, log, es);
      SavedWithoutSnapshot(disk.entries, log, es, snapshot);
      AppendedIsLog(log, es);
    } else {
      SavedIsInstalled(disk.entries, log, es, snapshot);
      InstalledIsLog(log, es, snapshot);
    }
  }

  lemma SavedWithoutSnapshot(m: map<nat, Entry>, log: seq<Entry>, es: seq<Entry>, snapshot: Snapshot)
    requires |log| > 0 && snapshot.Empty()
    ensures Saved(m, log, es, snapshot) == Written(m, log, es)
  {}

  /** The keys collected by an iterator that started at `from` and now is at `at`. */
  ghost predicate Collected(m: map<nat, Entry>, from: nat, at: Option<nat>, keys: seq<nat>) {
    && (at.Some? ==> at.value in m && from <= at.value)
    && forall k: nat :: k in keys <==> k in m && from <= k && (at.None? || k < at.value)
  }

  ghost function Ahead(m: map<nat, Entry>, at: Option<nat>): set<nat> {
    if at.None? then {} else KeysFrom(m, at.value)
  }

  lemma CollectNext(m: map<nat, Entry>, from: nat, at: nat, keys: seq<nat>, next: Option<nat>)
    requires Collected(m, from, Some(at), keys) && IsSought(m.Keys, at + 1, false, next)
    ensures Collected(m, from, next, keys + [at])
    ensures Ahead(m, next) < Ahead(m, Some(at))
  {
    assert at in Ahead(m, Some(at));
  }

  lemma LowestIsOffset(m: map<nat, Entry>, log: seq<Entry>, index: Option<nat>)
    requires Holds(m, log) && IsSought(m.Keys, 0, false, index)
    ensures index == Some(Offset(log))
  {
    assert Offset(log) in m;
  }

  lemma HighestIsLast(m: map<nat, Entry>, log: seq<Entry>, index: Option<nat>)
    requires IsLog(log) && Holds(m, log) && IsSought(m.Keys, MAX_INDEX, true, index)
    ensures index == Some(Last(log))
  {
    assert Last(log) in m && log[|log| - 1].index == Last(log);
  }

  /** Seeking an index finds it if it is stored, and nothing if it is beyond the log. */
  lemma SoughtEntry(m: map<nat, Entry>, log: seq<Entry>, k: nat, index: Option<nat>)
    requires Holds(m, log) && Offset(log) <= k && IsSought(m.Keys, k, false, index)
    ensures index == if k <= Last(log) then Some(k) else None
    ensures k <= Last(log) ==> k in m && m[k] == At(log, k)
  {
    if k <= Last(log) {
      assert k in m;
    }
  }

  function EntryAt(log: seq<Entry>, k: nat): Option<Entry>
    requires |log| > 0 && Offset(log) <= k
  {
    if k <= Last(log) then Some(At(log, k)) else None
  }

  /** The entries read so far, their size, and the entry under the iterator. */
  ghost predicate ReadSoFar(sizeOf: Entry -> nat, log: seq<Entry>, lo: nat, hi: nat, maxSize: nat, entries: seq<Entry>,
          size: nat, at: Option<Entry>)
    requires IsLog(log) && First(log) <= lo && hi <= Last(log) + 1
  {
    && at == EntryAt(log, lo + |entries|)
    && entries <= Slice(log, lo, hi)
    && size == TotalSize(sizeOf, entries) && (|entries| > 1 ==> size <= maxSize)
  }

  lemma NextInSlice(log: seq<Entry>, lo: nat, hi: nat, entries: seq<Entry>, e: Entry)
    requires IsLog(log) && First(log) <= lo && hi <= Last(log) + 1 && entries <= Slice(log, lo, hi)
    requires Some(e) == EntryAt(log, lo + |entries|) && e.index < hi
    ensures e.index == lo + |entries| && |entries| < |Slice(log, lo, hi)|
    ensures entries + [e] == Slice(log, lo, hi)[..|entries| + 1]
  {}

  lemma TotalSizeNext(sizeOf: Entry -> nat, entries: seq<Entry>, e: Entry)
    ensures TotalSize(sizeOf, entries + [e]) == TotalSize(sizeOf, entries) + sizeOf(e)
  {
    assert (entries + [e])[..|entries|] == entries;
  }

  lemma ReadNext(sizeOf: Entry -> nat, log: seq<Entry>, lo: nat, hi: nat, maxSize: nat, entries: seq<Entry>, size: nat,
          e: Entry)
    requires IsLog(log) && First(log) <= lo && hi <= Last(log) + 1
    requires ReadSoFar(sizeOf, log, lo, hi, maxSize, entries, size, Some(e)) && e.index < hi
    ensures e.index == lo + |entries|
    ensures TotalSize(sizeOf, Slice(log, lo, hi)[..|entries| + 1]) == size + sizeOf(e)
    ensures size + sizeOf(e) <= maxSize || entries == [] ==>
              ReadSoFar(sizeOf, log, lo, hi, maxSize, entries + [e], size + sizeOf(e), EntryAt(log, e.index + 1))
  {
    hide TotalSize;
    NextInSlice(log, lo, hi, entries, e);
    TotalSizeNext(sizeOf, entries, e);
  }

  lemma ReadStart(sizeOf: Entry -> nat, log: seq<Entry>, lo: nat, hi: nat, maxSize: nat)
    requires IsLog(log) && First(log) <= lo && hi <= Last(log) + 1
    ensures ReadSoFar(sizeOf, log, lo, hi, maxSize, [], 0, EntryAt(log, lo))
  {}

  lemma SingleEntry(sizeOf: Entry -> nat, log: seq<Entry>, k: nat, maxSize: nat)
    requires |log| > 0 && First(log) <= k <= Last(log)
    ensures IsLimited(sizeOf, Slice(log, k, k + 1), maxSize, [At(log, k)])
  {
    assert Slice(log, k, k + 1) == [At(log, k)];
  }

  lemma ReadEnd(sizeOf: Entry -> nat, log: seq<Entry>, lo: nat, hi: nat, maxSize: nat, entries: seq<Entry>, size: nat,
          at: Option<Entry>)
    requires IsLog(log) && First(log) <= lo && hi <= Last(log) + 1
    requires ReadSoFar(sizeOf, log, lo, hi, maxSize, entries, size, at)
    requires at.None? || hi <= at.value.index || (entries != [] && size + sizeOf(at.value) > maxSize)
    ensures IsLimited(sizeOf, Slice(log, lo, hi), maxSize, entries)
  {
    if at.Some? && at.value.index < hi {
      ReadNext(sizeOf, log, lo, hi, maxSize, entries, size, at.value);
    }
  }

  /** Dropping a set of indices is the difference between the effects of two batches. */
  ghost predicate Drops(disk: Disk, ops: seq<WriteOp>, after: seq<WriteOp>, gone: set<nat>) {
    Effect(disk, after) == Effect(disk, ops).(entries := Effect(disk, ops).entries - gone)
  }

  lemma DropsStart(disk: Disk, ops: seq<WriteOp>)
    ensures Drops(disk, ops, ops, {})
  {
    assert Effect(disk, ops).entries - {} == Effect(disk, ops).entries;
  }

  lemma DropsNext(disk: Disk, ops: seq<WriteOp>, after: seq<WriteOp>, gone: set<nat>, i: nat)
    requires Drops(disk, ops, after, gone)
    ensures Step(Effect(disk, after), DeleteEntry(i)) ==
            Effect(disk, ops).(entries := Effect(disk, ops).entries - (gone + {i}))
  {
    DeletedNext(Effect(disk, ops).entries, gone, i);
  }

  lemma NothingWritten(disk: Disk, log: seq<Entry>, es: seq<Entry>)
    requires |log| > 0 && Fresh(log, es) == []
    ensures Effect(disk, []) == disk.(entries := Written(disk.entries, log, es))
  {}

  lemma NothingBehind(m: map<nat, Entry>, log: seq<Entry>, after: map<nat, Entry>, k: nat)
    requires Holds(m, log) && Last(log) < k
    ensures after - KeysFrom(m, k) == after
  {
    assert KeysFrom(m, k) == {};
  }

  class BadgerWAL {
    const store: Store
    const sizeOf: Entry -> nat
    var cache: Cache
    /** The log that disk and caches stand for. */
    ghost var log: seq<Entry>

    ghost predicate Valid()
      reads this, store
    {
      OnDisk(store.disk, log) && Coherent(store.disk, cache, log)
    }

    /** A store without entries: never used, or emptied by DeleteGroup. */
    ghost predicate Blank()
      reads this, store
    {
      store.disk.entries == map[] && cache == EMPTY_CACHE
    }

    /**
     * NewBadgerWAL: open a log on a store, or start a new one. Opening leaves the disk as it is, and the log is the
     * one on disk. Without entries the log starts at 0, which a snapshot record that was left behind contradicts.
     */
    constructor (store: Store, sizeOf: Entry -> nat, ghost present: seq<Entry>)
      requires store.disk.entries == map[] || OnDisk(store.disk, present)
      modifies store
      ensures this.store == store && this.sizeOf == sizeOf
      ensures if old(store.disk).entries == map[]
              then log == [Dummy(0, 0)] && store.disk.entries == map[0 := Dummy(0, 0)]
              else log == present && store.disk == old(store.disk)
      ensures store.disk.hardState == old(store.disk.hardState) && store.disk.snapshot == old(store.disk.snapshot)
      ensures Valid() <==> old(store.disk).entries != map[] || old(store.disk).snapshot.None?
    {
      this.store, this.sizeOf := store, sizeOf;
      cache := EMPTY_CACHE;
      log := present;
      new;
      var r := FirstIndex();
      if r == Err(EntryNotFound) {
        Reset([Dummy(0, 0)]);
        log := [Dummy(0, 0)];
        StartsAtZero(store.disk);
      }
    }

    method FirstIndex() returns (r: Result<nat>)
      requires Valid() || Blank()
      modifies this`cache
      ensures store.disk.entries == map[] ==> r == Err(EntryNotFound) && Blank()
      ensures store.disk.entries != map[] ==> Valid() && r == Ok(First(log))
      ensures store.disk.entries != map[] && (old(cache).snapshot.None? || old(cache).snapshot.value.Empty()) ==>
                cache == old(cache).(first := Some(First(log)))
    {
      StoredOrBlank(store.disk, log);
      if cache.snapshot.Some? && !cache.snapshot.value.Empty() {
        return Ok(cache.snapshot.value.index + 1);
      }
      if cache.first.Some? {
        return Ok(cache.first.value);
      }
      var index := store.Seek(0, false);
      if index.None? {
        NothingStored(store.disk.entries, index);
        return Err(EntryNotFound);
      }
      LowestIsOffset(store.disk.entries, log, index);
      cache := cache.(first := Some(index.value + 1));
      r := Ok(index.value + 1);
    }

    method LastIndex() returns (r: nat)
      requires Valid()
      ensures r == Last(log)
    {
      if cache.last.Some? {
        return cache.last.value;
      }
      var index := store.Seek(MAX_INDEX, true);
      HighestIsLast(store.disk.entries, log, index);
      r := index.value;
    }

    method Snapshot() returns (r: Snapshot)
      requires Valid()
      ensures r == SnapshotOf(store.disk)
    {
      if cache.snapshot.Some? && !cache.snapshot.value.Empty() {
        return cache.snapshot.value;
      }
      r := if store.disk.snapshot.Some? then store.disk.snapshot.value else EMPTY_SNAPSHOT;
    }

    method HardState() returns (r: HardState)
      ensures r == HardStateOf(store.disk)
    {
      r := if store.disk.hardState.Some? then store.disk.hardState.value else EMPTY_HARD_STATE;
    }

    method InitialState() returns (hardState: HardState, confState: ConfState)
      requires Valid()
      ensures hardState == HardStateOf(store.disk) && confState == SnapshotOf(store.disk).confState
    {
      hardState := HardState();
      var snapshot := Snapshot();
      confState := snapshot.confState;
    }

    /** Position an iterator at an index that is not below the log. */
    method SeekEntry(k: nat) returns (entry: Option<Entry>)
      requires OnDisk(store.disk, log) && Offset(log) <= k
      ensures entry == EntryAt(log, k)
    {
      var index := store.Seek(k, false);
      SoughtEntry(store.disk.entries, log, k, index);
      entry := if index.None? then None else Some(store.disk.entries[index.value]);
    }

    method Term(idx: nat) returns (r: Result<nat>)
      requires Valid()
      modifies this`cache
      ensures Valid()
      ensures r == if idx < Offset(log) then Err(Compacted)
                   else if Last(log) < idx then Err(Unavailable)
                   else Ok(At(log, idx).term)
    {
      StoredIsNotEmpty(store.disk, log);
      var firstIndex := FirstIndex();
      if idx < firstIndex.value - 1 {
        return Err(Compacted);
      }
      var entry := SeekEntry(idx);
      if entry.None? {
        return Err(Unavailable);
      }
      r := if idx < entry.value.index then Err(Compacted) else Ok(entry.value.term);
    }

    method Entries(lo: nat, hi: nat, maxSize: nat) returns (r: Result<seq<Entry>>)
      requires Valid()
      modifies this`cache
      ensures Valid()
      ensures if lo < First(log) then r == Err(Compacted)
              else if Last(log) + 1 < hi then r == Err(Unavailable)
              else r.Ok? && IsLimited(sizeOf, Slice(log, lo, hi), maxSize, r.value)
    {
      StoredIsNotEmpty(store.disk, log);
      var firstIndex := FirstIndex();
      if lo < firstIndex.value {
        return Err(Compacted);
      }
      var lastIndex := LastIndex();
      if hi > lastIndex + 1 {
        return Err(Unavailable);
      }
      var entries := GetEntries(lo, hi, maxSize);
      r := Ok(entries);
    }

    method GetEntries(lo: nat, hi: nat, maxSize: nat) returns (entries: seq<Entry>)
      requires Valid() && First(log) <= lo && hi <= Last(log) + 1
      ensures IsLimited(sizeOf, Slice(log, lo, hi), maxSize, entries)
    {
      hide Holds, ReadSoFar;
      ReadStart(sizeOf, log, lo, hi, maxSize);
      var at := SeekEntry(lo);
      if hi == lo + 1 {
        SingleEntry(sizeOf, log, lo, maxSize);
        return [at.value];
      }
      entries := [];
      var size: nat, first := 0, true;
      while at.Some?
        invariant ReadSoFar(sizeOf, log, lo, hi, maxSize, entries, size, at) && first == (entries == [])
        decreases Last(log) - lo - |entries|
      {
        var entry := at.value;
        if entry.index >= hi {
          break;
        }
        ReadNext(sizeOf, log, lo, hi, maxSize, entries, size, entry);
        if size + sizeOf(entry) > maxSize && !first {
          break;
        }
        size, first := size + sizeOf(entry), false;
        entries := entries + [entry];
        at := SeekEntry(entry.index + 1);
      }
      ReadEnd(sizeOf, log, lo, hi, maxSize, entries, size, at);
    }

    // Writing

    method DeleteKeys(batch: WriteBatch, keys: seq<nat>, ghost gone: set<nat>)
      requires forall k :: k in gone <==> k in keys
      modifies batch`ops
      ensures Drops(store.disk, old(batch.ops), batch.ops, gone)
    {
      ghost var done: set<nat> := {};
      DropsStart(store.disk, batch.ops);
      for i := 0 to |keys|
        invariant forall k :: k in done <==> k in keys[..i]
        invariant Drops(store.disk, old(batch.ops), batch.ops, done)
      {
        DropsNext(store.disk, old(batch.ops), batch.ops, done, keys[i]);
        batch.Add(DeleteEntry(keys[i]), store.disk);
        done := done + {keys[i]};
      }
      assert done == gone;
    }

    /** Delete what the store, not the batch, holds from an index on. */
    method DeleteEntriesFromIndex(batch: WriteBatch, fromIdx: nat)
      modifies batch`ops
      ensures Drops(store.disk, old(batch.ops), batch.ops, KeysFrom(store.disk.entries, fromIdx))
    {
      var keys: seq<nat> := [];
      var at := store.Seek(fromIdx, false);
      while at.Some?
        invariant Collected(store.disk.entries, fromIdx, at, keys) && batch.ops == old(batch.ops)
        decreases Ahead(store.disk.entries, at)
      {
        var index := at.value;
        at := store.Seek(index + 1, false);
        CollectNext(store.disk.entries, fromIdx, index, keys, at);
        keys := keys + [index];
      }
      DeleteKeys(batch, keys, KeysFrom(store.disk.entries, fromIdx));
    }

    /** Delete what the store holds below an index; an error if that is nothing. */
    method DeleteEntriesUntilIndex(batch: WriteBatch, untilIdx: nat) returns (err: Option<Error>)
      requires OnDisk(store.disk, log)
      modifies this`cache, batch`ops
      ensures err == if untilIdx <= Offset(log) then Some(Compacted) else None
      ensures err.None? ==> Drops(store.disk, old(batch.ops), batch.ops, KeysBelow(store.disk.entries, untilIdx))
      ensures cache == if err.None? && old(cache).first.Some? && old(cache).first.value <= untilIdx
                       then old(cache).(first := Some(untilIdx + 1)) else old(cache)
    {
      var keys: seq<nat> := [];
      var first := true;
      var at := store.Seek(0, false);
      LowestIsOffset(store.disk.entries, log, at);
      while at.Some?
        invariant Collected(store.disk.entries, 0, at, keys) && batch.ops == old(batch.ops) && cache == old(cache)
        invariant if first then at == Some(Offset(log)) else Offset(log) < untilIdx
        invariant forall k :: k in keys ==> k < untilIdx
        decreases Ahead(store.disk.entries, at)
      {
        var index := at.value;
        if first {
          first := false;
          if untilIdx <= index {
            return Some(Compacted);
          }
        }
        if index >= untilIdx {
          break;
        }
        at := store.Seek(index + 1, false);
        CollectNext(store.disk.entries, 0, index, keys, at);
        keys := keys + [index];
      }
      DeleteKeys(batch, keys, KeysBelow(store.disk.entries, untilIdx));
      if cache.first.Some? && cache.first.value <= untilIdx {
        cache := cache.(first := Some(untilIdx + 1));
      }
      err := None;
    }

    method SetEntries(batch: WriteBatch, entries: seq<Entry>)
      modifies batch`ops
      ensures var before := Effect(store.disk, old(batch.ops));
              Effect(store.disk, batch.ops) == before.(entries := Overwritten(before.entries, entries))
    {
      ghost var before := Effect(store.disk, batch.ops);
      for i := 0 to |entries|
        invariant Effect(store.disk, batch.ops) == before.(entries := Overwritten(before.entries, entries[..i]))
      {
        OverwrittenNext(before.entries, entries, i);
        batch.Add(SetEntry(entries[i]), store.disk);
      }
      assert entries[..|entries|] == entries;
    }

    method WriteEntries(batch: WriteBatch, es: seq<Entry>) returns (ghost seen: Cache)
      requires Valid() && Consecutive(es) && batch.ops == []
      modifies this`cache, batch`ops
      ensures Effect(store.disk, batch.ops) == store.disk.(entries := Written(store.disk.entries, log, es))
      ensures Coherent(store.disk, seen, log) && cache == CacheWritten(seen, log, es)
    {
      hide Written, Holds;
      FreshEntries(log, es);
      seen := cache;
      if |es| == 0 {
        NothingWritten(store.disk, log, es);
        return;
      }
      StoredIsNotEmpty(store.disk, log);
      var firstIndex := FirstIndex();
      seen := cache;
      var firstEntryIndex := es[0].index;
      if firstEntryIndex + |es| - 1 < firstIndex.value {
        NothingWritten(store.disk, log, es);
        return;
      }
      var entries := if firstIndex.value > firstEntryIndex then es[firstIndex.value - firstEntryIndex..] else es;
      assert entries == Fresh(log, es);
      PutEntries(batch, entries, es);
    }

    /** The rest of writeEntries, for entries that are not compacted. */
    method PutEntries(batch: WriteBatch, entries: seq<Entry>, ghost es: seq<Entry>)
      requires Valid() && batch.ops == [] && entries != [] && entries == Fresh(log, es)
      modifies this`cache, batch`ops
      ensures Effect(store.disk, batch.ops) == store.disk.(entries := Written(store.disk.entries, log, es))
      ensures cache == old(cache).(last := Some(entries[|entries| - 1].index))
    {
      hide Holds, Overwritten, Fresh;
      var lastIndex := LastIndex();
      SetEntries(batch, entries);
      var lastEntryIndex: nat := entries[|entries| - 1].index;
      cache := cache.(last := Some(lastEntryIndex));
      if lastIndex > lastEntryIndex {
        DeleteEntriesFromIndex(batch, lastEntryIndex + 1);
      } else {
        NothingBehind(store.disk.entries, log, Overwritten(store.disk.entries, entries), lastEntryIndex + 1);
      }
    }

    method WriteHardState(batch: WriteBatch, hardState: HardState)
      modifies batch`ops
      ensures var before := Effect(store.disk, old(batch.ops));
              Effect(store.disk, batch.ops) ==
              if hardState == EMPTY_HARD_STATE then before else before.(hardState := Some(hardState))
    {
      if hardState != EMPTY_HARD_STATE {
        batch.Add(SetHardState(hardState), store.disk);
      }
    }

    method WriteSnapshot(batch: WriteBatch, snapshot: Snapshot)
      requires !snapshot.Empty()
      modifies this`cache, batch`ops
      ensures var before := Effect(store.disk, old(batch.ops));
              Effect(store.disk, batch.ops) ==
              before.(entries := before.entries[snapshot.index := Dummy(snapshot.index, snapshot.term)],
                      snapshot := Some(snapshot))
      ensures cache == CacheHeaded(old(cache), snapshot)
    {
      batch.Add(SetSnapshot(snapshot), store.disk);
      batch.Add(SetEntry(Dummy(snapshot.index, snapshot.term)), store.disk);
      if cache.last.Some? && cache.last.value < snapshot.index {
        cache := cache.(last := Some(snapshot.index));
      }
      cache := cache.(snapshot := Some(snapshot));
    }

    /**
     * Save: what is on disk afterwards, whatever is saved; and if what is saved is acceptable, the
     * caches agree with it, and the log is the old one with the entries appended or the snapshot installed.
     */
    method Save(hardState: HardState, entries: seq<Entry>, snapshot: Snapshot)
      requires Valid() && Consecutive(entries)
      modifies this`cache, this`log, store
      ensures store.disk == SavedDisk(old(store.disk), old(log), hardState, entries, snapshot)
      ensures if Acceptable(old(log), entries, snapshot)
              then Valid() && log == AfterSave(old(log), entries, snapshot)
              else log == old(log)
    {
      var batch := new WriteBatch();
      ghost var seen := WriteEntries(batch, entries);
      WriteHardState(batch, hardState);
      if !snapshot.Empty() {
        WriteSnapshot(batch, snapshot);
        DeleteEntriesFromIndex(batch, 0);
        assert KeysFrom(store.disk.entries, 0) == store.disk.entries.Keys;
      }
      if Acceptable(log, entries, snapshot) {
        SaveKeepsLog(store.disk, seen, log, hardState, entries, snapshot);
        log := AfterSave(log, entries, snapshot);
      }
      store.Flush(batch);
    }

    method CreateSnapshot(idx: Index, confState: Option<ConfState>, data: Bytes) returns (r: Result<Snapshot>)
      requires Valid()
      modifies this`cache, this`log, store
      ensures Valid()
      ensures r == if confState.None? then Err(EmptyConfState)
                   else if idx < First(old(log)) then Err(SnapOutOfDate)
                   else if Last(old(log)) < idx then Err(EntryNotFound)
                   else Ok(Captured(idx, At(old(log), idx).term, confState.value, data))
      ensures r.Ok? ==> log == CompactedTo(old(log), idx) && store.disk.snapshot == Some(r.value)
      ensures r.Err? ==> log == old(log) && store.disk == old(store.disk)
      ensures store.disk.hardState == old(store.disk.hardState)
    {
      if confState.None? {
        return Err(EmptyConfState);
      }
      StoredIsNotEmpty(store.disk, log);
      var firstIndex := FirstIndex();
      if idx < firstIndex.value {
        return Err(SnapOutOfDate);
      }
      var entry := SeekEntry(idx);
      if entry.None? || entry.value.index != idx {
        return Err(EntryNotFound);
      }
      var snapshot := Captured(entry.value.index, entry.value.term, confState.value, data);
      Compact(snapshot);
      r := Ok(snapshot);
    }

    /** The writes of CreateSnapshot. Deleting does not fail: the dummy lies below the snapshot. */
    method Compact(snapshot: Snapshot)
      requires Valid() && First(log) <= snapshot.index <= Last(log) && snapshot.term == At(log, snapshot.index).term
      modifies this`cache, this`log, store
      ensures Valid()
      ensures log == CompactedTo(old(log), snapshot.index)
      ensures store.disk.snapshot == Some(snapshot) && store.disk.hardState == old(store.disk.hardState)
    {
      var batch := new WriteBatch();
      WriteSnapshot(batch, snapshot);
      var err := DeleteEntriesUntilIndex(batch, snapshot.index);
      assert err.None?;
      CutIsCompacted(store.disk.entries, log, snapshot.index);
      CompactedAt(log, snapshot.index, snapshot.index);
      log := CompactedTo(log, snapshot.index);
      store.Flush(batch);
    }

    /** DeleteGroup: the entries and caches are gone; the hard state and the snapshot record stay. */
    method DeleteGroup()
      modifies this`cache, store
      ensures Blank()
      ensures store.disk.hardState == old(store.disk.hardState) && store.disk.snapshot == old(store.disk.snapshot)
    {
      Reset([]);
    }

    /** Drop everything, the caches included, and start with the given entries. */
    method Reset(entries: seq<Entry>)
      modifies this`cache, store
      ensures cache == EMPTY_CACHE
      ensures var before := old(store.disk);
              store.disk == before.(entries := Overwritten(before.entries - before.entries.Keys, entries))
    {
      cache := EMPTY_CACHE;
      var batch := new WriteBatch();
      DeleteEntriesFromIndex(batch, 0);
      assert KeysFrom(store.disk.entries, 0) == store.disk.entries.Keys;
      SetEntries(batch, entries);
      store.Flush(batch);
    }
  }

  lemma StartsAtZero(disk: Disk)
    requires disk.entries == map[0 := Dummy(0, 0)]
    ensures OnDisk(disk, [Dummy(0, 0)]) <==> disk.snapshot.None?
  {}

  lemma StoredOrBlank(disk: Disk, log: seq<Entry>)
    ensures OnDisk(disk, log) ==> disk.entries != map[]
  {
    if OnDisk(disk, log) {
      StoredIsNotEmpty(disk, log);
    }
  }

  lemma NothingStored(m: map<nat, Entry>, index: Option<nat>)
    requires IsSought(m.Keys, 0, false, index) && index.None?
    ensures m == map[]
  {
    assert m.Keys == {};
  }

  lemma StoredIsNotEmpty(disk: Disk, log: seq<Entry>)
    requires OnDisk(disk, log)
    ensures disk.entries != map[]
  {
    assert Offset(log) in disk.entries;
  }
}
