/** Whole runs of a write-ahead log: saves, compactions, and restarts at any point. */
module WalRuns {
  import opened Common
  import opened WalLogs
  import opened WalStores
  import opened Wals

  /** Everything a write-ahead log can be asked about. */
  datatype View = View(log: seq<Entry>, hardState: HardState, snapshot: Snapshot)

  datatype Call =
    | CallSave(hardState: HardState, entries: seq<Entry>, snapshot: Snapshot)
    | CallCreateSnapshot(idx: Index, confState: Option<ConfState>, data: Bytes)
    | Reopen

  const EMPTY_VIEW := View([Dummy(0, 0)], EMPTY_HARD_STATE, EMPTY_SNAPSHOT)

  ghost predicate Allowed(v: View, call: Call)
    requires |v.log| > 0
  {
    call.CallSave? ==> Consecutive(call.entries) && Acceptable(v.log, call.entries, call.snapshot)
  }

  /** CreateSnapshot succeeds. */
  predicate Succeeds(v: View, call: Call)
    requires |v.log| > 0 && call.CallCreateSnapshot?
  {
    call.confState.Some? && First(v.log) <= call.idx <= Last(v.log)
  }

  /** What a call makes of the view. A restart makes nothing of it. */
  function Next(v: View, call: Call): View
    requires |v.log| > 0 && (call.CallSave? ==> Acceptable(v.log, call.entries, call.snapshot))
  {
    match call
    case CallSave(hardState, entries, snapshot) =>
      View(AfterSave(v.log, entries, snapshot),
           if hardState == EMPTY_HARD_STATE then v.hardState else hardState,
           if snapshot.Empty() then v.snapshot else snapshot)
    case CallCreateSnapshot(idx, confState, data) =>
      if Succeeds(v, call)
      then View(CompactedTo(v.log, idx), v.hardState, Captured(idx, At(v.log, idx).term, confState.value, data))
      else v
    case Reopen => v
  }

  ghost predicate AllowedRun(v: View, calls: seq<Call>)
    requires IsLog(v.log)
    decreases |calls|
  {
    calls == [] || (Allowed(v, calls[0]) && IsLog(Next(v, calls[0]).log) && AllowedRun(Next(v, calls[0]), calls[1..]))
  }

  ghost function RunView(v: View, calls: seq<Call>): View
    requires IsLog(v.log) && AllowedRun(v, calls)
    decreases |calls|
  {
    if calls == [] then v else RunView(Next(v, calls[0]), calls[1..])
  }

  /** Every call keeps the log a log, so a run is allowed exactly if each save in it is acceptable. */
  lemma NextIsLog(v: View, call: Call)
    requires IsLog(v.log) && Allowed(v, call)
    ensures IsLog(Next(v, call).log)
  {
    match call
    case CallSave(hardState, entries, snapshot) =>
      if snapshot.Empty() {
        AppendedIsLog(v.log, entries);
      } else {
        InstalledIsLog(v.log, entries, snapshot);
      }
    case CallCreateSnapshot(idx, confState, data) =>
      if Succeeds(v, call) {
        CompactedAt(v.log, idx, idx);
      }
    case Reopen =>
  }

  function WithoutReopens(calls: seq<Call>): seq<Call> {
    if calls == [] then []
    else if calls[0].Reopen? then WithoutReopens(calls[1..])
    else [calls[0]] + WithoutReopens(calls[1..])
  }

  lemma {:induction false} ReopensAreInvisible(v: View, calls: seq<Call>)
    requires IsLog(v.log) && AllowedRun(v, calls)
    ensures AllowedRun(v, WithoutReopens(calls))
    ensures RunView(v, WithoutReopens(calls)) == RunView(v, calls)
    decreases |calls|
  {
    if calls != [] {
      ReopensAreInvisible(Next(v, calls[0]), calls[1..]);
      assert WithoutReopens(calls) ==
             if calls[0].Reopen? then WithoutReopens(calls[1..]) else [calls[0]] + WithoutReopens(calls[1..]);
      if !calls[0].Reopen? {
        assert WithoutReopens(calls)[1..] == WithoutReopens(calls[1..]);
      }
    }
  }

  ghost predicate Shows(wal: BadgerWAL, v: View)
    reads wal, wal.store
  {
    && wal.Valid() && wal.log == v.log
    && HardStateOf(wal.store.disk) == v.hardState && SnapshotOf(wal.store.disk) == v.snapshot
  }

  method MakeCall(wal: BadgerWAL, call: Call, ghost v: View) returns (after: BadgerWAL)
    requires Shows(wal, v) && Allowed(v, call)
    modifies wal`cache, wal`log, wal.store
    ensures IsLog(Next(v, call).log) && Shows(after, Next(v, call))
    ensures after.store == wal.store && after.sizeOf == wal.sizeOf
    ensures if call.Reopen? then fresh(after) else after == wal
  {
    NextIsLog(v, call);
    after := wal;
    match call
    case CallSave(hardState, entries, snapshot) =>
      wal.Save(hardState, entries, snapshot);
    case CallCreateSnapshot(idx, confState, data) =>
      var r := wal.CreateSnapshot(idx, confState, data);
    case Reopen =>
      StoredIsNotEmpty(wal.store.disk, wal.log);
      after := new BadgerWAL(wal.store, wal.sizeOf, wal.log);
  }

  /**
   * After any run, restarts included, the log answers as if it had never been restarted: the
   * answers of every query are those of the view, and the view does not depend on the restarts.
   */
  method Run(sizeOf: Entry -> nat, calls: seq<Call>) returns (wal: BadgerWAL)
    requires AllowedRun(EMPTY_VIEW, calls)
    ensures Shows(wal, RunView(EMPTY_VIEW, calls))
    ensures AllowedRun(EMPTY_VIEW, WithoutReopens(calls))
    ensures Shows(wal, RunView(EMPTY_VIEW, WithoutReopens(calls)))
  {
    var store := new Store();
    wal := new BadgerWAL(store, sizeOf, []);
    ghost var v := EMPTY_VIEW;
    for i := 0 to |calls|
      invariant fresh(wal) && fresh(wal.store) && Shows(wal, v)
      invariant IsLog(v.log) && AllowedRun(v, calls[i..])
      invariant RunView(EMPTY_VIEW, calls) == RunView(v, calls[i..])
    {
      assert calls[i..][0] == calls[i] && calls[i..][1..] == calls[i + 1..];
      wal := MakeCall(wal, calls[i], v);
      v := Next(v, calls[i]);
    }
    assert calls[|calls|..] == [];
    ReopensAreInvisible(EMPTY_VIEW, calls);
  }

  /**
   * Deleting a group and opening its log again: the log starts at 0, but the hard state, commit index included, is
   * still the old one, and a snapshot record that was there contradicts the log.
   */
  method DeleteAndReopen(wal: BadgerWAL) returns (after: BadgerWAL)
    requires wal.Valid()
    modifies wal`cache, wal.store
    ensures fresh(after) && after.store == wal.store && after.log == [Dummy(0, 0)]
    ensures HardStateOf(wal.store.disk) == old(HardStateOf(wal.store.disk))
    ensures wal.store.disk.snapshot == old(wal.store.disk.snapshot)
    ensures after.Valid() <==> old(wal.store.disk.snapshot).None?
  {
    wal.DeleteGroup();
    after := new BadgerWAL(wal.store, wal.sizeOf, []);
  }
}
