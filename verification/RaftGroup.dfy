/** A replicated state machine on a write-ahead log: storage/raft/group.go. */
module RaftGroups {
  import opened Common
  import opened WalLogs
  import opened WalStores
  import opened Wals

  const SNAPSHOT_OFFSET: nat := 5000

  /**
   * The callbacks of a group: processFn, and processSnapshotFn, which may fail; and the initial state. What
   * snapshotFn answers is a parameter of the calls that ask for a snapshot.
   */
  datatype Machine<!S(!new)> = Machine(init: S, process: (S, Bytes) -> S, restore: Bytes -> Option<S>)
  {
    /** Only normal entries that carry data reach the machine. */
    function Apply(s: S, e: Entry): S {
      if e.kind == Normal && |e.data| > 0 then process(s, e.data) else s
    }

    function Replay(s: S, es: seq<Entry>): S {
      if es == [] then s else Apply(Replay(s, es[..|es| - 1]), es[|es| - 1])
    }

    /** The state after the first n entries of the committed log. */
    function StateAfter(history: seq<Entry>, n: nat): S
      requires n <= |history|
    {
      Replay(init, history[..n])
    }

    /** What Start makes of the stored snapshot. */
    function Started(snapshot: Option<Snapshot>): Option<S> {
      if snapshot.Some? then restore(snapshot.value.data) else Some(init)
    }

    /** What a restart makes of the disk: the snapshot, if any, and then the committed entries after it. */
    function Recovered(disk: Disk, log: seq<Entry>): Option<S>
      requires |log| > 0 && Offset(log) <= HardStateOf(disk).commit <= Last(log)
    {
      var start := Started(disk.snapshot);
      if start.None? then None
      else Some(Replay(start.value, log[1..HardStateOf(disk).commit - Offset(log) + 1]))
    }

    lemma ReplayNext(s: S, es: seq<Entry>, n: nat)
      requires n < |es|
      ensures Replay(s, es[..n + 1]) == Apply(Replay(s, es[..n]), es[n])
    {
      assert es[..n + 1][..n] == es[..n];
    }

    /** Conf changes and empty entries leave the state as it is; every other entry is processed. */
    lemma ReplayOne(s: S, es: seq<Entry>, e: Entry)
      ensures e.kind == ConfChange || e.data == [] ==> Replay(s, es + [e]) == Replay(s, es)
      ensures e.kind == Normal && e.data != [] ==> Replay(s, es + [e]) == process(Replay(s, es), e.data)
    {
      assert (es + [e])[..|es|] == es;
    }

    /** Replaying more of the committed log. */
    lemma StateAfterMore(history: seq<Entry>, n: nat, k: nat)
      requires n <= k <= |history|
      ensures StateAfter(history, k) == Replay(StateAfter(history, n), history[n..k])
    {
      ReplayInParts(init, history[..n], history[n..k]);
      assert history[..n] + history[n..k] == history[..k];
    }

    lemma {:induction false} ReplayInParts(s: S, a: seq<Entry>, b: seq<Entry>)
      ensures Replay(s, a + b) == Replay(Replay(s, a), b)
    {
      if b == [] {
        assert a + b == a;
      } else {
        ReplayInParts(s, a, b[..|b| - 1]);
        assert (a + b)[..|a + b| - 1] == a + b[..|b| - 1];
      }
    }
  }

  /** The committed log, numbered from 1. */
  ghost predicate IsHistory(history: seq<Entry>) {
    forall i :: 0 <= i < |history| ==> history[i].index == i + 1
  }

  /** The log agrees with the committed one up to the commit index. */
  ghost predicate Agrees(log: seq<Entry>, commit: nat, history: seq<Entry>)
    requires |log| > 0
  {
    && Offset(log) <= commit <= Last(log) && commit <= |history|
    && forall k: nat :: Offset(log) < k <= commit ==> At(log, k) == history[k - 1]
  }

  /** The data restores the state after the first n entries of the committed log. */
  ghost predicate Restores<S(!new)>(m: Machine<S>, data: Bytes, history: seq<Entry>, n: nat) {
    n <= |history| && m.restore(data) == Some(m.StateAfter(history, n))
  }

  /** The stored snapshot, if any, restores the state after its index. */
  ghost predicate SnapshotOk<S(!new)>(m: Machine<S>, snapshot: Option<Snapshot>, history: seq<Entry>) {
    snapshot.Some? ==> Restores(m, snapshot.value.data, history, snapshot.value.index)
  }

  /** What is on disk at every moment, also between the steps of processing a batch. */
  ghost predicate Durable<S(!new)>(m: Machine<S>, disk: Disk, log: seq<Entry>, history: seq<Entry>) {
    && IsHistory(history) && OnDisk(disk, log)
    && Agrees(log, HardStateOf(disk).commit, history)
    && SnapshotOk(m, disk.snapshot, history)
  }

  /** Recovering from disk at any moment gives the state after all entries known to be committed. */
  lemma RecoveryIsReplay<S(!new)>(m: Machine<S>, disk: Disk, log: seq<Entry>, history: seq<Entry>)
    requires Durable(m, disk, log, history)
    ensures m.Recovered(disk, log) == Some(m.StateAfter(history, HardStateOf(disk).commit))
  {
    var offset, commit := Offset(log), HardStateOf(disk).commit;
    var after := log[1..commit - offset + 1];
    forall i | 0 <= i < |after| ensures after[i] == history[offset + i] {
      assert after[i] == At(log, offset + 1 + i);
    }
    assert history[..commit] == history[..offset] + after;
    m.ReplayInParts(m.init, history[..offset], after);
  }

  /** One batch of work from etcd. confStates holds its answers to the conf changes among the committed entries. */
  datatype Ready = Ready(hardState: HardState, entries: seq<Entry>, snapshot: Snapshot, committed: seq<Entry>,
                         confStates: seq<Option<ConfState>>)

  /** The i-th committed entry is a conf change that could be read: etcd has answered it. */
  predicate Answered(rd: Ready, i: nat)
    requires i < |rd.committed| == |rd.confStates|
  {
    rd.committed[i].kind == ConfChange && rd.confStates[i].Some?
  }

  /** The conf state after the first n committed entries is the last answer, or that of before if there was none. */
  ghost predicate IsConfAfter(before: Option<ConfState>, rd: Ready, n: nat, after: Option<ConfState>)
    requires n <= |rd.committed| == |rd.confStates|
  {
    && ((forall i :: 0 <= i < n ==> !Answered(rd, i)) ==> after == before)
    && forall i :: 0 <= i < n && Answered(rd, i) && (forall j :: i < j < n ==> !Answered(rd, j)) ==>
         after == rd.confStates[i]
  }

  lemma NoConf(before: Option<ConfState>, rd: Ready)
    requires |rd.committed| == |rd.confStates|
    ensures IsConfAfter(before, rd, 0, before)
  {}

  lemma ConfNext(before: Option<ConfState>, rd: Ready, n: nat, after: Option<ConfState>)
    requires n < |rd.committed| == |rd.confStates| && IsConfAfter(before, rd, n, after)
    ensures IsConfAfter(before, rd, n + 1, if Answered(rd, n) then rd.confStates[n] else after)
  {
    if !Answered(rd, n) && forall i :: 0 <= i < n + 1 ==> !Answered(rd, i) {
      assert forall i :: 0 <= i < n ==> !Answered(rd, i);
    }
    forall i | 0 <= i < n + 1 && Answered(rd, i) && forall j :: i < j < n + 1 ==> !Answered(rd, j)
      ensures (if Answered(rd, n) then rd.confStates[n] else after) == rd.confStates[i]
    {
      if i < n {
        assert !Answered(rd, n) && forall j :: i < j < n ==> !Answered(rd, j);
      }
    }
  }

  /** The commit index after a batch. */
  function NewCommit(commit: nat, rd: Ready): nat {
    if rd.hardState == EMPTY_HARD_STATE then commit else rd.hardState.commit
  }

  /** etcd's cursor before the committed entries of a batch. */
  function ResumeAt(applied: nat, rd: Ready): nat {
    if rd.snapshot.Empty() then applied else rd.snapshot.index
  }

  predicate Brings(es: seq<Entry>, k: nat) {
    es != [] && es[0].index <= k < es[0].index + |es|
  }

  /** The last index of the log that a batch is to lead to. */
  function NewLast(log: seq<Entry>, rd: Ready): nat
    requires |log| > 0
  {
    if rd.entries != [] && First(log) < rd.entries[0].index + |rd.entries| then rd.entries[0].index + |rd.entries| - 1
    else if rd.snapshot.Empty() then Last(log)
    else rd.snapshot.index
  }

  /** The entry that the log is to have at index k: it comes with the batch, or it is stored. */
  ghost predicate IsEntryAt(rd: Ready, log: seq<Entry>, k: nat, e: Entry)
    requires |log| > 0
  {
    if Brings(rd.entries, k) then e == rd.entries[k - rd.entries[0].index]
    else rd.snapshot.Empty() && Has(log, k) && e == At(log, k)
  }

  /**
   * What etcd sees to in every batch. New entries leave no gap. A snapshot is of an index beyond the commit index,
   * and the entries with it follow on from it; its index may lie within the log. The commit index does not go back,
   * and stays within the log. The committed entries are those of the log that follow on from the snapshot, or else
   * from what has been applied.
   */
  ghost predicate Shaped(rd: Ready, log: seq<Entry>, commit: nat, applied: nat)
    requires |log| > 0
  {
    var newCommit := NewCommit(commit, rd);
    && Consecutive(rd.entries)
    && (rd.snapshot.Empty() ==> Fits(log, rd.entries))
    && (!rd.snapshot.Empty() ==> commit < rd.snapshot.index && applied < rd.snapshot.index <= newCommit)
    && (!rd.snapshot.Empty() && rd.entries != [] ==> rd.entries[0].index == rd.snapshot.index + 1)
    && commit <= newCommit <= NewLast(log, rd)
    && |rd.confStates| == |rd.committed| && ResumeAt(applied, rd) + |rd.committed| <= newCommit
    && forall i :: 0 <= i < |rd.committed| ==> IsEntryAt(rd, log, ResumeAt(applied, rd) + 1 + i, rd.committed[i])
  }

  /**
   * What Raft promises of a batch: the entries up to the commit index are those of the committed log, whether they
   * are new or were there.
   */
  ghost predicate Promised(rd: Ready, log: seq<Entry>, commit: nat, history: seq<Entry>)
    requires |log| > 0
  {
    var newCommit := NewCommit(commit, rd);
    && newCommit <= |history|
    && (forall e :: e in rd.entries && 0 < e.index <= newCommit ==> e == history[e.index - 1])
    && (rd.snapshot.Empty() ==> forall k: nat ::
          commit < k <= newCommit && Has(log, k) && !Brings(rd.entries, k) ==> At(log, k) == history[k - 1])
  }

  /** What Raft does not promise: a snapshot in the batch lies beyond the log, and its data can be restored. */
  ghost predicate Survives<S(!new)>(m: Machine<S>, rd: Ready, log: seq<Entry>, history: seq<Entry>)
    requires |log| > 0
  {
    !rd.snapshot.Empty() ==>
      Last(log) < rd.snapshot.index && Restores(m, rd.snapshot.data, history, rd.snapshot.index)
  }

  /** The log that saving the batch leads to agrees with the committed one, and so does the data of a snapshot. */
  ghost predicate Keeps<S(!new)>(m: Machine<S>, rd: Ready, log: seq<Entry>, commit: nat, history: seq<Entry>)
    requires |log| > 0
  {
    && Acceptable(log, rd.entries, rd.snapshot)
    && |AfterSave(log, rd.entries, rd.snapshot)| > 0
    && Agrees(AfterSave(log, rd.entries, rd.snapshot), NewCommit(commit, rd), history)
    && (!rd.snapshot.Empty() ==> Restores(m, rd.snapshot.data, history, rd.snapshot.index))
  }

  lemma AcceptableIff(rd: Ready, log: seq<Entry>, commit: nat, applied: nat)
    requires IsLog(log) && Offset(log) <= commit && Shaped(rd, log, commit, applied)
    ensures Acceptable(log, rd.entries, rd.snapshot) <==> rd.snapshot.Empty() || Last(log) < rd.snapshot.index
    ensures Consecutive(rd.entries)
  {}

  lemma SavedBounds(rd: Ready, log: seq<Entry>, commit: nat, applied: nat)
    requires IsLog(log) && Offset(log) <= commit && Shaped(rd, log, commit, applied)
    requires Acceptable(log, rd.entries, rd.snapshot)
    ensures IsLog(AfterSave(log, rd.entries, rd.snapshot))
    ensures Offset(AfterSave(log, rd.entries, rd.snapshot)) ==
            if rd.snapshot.Empty() then Offset(log) else rd.snapshot.index
    ensures Last(AfterSave(log, rd.entries, rd.snapshot)) == NewLast(log, rd)
  {
    hide Appended, Installed, IsEntryAt;
    if rd.snapshot.Empty() {
      FreshEntries(log, rd.entries);
      AppendedIsLog(log, rd.entries);
    } else {
      InstalledIsLog(log, rd.entries, rd.snapshot);
    }
  }

  /** The log after saving has the entries it is to have. */
  lemma SavedEntryAt(rd: Ready, log: seq<Entry>, commit: nat, applied: nat, k: nat)
    requires IsLog(log) && Offset(log) <= commit && Shaped(rd, log, commit, applied)
    requires Acceptable(log, rd.entries, rd.snapshot)
    requires IsLog(AfterSave(log, rd.entries, rd.snapshot))
    requires Has(AfterSave(log, rd.entries, rd.snapshot), k) && Offset(AfterSave(log, rd.entries, rd.snapshot)) < k
    ensures IsEntryAt(rd, log, k, At(AfterSave(log, rd.entries, rd.snapshot), k))
  {
    hide Appended, Installed;
    SavedBounds(rd, log, commit, applied);
    if rd.snapshot.Empty() {
      AppendedAt(log, rd.entries, k);
    } else {
      InstalledAt(log, rd.entries, rd.snapshot, k);
      var e := At(AfterSave(log, rd.entries, rd.snapshot), k);
      var i :| 0 <= i < |rd.entries| && rd.entries[i] == e;
    }
  }

  /** Of batches as Raft promises, those are kept that survive. */
  lemma PromisedIsKeptIff<S(!new)>(m: Machine<S>, rd: Ready, log: seq<Entry>, commit: nat, applied: nat,
          history: seq<Entry>)
    requires IsLog(log) && Agrees(log, commit, history)
    requires Shaped(rd, log, commit, applied) && Promised(rd, log, commit, history)
    ensures Keeps(m, rd, log, commit, history) <==> Survives(m, rd, log, history)
  {
    hide Appended, Installed, Restores;
    AcceptableIff(rd, log, commit, applied);
    if Acceptable(log, rd.entries, rd.snapshot) {
      SavedBounds(rd, log, commit, applied);
      var after := AfterSave(log, rd.entries, rd.snapshot);
      forall k: nat | Offset(after) < k <= NewCommit(commit, rd) ensures At(after, k) == history[k - 1] {
        SavedEntryAt(rd, log, commit, applied, k);
        if Brings(rd.entries, k) {
          assert rd.entries[k - rd.entries[0].index] in rd.entries;
        }
      }
    }
  }

  /**
   * After saving a batch some log is on disk, headed by the snapshot if there is one, exactly if the batch has no
   * snapshot or one beyond the log.
   */
  lemma LogSurvivesIff(disk: Disk, log: seq<Entry>, rd: Ready, commit: nat, applied: nat)
    requires OnDisk(disk, log) && Offset(log) <= commit && Shaped(rd, log, commit, applied)
    ensures rd.snapshot.Empty() || Last(log) < rd.snapshot.index <==>
            exists after :: OnDisk(SavedDisk(disk, log, rd.hardState, rd.entries, rd.snapshot), after)
  {
    hide Saved, Appended, Installed, Holds, IsEntryAt;
    var saved := SavedDisk(disk, log, rd.hardState, rd.entries, rd.snapshot);
    AcceptableIff(rd, log, commit, applied);
    if Acceptable(log, rd.entries, rd.snapshot) {
      SaveKeepsLog(disk, EMPTY_CACHE, log, rd.hardState, rd.entries, rd.snapshot);
    } else {
      forall after ensures !OnDisk(saved, after) {
        SavedHeadsLogIffInstallable(disk.entries, log, rd.entries, rd.snapshot, after);
      }
    }
  }

  lemma KeptIsDurable<S(!new)>(m: Machine<S>, disk: Disk, log: seq<Entry>, rd: Ready, applied: nat, history: seq<Entry>)
    requires Durable(m, disk, log, history) && Shaped(rd, log, HardStateOf(disk).commit, applied)
    requires Keeps(m, rd, log, HardStateOf(disk).commit, history)
    ensures Durable(m, SavedDisk(disk, log, rd.hardState, rd.entries, rd.snapshot),
                    AfterSave(log, rd.entries, rd.snapshot), history)
    ensures Offset(AfterSave(log, rd.entries, rd.snapshot)) ==
            if rd.snapshot.Empty() then Offset(log) else rd.snapshot.index
  {
    hide Holds, Agrees, Saved, Restores, Appended, Installed, IsEntryAt;
    CommitIsInLog(log, HardStateOf(disk).commit, history);
    SavedBounds(rd, log, HardStateOf(disk).commit, applied);
    SaveKeepsLog(disk, EMPTY_CACHE, log, rd.hardState, rd.entries, rd.snapshot);
  }

  lemma CommitIsInLog(log: seq<Entry>, commit: nat, history: seq<Entry>)
    requires |log| > 0 && Agrees(log, commit, history)
    ensures Offset(log) <= commit <= Last(log) && commit <= |history|
  {}

  lemma OneLogOnDisk(disk: Disk, a: seq<Entry>, b: seq<Entry>)
    requires OnDisk(disk, a) && OnDisk(disk, b)
    ensures a == b
  {
    HoldsOne(disk.entries, a, b);
  }

  /** What is on disk after a batch is sound exactly if the batch keeps the agreement. */
  lemma SoundIffKept<S(!new)>(m: Machine<S>, disk: Disk, log: seq<Entry>, rd: Ready, applied: nat, history: seq<Entry>)
    requires Durable(m, disk, log, history) && Shaped(rd, log, HardStateOf(disk).commit, applied)
    ensures Keeps(m, rd, log, HardStateOf(disk).commit, history) <==>
            exists after :: Durable(m, SavedDisk(disk, log, rd.hardState, rd.entries, rd.snapshot), after, history)
  {
    hide Holds, Agrees, Saved, Restores, Appended, Installed, IsEntryAt;
    var saved, commit := SavedDisk(disk, log, rd.hardState, rd.entries, rd.snapshot), HardStateOf(disk).commit;
    CommitIsInLog(log, commit, history);
    LogSurvivesIff(disk, log, rd, commit, applied);
    AcceptableIff(rd, log, commit, applied);
    if Keeps(m, rd, log, commit, history) {
      KeptIsDurable(m, disk, log, rd, applied, history);
      assert Durable(m, saved, AfterSave(log, rd.entries, rd.snapshot), history);
    } else if after :| Durable(m, saved, after, history) {
      SaveKeepsLog(disk, EMPTY_CACHE, log, rd.hardState, rd.entries, rd.snapshot);
      OneLogOnDisk(saved, after, AfterSave(log, rd.entries, rd.snapshot));
    }
  }

  /** The entries are those of the committed log after index n. */
  ghost predicate IsStretch(es: seq<Entry>, n: nat, history: seq<Entry>) {
    n + |es| <= |history| && es == history[n..n + |es|]
  }

  /** The committed entries of a batch are those of the committed log, if Raft keeps its promise. */
  lemma PromisedComesOfHistory(rd: Ready, log: seq<Entry>, commit: nat, applied: nat, history: seq<Entry>)
    requires IsLog(log) && Agrees(log, commit, history) && Offset(log) <= applied
    requires Shaped(rd, log, commit, applied) && Promised(rd, log, commit, history)
    ensures IsStretch(rd.committed, ResumeAt(applied, rd), history)
  {
    var start := ResumeAt(applied, rd);
    forall i | 0 <= i < |rd.committed| ensures rd.committed[i] == history[start + i] {
      assert IsEntryAt(rd, log, start + 1 + i, rd.committed[i]);
      if Brings(rd.entries, start + 1 + i) {
        assert rd.entries[start + 1 + i - rd.entries[0].index] in rd.entries;
      }
    }
  }

  /** So are they if the log agrees with it after saving. */
  lemma KeptComesOfHistory<S(!new)>(m: Machine<S>, rd: Ready, log: seq<Entry>, commit: nat, applied: nat,
          history: seq<Entry>)
    requires IsLog(log) && Offset(log) <= commit && Offset(log) <= applied
    requires Shaped(rd, log, commit, applied) && Keeps(m, rd, log, commit, history)
    ensures IsStretch(rd.committed, ResumeAt(applied, rd), history)
  {
    hide Appended, Installed, Restores;
    var start := ResumeAt(applied, rd);
    SavedBounds(rd, log, commit, applied);
    forall i | 0 <= i < |rd.committed| ensures rd.committed[i] == history[start + i] {
      assert IsEntryAt(rd, log, start + 1 + i, rd.committed[i]);
      SavedEntryAt(rd, log, commit, applied, start + 1 + i);
    }
  }

  lemma CommittedIndexes(rd: Ready, log: seq<Entry>, commit: nat, applied: nat)
    requires IsLog(log) && Shaped(rd, log, commit, applied)
    ensures forall i :: 0 <= i < |rd.committed| ==> rd.committed[i].index == ResumeAt(applied, rd) + 1 + i
  {
    forall i | 0 <= i < |rd.committed| ensures rd.committed[i].index == ResumeAt(applied, rd) + 1 + i {
      assert IsEntryAt(rd, log, ResumeAt(applied, rd) + 1 + i, rd.committed[i]);
    }
  }

  /**
   * For example: the log holds an entry of term 1 at index 1 that was never committed. A snapshot of index 1, of
   * term 2, comes as Raft promises, and saving it leaves no log on disk.
   */
  lemma DivergentTailLosesSnapshot(stale: Entry, committed: Entry, snapshot: Snapshot) returns (disk: Disk, rd: Ready)
    requires stale.index == committed.index == snapshot.index == 1
    requires stale.term == 1 && committed.term == snapshot.term == 2
    ensures var log := [Dummy(0, 0), stale];
            && OnDisk(disk, log) && HardStateOf(disk).commit == 0 && Agrees(log, 0, [committed])
            && rd.snapshot == snapshot && NewCommit(0, rd) == 1
            && Shaped(rd, log, 0, 0) && Promised(rd, log, 0, [committed])
            && forall after :: !OnDisk(SavedDisk(disk, log, rd.hardState, rd.entries, rd.snapshot), after)
  {
    var log := [Dummy(0, 0), stale];
    disk := Disk(map[0 := Dummy(0, 0), 1 := stale], None, None);
    rd := Ready(HardState(2, 0, 1), [], snapshot, [], []);
    LogSurvivesIff(disk, log, rd, 0, 0);
  }

  // Starting etcd's node with peers, as is done whenever node ids are given, on a used log too

  /** One conf change of term 1 for each peer, behind the log. */
  function PeerEntries(log: seq<Entry>, peers: seq<Bytes>): (es: seq<Entry>)
    requires |log| > 0 && Last(log) + |peers| < TWO_TO_THE_64
    ensures |es| == |peers|
  {
    seq(|peers|, i requires 0 <= i < |peers| => Entry(1, Last(log) + 1 + i, ConfChange, peers[i]))
  }

  /** The first batch: the whole log, the new entries included, is committed, in term 1 and with no vote. */
  function FirstBatch(log: seq<Entry>, peers: seq<Bytes>, confStates: seq<Option<ConfState>>): Ready
    requires |log| > 0 && Last(log) + |peers| < TWO_TO_THE_64
  {
    Ready(HardState(1, 0, Last(log) + |peers|), PeerEntries(log, peers), EMPTY_SNAPSHOT,
          log[1..] + PeerEntries(log, peers), confStates)
  }

  /** What is stored, committed or not, and the peers' conf changes after it are what the group has committed. */
  ghost predicate TailIsCommitted(log: seq<Entry>, peers: seq<Bytes>, history: seq<Entry>)
    requires |log| > 0 && Last(log) + |peers| < TWO_TO_THE_64
  {
    && Last(log) + |peers| <= |history|
    && log[1..] + PeerEntries(log, peers) == history[Offset(log)..Last(log) + |peers|]
  }

  lemma FirstBatchIsShaped(log: seq<Entry>, peers: seq<Bytes>, confStates: seq<Option<ConfState>>, commit: nat)
    requires IsLog(log) && Last(log) + |peers| < TWO_TO_THE_64 && Offset(log) <= commit <= Last(log)
    requires |confStates| == |log| - 1 + |peers|
    ensures Shaped(FirstBatch(log, peers, confStates), log, commit, Offset(log))
  {
    var rd := FirstBatch(log, peers, confStates);
    forall i | 0 <= i < |rd.committed| ensures IsEntryAt(rd, log, Offset(log) + 1 + i, rd.committed[i]) {
      if i < |log| - 1 {
        assert rd.committed[i] == log[i + 1];
      }
    }
  }

  /** The first batch is as Raft promises, and keeps the agreement, exactly if the whole tail is committed. */
  lemma FirstBatchIsPromisedIff<S(!new)>(m: Machine<S>, log: seq<Entry>, peers: seq<Bytes>,
          confStates: seq<Option<ConfState>>, commit: nat, history: seq<Entry>)
    requires IsLog(log) && Last(log) + |peers| < TWO_TO_THE_64 && Agrees(log, commit, history)
    requires |confStates| == |log| - 1 + |peers|
    ensures Promised(FirstBatch(log, peers, confStates), log, commit, history) <==> TailIsCommitted(log, peers, history)
    ensures Keeps(m, FirstBatch(log, peers, confStates), log, commit, history) <==> TailIsCommitted(log, peers, history)
  {
    hide Appended, Installed, Shaped;
    var rd := FirstBatch(log, peers, confStates);
    FirstBatchIsShaped(log, peers, confStates, commit);
    if TailIsCommitted(log, peers, history) {
      TailIsPromised(log, peers, confStates, commit, history);
      PromisedIsKeptIff(m, rd, log, commit, Offset(log), history);
    }
    if Promised(rd, log, commit, history) {
      PromisedComesOfHistory(rd, log, commit, Offset(log), history);
    }
    if Keeps(m, rd, log, commit, history) {
      KeptComesOfHistory(m, rd, log, commit, Offset(log), history);
    }
  }

  lemma TailIsPromised(log: seq<Entry>, peers: seq<Bytes>, confStates: seq<Option<ConfState>>, commit: nat,
          history: seq<Entry>)
    requires IsLog(log) && Last(log) + |peers| < TWO_TO_THE_64 && Offset(log) <= commit
    requires TailIsCommitted(log, peers, history)
    ensures Promised(FirstBatch(log, peers, confStates), log, commit, history)
  {
    var tail := log[1..] + PeerEntries(log, peers);
    forall e | e in PeerEntries(log, peers) ensures Last(log) < e.index <= |history| && e == history[e.index - 1] {
      var i :| 0 <= i < |peers| && PeerEntries(log, peers)[i] == e;
      assert tail[|log| - 1 + i] == e;
      assert history[Offset(log)..Last(log) + |peers|][|log| - 1 + i] == e;
    }
    forall k: nat | commit < k <= Last(log) ensures At(log, k) == history[k - 1] {
      assert tail[k - Offset(log) - 1] == At(log, k);
      assert history[Offset(log)..Last(log) + |peers|][k - Offset(log) - 1] == At(log, k);
    }
  }

  /**
   * For example: an entry that was never committed is stored at index 1, where the group has committed another one.
   * The first batch after a start with peers commits and applies it.
   */
  lemma StaleTailIsApplied<S(!new)>(m: Machine<S>, stale: Entry, committed: Entry, peers: seq<Bytes>,
          confStates: seq<Option<ConfState>>, history: seq<Entry>)
    requires stale.index == 1 && history != [] && history[0] == committed != stale
    requires 1 + |peers| < TWO_TO_THE_64 && |confStates| == 1 + |peers|
    requires m.Apply(m.init, stale) != m.Apply(m.init, committed)
    ensures var log := [Dummy(0, 0), stale];
            var rd := FirstBatch(log, peers, confStates);
            && Agrees(log, 0, history) && Shaped(rd, log, 0, 0)
            && !Promised(rd, log, 0, history) && !Keeps(m, rd, log, 0, history)
            && m.Replay(m.init, rd.committed[..1]) != m.StateAfter(history, 1)
  {
    var log := [Dummy(0, 0), stale];
    var rd := FirstBatch(log, peers, confStates);
    FirstBatchIsShaped(log, peers, confStates, 0);
    FirstBatchIsPromisedIff(m, log, peers, confStates, 0, history);
    assert rd.committed[..1] == [stale] && history[..1] == [committed];
    m.ReplayNext(m.init, [stale], 0);
    m.ReplayNext(m.init, [committed], 0);
    assert [stale][..0] == [] && [stale][..1] == [stale] && [committed][..0] == [] && [committed][..1] == [committed];
  }

  datatype SnapshotError = SnapshotFnError | WalError(error: Error)

  class RaftGroup<S(!new)> {
    const machine: Machine<S>
    const wal: BadgerWAL
    const hasSnapshotFn: bool
    /** The state of the machine behind the callbacks. */
    var state: S
    var raftConfState: Option<ConfState>
    var lastAppliedIdx: nat
    /** etcd's own cursor, which the group does not see. */
    var applied: nat
    /** All entries that are ever committed. */
    ghost const history: seq<Entry>

    /** What is on disk can be recovered. */
    ghost predicate Sound()
      reads wal, wal.store
    {
      wal.Valid() && Durable(machine, wal.store.disk, wal.log, history)
    }

    /** The machine is in the state after the applied entries. */
    ghost predicate InStep()
      reads this
    {
      && applied <= |history| && state == machine.StateAfter(history, applied)
      && (lastAppliedIdx == 0 || lastAppliedIdx == applied)
    }

    ghost predicate Valid()
      reads this, wal, wal.store
    {
      Sound() && InStep() && Offset(wal.log) <= applied <= HardStateOf(wal.store.disk).commit
    }

    /** NewRaftGroup. The machine is in its initial state, and lastAppliedIdx is 0 whatever the snapshot. */
    constructor (machine: Machine<S>, wal: BadgerWAL, hasSnapshotFn: bool, ghost history: seq<Entry>)
      requires wal.Valid()
      ensures this.machine == machine && this.wal == wal && this.hasSnapshotFn == hasSnapshotFn
      ensures this.history == history
      ensures state == machine.init && applied == Offset(wal.log) && lastAppliedIdx == 0 && raftConfState == None
    {
      this.machine, this.wal, this.hasSnapshotFn, this.history := machine, wal, hasSnapshotFn, history;
      state, raftConfState, lastAppliedIdx, applied := machine.init, None, 0, 0;
      new;
      var snap := wal.Snapshot();
      applied := snap.index;
    }

    /** A stored snapshot is processed, which may fail. On a sound disk it does not. */
    method Start() returns (ok: bool)
      requires wal.Valid() && state == machine.init && applied == Offset(wal.log) && lastAppliedIdx == 0
      modifies this`state
      ensures ok <==> machine.Started(wal.store.disk.snapshot).Some?
      ensures ok ==> Some(state) == machine.Started(wal.store.disk.snapshot)
      ensures Sound() ==> ok && Valid()
    {
      hide Holds;
      var snap := wal.Snapshot();
      if !snap.Empty() {
        var restored := machine.restore(snap.data);
        if restored.None? {
          return false;
        }
        state := restored.value;
      }
      ok := true;
    }

    /**
     * The work on one batch, whatever it brings. The process may die after any number of steps: saving, processing
     * the snapshot, and each committed entry is one; and it dies if it cannot process the snapshot. What is on disk
     * is sound, at whatever point it dies, exactly if the batch keeps the agreement or was not saved.
     */
    method ProcessReady(rd: Ready, lifetime: nat) returns (alive: bool)
      requires Valid() && Shaped(rd, wal.log, HardStateOf(wal.store.disk).commit, applied)
      modifies this, wal`cache, wal`log, wal.store
      ensures Sound() <==>
              lifetime == 0 || Keeps(machine, rd, old(wal.log), old(HardStateOf(wal.store.disk).commit), history)
      ensures HardStateOf(wal.store.disk).commit ==
              if lifetime == 0 then old(HardStateOf(wal.store.disk).commit)
              else NewCommit(old(HardStateOf(wal.store.disk).commit), rd)
      ensures if lifetime == 0 then wal.store.disk == old(wal.store.disk) && wal.log == old(wal.log)
              else IsSaved(rd, old(wal.store.disk), old(wal.log))
      ensures alive <==> (if rd.snapshot.Empty() then 1 else 2) + |rd.committed| <= lifetime && CanRestore(rd)
      ensures alive ==> state == machine.Replay(BaseOf(rd, old(state)), rd.committed)
      ensures alive ==> applied == ResumeAt(old(applied), rd) + |rd.committed|
      ensures alive ==> IsConfAfter(old(raftConfState), rd, |rd.committed|, raftConfState)
      ensures alive ==>
                lastAppliedIdx == if rd.snapshot.Empty() && rd.committed == [] then old(lastAppliedIdx) else applied
      ensures alive && RestoresRight(rd) ==>
                Promised(rd, old(wal.log), old(HardStateOf(wal.store.disk).commit), history) ==> InStep()
      ensures alive && Keeps(machine, rd, old(wal.log), old(HardStateOf(wal.store.disk).commit), history) ==> Valid()
    {
      hide Holds, OnDisk, Coherent, Agrees, Promised, IsEntryAt, BadgerWAL.Valid, SavedDisk, AfterSave;
      if lifetime == 0 {
        return false;
      }
      BatchComesOfHistory(rd);
      Persist(rd);
      var left := lifetime - 1;
      if !rd.snapshot.Empty() {
        if left == 0 {
          return false;
        }
        var ok := ProcessSnapshot(rd.snapshot);
        if !ok {
          return false;
        }
        left := left - 1;
      }
      alive := ProcessCommitted(rd, left);
    }

    /** Processing the snapshot of a batch, if it has one, does not fail. */
    ghost predicate CanRestore(rd: Ready) {
      rd.snapshot.Empty() || machine.restore(rd.snapshot.data).Some?
    }

    /** Processing it gives the state it is said to be of. */
    ghost predicate RestoresRight(rd: Ready) {
      rd.snapshot.Empty() || Restores(machine, rd.snapshot.data, history, rd.snapshot.index)
    }

    /** The state that the committed entries of a batch are applied to. */
    ghost function BaseOf(rd: Ready, before: S): S {
      if rd.snapshot.Empty() || machine.restore(rd.snapshot.data).None? then before
      else machine.restore(rd.snapshot.data).value
    }

    lemma BatchComesOfHistory(rd: Ready)
      requires Valid() && Shaped(rd, wal.log, HardStateOf(wal.store.disk).commit, applied)
      ensures forall i :: 0 <= i < |rd.committed| ==> rd.committed[i].index == ResumeAt(applied, rd) + 1 + i
      ensures Promised(rd, wal.log, HardStateOf(wal.store.disk).commit, history) ==>
                IsStretch(rd.committed, ResumeAt(applied, rd), history)
      ensures Keeps(machine, rd, wal.log, HardStateOf(wal.store.disk).commit, history) ==>
                IsStretch(rd.committed, ResumeAt(applied, rd), history)
    {
      hide Holds, Shaped, Keeps, Promised, IsStretch;
      var commit := HardStateOf(wal.store.disk).commit;
      CommittedIndexes(rd, wal.log, commit, applied);
      if Promised(rd, wal.log, commit, history) {
        PromisedComesOfHistory(rd, wal.log, commit, applied, history);
      }
      if Keeps(machine, rd, wal.log, commit, history) {
        KeptComesOfHistory(machine, rd, wal.log, commit, applied, history);
      }
    }

    /** All that the batch brings is on disk, and, if it is acceptable, in the log. */
    ghost predicate IsSaved(rd: Ready, disk0: Disk, log0: seq<Entry>)
      requires |log0| > 0
      reads wal, wal.store
    {
      && wal.store.disk == SavedDisk(disk0, log0, rd.hardState, rd.entries, rd.snapshot)
      && if Acceptable(log0, rd.entries, rd.snapshot) then wal.log == AfterSave(log0, rd.entries, rd.snapshot)
         else wal.log == log0
    }

    /** Save a batch. The machine is not touched; a snapshot in the batch is still to be processed. */
    method Persist(rd: Ready)
      requires Sound() && Shaped(rd, wal.log, HardStateOf(wal.store.disk).commit, applied)
      modifies wal`cache, wal`log, wal.store
      ensures Sound() <==> Keeps(machine, rd, old(wal.log), old(HardStateOf(wal.store.disk).commit), history)
      ensures HardStateOf(wal.store.disk).commit == NewCommit(old(HardStateOf(wal.store.disk).commit), rd)
      ensures IsSaved(rd, old(wal.store.disk), old(wal.log))
      ensures Keeps(machine, rd, old(wal.log), old(HardStateOf(wal.store.disk).commit), history) ==>
                Offset(wal.log) == if rd.snapshot.Empty() then Offset(old(wal.log)) else rd.snapshot.index
    {
      hide Holds, Coherent, Agrees, Saved, Restores, IsEntryAt, Appended, Installed;
      SoundIffKept(machine, wal.store.disk, wal.log, rd, applied, history);
      if Keeps(machine, rd, wal.log, HardStateOf(wal.store.disk).commit, history) {
        KeptIsDurable(machine, wal.store.disk, wal.log, rd, applied, history);
      }
      wal.Save(rd.hardState, rd.entries, rd.snapshot);
    }

    method ProcessSnapshot(snapshot: Snapshot) returns (ok: bool)
      requires lastAppliedIdx < snapshot.index
      modifies this`state, this`lastAppliedIdx, this`applied
      ensures ok <==> machine.restore(snapshot.data).Some?
      ensures ok ==> machine.restore(snapshot.data) == Some(state) && applied == lastAppliedIdx == snapshot.index
    {
      var restored := machine.restore(snapshot.data);
      if restored.None? {
        return false;
      }
      state := restored.value;
      if snapshot.index > lastAppliedIdx {
        lastAppliedIdx := snapshot.index;
      }
      applied := snapshot.index;
      ok := true;
    }

    /** Process committed entries one by one, as long as the process lives. */
    method ProcessCommitted(rd: Ready, lifetime: nat) returns (alive: bool)
      requires |rd.confStates| == |rd.committed|
      requires forall i :: 0 <= i < |rd.committed| ==> rd.committed[i].index == applied + 1 + i
      modifies this`state, this`lastAppliedIdx, this`applied, this`raftConfState
      ensures alive ==> applied == old(applied) + |rd.committed| && state == machine.Replay(old(state), rd.committed)
      ensures alive ==> IsConfAfter(old(raftConfState), rd, |rd.committed|, raftConfState)
      ensures alive ==> lastAppliedIdx == if rd.committed == [] then old(lastAppliedIdx) else applied
      ensures alive && old(InStep()) && IsStretch(rd.committed, old(applied), history) ==> InStep()
      ensures alive <==> |rd.committed| <= lifetime
    {
      hide IsConfAfter;
      NoConf(old(raftConfState), rd);
      for i := 0 to |rd.committed|
        invariant applied == old(applied) + i && i <= lifetime
        invariant state == machine.Replay(old(state), rd.committed[..i])
        invariant IsConfAfter(old(raftConfState), rd, i, raftConfState)
        invariant lastAppliedIdx == if i == 0 then old(lastAppliedIdx) else applied
      {
        if i == lifetime {
          return false;
        }
        var entry := rd.committed[i];
        machine.ReplayNext(old(state), rd.committed, i);
        ConfNext(old(raftConfState), rd, i, raftConfState);
        if entry.kind == ConfChange {
          if rd.confStates[i].Some? {
            raftConfState := rd.confStates[i];
          }
        } else if |entry.data| > 0 {
          state := machine.process(state, entry.data);
        }
        lastAppliedIdx := entry.index;
        applied := applied + 1;
      }
      assert rd.committed[..|rd.committed|] == rd.committed;
      if applied <= |history| {
        machine.StateAfterMore(history, old(applied), applied);
      }
      alive := true;
    }

    /**
     * trySnapshot: if enough has been applied since the last snapshot, take one and compact the log; `taken` is
     * what snapshotFn answers. It fails if that fails, or else if the conf state is not known; never because of the
     * index. It keeps everything exactly if the data it stores restores the state.
     */
    method TrySnapshot(skip: nat, taken: Option<Bytes>) returns (err: Option<SnapshotError>)
      requires Valid()
      modifies wal`cache, wal`log, wal.store
      ensures var due := hasSnapshotFn && lastAppliedIdx > SnapshotOf(old(wal.store.disk)).index + skip;
              && err == (if !due then None
                         else if taken.None? then Some(SnapshotFnError)
                         else if raftConfState.None? then Some(WalError(EmptyConfState))
                         else None)
              && (if due && err.None?
                  then Took(old(wal.log), taken.value, raftConfState.value)
                       && (Valid() <==> machine.restore(taken.value) == Some(state))
                  else Valid() && wal.log == old(wal.log) && wal.store.disk == old(wal.store.disk))
      ensures wal.Valid() && HardStateOf(wal.store.disk) == old(HardStateOf(wal.store.disk))
    {
      hide Holds, Coherent;
      if !hasSnapshotFn {
        return None;
      }
      var existing := wal.Snapshot();
      if lastAppliedIdx <= existing.index + skip {
        return None;
      }
      if taken.None? {
        return Some(SnapshotFnError);
      }
      IndexOfApplied(history, wal.log, HardStateOf(wal.store.disk).commit, applied);
      var r := wal.CreateSnapshot(lastAppliedIdx, raftConfState, taken.value);
      err := if r.Err? then Some(WalError(r.error)) else None;
    }

    /** The snapshot is stored with its data, and the log compacted to it. */
    ghost predicate Took(log0: seq<Entry>, data: Bytes, confState: ConfState)
      requires |log0| > 0
      reads this, wal, wal.store
    {
      && lastAppliedIdx < TWO_TO_THE_64 && Has(log0, lastAppliedIdx)
      && wal.log == CompactedTo(log0, lastAppliedIdx)
      && wal.store.disk.snapshot == Some(Captured(lastAppliedIdx, At(log0, lastAppliedIdx).term, confState, data))
    }
  }

  lemma IndexOfApplied(history: seq<Entry>, log: seq<Entry>, commit: nat, k: nat)
    requires IsHistory(history) && IsLog(log) && Agrees(log, commit, history) && Offset(log) < k <= commit
    ensures k < TWO_TO_THE_64
    ensures IsLog(CompactedTo(log, k)) && Agrees(CompactedTo(log, k), commit, history)
  {
    assert history[k - 1].index == k;
    CompactedAt(log, k, k);
    forall j: nat | k < j <= commit ensures At(CompactedTo(log, k), j) == history[j - 1] {
      CompactedAt(log, k, j);
    }
  }

  /** Two replicas of a group that have applied equally much are in the same state. */
  lemma ReplicasAgree<S(!new)>(a: RaftGroup<S>, b: RaftGroup<S>)
    requires a.Valid() && b.Valid() && a.machine == b.machine && a.history == b.history
    requires a.applied == b.applied
    ensures a.state == b.state
  {}
}
