/** Whole runs of a replica: batches, snapshots, crashes in the middle of a batch, and restarts. */
module RaftRuns {
  import opened Common
  import opened WalLogs
  import opened WalStores
  import opened Wals
  import opened RaftGroups

  datatype Event =
    /** A batch; the process lives for so many more steps. */
    | Batch(rd: Ready, lifetime: nat)
    /** The snapshot ticker; what snapshotFn answers if it is asked. */
    | SnapshotTick(taken: Option<Bytes>)
    | Crash

  /**
   * What happens at a step, in view of what is on disk, of what has been applied, and of whether the first batch
   * after a start is still to come.
   */
  type Environment = (nat, Disk, nat, bool) -> Event

  /** The peers fit behind the log. */
  predicate HaveRoom(log: seq<Entry>, peers: seq<Bytes>)
    requires |log| > 0
  {
    Last(log) + |peers| < TWO_TO_THE_64
  }

  /**
   * A batch is what etcd delivers. If the node was started with peers, the first batch commits the whole log and
   * the peers; all others, and all of a node started without peers, are as Raft promises.
   */
  ghost predicate IsDelivered(event: Event, peers: seq<Bytes>, first: bool, log: seq<Entry>, commit: nat, applied: nat,
          history: seq<Entry>)
    requires |log| > 0
  {
    event.Batch? ==>
      && Shaped(event.rd, log, commit, applied)
      && if first && peers != []
         then HaveRoom(log, peers) && event.rd == FirstBatch(log, peers, event.rd.confStates)
         else Promised(event.rd, log, commit, history)
  }

  /**
   * Nothing goes wrong that Raft does not rule out: snapshots in batches survive, what a start with peers commits has
   * been committed by the group, and snapshots that are taken can be restored.
   */
  ghost predicate IsHarmless<S(!new)>(event: Event, peers: seq<Bytes>, first: bool, m: Machine<S>, log: seq<Entry>,
          applied: nat, history: seq<Entry>)
    requires |log| > 0
  {
    && (event.Batch? && first && peers != [] && HaveRoom(log, peers) ==> TailIsCommitted(log, peers, history))
    && (event.Batch? && !(first && peers != []) ==> Survives(m, event.rd, log, history))
    && (event.SnapshotTick? && event.taken.Some? ==> Restores(m, event.taken.value, history, applied))
  }

  /** Whatever the state of the replica, what it is given is what etcd delivers. */
  ghost predicate Trusted<S(!new)>(env: Environment, peers: seq<Bytes>, m: Machine<S>, history: seq<Entry>) {
    forall i, disk, log, applied, first ::
      Durable(m, disk, log, history) && Offset(log) <= applied <= HardStateOf(disk).commit
      && (first ==> applied == Offset(log)) ==>
        IsDelivered(env(i, disk, applied, first), peers, first, log, HardStateOf(disk).commit, applied, history)
  }

  /** Whatever the state of the replica, nothing that happens is harmful. */
  ghost predicate Harmless<S(!new)>(env: Environment, peers: seq<Bytes>, m: Machine<S>, history: seq<Entry>) {
    forall i, disk, log, applied, first ::
      Durable(m, disk, log, history) && Offset(log) <= applied <= HardStateOf(disk).commit ==>
        IsHarmless(env(i, disk, applied, first), peers, first, m, log, applied, history)
  }

  /** Of what etcd delivers, a batch keeps the agreement exactly if it is harmless. */
  lemma DeliveredIsKeptIff<S(!new)>(event: Event, peers: seq<Bytes>, first: bool, m: Machine<S>, log: seq<Entry>,
          commit: nat, applied: nat, history: seq<Entry>)
    requires IsLog(log) && Agrees(log, commit, history) && event.Batch? && (first ==> applied == Offset(log))
    requires IsDelivered(event, peers, first, log, commit, applied, history)
    ensures Keeps(m, event.rd, log, commit, history) <==> IsHarmless(event, peers, first, m, log, applied, history)
  {
    hide Keeps, Promised, Survives, TailIsCommitted, Agrees;
    if first && peers != [] {
      CommitIsInLog(log, commit, history);
      FirstBatchIsPromisedIff(m, log, peers, event.rd.confStates, commit, history);
    } else {
      PromisedIsKeptIff(m, event.rd, log, commit, applied, history);
    }
  }

  ghost predicate Running<S(!new)>(group: RaftGroup<S>, m: Machine<S>, history: seq<Entry>, store: Store)
    reads group, group.wal, group.wal.store
  {
    group.Valid() && group.machine == m && group.history == history && group.wal.store == store
  }

  /** Nothing has been applied since the group was started. */
  ghost predicate AtStart<S(!new)>(group: RaftGroup<S>)
    reads group, group.wal
  {
    |group.wal.log| > 0 && group.applied == Offset(group.wal.log)
  }

  /** What there is of a replica; `starting` says whether the first batch after a start is still to come. */
  datatype Replica<S> = Replica(state: S, applied: nat, lastApplied: nat, conf: Option<ConfState>, disk: Disk,
                                log: seq<Entry>, starting: bool)

  ghost function ReplicaOf<S(!new)>(group: RaftGroup<S>, starting: bool): Replica<S>
    reads group, group.wal, group.wal.store
  {
    Replica(group.state, group.applied, group.lastAppliedIdx, group.raftConfState, group.wal.store.disk, group.wal.log,
            starting)
  }

  /** It has just been started from the disk: all it knows is the stored snapshot. */
  ghost predicate IsStarted<S(!new)>(m: Machine<S>, r: Replica<S>, disk: Disk, log: seq<Entry>) {
    && r.disk == disk && r.log == log && |log| > 0 && r.starting
    && m.Started(disk.snapshot) == Some(r.state) && r.applied == Offset(log) && r.lastApplied == 0 && r.conf == None
  }

  /** The process lives through all the work on the batch. */
  ghost predicate Outlives<S(!new)>(m: Machine<S>, rd: Ready, lifetime: nat) {
    if rd.snapshot.Empty() then 1 + |rd.committed| <= lifetime
    else m.restore(rd.snapshot.data).Some? && 2 + |rd.committed| <= lifetime
  }

  /** The committed entries have been applied, to what the snapshot of the batch restores if it has one. */
  ghost predicate HasApplied<S(!new)>(m: Machine<S>, a: Replica<S>, rd: Ready, b: Replica<S>)
    requires |rd.committed| == |rd.confStates| && (rd.snapshot.Empty() || m.restore(rd.snapshot.data).Some?)
  {
    var before := if rd.snapshot.Empty() then a.state else m.restore(rd.snapshot.data).value;
    && b.state == m.Replay(before, rd.committed)
    && b.applied == (if rd.snapshot.Empty() then a.applied else rd.snapshot.index) + |rd.committed|
    && b.lastApplied == (if rd.snapshot.Empty() && rd.committed == [] then a.lastApplied else b.applied)
    && IsConfAfter(a.conf, rd, |rd.committed|, b.conf)
  }

  /** Enough has been applied, and all that a snapshot needs is there. */
  predicate IsSnapshotDue<S>(a: Replica<S>, taken: Option<Bytes>) {
    a.lastApplied > SnapshotOf(a.disk).index + SNAPSHOT_OFFSET && taken.Some? && a.conf.Some?
  }

  /** The snapshot is stored, and the log compacted to it. */
  ghost predicate IsCaptured<S>(a: Replica<S>, data: Bytes, b: Replica<S>)
    requires |a.log| > 0 && a.conf.Some?
  {
    && a.lastApplied < TWO_TO_THE_64 && Has(a.log, a.lastApplied) && b.log == CompactedTo(a.log, a.lastApplied)
    && b.disk.snapshot ==
       Some(Captured(a.lastApplied, At(a.log, a.lastApplied).term, a.conf.value, data))
    && HardStateOf(b.disk) == HardStateOf(a.disk)
  }

  /** The event has led from a to b. */
  ghost predicate Happened<S(!new)>(m: Machine<S>, a: Replica<S>, event: Event, b: Replica<S>)
    requires |a.log| > 0
  {
    match event
    case Batch(rd, lifetime) =>
      if lifetime == 0 then IsStarted(m, b, a.disk, a.log)
      else
        && Acceptable(a.log, rd.entries, rd.snapshot) && |rd.committed| == |rd.confStates|
        && var disk := SavedDisk(a.disk, a.log, rd.hardState, rd.entries, rd.snapshot);
           var log := AfterSave(a.log, rd.entries, rd.snapshot);
           if Outlives(m, rd, lifetime) then HasApplied(m, a, rd, b) && b.disk == disk && b.log == log && !b.starting
           else IsStarted(m, b, disk, log)
    case SnapshotTick(taken) =>
      && b.state == a.state && b.applied == a.applied && b.lastApplied == a.lastApplied && b.conf == a.conf
      && b.starting == a.starting
      && if IsSnapshotDue(a, taken) then IsCaptured(a, taken.value, b) else b.disk == a.disk && b.log == a.log
    case Crash => IsStarted(m, b, a.disk, a.log)
  }

  /** Start again from what is on disk. */
  method Restart<S(!new)>(dead: RaftGroup<S>) returns (group: RaftGroup<S>)
    requires dead.Sound()
    modifies dead.wal.store
    ensures fresh(group) && fresh(group.wal) && Running(group, dead.machine, dead.history, dead.wal.store)
    ensures AtStart(group) && group.hasSnapshotFn == dead.hasSnapshotFn
    ensures dead.wal.store.disk == old(dead.wal.store.disk)
    ensures IsStarted(dead.machine, ReplicaOf(group, true), old(dead.wal.store.disk), dead.wal.log)
  {
    StoredIsNotEmpty(dead.wal.store.disk, dead.wal.log);
    var wal := new BadgerWAL(dead.wal.store, dead.wal.sizeOf, dead.wal.log);
    group := new RaftGroup(dead.machine, wal, dead.hasSnapshotFn, dead.history);
    var ok := group.Start();
  }

  /** A batch, and a restart if the process does not live through it. */
  method HappenBatch<S(!new)>(group: RaftGroup<S>, rd: Ready, lifetime: nat, ghost peers: seq<Bytes>, first: bool)
    returns (after: RaftGroup<S>, still: bool)
    requires group.Valid() && (first ==> AtStart(group))
    requires IsDelivered(Batch(rd, lifetime), peers, first, group.wal.log, HardStateOf(group.wal.store.disk).commit,
                         group.applied, group.history)
    requires IsHarmless(Batch(rd, lifetime), peers, first, group.machine, group.wal.log, group.applied, group.history)
    modifies group, group.wal, group.wal.store
    ensures Running(after, group.machine, group.history, group.wal.store) && after.hasSnapshotFn == group.hasSnapshotFn
    ensures after == group || (fresh(after) && fresh(after.wal))
    ensures still ==> AtStart(after)
    ensures Happened(group.machine, old(ReplicaOf(group, first)), Batch(rd, lifetime), ReplicaOf(after, still))
    ensures HardStateOf(group.wal.store.disk).commit >= old(HardStateOf(group.wal.store.disk).commit)
  {
    hide Holds, Agrees, IsEntryAt, Promised, Survives, TailIsCommitted, Keeps, Coherent, SnapshotOk, IsConfAfter,
         SavedDisk, AfterSave, Acceptable, IsHarmless;
    ghost var commit := HardStateOf(group.wal.store.disk).commit;
    DeliveredIsKeptIff(Batch(rd, lifetime), peers, first, group.machine, group.wal.log, commit, group.applied,
                       group.history);
    KeptIsAcceptable(group.machine, rd, group.wal.log, commit, group.history);
    var alive := group.ProcessReady(rd, lifetime);
    after, still := group, !alive;
    if !alive {
      after := Restart(group);
    }
  }

  lemma KeptIsAcceptable<S(!new)>(m: Machine<S>, rd: Ready, log: seq<Entry>, commit: nat, history: seq<Entry>)
    requires |log| > 0 && Keeps(m, rd, log, commit, history)
    ensures Acceptable(log, rd.entries, rd.snapshot)
  {}

  /** One event. Afterwards the first batch is still to come if it was and none came, or if there was a restart. */
  method Happen<S(!new)>(group: RaftGroup<S>, event: Event, ghost peers: seq<Bytes>, first: bool)
    returns (after: RaftGroup<S>, still: bool)
    requires group.Valid() && group.hasSnapshotFn && (first ==> AtStart(group))
    requires IsDelivered(event, peers, first, group.wal.log, HardStateOf(group.wal.store.disk).commit, group.applied,
                         group.history)
    requires IsHarmless(event, peers, first, group.machine, group.wal.log, group.applied, group.history)
    modifies group, group.wal, group.wal.store
    ensures Running(after, group.machine, group.history, group.wal.store) && after.hasSnapshotFn
    ensures after == group || (fresh(after) && fresh(after.wal))
    ensures still ==> AtStart(after)
    ensures Happened(group.machine, old(ReplicaOf(group, first)), event, ReplicaOf(after, still))
    ensures HardStateOf(group.wal.store.disk).commit >= old(HardStateOf(group.wal.store.disk).commit)
  {
    hide Holds, Agrees, IsEntryAt, Promised, Survives, TailIsCommitted, Keeps, Coherent, SnapshotOk, IsConfAfter,
         SavedDisk, AfterSave, Acceptable;
    after, still := group, first;
    match event
    case Batch(rd, lifetime) =>
      after, still := HappenBatch(group, rd, lifetime, peers, first);
    case SnapshotTick(taken) =>
      var err := group.TrySnapshot(SNAPSHOT_OFFSET, taken);
    case Crash =>
      after := Restart(group);
      still := true;
  }

  /** The commit index never goes back. */
  ghost predicate Growing<S>(course: seq<Replica<S>>) {
    forall i, j :: 0 <= i < j < |course| ==> HardStateOf(course[i].disk).commit <= HardStateOf(course[j].disk).commit
  }

  /** Each step of the course is what the environment makes happen. */
  ghost predicate IsCourse<S(!new)>(m: Machine<S>, env: Environment, course: seq<Replica<S>>) {
    && course != []
    && IsStarted(m, course[0], Disk(map[0 := Dummy(0, 0)], None, None), [Dummy(0, 0)])
    && forall i :: 0 <= i < |course| - 1 ==> IsNextIn(m, env, course, i)
  }

  ghost predicate IsNextIn<S(!new)>(m: Machine<S>, env: Environment, course: seq<Replica<S>>, i: nat)
    requires i + 1 < |course|
  {
    var a := course[i];
    |a.log| > 0 && Happened(m, a, env(i, a.disk, a.applied, a.starting), course[i + 1])
  }

  lemma CourseGoesOn<S(!new)>(m: Machine<S>, env: Environment, course: seq<Replica<S>>, next: Replica<S>)
    requires IsCourse(m, env, course) && Growing(course)
    requires var a := course[|course| - 1];
             && |a.log| > 0 && Happened(m, a, env(|course| - 1, a.disk, a.applied, a.starting), next)
             && HardStateOf(a.disk).commit <= HardStateOf(next.disk).commit
    ensures IsCourse(m, env, course + [next]) && Growing(course + [next])
  {
    hide Happened, IsStarted;
    var after := course + [next];
    forall i | 0 <= i < |after| - 1 ensures IsNextIn(m, env, after, i) {
      if i < |course| - 1 {
        assert IsNextIn(m, env, course, i);
      }
    }
  }

  lemma CourseBegins<S(!new)>(m: Machine<S>, env: Environment, r: Replica<S>)
    requires IsStarted(m, r, Disk(map[0 := Dummy(0, 0)], None, None), [Dummy(0, 0)])
    ensures IsCourse(m, env, [r]) && Growing([r])
  {}

  lemma HasLog<S(!new)>(group: RaftGroup<S>)
    requires group.Valid()
    ensures |group.wal.log| > 0
  {}

  /** A new replica, on a new store. */
  method Begin<S(!new)>(machine: Machine<S>, sizeOf: Entry -> nat, ghost history: seq<Entry>)
    returns (group: RaftGroup<S>, store: Store)
    requires IsHistory(history)
    ensures fresh(group) && fresh(group.wal) && fresh(store) && Running(group, machine, history, store)
    ensures group.hasSnapshotFn && AtStart(group)
    ensures IsStarted(machine, ReplicaOf(group, true), Disk(map[0 := Dummy(0, 0)], None, None), [Dummy(0, 0)])
  {
    store := new Store();
    var wal := new BadgerWAL(store, sizeOf, []);
    group := new RaftGroup(machine, wal, true, history);
    var ok := group.Start();
  }

  /**
   * However a run goes in which nothing harmful happens, the replica goes through what the environment makes happen,
   * step by step; it is in the state after the entries it has applied, and what is on disk recovers the state after
   * all entries known to be committed. The commit index never goes back.
   */
  method Live<S(!new)>(machine: Machine<S>, sizeOf: Entry -> nat, env: Environment, ghost peers: seq<Bytes>, steps: nat,
          ghost history: seq<Entry>)
    returns (group: RaftGroup<S>, ghost course: seq<Replica<S>>)
    requires IsHistory(history) && Trusted(env, peers, machine, history) && Harmless(env, peers, machine, history)
    ensures fresh(group) && group.Valid() && group.machine == machine && group.history == history
    ensures |course| == steps + 1 && IsCourse(machine, env, course) && Growing(course)
    ensures course[steps] == ReplicaOf(group, course[steps].starting)
    ensures group.state == machine.StateAfter(history, group.applied)
    ensures machine.Recovered(group.wal.store.disk, group.wal.log) ==
            Some(machine.StateAfter(history, HardStateOf(group.wal.store.disk).commit))
  {
    hide OnDisk, Coherent, Agrees, SnapshotOk, IsDelivered, IsHarmless, Growing, IsHistory, Happened, IsStarted,
         IsCourse;
    var store;
    group, store := Begin(machine, sizeOf, history);
    var first := true;
    course := [ReplicaOf(group, true)];
    CourseBegins(machine, env, course[0]);
    for i := 0 to steps
      invariant fresh(group) && fresh(group.wal) && fresh(store) && Running(group, machine, history, store)
      invariant group.hasSnapshotFn && (first ==> AtStart(group))
      invariant |course| == i + 1 && IsCourse(machine, env, course) && Growing(course)
      invariant course[i] == ReplicaOf(group, first)
    {
      var event := env(i, store.disk, group.applied, first);
      assert Durable(machine, store.disk, group.wal.log, history);
      HasLog(group);
      group, first := Happen(group, event, peers, first);
      CourseGoesOn(machine, env, course, ReplicaOf(group, first));
      course := course + [ReplicaOf(group, first)];
    }
    RecoveryIsReplay(machine, group.wal.store.disk, group.wal.log, history);
  }
}
