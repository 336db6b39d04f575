/** Routing to partitions and the two-level search of a dataset: storage/dataset.go. */
module Datasets {
  import opened Common
  import opened Uuids
  import opened PriorityQueues
  import opened Nearest
  import opened Collecting
  import opened Changes

  datatype Found = Found(id: Uuid, metadata: Metadata)

  /** Hits with their scores as priorities. */
  type SearchResult = seq<Item<Found>>

  datatype PartitionMeta = PartitionMeta(id: Uuid, nodeIds: seq<nat>)

  /** The sum of the two halves of an id, modulo the number of partitions. */
  ghost function Owner(id: Uuid, n: nat): nat
    requires n > 0
  {
    (LittleEndian(id, 0) + LittleEndian(id, 8)) % n
  }

  /** getPartitionForId: a partition is always found, and it depends only on the id and the number of partitions. */
  method GetPartitionForId(partitions: seq<PartitionMeta>, id: Uuid) returns (i: nat)
    requires 0 < |partitions| <= 0x8000_0000_0000_0000
    ensures i < |partitions| && i == Owner(id, |partitions|)
  {
    UuidModIsSumMod(id, |partitions|);
    i := UuidMod(id, |partitions|);
  }

  // Grouping

  /** The elements whose key is n, in order. */
  function Group<T>(xs: seq<T>, keys: seq<nat>, n: nat): seq<T>
    requires |xs| == |keys|
  {
    if xs == [] then []
    else
      var rest := Group(xs[..|xs| - 1], keys[..|xs| - 1], n);
      if keys[|xs| - 1] == n then rest + [xs[|xs| - 1]] else rest
  }

  /** The groups hold each element under its key. */
  ghost predicate IsGrouped<T>(xs: seq<T>, keys: seq<nat>, groups: map<nat, seq<T>>)
    requires |xs| == |keys|
  {
    (forall n :: n in groups <==> n in keys) && (forall n :: n in groups ==> groups[n] == Group(xs, keys, n))
  }

  lemma {:induction false} GroupOfNone<T>(xs: seq<T>, keys: seq<nat>, n: nat)
    requires |xs| == |keys| && n !in keys
    ensures Group(xs, keys, n) == []
  {
    if xs != [] {
      GroupOfNone(xs[..|xs| - 1], keys[..|xs| - 1], n);
    }
  }

  lemma NothingGrouped<T>()
    ensures IsGrouped<T>([], [], map[])
  {}

  lemma GroupedNext<T>(xs: seq<T>, keys: seq<nat>, groups: map<nat, seq<T>>, x: T, n: nat)
    requires |xs| == |keys| && IsGrouped(xs, keys, groups)
    ensures IsGrouped(xs + [x], keys + [n], groups[n := (if n in groups then groups[n] else []) + [x]])
  {
    if n !in groups {
      GroupOfNone(xs, keys, n);
    }
    assert (xs + [x])[..|xs|] == xs && (keys + [n])[..|xs|] == keys;
  }

  /** The elements at the places whose keys are in `ns`. */
  function Chosen<T>(xs: seq<T>, keys: seq<nat>, ns: set<nat>): seq<T>
    requires |xs| == |keys|
  {
    if xs == [] then []
    else
      var rest := Chosen(xs[..|xs| - 1], keys[..|xs| - 1], ns);
      if keys[|xs| - 1] in ns then rest + [xs[|xs| - 1]] else rest
  }

  lemma {:induction false} ChosenAll<T>(xs: seq<T>, keys: seq<nat>, ns: set<nat>)
    requires |xs| == |keys| && forall n :: n in keys ==> n in ns
    ensures Chosen(xs, keys, ns) == xs
  {
    if xs != [] {
      ChosenAll(xs[..|xs| - 1], keys[..|xs| - 1], ns);
      assert xs == xs[..|xs| - 1] + [xs[|xs| - 1]];
    }
  }

  lemma {:induction false} ChosenNone<T>(xs: seq<T>, keys: seq<nat>)
    requires |xs| == |keys|
    ensures Chosen(xs, keys, {}) == []
  {
    if xs != [] {
      ChosenNone(xs[..|xs| - 1], keys[..|xs| - 1]);
    }
  }

  /** One more group takes exactly its own elements: grouping loses and repeats nothing. */
  lemma {:induction false} ChosenNext<T>(xs: seq<T>, keys: seq<nat>, ns: set<nat>, n: nat)
    requires |xs| == |keys| && n !in ns
    ensures multiset(Chosen(xs, keys, ns + {n})) == multiset(Chosen(xs, keys, ns)) + multiset(Group(xs, keys, n))
  {
    if xs != [] {
      ChosenNext(xs[..|xs| - 1], keys[..|xs| - 1], ns, n);
    }
  }

  /** A group holds the elements with its key. */
  lemma {:induction false} InGroup<T>(xs: seq<T>, keys: seq<nat>, n: nat, x: T)
    requires |xs| == |keys|
    ensures x in Group(xs, keys, n) <==> exists i :: 0 <= i < |xs| && xs[i] == x && keys[i] == n
  {
    if xs != [] {
      var init, inks := xs[..|xs| - 1], keys[..|xs| - 1];
      InGroup(init, inks, n, x);
      if x in Group(init, inks, n) {
        var i :| 0 <= i < |init| && init[i] == x && inks[i] == n;
        assert xs[i] == x && keys[i] == n;
      }
      if i :| 0 <= i < |xs| && xs[i] == x && keys[i] == n && i < |xs| - 1 {
        assert init[i] == x && inks[i] == n;
      }
    }
  }

  ghost predicate Distinct<T>(xs: seq<T>) {
    forall i, j :: 0 <= i < j < |xs| ==> xs[i] != xs[j]
  }

  /** Of distinct elements, each is in exactly one group, once. */
  lemma {:induction false} InOneGroupOnce<T>(xs: seq<T>, keys: seq<nat>, i: nat, n: nat)
    requires |xs| == |keys| && Distinct(xs) && i < |xs|
    ensures multiset(Group(xs, keys, n))[xs[i]] == if keys[i] == n then 1 else 0
  {
    var init, inks, last := xs[..|xs| - 1], keys[..|xs| - 1], |xs| - 1;
    if i < last {
      InOneGroupOnce(init, inks, i, n);
      assert xs[last] != xs[i];
    } else {
      InGroup(init, inks, n, xs[last]);
      forall j | 0 <= j < |init| ensures init[j] != xs[last] {
        assert xs[j] != xs[last];
      }
    }
  }

  /** getSearchQueryNodes: each partition is asked for on one of its nodes, picked at random. */
  method GetSearchQueryNodes(partitions: seq<PartitionMeta>, picks: seq<nat>)
    returns (result: map<nat, seq<Uuid>>, nodes: seq<nat>)
    requires |picks| == |partitions| && forall i :: 0 <= i < |picks| ==> picks[i] < |partitions[i].nodeIds|
    ensures |nodes| == |partitions| && forall i :: 0 <= i < |nodes| ==> nodes[i] in partitions[i].nodeIds
    ensures IsGrouped(IdsOf(partitions), nodes, result)
  {
    hide Group, IsGrouped;
    result, nodes := map[], [];
    NothingGrouped<Uuid>();
    assert IdsOf(partitions[..0]) == [];
    for i := 0 to |partitions|
      invariant |nodes| == i && forall j :: 0 <= j < i ==> nodes[j] in partitions[j].nodeIds
      invariant IsGrouped(IdsOf(partitions[..i]), nodes, result)
    {
      var partitionNodeIds := partitions[i].nodeIds;
      var nodeId := partitionNodeIds[picks[i]];
      GroupedNext(IdsOf(partitions[..i]), nodes, result, partitions[i].id, nodeId);
      IdsNext(partitions, i);
      ghost var before := result;
      if nodeId !in result {
        result := result[nodeId := []];
      }
      result := result[nodeId := result[nodeId] + [partitions[i].id]];
      assert result == before[nodeId := (if nodeId in before then before[nodeId] else []) + [partitions[i].id]];
      nodes := nodes + [nodeId];
    }
    assert partitions[..|partitions|] == partitions;
  }

  function IdsOf(partitions: seq<PartitionMeta>): (ids: seq<Uuid>)
    ensures |ids| == |partitions| && forall i :: 0 <= i < |ids| ==> ids[i] == partitions[i].id
  {
    seq(|partitions|, i requires 0 <= i < |partitions| => partitions[i].id)
  }

  lemma IdsNext(partitions: seq<PartitionMeta>, i: nat)
    requires i < |partitions|
    ensures IdsOf(partitions[..i + 1]) == IdsOf(partitions[..i]) + [partitions[i].id]
  {}

  /** groupBatchItemsByPartition: each item goes to the partition of its id, in order. */
  method GroupBatchItemsByPartition(partitions: seq<PartitionMeta>, items: seq<BatchItem>)
    returns (result: map<nat, seq<BatchItem>>, owners: seq<nat>)
    requires 0 < |partitions| <= 0x8000_0000_0000_0000
    ensures |owners| == |items|
    ensures forall i :: 0 <= i < |items| ==> owners[i] == Owner(items[i].id, |partitions|)
    ensures IsGrouped(items, owners, result)
  {
    hide Owner, Group, IsGrouped;
    result, owners := map[], [];
    NothingGrouped<BatchItem>();
    assert items[..0] == [];
    for i := 0 to |items|
      invariant |owners| == i && IsGrouped(items[..i], owners, result)
      invariant forall j :: 0 <= j < i ==> owners[j] == Owner(items[j].id, |partitions|)
    {
      var partition := GetPartitionForId(partitions, items[i].id);
      GroupedNext(items[..i], owners, result, items[i], partition);
      assert items[..i + 1] == items[..i] + [items[i]];
      ghost var before := result;
      if partition !in result {
        result := result[partition := []];
      }
      result := result[partition := result[partition] + [items[i]]];
      assert result == before[partition := (if partition in before then before[partition] else []) + [items[i]]];
      owners := owners + [partition];
    }
    assert items[..|items|] == items;
  }

  // Searching

  /** What the search of each partition gives: its hits, or an error. */
  type Answers = map<Uuid, Option<SearchResult>>

  /** What is stored in the partitions of a list. */
  ghost function StoredIn(ids: seq<Uuid>, stored: map<Uuid, multiset<Item<Found>>>): multiset<Item<Found>> {
    if ids == [] then multiset{}
    else StoredIn(ids[..|ids| - 1], stored) + StoredAt(ids[|ids| - 1], stored)
  }

  ghost function StoredAt(id: Uuid, stored: map<Uuid, multiset<Item<Found>>>): multiset<Item<Found>> {
    if id in stored then stored[id] else multiset{}
  }

  /** Each partition answers with its k nearest, or fails. */
  ghost predicate PartitionsAnswer(answers: Answers, stored: map<Uuid, multiset<Item<Found>>>, k: nat) {
    && answers.Keys == stored.Keys
    && forall id :: id in answers && answers[id].Some? ==> IsNearest(stored[id], k, multiset(answers[id].value))
  }

  lemma {:induction false} StoredInAppend(ids: seq<Uuid>, more: seq<Uuid>, stored: map<Uuid, multiset<Item<Found>>>)
    ensures StoredIn(ids + more, stored) == StoredIn(ids, stored) + StoredIn(more, stored)
  {
    if more == [] {
      assert ids + more == ids;
    } else {
      StoredInAppend(ids, more[..|more| - 1], stored);
      assert (ids + more)[..|ids + more| - 1] == ids + more[..|more| - 1];
    }
  }

  ghost predicate AllKnown(ids: seq<Uuid>, answers: Answers) {
    forall i :: 0 <= i < |ids| ==> ids[i] in answers
  }

  /** All partitions are known, and none of them fails. */
  ghost predicate AllAnswer(ids: seq<Uuid>, answers: Answers) {
    forall i :: 0 <= i < |ids| ==> ids[i] in answers && answers[ids[i]].Some?
  }

  /** What the partitions of a list send. */
  function RepliesOf(ids: seq<Uuid>, answers: Answers): (replies: seq<Reply<Found>>)
    requires forall i :: 0 <= i < |ids| ==> ids[i] in answers
    ensures |replies| == |ids|
  {
    seq(|ids|, i requires 0 <= i < |ids| => ReplyOf(answers[ids[i]]))
  }

  function ReplyOf(answer: Option<SearchResult>): Reply<Found> {
    if answer.Some? then Items(answer.value) else Failure
  }

  lemma ReplyIsItems(answer: Option<SearchResult>)
    ensures ReplyOf(answer).Items? <==> answer.Some?
  {}

  ghost function SourcesOf(ids: seq<Uuid>, stored: map<Uuid, multiset<Item<Found>>>): (s: seq<multiset<Item<Found>>>)
    ensures |s| == |ids|
  {
    seq(|ids|, i requires 0 <= i < |ids| => StoredAt(ids[i], stored))
  }

  /** What is heard of partitions is part of what they store, and all of it if none of them fails. */
  lemma {:induction false} HeardIsStored(ids: seq<Uuid>, answers: Answers, stored: map<Uuid, multiset<Item<Found>>>)
    requires AllKnown(ids, answers)
    ensures Heard(RepliesOf(ids, answers), SourcesOf(ids, stored)) <= StoredIn(ids, stored)
    ensures AllAnswer(ids, answers) ==> Heard(RepliesOf(ids, answers), SourcesOf(ids, stored)) == StoredIn(ids, stored)
  {
    hide Heard, StoredAt, ReplyOf;
    if ids != [] {
      var n := |ids| - 1;
      HeardIsStored(ids[..n], answers, stored);
      assert RepliesOf(ids, answers) == RepliesOf(ids[..n], answers) + [ReplyOf(answers[ids[n]])];
      assert SourcesOf(ids, stored) == SourcesOf(ids[..n], stored) + [StoredAt(ids[n], stored)];
      HeardNext(RepliesOf(ids[..n], answers), SourcesOf(ids[..n], stored), ReplyOf(answers[ids[n]]),
                StoredAt(ids[n], stored));
      ReplyIsItems(answers[ids[n]]);
    } else {
      NothingHeard(RepliesOf(ids, answers), SourcesOf(ids, stored));
    }
  }

  lemma RepliesAreFrom(ids: seq<Uuid>, answers: Answers, stored: map<Uuid, multiset<Item<Found>>>, k: nat)
    requires PartitionsAnswer(answers, stored, k) && AllKnown(ids, answers)
    ensures RepliesFrom(RepliesOf(ids, answers), SourcesOf(ids, stored), k)
    ensures HasFailure(RepliesOf(ids, answers)) <==> !AllAnswer(ids, answers)
  {
    hide IsNearest;
    if i :| 0 <= i < |ids| && answers[ids[i]].None? {
      assert RepliesOf(ids, answers)[i].Failure?;
    }
  }

  /**
   * SearchPartitions: an error if a partition is not known; else the replies of the partitions are collected. What
   * is answered without an error is the k nearest of what the partitions store that did not fail.
   */
  method SearchPartitions(ids: seq<Uuid>, answers: Answers, k: nat, timing: Timing,
          ghost stored: map<Uuid, multiset<Item<Found>>>)
    returns (r: Outcome<Found>, ghost heard: multiset<Item<Found>>)
    requires PartitionsAnswer(answers, stored, k)
    ensures !AllKnown(ids, answers) ==> r.Failed?
    ensures r.Failed? ==> !AllAnswer(ids, answers)
    ensures r.Nothing? ==> !timing.prompt && AllAnswer(ids, answers) && ids != []
    ensures r.Cancelled? ==> timing.cancelled
    ensures timing.prompt && !timing.cancelled ==> (r.Failed? <==> !AllAnswer(ids, answers))
    ensures heard <= StoredIn(ids, stored)
    ensures r.Answered? ==> InOrder(false, r.items) && IsNearest(heard, k, multiset(r.items))
    ensures r.Answered? && timing.prompt ==> AllAnswer(ids, answers)
    ensures r.Answered? && AllAnswer(ids, answers) ==> heard == StoredIn(ids, stored)
  {
    hide InOrder, IsNearest, Heard, PartitionsAnswer, HasFailure, StoredIn;
    heard := multiset{};
    for i := 0 to |ids|
      invariant forall j :: 0 <= j < i ==> ids[j] in answers
    {
      if ids[i] !in answers {
        return Failed, heard;
      }
    }
    RepliesAreFrom(ids, answers, stored, k);
    HeardIsStored(ids, answers, stored);
    heard := Heard(RepliesOf(ids, answers), SourcesOf(ids, stored));
    ghost var rs;
    r, rs := Collect(RepliesOf(ids, answers), k, timing, SourcesOf(ids, stored));
  }

  lemma NothingStored(stored: map<Uuid, multiset<Item<Found>>>)
    ensures StoredIn([], stored) == multiset{}
  {}

  /** One more node adds what is stored in the partitions that it is asked for. */
  lemma {:induction false} StoredChosenNext(ids: seq<Uuid>, nodes: seq<nat>, ns: set<nat>, n: nat,
          stored: map<Uuid, multiset<Item<Found>>>)
    requires |ids| == |nodes| && n !in ns
    ensures StoredIn(Chosen(ids, nodes, ns + {n}), stored) ==
            StoredIn(Chosen(ids, nodes, ns), stored) + StoredIn(Group(ids, nodes, n), stored)
  {
    hide StoredIn;
    if ids == [] {
      assert StoredIn([], stored) == multiset{} by {
        NothingStored(stored);
      }
    } else {
      var init, inks, last := ids[..|ids| - 1], nodes[..|ids| - 1], [ids[|ids| - 1]];
      StoredChosenNext(init, inks, ns, n, stored);
      StoredInAppend(Chosen(init, inks, ns + {n}), last, stored);
      StoredInAppend(Chosen(init, inks, ns), last, stored);
      StoredInAppend(Group(init, inks, n), last, stored);
    }
  }

  /** A node can be reached, and the partitions it is asked for all answer. */
  ghost predicate NodeAnswers(ids: seq<Uuid>, nodes: seq<nat>, n: nat, answers: Answers, reachable: set<nat>)
    requires |ids| == |nodes|
  {
    n in reachable && AllAnswer(Group(ids, nodes, n), answers)
  }

  ghost predicate NodesAnswer(ids: seq<Uuid>, nodes: seq<nat>, ns: set<nat>, answers: Answers, reachable: set<nat>)
    requires |ids| == |nodes|
  {
    forall n :: n in ns ==> NodeAnswers(ids, nodes, n, answers, reachable)
  }

  /** All partitions answer, and the nodes picked for them can be reached. */
  ghost predicate EverythingAnswers(ids: seq<Uuid>, nodes: seq<nat>, answers: Answers, reachable: set<nat>) {
    AllAnswer(ids, answers) && forall i :: 0 <= i < |nodes| ==> nodes[i] in reachable
  }

  lemma AllNodesAnswer(ids: seq<Uuid>, nodes: seq<nat>, ns: set<nat>, answers: Answers, reachable: set<nat>)
    requires |ids| == |nodes| && forall n :: n in ns <==> n in nodes
    ensures NodesAnswer(ids, nodes, ns, answers, reachable) <==> EverythingAnswers(ids, nodes, answers, reachable)
  {
    if NodesAnswer(ids, nodes, ns, answers, reachable) {
      forall i | 0 <= i < |ids| ensures ids[i] in answers && answers[ids[i]].Some? && nodes[i] in reachable {
        assert NodeAnswers(ids, nodes, nodes[i], answers, reachable);
        InGroup(ids, nodes, nodes[i], ids[i]);
      }
    }
    if EverythingAnswers(ids, nodes, answers, reachable) {
      forall n | n in ns ensures NodeAnswers(ids, nodes, n, answers, reachable) {
        GroupAnswers(ids, nodes, n, answers);
      }
    }
  }

  lemma GroupAnswers(ids: seq<Uuid>, nodes: seq<nat>, n: nat, answers: Answers)
    requires |ids| == |nodes| && AllAnswer(ids, answers)
    ensures AllAnswer(Group(ids, nodes, n), answers)
  {
    var group := Group(ids, nodes, n);
    forall i | 0 <= i < |group| ensures group[i] in answers && answers[group[i]].Some? {
      InGroup(ids, nodes, n, group[i]);
    }
  }

  /** searchPartitionsOnNode: a node that cannot be reached, or that answers with an error, fails. */
  method SearchOnNode(group: seq<Uuid>, answers: Answers, k: nat, timing: Timing, isReachable: bool,
          ghost stored: map<Uuid, multiset<Item<Found>>>)
    returns (reply: Reply<Found>, ghost heard: multiset<Item<Found>>)
    requires PartitionsAnswer(answers, stored, k)
    ensures reply.Failure? ==> !(isReachable && AllAnswer(group, answers)) || timing.cancelled
    ensures timing.prompt && !timing.cancelled ==> (reply.Failure? <==> !(isReachable && AllAnswer(group, answers)))
    ensures heard <= StoredIn(group, stored)
    ensures reply.Items? ==> IsNearest(heard, k, multiset(reply.items))
    ensures timing.prompt && reply.Items? ==> heard == StoredIn(group, stored)
  {
    hide StoredIn, InOrder, PartitionsAnswer;
    if !isReachable {
      return Failure, multiset{};
    }
    var r;
    r, heard := SearchPartitions(group, answers, k, timing, stored);
    match r
    case Answered(items) => reply := Items(items);
    case Failed => reply := Failure;
    case Cancelled => reply := Failure;
    case Nothing => reply, heard := Items([]), multiset{};
  }

  /** The nodes asked so far have replied. */
  ghost predicate Replied(ids: seq<Uuid>, nodes: seq<nat>, done: set<nat>, answers: Answers, reachable: set<nat>,
          stored: map<Uuid, multiset<Item<Found>>>, k: nat, timing: Timing, replies: seq<Reply<Found>>,
          sources: seq<multiset<Item<Found>>>)
    requires |ids| == |nodes|
  {
    && RepliesFrom(replies, sources, k)
    && Heard(replies, sources) <= StoredIn(Chosen(ids, nodes, done), stored)
    && (HasFailure(replies) ==> !NodesAnswer(ids, nodes, done, answers, reachable) || timing.cancelled)
    && (timing.prompt && !timing.cancelled ==>
          (HasFailure(replies) <==> !NodesAnswer(ids, nodes, done, answers, reachable)))
    && (timing.prompt && !HasFailure(replies) ==> Heard(replies, sources) == StoredIn(Chosen(ids, nodes, done), stored))
  }

  lemma RepliedNone(ids: seq<Uuid>, nodes: seq<nat>, answers: Answers, reachable: set<nat>,
          stored: map<Uuid, multiset<Item<Found>>>, k: nat, timing: Timing)
    requires |ids| == |nodes|
    ensures Replied(ids, nodes, {}, answers, reachable, stored, k, timing, [], [])
  {
    ChosenNone(ids, nodes);
    NothingStored(stored);
  }

  lemma FailureNext(replies: seq<Reply<Found>>, reply: Reply<Found>)
    ensures HasFailure(replies + [reply]) <==> HasFailure(replies) || reply.Failure?
  {
    if i :| 0 <= i < |replies| && replies[i].Failure? {
      assert (replies + [reply])[i].Failure?;
    }
    assert (replies + [reply])[|replies|] == reply;
  }

  lemma RepliedNext(ids: seq<Uuid>, nodes: seq<nat>, done: set<nat>, answers: Answers, reachable: set<nat>,
          stored: map<Uuid, multiset<Item<Found>>>, k: nat, timing: Timing, replies: seq<Reply<Found>>,
          sources: seq<multiset<Item<Found>>>, n: nat, reply: Reply<Found>, heard: multiset<Item<Found>>)
    requires |ids| == |nodes| && n !in done
    requires Replied(ids, nodes, done, answers, reachable, stored, k, timing, replies, sources)
    requires reply.Failure? ==> !NodeAnswers(ids, nodes, n, answers, reachable) || timing.cancelled
    requires timing.prompt && !timing.cancelled ==>
               (reply.Failure? <==> !NodeAnswers(ids, nodes, n, answers, reachable))
    requires heard <= StoredIn(Group(ids, nodes, n), stored)
    requires reply.Items? ==> IsNearest(heard, k, multiset(reply.items))
    requires timing.prompt && reply.Items? ==> heard == StoredIn(Group(ids, nodes, n), stored)
    ensures Replied(ids, nodes, done + {n}, answers, reachable, stored, k, timing, replies + [reply], sources + [heard])
  {
    hide Heard, StoredIn, Chosen, Group, NodeAnswers, IsNearest, HasFailure;
    HeardNext(replies, sources, reply, heard);
    StoredChosenNext(ids, nodes, done, n, stored);
    FailureNext(replies, reply);
  }

  lemma AllReplied(ids: seq<Uuid>, nodes: seq<nat>, done: set<nat>, answers: Answers, reachable: set<nat>,
          stored: map<Uuid, multiset<Item<Found>>>, k: nat, timing: Timing, replies: seq<Reply<Found>>,
          sources: seq<multiset<Item<Found>>>)
    requires |ids| == |nodes| && forall n :: n in done <==> n in nodes
    requires Replied(ids, nodes, done, answers, reachable, stored, k, timing, replies, sources)
    ensures RepliesFrom(replies, sources, k) && Heard(replies, sources) <= StoredIn(ids, stored)
    ensures HasFailure(replies) ==> !EverythingAnswers(ids, nodes, answers, reachable) || timing.cancelled
    ensures timing.prompt && !timing.cancelled ==>
              (HasFailure(replies) <==> !EverythingAnswers(ids, nodes, answers, reachable))
    ensures timing.prompt && !HasFailure(replies) ==> Heard(replies, sources) == StoredIn(ids, stored)
  {
    hide Heard, StoredIn, RepliesFrom, NodesAnswer, EverythingAnswers, HasFailure;
    AllNodesAnswer(ids, nodes, done, answers, reachable);
    ChosenAll(ids, nodes, done);
  }

  /**
   * Search: check the dimension of the query, group the partitions by node, let each node search its partitions, and
   * collect what the nodes reply. If the replies are read promptly, here and on the nodes, and nothing is cancelled,
   * an error is answered exactly if the dimension is wrong or a partition or a node fails, and otherwise, for any
   * choice of nodes and any order of arrival, the k nearest of everything that is stored, in ascending order. In any
   * case, what is answered is the k nearest of a part of it.
   */
  method Search(partitions: seq<PartitionMeta>, dimension: nat, query: Vector, picks: seq<nat>, answers: Answers,
          reachable: set<nat>, k: nat, timing: Timing, ghost stored: map<Uuid, multiset<Item<Found>>>)
    returns (r: Outcome<Found>, ghost nodes: seq<nat>, ghost heard: multiset<Item<Found>>)
    requires |picks| == |partitions| && forall i :: 0 <= i < |picks| ==> picks[i] < |partitions[i].nodeIds|
    requires PartitionsAnswer(answers, stored, k)
    ensures |nodes| == |partitions| && forall i :: 0 <= i < |nodes| ==> nodes[i] in partitions[i].nodeIds
    ensures |query| != dimension ==> r.Failed?
    ensures r.Failed? && |query| == dimension && !timing.cancelled ==>
              !EverythingAnswers(IdsOf(partitions), nodes, answers, reachable)
    ensures r.Cancelled? ==> timing.cancelled
    ensures r.Nothing? ==> !timing.prompt
    ensures timing.prompt && !timing.cancelled && |query| == dimension ==>
              (r.Failed? <==> !EverythingAnswers(IdsOf(partitions), nodes, answers, reachable))
    ensures r.Answered? ==> InOrder(false, r.items) && IsNearest(heard, k, multiset(r.items))
    ensures heard <= StoredIn(IdsOf(partitions), stored)
    ensures r.Answered? && timing.prompt ==> heard == StoredIn(IdsOf(partitions), stored)
  {
    hide InOrder, IsNearest, StoredIn, Heard, Chosen, Group, PartitionsAnswer, Replied, NodesAnswer;
    var nodePartitions, ns := GetSearchQueryNodes(partitions, picks);
    nodes, heard := ns, multiset{};
    if |query| != dimension {
      return Failed, nodes, heard;
    }

    ghost var ids := IdsOf(partitions);
    var replies: seq<Reply<Found>>, todo := [], nodePartitions.Keys;
    ghost var sources: seq<multiset<Item<Found>>> := [];
    RepliedNone(ids, nodes, answers, reachable, stored, k, timing);
    assert nodePartitions.Keys - todo == {};
    while todo != {}
      invariant todo <= nodePartitions.Keys
      invariant Replied(ids, nodes, nodePartitions.Keys - todo, answers, reachable, stored, k, timing, replies, sources)
      decreases todo
    {
      var nodeId :| nodeId in todo;
      ghost var done := nodePartitions.Keys - todo;
      var reply;
      ghost var part;
      reply, part := SearchOnNode(nodePartitions[nodeId], answers, k, timing, nodeId in reachable, stored);
      RepliedNext(ids, nodes, done, answers, reachable, stored, k, timing, replies, sources, nodeId, reply, part);
      replies, todo := replies + [reply], todo - {nodeId};
      sources := sources + [part];
      assert nodePartitions.Keys - todo == done + {nodeId};
    }
    AllReplied(ids, nodes, nodePartitions.Keys - todo, answers, reachable, stored, k, timing, replies, sources);
    heard := Heard(replies, sources);
    ghost var rs;
    r, rs := Collect(replies, k, timing, sources);
  }
}
