/**
 * Reading replies from two channels, one for results and one for errors, that are closed when all replies are in:
 * the loop that Search and SearchPartitions of storage/dataset.go share.
 */
module Collecting {
  import opened PriorityQueues
  import opened Nearest
  import opened Merging

  /** What one goroutine sends. */
  datatype Reply<T> = Items(items: seq<Item<T>>) | Failure

  /** What a select yields: a reply, the zero value of a channel that is closed and drained, or a cancelled context. */
  datatype Receipt = Received(i: nat) | ResultsClosed | ErrorsClosed | ContextDone

  /** What is answered: items, an error that arrived or that of the context, or neither. */
  datatype Outcome<T> = Answered(items: seq<Item<T>>) | Failed | Cancelled | Nothing

  /**
   * When the reading takes place. The channels are closed once all replies are in, at any moment from then on;
   * `prompt` says that this does not happen before all are read. The context may be cancelled at any moment.
   */
  datatype Timing = Timing(prompt: bool, cancelled: bool)

  predicate HasFailure<T>(replies: seq<Reply<T>>) {
    exists i :: 0 <= i < |replies| && replies[i].Failure?
  }

  predicate HasItems<T>(replies: seq<Reply<T>>) {
    exists i :: 0 <= i < |replies| && replies[i].Items?
  }

  /** What may be received while `waiting` has not been read. */
  predicate CanReceive<T>(waiting: seq<Reply<T>>, timing: Timing, x: Receipt) {
    match x
    case Received(i) => i < |waiting|
    case ResultsClosed => !timing.prompt && !HasItems(waiting)
    case ErrorsClosed => !timing.prompt && !HasFailure(waiting)
    case ContextDone => timing.cancelled
  }

  /** The items behind a reply: the reply holds the k nearest of them. */
  ghost predicate RepliesFrom<T>(replies: seq<Reply<T>>, sources: seq<multiset<Item<T>>>, k: nat) {
    && |sources| == |replies|
    && forall i :: 0 <= i < |replies| && replies[i].Items? ==> IsNearest(sources[i], k, multiset(replies[i].items))
  }

  ghost function SourceOf<T>(reply: Reply<T>, source: multiset<Item<T>>): multiset<Item<T>> {
    if reply.Items? then source else multiset{}
  }

  /** All items behind the replies that are not failures. */
  ghost function Heard<T>(replies: seq<Reply<T>>, sources: seq<multiset<Item<T>>>): multiset<Item<T>>
    requires |sources| == |replies|
  {
    if replies == [] then multiset{}
    else
      var n := |replies| - 1;
      Heard(replies[..n], sources[..n]) + SourceOf(replies[n], sources[n])
  }

  function Without<T>(s: seq<T>, i: nat): (r: seq<T>)
    requires i < |s|
    ensures |r| == |s| - 1
  {
    s[..i] + s[i + 1..]
  }

  lemma HeardNext<T>(replies: seq<Reply<T>>, sources: seq<multiset<Item<T>>>, reply: Reply<T>,
          source: multiset<Item<T>>)
    requires |sources| == |replies|
    ensures Heard(replies + [reply], sources + [source]) == Heard(replies, sources) + SourceOf(reply, source)
  {
    assert (replies + [reply])[..|replies|] == replies && (sources + [source])[..|replies|] == sources;
  }

  lemma WithoutLast<T>(s: seq<T>, i: nat)
    requires i < |s| - 1
    ensures s == s[..|s| - 1] + [s[|s| - 1]]
    ensures Without(s, i) == Without(s[..|s| - 1], i) + [s[|s| - 1]]
  {}

  lemma {:induction false} HeardWithout<T>(replies: seq<Reply<T>>, sources: seq<multiset<Item<T>>>, i: nat)
    requires |sources| == |replies| && i < |replies|
    ensures Heard(replies, sources) ==
            Heard(Without(replies, i), Without(sources, i)) + SourceOf(replies[i], sources[i])
  {
    hide Heard, SourceOf, Without;
    var n := |replies| - 1;
    if i < n {
      WithoutLast(replies, i);
      WithoutLast(sources, i);
      HeardWithout(replies[..n], sources[..n], i);
      HeardNext(replies[..n], sources[..n], replies[n], sources[n]);
      HeardNext(Without(replies[..n], i), Without(sources[..n], i), replies[n], sources[n]);
    } else {
      WithoutIsInit(replies);
      WithoutIsInit(sources);
      HeardNext(replies[..n], sources[..n], replies[n], sources[n]);
    }
  }

  lemma WithoutIsInit<T>(s: seq<T>)
    requires s != []
    ensures Without(s, |s| - 1) == s[..|s| - 1] && s == s[..|s| - 1] + [s[|s| - 1]]
  {}

  lemma {:induction false} NothingHeard<T>(replies: seq<Reply<T>>, sources: seq<multiset<Item<T>>>)
    requires |sources| == |replies| && !HasItems(replies)
    ensures Heard(replies, sources) == multiset{}
  {
    if replies != [] {
      var n := |replies| - 1;
      assert !HasItems(replies[..n]) by {
        assert forall i :: 0 <= i < n ==> replies[..n][i] == replies[i];
      }
      NothingHeard(replies[..n], sources[..n]);
    }
  }

  lemma ArrivesToo<T(!new)>(arrived: multiset<Item<T>>, result: seq<Item<T>>, more: multiset<Item<T>>,
          items: seq<Item<T>>, k: nat)
    requires Suffices(arrived, k, multiset(result)) && IsNearest(more, k, multiset(items))
    ensures Suffices(arrived + more, k, multiset(result + items))
  {
    NearestSuffice(more, k, multiset(items));
    SufficesTogether(arrived, more, k, multiset(result), multiset(items));
    assert multiset(result + items) == multiset(result) + multiset(items);
  }

  /** After i receipts: what was read suffices, and all but i replies wait, or only failures do. */
  ghost predicate Collected<T(!new)>(replies: seq<Reply<T>>, sources: seq<multiset<Item<T>>>, k: nat, timing: Timing,
          i: nat, result: seq<Item<T>>, waiting: seq<Reply<T>>, left: seq<multiset<Item<T>>>,
          arrived: multiset<Item<T>>)
  {
    && |sources| == |replies| && RepliesFrom(waiting, left, k)
    && Heard(replies, sources) == arrived + Heard(waiting, left)
    && Suffices(arrived, k, multiset(result))
    && (|waiting| == |replies| - i || (!timing.prompt && !HasItems(waiting)))
    && (HasFailure(waiting) <==> HasFailure(replies))
  }

  lemma CollectedStart<T(!new)>(replies: seq<Reply<T>>, sources: seq<multiset<Item<T>>>, k: nat, timing: Timing)
    requires RepliesFrom(replies, sources, k)
    ensures Collected(replies, sources, k, timing, 0, [], replies, sources, multiset{})
  {
    assert multiset{} + Heard(replies, sources) == Heard(replies, sources);
    assert Suffices<T>(multiset{}, k, multiset([]));
  }

  lemma SameFailures<T>(replies: seq<Reply<T>>, j: nat)
    requires j < |replies| && replies[j].Items?
    ensures HasFailure(Without(replies, j)) <==> HasFailure(replies)
  {
    if i :| 0 <= i < |replies| && replies[i].Failure? {
      assert Without(replies, j)[if i < j then i else i - 1].Failure?;
    }
  }

  lemma CollectedNext<T(!new)>(replies: seq<Reply<T>>, sources: seq<multiset<Item<T>>>, k: nat, timing: Timing, i: nat,
          result: seq<Item<T>>, waiting: seq<Reply<T>>, left: seq<multiset<Item<T>>>, arrived: multiset<Item<T>>,
          j: nat)
    requires Collected(replies, sources, k, timing, i, result, waiting, left, arrived)
    requires j < |waiting| && waiting[j].Items?
    ensures Collected(replies, sources, k, timing, i + 1, result + waiting[j].items, Without(waiting, j),
                      Without(left, j), arrived + left[j])
  {
    hide Heard, Suffices, IsNearest, HasFailure;
    HeardWithout(waiting, left, j);
    ArrivesToo(arrived, result, left[j], waiting[j].items, k);
    SameFailures(waiting, j);
    assert HasItems(waiting);
    assert arrived + left[j] + Heard(Without(waiting, j), Without(left, j)) ==
           arrived + (Heard(Without(waiting, j), Without(left, j)) + left[j]);
  }

  /** There is always something to receive: a reply, as long as one waits, or else what the closed channels yield. */
  lemma CanStillReceive<T(!new)>(replies: seq<Reply<T>>, sources: seq<multiset<Item<T>>>, k: nat, timing: Timing,
          i: nat, result: seq<Item<T>>, waiting: seq<Reply<T>>, left: seq<multiset<Item<T>>>,
          arrived: multiset<Item<T>>)
    requires Collected(replies, sources, k, timing, i, result, waiting, left, arrived) && i < |replies|
    ensures exists x :: CanReceive(waiting, timing, x)
    ensures |left| == |waiting| && (HasFailure(waiting) <==> HasFailure(replies))
  {
    if waiting != [] {
      assert CanReceive(waiting, timing, Received(0));
    } else {
      assert CanReceive(waiting, timing, ResultsClosed);
    }
  }

  lemma ReceiptFacts<T>(waiting: seq<Reply<T>>, timing: Timing, x: Receipt)
    requires CanReceive(waiting, timing, x)
    ensures x.Received? ==> x.i < |waiting| && (waiting[x.i].Failure? ==> HasFailure(waiting))
    ensures x.ErrorsClosed? ==> !timing.prompt && !HasFailure(waiting)
    ensures x.ContextDone? ==> timing.cancelled
  {}

  lemma StillCollected<T(!new)>(replies: seq<Reply<T>>, sources: seq<multiset<Item<T>>>, k: nat, timing: Timing, i: nat,
          result: seq<Item<T>>, waiting: seq<Reply<T>>, left: seq<multiset<Item<T>>>, arrived: multiset<Item<T>>)
    requires Collected(replies, sources, k, timing, i, result, waiting, left, arrived)
    requires CanReceive(waiting, timing, ResultsClosed)
    ensures Collected(replies, sources, k, timing, i + 1, result, waiting, left, arrived)
  {}

  lemma CollectedEnd<T(!new)>(replies: seq<Reply<T>>, sources: seq<multiset<Item<T>>>, k: nat, timing: Timing,
          result: seq<Item<T>>, waiting: seq<Reply<T>>, left: seq<multiset<Item<T>>>, arrived: multiset<Item<T>>)
    requires Collected(replies, sources, k, timing, |replies|, result, waiting, left, arrived)
    ensures |sources| == |replies| && Heard(replies, sources) == arrived
    ensures Suffices(arrived, k, multiset(result))
    ensures timing.prompt ==> !HasFailure(replies)
  {
    NothingHeard(waiting, left);
  }

  // Readings: the receipts of one run of the loop, and how it ends

  datatype End = AllRead | ErrorRead | NothingRead | ContextRead

  /** The loop receives rs, with n rounds to go, and ends so. */
  ghost predicate IsReading<T>(waiting: seq<Reply<T>>, n: nat, timing: Timing, rs: seq<Receipt>, end: End)
    decreases n
  {
    if n == 0 then rs == [] && end == AllRead
    else
      && rs != [] && CanReceive(waiting, timing, rs[0])
      && match rs[0]
         case Received(i) =>
           if waiting[i].Failure? then |rs| == 1 && end == ErrorRead
           else IsReading(Without(waiting, i), n - 1, timing, rs[1..], end)
         case ResultsClosed => IsReading(waiting, n - 1, timing, rs[1..], end)
         case ErrorsClosed => |rs| == 1 && end == NothingRead
         case ContextDone => |rs| == 1 && end == ContextRead
  }

  /** How the loop should end: with an error if there is one, and else with everything read. */
  function ProperEnd<T>(replies: seq<Reply<T>>): End {
    if HasFailure(replies) then ErrorRead else AllRead
  }

  lemma {:induction false} PromptReading<T>(waiting: seq<Reply<T>>, timing: Timing, rs: seq<Receipt>, end: End)
    requires timing == Timing(true, false) && IsReading(waiting, |waiting|, timing, rs, end)
    ensures end == ProperEnd(waiting)
    decreases |waiting|
  {
    if waiting != [] {
      var i := rs[0].i;
      if waiting[i].Items? {
        PromptReading(Without(waiting, i), timing, rs[1..], end);
        SameFailures(waiting, i);
      }
    }
  }

  /** Read late, the closed error channel is taken for an error only if there is none. */
  lemma {:induction false} NothingReadIfNoFailure<T>(waiting: seq<Reply<T>>, n: nat, timing: Timing, rs: seq<Receipt>)
    requires IsReading(waiting, n, timing, rs, NothingRead)
    ensures !HasFailure(waiting)
    decreases n
  {
    match rs[0]
    case Received(i) =>
      NothingReadIfNoFailure(Without(waiting, i), n - 1, timing, rs[1..]);
      SameFailures(waiting, i);
    case ResultsClosed =>
      NothingReadIfNoFailure(waiting, n - 1, timing, rs[1..]);
    case ErrorsClosed =>
    case ContextDone =>
  }

  lemma {:induction false} PassingOverFailures<T>(waiting: seq<Reply<T>>, n: nat, timing: Timing)
    returns (rs: seq<Receipt>)
    requires !timing.prompt && !HasItems(waiting)
    ensures IsReading(waiting, n, timing, rs, AllRead)
    decreases n
  {
    rs := [];
    if n > 0 {
      var rest := PassingOverFailures(waiting, n - 1, timing);
      rs := [ResultsClosed] + rest;
      assert rs[1..] == rest;
    }
  }

  /** Read late, all failures can be passed over: the results first, and then the closed result channel. */
  lemma {:induction false} PassingOver<T>(waiting: seq<Reply<T>>, n: nat, timing: Timing) returns (rs: seq<Receipt>)
    requires !timing.prompt && |waiting| <= n
    ensures IsReading(waiting, n, timing, rs, AllRead)
    decreases n
  {
    if n == 0 {
      rs := [];
    } else if i: nat :| i < |waiting| && waiting[i].Items? {
      var rest := PassingOver(Without(waiting, i), n - 1, timing);
      rs := [Received(i)] + rest;
      assert rs[1..] == rest;
    } else {
      rs := PassingOverFailures(waiting, n, timing);
    }
  }

  /** Some reading of all replies ends so. */
  ghost predicate CanEnd<T>(replies: seq<Reply<T>>, timing: Timing, end: End) {
    exists rs :: IsReading(replies, |replies|, timing, rs, end)
  }

  lemma EndsBy<T>(replies: seq<Reply<T>>, timing: Timing, rs: seq<Receipt>, end: End)
    requires IsReading(replies, |replies|, timing, rs, end)
    ensures CanEnd(replies, timing, end)
  {}

  lemma EndsAtOnce<T>(replies: seq<Reply<T>>, timing: Timing, x: Receipt)
    requires replies != [] && CanReceive(replies, timing, x) && (x.ErrorsClosed? || x.ContextDone?)
    ensures CanEnd(replies, timing, if x.ErrorsClosed? then NothingRead else ContextRead)
  {
    EndsBy(replies, timing, [x], if x.ErrorsClosed? then NothingRead else ContextRead);
  }

  /**
   * Read late, and for any replies: the loop can end with nothing, neither answer nor error, exactly if none of them
   * is a failure; and it can always end with an answer, whatever fails.
   */
  lemma LateReadings<T>(replies: seq<Reply<T>>, timing: Timing)
    requires !timing.prompt && replies != []
    ensures CanEnd(replies, timing, NothingRead) <==> !HasFailure(replies)
    ensures CanEnd(replies, timing, AllRead)
  {
    if CanEnd(replies, timing, NothingRead) {
      var rs :| IsReading(replies, |replies|, timing, rs, NothingRead);
      NothingReadIfNoFailure(replies, |replies|, timing, rs);
    }
    if !HasFailure(replies) {
      EndsAtOnce(replies, timing, ErrorsClosed);
    }
    var rs := PassingOver(replies, |replies|, timing);
    EndsBy(replies, timing, rs, AllRead);
  }

  /** Every reading ends properly exactly if it is prompt and not cancelled, or there is nothing to read. */
  lemma EveryReadingIsProperIff<T>(replies: seq<Reply<T>>, timing: Timing)
    ensures (forall end | CanEnd(replies, timing, end) :: end == ProperEnd(replies)) <==>
            timing == Timing(true, false) || replies == []
  {
    if timing == Timing(true, false) || replies == [] {
      forall end | CanEnd(replies, timing, end) ensures end == ProperEnd(replies) {
        var rs :| IsReading(replies, |replies|, timing, rs, end);
        if replies != [] {
          PromptReading(replies, timing, rs, end);
        }
      }
    } else if timing.cancelled {
      EndsAtOnce(replies, timing, ContextDone);
    } else {
      LateReadings(replies, timing);
    }
  }

  /** After the receipts rs, any further reading of what waits completes a reading of all. */
  ghost predicate LeadsOn<T>(replies: seq<Reply<T>>, timing: Timing, rs: seq<Receipt>, waiting: seq<Reply<T>>, n: nat) {
    forall more, end :: IsReading(waiting, n, timing, more, end) ==>
      IsReading(replies, |replies|, timing, rs + more, end)
  }

  lemma LeadsOnStart<T>(replies: seq<Reply<T>>, timing: Timing)
    ensures LeadsOn(replies, timing, [], replies, |replies|)
  {
    forall more, end | IsReading(replies, |replies|, timing, more, end)
      ensures IsReading(replies, |replies|, timing, [] + more, end)
    {
      assert [] + more == more;
    }
  }

  lemma LeadsOnNext<T>(replies: seq<Reply<T>>, timing: Timing, rs: seq<Receipt>, waiting: seq<Reply<T>>, n: nat,
          x: Receipt, after: seq<Reply<T>>)
    requires LeadsOn(replies, timing, rs, waiting, n) && n > 0 && CanReceive(waiting, timing, x)
    requires x.Received? || x.ResultsClosed?
    requires x.Received? ==> waiting[x.i].Items? && after == Without(waiting, x.i)
    requires x.ResultsClosed? ==> after == waiting
    ensures LeadsOn(replies, timing, rs + [x], after, n - 1)
  {
    forall more, end | IsReading(after, n - 1, timing, more, end)
      ensures IsReading(replies, |replies|, timing, rs + [x] + more, end)
    {
      assert ([x] + more)[1..] == more;
      assert IsReading(waiting, n, timing, [x] + more, end);
      assert rs + [x] + more == rs + ([x] + more);
    }
  }

  lemma LeadsToEnd<T>(replies: seq<Reply<T>>, timing: Timing, rs: seq<Receipt>, waiting: seq<Reply<T>>, n: nat,
          last: seq<Receipt>, end: End)
    requires LeadsOn(replies, timing, rs, waiting, n) && IsReading(waiting, n, timing, last, end)
    ensures IsReading(replies, |replies|, timing, rs + last, end)
  {}

  /** How an outcome ends a reading. */
  function EndOf<T>(r: Outcome<T>): End {
    match r
    case Answered(_) => AllRead
    case Failed => ErrorRead
    case Cancelled => ContextRead
    case Nothing => NothingRead
  }

  /**
   * Read as many times as there are replies, sort by score and cut: a reading, in whatever order the replies arrive.
   * If it is prompt and not cancelled, an error is answered exactly if there is one, and otherwise the k nearest of
   * everything. What is answered without an error is always the k nearest of what did not fail.
   */
  method Collect<T(!new)>(replies: seq<Reply<T>>, k: nat, timing: Timing, ghost sources: seq<multiset<Item<T>>>)
    returns (r: Outcome<T>, ghost rs: seq<Receipt>)
    requires RepliesFrom(replies, sources, k)
    ensures IsReading(replies, |replies|, timing, rs, EndOf(r))
    ensures r.Answered? ==> InOrder(false, r.items) && IsNearest(Heard(replies, sources), k, multiset(r.items))
    ensures r.Failed? ==> HasFailure(replies)
    ensures r.Cancelled? ==> timing.cancelled && replies != []
    ensures r.Nothing? ==> !timing.prompt && !HasFailure(replies) && replies != []
    ensures timing.prompt && !timing.cancelled ==> (r.Failed? <==> HasFailure(replies))
    ensures timing.prompt && r.Answered? ==> !HasFailure(replies)
  {
    hide Collected, InOrder, IsNearest, Suffices, Heard, LeadsOn, CanReceive;
    var result: seq<Item<T>>, waiting := [], replies;
    ghost var left: seq<multiset<Item<T>>>, arrived: multiset<Item<T>> := sources, multiset{};
    rs := [];
    CollectedStart(replies, sources, k, timing);
    LeadsOnStart(replies, timing);
    for i := 0 to |replies|
      invariant Collected(replies, sources, k, timing, i, result, waiting, left, arrived)
      invariant LeadsOn(replies, timing, rs, waiting, |replies| - i)
    {
      CanStillReceive(replies, sources, k, timing, i, result, waiting, left, arrived);
      var receipt :| CanReceive(waiting, timing, receipt);
      ReceiptFacts(waiting, timing, receipt);
      if receipt.ErrorsClosed? || receipt.ContextDone? || (receipt.Received? && waiting[receipt.i].Failure?) {
        r := if receipt.ErrorsClosed? then Nothing else if receipt.ContextDone? then Cancelled else Failed;
        LeadsToEnd(replies, timing, rs, waiting, |replies| - i, [receipt], EndOf(r));
        rs := rs + [receipt];
        return;
      }
      if receipt.Received? {
        var j := receipt.i;
        CollectedNext(replies, sources, k, timing, i, result, waiting, left, arrived, j);
        LeadsOnNext(replies, timing, rs, waiting, |replies| - i, receipt, Without(waiting, j));
        result := result + waiting[j].items;
        waiting, arrived, left := Without(waiting, j), arrived + left[j], Without(left, j);
      } else {
        StillCollected(replies, sources, k, timing, i, result, waiting, left, arrived);
        LeadsOnNext(replies, timing, rs, waiting, |replies| - i, receipt, waiting);
      }
      rs := rs + [receipt];
    }
    CollectedEnd(replies, sources, k, timing, result, waiting, left, arrived);
    LeadsToEnd(replies, timing, rs, waiting, 0, [], AllRead);
    assert rs + [] == rs;
    var sorted := SortAndCut(result, k);
    NearestOfSufficient(arrived, k, multiset(result), multiset(sorted));
    r := Answered(sorted);
  }
}
