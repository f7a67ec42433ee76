/** The telemetry queue of the browser: events collect, leave in batches, and come back when a POST fails.  The class
    below is the queue with the network beside it.  Its methods are proved to make the moves of a state machine
    (`Send`, `Sync`, `Succeed`, `Fail`), and the promises are about every run of that machine. */
module Telemetry {

  datatype Event = Event(eid: string, id: int)

  function Upper(c: char): char
  {
    if 'a' <= c <= 'z' then c - 'a' + 'A' else c
  }

  predicate IsEnd(e: Event)
  {
    |e.eid| == 3 && Upper(e.eid[0]) == 'E' && Upper(e.eid[1]) == 'N' && Upper(e.eid[2]) == 'D'
  }

  // The queue, the batches of unanswered POSTs, the acknowledged batches and every batch posted, in order.
  datatype State = State(queue: seq<Event>, inFlight: seq<seq<Event>>, acknowledged: seq<seq<Event>>,
                         posted: seq<seq<Event>>)

  datatype Action = Send(event: Event) | Sync | Succeed(k: nat) | Fail(k: nat)

  const EMPTY: State := State([], [], [], [])

  function Min(a: nat, b: nat): nat
  {
    if a < b then a else b
  }

  // syncEvents: the first batch leaves the queue, be it empty.
  function SyncOf(s: State, size: nat): State
  {
    var n := Min(size, |s.queue|);
    State(s.queue[n..], s.inFlight + [s.queue[..n]], s.acknowledged, s.posted + [s.queue[..n]])
  }

  function SendOf(s: State, e: Event, size: nat): State
  {
    var s' := s.(queue := s.queue + [e]);
    if IsEnd(e) || |s'.queue| >= size then SyncOf(s', size) else s'
  }

  function Without<T>(s: seq<T>, k: nat): seq<T>
    requires k < |s|
  {
    s[..k] + s[k + 1..]
  }

  // The answer to POST k, whichever of the unanswered ones that is.
  function Step(s: State, a: Action, size: nat): State
  {
    match a
    case Send(e) => SendOf(s, e, size)
    case Sync => SyncOf(s, size)
    case Succeed(k) =>
      if k < |s.inFlight| then
        s.(inFlight := Without(s.inFlight, k), acknowledged := s.acknowledged + [s.inFlight[k]])
      else s
    case Fail(k) =>
      if k < |s.inFlight| then
        s.(inFlight := Without(s.inFlight, k), queue := s.queue + s.inFlight[k])
      else s
  }

  /** An answer concerns its own batch only, whichever of those in flight that is: it leaves the network, to be
      acknowledged or to return to the end of the queue with its events in order, and the others stay in order. */
  lemma AnswerReachesItsBatch(s: State, front: seq<seq<Event>>, batch: seq<Event>, back: seq<seq<Event>>, size: nat)
    requires s.inFlight == front + [batch] + back
    ensures Step(s, Succeed(|front|), size) ==
      State(s.queue, front + back, s.acknowledged + [batch], s.posted)
    ensures Step(s, Fail(|front|), size) == State(s.queue + batch, front + back, s.acknowledged, s.posted)
  {
    var k := |front|;
    assert s.inFlight[k] == batch && s.inFlight[..k] == front && s.inFlight[k + 1..] == back;
  }

  /** Sending posts a batch if and only if the event is an END or completes a batch; until then it only queues. */
  lemma SendPosts(s: State, e: Event, size: nat)
    ensures var t := Step(s, Send(e), size);
      if IsEnd(e) || |s.queue| + 1 >= size then
        |t.posted| == |s.posted| + 1 && t.posted[|s.posted|] + t.queue == s.queue + [e]
        && (t.queue != [] ==> |t.posted[|s.posted|]| == size)
      else t == s.(queue := s.queue + [e])
  {
    var q := s.queue + [e];
    assert q[..Min(size, |q|)] + q[Min(size, |q|)..] == q;
  }

  /** The eid is compared without regard to case. */
  lemma EndSpellings(e: Event)
    ensures IsEnd(e) <==> e.eid in ["END", "ENd", "EnD", "End", "eND", "eNd", "enD", "end"]
  {
    if |e.eid| == 3 {
      assert e.eid == [e.eid[0], e.eid[1], e.eid[2]];
    }
  }

  // ---------------------------------------------------------------- the code

  class TelemetrySyncManager {
    var teleData: seq<Event>
    // The outside world: what the network holds and has answered.
    var inFlight: seq<seq<Event>>
    var acknowledged: seq<seq<Event>>
    var posted: seq<seq<Event>>

    ghost function Contents(): State
      reads this
    {
      State(teleData, inFlight, acknowledged, posted)
    }

    constructor ()
      ensures Contents() == EMPTY
    {
      teleData, inFlight, acknowledged, posted := [], [], [], [];
    }

    method SyncEvents(batchsize: nat)
      modifies this
      ensures Contents() == SyncOf(old(Contents()), batchsize)
    {
      var n := Min(batchsize, |teleData|);
      var telemetryData := teleData[..n];
      teleData := teleData[n..];
      inFlight := inFlight + [telemetryData];
      posted := posted + [telemetryData];
    }

    method SendTelemetry(event: Event, batchsize: nat)
      modifies this
      ensures Contents() == Step(old(Contents()), Send(event), batchsize)
    {
      teleData := teleData + [event];
      if IsEnd(event) || |teleData| >= batchsize {
        SyncEvents(batchsize);
      }
    }

    method UpdateEventStack(events: seq<Event>)
      modifies this`teleData
      ensures teleData == old(teleData) + events
    {
      teleData := teleData + events;
    }

    // The done callback of POST k.
    method PostDone(k: nat)
      requires k < |inFlight|
      modifies this
      ensures Contents() == Step(old(Contents()), Succeed(k), 0)
    {
      acknowledged := acknowledged + [inFlight[k]];
      inFlight := Without(inFlight, k);
    }

    // The fail callback of POST k.
    method PostFailed(k: nat)
      requires k < |inFlight|
      modifies this
      ensures Contents() == Step(old(Contents()), Fail(k), 0)
    {
      UpdateEventStack(inFlight[k]);
      inFlight := Without(inFlight, k);
    }
  }

  // ---------------------------------------------------------------- runs

  // A run with the batch size that is configured at each action.
  function Run(s: State, actions: seq<Action>, sizes: seq<nat>): State
    requires |actions| == |sizes|
    decreases |actions|
  {
    if actions == [] then s
    else
      var n := |actions| - 1;
      Step(Run(s, actions[..n], sizes[..n]), actions[n], sizes[n])
  }

  function Sent(actions: seq<Action>): seq<Event>
  {
    if actions == [] then []
    else
      var n := |actions| - 1;
      Sent(actions[..n]) + if actions[n].Send? then [actions[n].event] else []
  }

  function All(batches: seq<seq<Event>>): seq<Event>
  {
    if batches == [] then [] else All(batches[..|batches| - 1]) + batches[|batches| - 1]
  }

  ghost function Bag(batches: seq<seq<Event>>): multiset<Event>
  {
    if batches == [] then multiset{} else multiset(batches[0]) + Bag(batches[1..])
  }

  lemma {:induction false} BagAppend(x: seq<seq<Event>>, y: seq<seq<Event>>)
    ensures Bag(x + y) == Bag(x) + Bag(y)
  {
    if x == [] {
      assert x + y == y;
    } else {
      assert (x + y)[1..] == x[1..] + y;
      BagAppend(x[1..], y);
    }
  }

  lemma BagOne(b: seq<Event>)
    ensures Bag([b]) == multiset(b)
  {
    assert Bag([b][1..]) == multiset{};
  }

  lemma BagWithout(x: seq<seq<Event>>, k: nat)
    requires k < |x|
    ensures Bag(x) == Bag(Without(x, k)) + multiset(x[k])
  {
    hide Bag;
    var before, batch, after := x[..k], x[k], x[k + 1..];
    assert x == before + ([batch] + after);
    BagAppend(before, [batch] + after);
    BagAppend([batch], after);
    BagAppend(before, after);
    BagOne(batch);
  }

  // Everything the state holds.
  ghost function Held(s: State): multiset<Event>
  {
    multiset(s.queue) + Bag(s.inFlight) + Bag(s.acknowledged)
  }

  lemma SyncHolds(s: State, size: nat)
    ensures Held(SyncOf(s, size)) == Held(s)
  {
    var n := Min(size, |s.queue|);
    assert s.queue == s.queue[..n] + s.queue[n..];
    BagAppend(s.inFlight, [s.queue[..n]]);
    BagOne(s.queue[..n]);
  }

  lemma AnswerHolds(s: State, k: nat, size: nat)
    requires k < |s.inFlight|
    ensures Held(Step(s, Succeed(k), size)) == Held(s)
    ensures Held(Step(s, Fail(k), size)) == Held(s)
  {
    hide Bag, Without;
    BagWithout(s.inFlight, k);
    BagAppend(s.acknowledged, [s.inFlight[k]]);
    BagOne(s.inFlight[k]);
  }

  // A step adds the event it sends and neither loses nor doubles any other.
  lemma StepConserves(s: State, a: Action, size: nat)
    ensures Held(Step(s, a, size)) == Held(s) + if a.Send? then multiset{a.event} else multiset{}
  {
    match a
    case Send(e) =>
      var s' := s.(queue := s.queue + [e]);
      SyncHolds(s', size);
      assert Held(s') == Held(s) + multiset{e};
    case Sync => SyncHolds(s, size);
    case Succeed(k) => if k < |s.inFlight| { AnswerHolds(s, k, size); }
    case Fail(k) => if k < |s.inFlight| { AnswerHolds(s, k, size); }
  }

  /** In every run, with whatever answers and batch sizes, the events sent are the events queued, in flight or
      acknowledged. */
  lemma {:induction false} Conservation(actions: seq<Action>, sizes: seq<nat>)
    requires |actions| == |sizes|
    ensures Held(Run(EMPTY, actions, sizes)) == multiset(Sent(actions))
    decreases |actions|
  {
    if actions != [] {
      var n := |actions| - 1;
      Conservation(actions[..n], sizes[..n]);
      StepConserves(Run(EMPTY, actions[..n], sizes[..n]), actions[n], sizes[n]);
    } else {
      assert Bag([]) == multiset{};
    }
  }

  /** No batch is larger than the batch size it was cut with. */
  lemma {:induction false} BatchesBounded(actions: seq<Action>, sizes: seq<nat>, limit: nat)
    requires |actions| == |sizes| && forall i :: 0 <= i < |sizes| ==> sizes[i] <= limit
    ensures forall b :: b in Run(EMPTY, actions, sizes).posted ==> |b| <= limit
    decreases |actions|
  {
    if actions != [] {
      var n := |actions| - 1;
      BatchesBounded(actions[..n], sizes[..n], limit);
    }
  }

  // ---------------------------------------------------------------- runs without failures

  ghost predicate NoFailures(actions: seq<Action>)
  {
    forall i :: 0 <= i < |actions| ==> !actions[i].Fail?
  }

  lemma AllAppend(batches: seq<seq<Event>>, b: seq<Event>)
    ensures All(batches + [b]) == All(batches) + b
  {
    assert (batches + [b])[..|batches|] == batches;
  }

  lemma SyncKeepsOrder(s: State, size: nat)
    ensures All(SyncOf(s, size).posted) + SyncOf(s, size).queue == All(s.posted) + s.queue
  {
    var n := Min(size, |s.queue|);
    AllAppend(s.posted, s.queue[..n]);
    assert s.queue == s.queue[..n] + s.queue[n..];
  }

  // Posted events in front of queued ones.
  function InOrder(s: State): seq<Event>
  {
    All(s.posted) + s.queue
  }

  lemma StepKeepsOrder(s: State, a: Action, size: nat)
    requires !a.Fail?
    ensures InOrder(Step(s, a, size)) == InOrder(s) + if a.Send? then [a.event] else []
  {
    hide SyncOf, All;
    match a
    case Send(e) =>
      var s' := s.(queue := s.queue + [e]);
      SyncKeepsOrder(s', size);
      assert InOrder(s') == InOrder(s) + [e];
    case Sync => SyncKeepsOrder(s, size);
    case Succeed(_) =>
  }

  /** Without failures the batches carry the events in the order in which they were sent, and the queue holds the
      rest. */
  lemma {:induction false} FirstInFirstOut(actions: seq<Action>, sizes: seq<nat>)
    requires |actions| == |sizes| && NoFailures(actions)
    ensures InOrder(Run(EMPTY, actions, sizes)) == Sent(actions)
    decreases |actions|
  {
    if actions == [] {
      assert All([]) == [];
    } else {
      hide Step, InOrder;
      var n := |actions| - 1;
      FirstInFirstOut(actions[..n], sizes[..n]);
      StepKeepsOrder(Run(EMPTY, actions[..n], sizes[..n]), actions[n], sizes[n]);
    }
  }

  /** Without failures and with one batch size, at least 1, fewer events than that wait after every action, and none
      after an END. */
  lemma {:induction false} QueueStaysShort(actions: seq<Action>, sizes: seq<nat>, size: nat)
    requires |actions| == |sizes| && NoFailures(actions) && size >= 1
    requires forall i :: 0 <= i < |sizes| ==> sizes[i] == size
    ensures |Run(EMPTY, actions, sizes).queue| < size
    ensures actions != [] && actions[|actions| - 1].Send? && IsEnd(actions[|actions| - 1].event)
      ==> Run(EMPTY, actions, sizes).queue == []
    decreases |actions|
  {
    if actions != [] {
      var n := |actions| - 1;
      QueueStaysShort(actions[..n], sizes[..n], size);
    }
  }

  /** In general, failures and changed batch sizes included, an END empties the queue exactly when the queue with it
      fits one batch. */
  lemma EndEmptiesQueue(s: State, e: Event, size: nat)
    requires IsEnd(e)
    ensures SendOf(s, e, size).queue == [] <==> |s.queue| + 1 <= size
    ensures |SendOf(s, e, size).queue| == |s.queue| + 1 - Min(size, |s.queue| + 1)
  {
  }

  const PLAIN: Event := Event("IMPRESSION", 0)
  const LAST: Event := Event("END", 1)

  const LEAVING: seq<Action> := [Send(PLAIN), Sync, Send(PLAIN), Send(PLAIN), Fail(0), Fail(0), Send(LAST)]

  /** A run that reaches such a state: with batches of two, two failed POSTs return three events to the queue, and an
      END leaves two of the four behind. */
  lemma EndLeavesEvents()
    ensures Run(EMPTY, LEAVING, seq(7, _ => 2)).queue == [PLAIN, LAST]
  {
    hide Run, Step;
    var a, z := LEAVING, seq(7, _ => 2);
    assert a[0] == a[2] == a[3] == Send(PLAIN) && a[1] == Sync && a[4] == a[5] == Fail(0) && a[6] == Send(LAST);
    var one, two := [PLAIN], [PLAIN, PLAIN];
    assert [] + one == one && one + one == two && [] + [one] == [one] && [one] + [two] == [one, two];
    assert [one, two][1..] == [two] && [two][1..] == [];
    NothingYet(a, z);
    RunStep(a, z, 0);
    SendWaits(EMPTY, PLAIN, 2);
    assert Run(EMPTY, a[..1], z[..1]) == State(one, [], [], []);
    RunStep(a, z, 1);
    SyncTakesAll(State(one, [], [], []), 2);
    assert Run(EMPTY, a[..2], z[..2]) == State([], [one], [], [one]);
    RunStep(a, z, 2);
    SendWaits(State([], [one], [], [one]), PLAIN, 2);
    assert Run(EMPTY, a[..3], z[..3]) == State(one, [one], [], [one]);
    RunStep(a, z, 3);
    SendTakesAll(State(one, [one], [], [one]), PLAIN, 2);
    assert Run(EMPTY, a[..4], z[..4]) == State([], [one, two], [], [one, two]);
    RunStep(a, z, 4);
    FirstFails(State([], [one, two], [], [one, two]), 2);
    assert Run(EMPTY, a[..5], z[..5]) == State(one, [two], [], [one, two]);
    RunStep(a, z, 5);
    FirstFails(State(one, [two], [], [one, two]), 2);
    assert Run(EMPTY, a[..6], z[..6]) == State(one + two, [], [], [one, two]);
    RunStep(a, z, 6);
    EndOfFour(State(one + two, [], [], [one, two]));
    assert a[..7] == a && z[..7] == z;
  }

  lemma SendWaits(s: State, e: Event, size: nat)
    requires !IsEnd(e) && |s.queue| + 1 < size
    ensures Step(s, Send(e), size) == s.(queue := s.queue + [e])
  {
  }

  lemma SyncTakesAll(s: State, size: nat)
    requires |s.queue| <= size
    ensures Step(s, Sync, size) == State([], s.inFlight + [s.queue], s.acknowledged, s.posted + [s.queue])
  {
    assert s.queue[..|s.queue|] == s.queue;
  }

  lemma SendTakesAll(s: State, e: Event, size: nat)
    requires |s.queue| + 1 == size
    ensures Step(s, Send(e), size)
      == State([], s.inFlight + [s.queue + [e]], s.acknowledged, s.posted + [s.queue + [e]])
  {
    assert (s.queue + [e])[..size] == s.queue + [e];
  }

  lemma FirstFails(s: State, size: nat)
    requires s.inFlight != []
    ensures Step(s, Fail(0), size) == s.(inFlight := s.inFlight[1..], queue := s.queue + s.inFlight[0])
  {
    assert Without(s.inFlight, 0) == s.inFlight[1..];
  }

  lemma EndOfFour(s: State)
    requires s.queue == [PLAIN, PLAIN, PLAIN]
    ensures Step(s, Send(LAST), 2).queue == [PLAIN, LAST]
  {
    assert (s.queue + [LAST])[2..] == [PLAIN, LAST];
  }

  lemma NothingYet(actions: seq<Action>, sizes: seq<nat>)
    requires |actions| == |sizes|
    ensures Run(EMPTY, actions[..0], sizes[..0]) == EMPTY
  {
  }

  lemma RunStep(actions: seq<Action>, sizes: seq<nat>, n: nat)
    requires |actions| == |sizes| && n < |actions|
    ensures Run(EMPTY, actions[..n + 1], sizes[..n + 1])
      == Step(Run(EMPTY, actions[..n], sizes[..n]), actions[n], sizes[n])
  {
    hide Step;
    assert actions[..n + 1][..n] == actions[..n] && sizes[..n + 1][..n] == sizes[..n];
  }
}
