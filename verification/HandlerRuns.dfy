/**
 What every run of the scheduler keeps: queue order, how often a delayed event is delivered, and how
 far the moment of its delivery can be from the delay that was asked for.
 */
module HandlerRuns {
  import opened Basics
  import opened Clock
  import opened Handler

  function Run(ops: seq<Op>): State {
    RunFrom(INITIAL, ops)
  }

  // ----- order and conservation -----

  lemma StepConserves(s: State, op: Op)
    requires !op.Terminate?
    ensures DispatchedBy(s, op) + Step(s, op).queue == s.queue + PushedBy(s, op)
  {
  }

  lemma QueueMovesOn<T>(done: seq<T>, now: seq<T>, queue: seq<T>, queue': seq<T>, pushed: seq<T>, news: seq<T>)
    requires done + queue == pushed && now + queue' == queue + news
    ensures (done + now) + queue' == pushed + news
  {
    assert (done + now) + queue' == done + (now + queue');
    assert done + (queue + news) == (done + queue) + news;
  }

  /** Until termination nothing pushed is dropped, duplicated or reordered. */
  lemma {:induction false} FifoConservation(ops: seq<Op>)
    requires NoTerminate(ops)
    ensures DispatchedFrom(INITIAL, ops) + Run(ops).queue == PushedFrom(INITIAL, ops)
  {
    if ops != [] {
      var before, op := ops[..|ops| - 1], ops[|ops| - 1];
      FifoConservation(before);
      StepConserves(Run(before), op);
      QueueMovesOn(DispatchedFrom(INITIAL, before), DispatchedBy(Run(before), op), Run(before).queue, Run(ops).queue,
        PushedFrom(INITIAL, before), PushedBy(Run(before), op));
    }
  }

  /** The same from any state: what was queued comes first. */
  lemma {:induction false} FifoFrom(s: State, ops: seq<Op>)
    requires NoTerminate(ops)
    ensures DispatchedFrom(s, ops) + RunFrom(s, ops).queue == s.queue + PushedFrom(s, ops)
  {
    if ops != [] {
      var before, op := ops[..|ops| - 1], ops[|ops| - 1];
      FifoFrom(s, before);
      StepConserves(RunFrom(s, before), op);
      QueueMovesOn(DispatchedFrom(s, before), DispatchedBy(RunFrom(s, before), op), RunFrom(s, before).queue,
        RunFrom(s, ops).queue, s.queue + PushedFrom(s, before), PushedBy(RunFrom(s, before), op));
      Regroup(s.queue, PushedFrom(s, before), PushedBy(RunFrom(s, before), op));
    } else {
      assert [] + s.queue == s.queue && s.queue + [] == s.queue;
    }
  }

  /**
   Terminate drops everything that is queued or delayed, and stops the loop: whatever is dispatched behind it
   was pushed behind it.
   */
  lemma TerminateDropsAll(ops: seq<Op>, more: seq<Op>)
    requires NoTerminate(more)
    ensures var s := Run(ops + [Terminate]);
      && !s.process && s.queue == [] && s.delayed == []
      && DispatchedFrom(s, more) + RunFrom(s, more).queue == PushedFrom(s, more)
      && !RunFrom(s, more).process
  {
    var s := Run(ops + [Terminate]);
    assert (ops + [Terminate])[..|ops|] == ops;
    hide RunFrom, DispatchedFrom, PushedFrom;
    FifoFrom(s, more);
    StaysStopped(s, more);
    assert s.queue + PushedFrom(s, more) == PushedFrom(s, more);
  }

  lemma {:induction false} StaysStopped(s: State, ops: seq<Op>)
    requires !s.process
    ensures !RunFrom(s, ops).process
  {
    if ops != [] {
      StaysStopped(s, ops[..|ops| - 1]);
    }
  }

  // ----- the turns of the worker -----

  /** What the main thread pushes directly, in order. */
  function Direct(arrivals: seq<Arrival>): seq<Event> {
    if arrivals == [] then []
    else
      var last := arrivals[|arrivals| - 1];
      Direct(arrivals[..|arrivals| - 1]) + (if last.Push? then [last.event] else [])
  }

  /** What the main thread adds to the delayed list, in order. */
  function Postponed(arrivals: seq<Arrival>): seq<(Event, nat, Timeval)> {
    if arrivals == [] then []
    else
      var last := arrivals[|arrivals| - 1];
      Postponed(arrivals[..|arrivals| - 1]) +
        (if last.PushDelayed? then [(last.delayedEvent, last.delay, last.now)] else [])
  }

  ghost predicate NoStop(arrivals: seq<Arrival>) {
    forall i :: 0 <= i < |arrivals| ==> !arrivals[i].Stop?
  }

  ghost predicate NoStops(turns: seq<Turn>) {
    forall i :: 0 <= i < |turns| ==> NoStop(turns[i].before) && NoStop(turns[i].after)
  }

  /** The delayed list with these events behind it, in the state they were added in. */
  ghost predicate Adds(list: seq<DelayedEvent>, more: seq<(Event, nat, Timeval)>, list': seq<DelayedEvent>) {
    && |list'| == |list| + |more| && list'[..|list|] == list
    && forall k :: 0 <= k < |more| ==>
         var e := list'[|list| + k]; e.event == more[k].0 && e.msDelay == more[k].1 && e.updated == more[k].2
  }

  lemma LastArrival(arrivals: seq<Arrival>)
    requires arrivals != [] && NoStop(arrivals)
    ensures var front, last := arrivals[..|arrivals| - 1], arrivals[|arrivals| - 1];
      && NoStop(front) && !last.Stop?
      && ArrivalOps(arrivals) == ArrivalOps(front) + [ArrivalOp(last)]
      && Direct(arrivals) == Direct(front) + (if last.Push? then [last.event] else [])
      && Postponed(arrivals) ==
           Postponed(front) + (if last.PushDelayed? then [(last.delayedEvent, last.delay, last.now)] else [])
  {
  }

  lemma NoArrival(s: State)
    ensures var ops := ArrivalOps([]);
      && NoTerminate(ops) && DispatchedFrom(s, ops) == [] && PushedFrom(s, ops) == Direct([])
      && RunFrom(s, ops).queue == s.queue + Direct([])
      && Adds(s.delayed, Postponed([]), RunFrom(s, ops).delayed)
  {
    assert s.queue + [] == s.queue;
  }

  /** Arrivals reach the two queues as they are, and nothing is dispatched meanwhile. */
  lemma {:induction false} ArrivalsArrive(s: State, arrivals: seq<Arrival>)
    requires NoStop(arrivals)
    ensures var ops := ArrivalOps(arrivals);
      && NoTerminate(ops) && DispatchedFrom(s, ops) == [] && PushedFrom(s, ops) == Direct(arrivals)
      && RunFrom(s, ops).queue == s.queue + Direct(arrivals)
      && Adds(s.delayed, Postponed(arrivals), RunFrom(s, ops).delayed)
  {
    hide RunFrom, DispatchedFrom, PushedFrom, Adds, NoTerminate, ArrivalOps, Direct, Postponed, NoStop;
    if arrivals == [] {
      NoArrival(s);
    } else {
      var front, last := arrivals[..|arrivals| - 1], arrivals[|arrivals| - 1];
      var s1 := RunFrom(s, ArrivalOps(front));
      LastArrival(arrivals);
      ArrivalsArrive(s, front);
      OneArrives(s, ArrivalOps(front), last);
      Regroup(s.queue, Direct(front), if last.Push? then [last.event] else []);
      AddsMore(s.delayed, Postponed(front), s1.delayed, last, s1.nextNode);
    }
  }

  lemma OneArrives(s: State, before: seq<Op>, a: Arrival)
    requires !a.Stop? && NoTerminate(before)
    ensures var ops, s1 := before + [ArrivalOp(a)], RunFrom(s, before);
      && NoTerminate(ops)
      && DispatchedFrom(s, ops) == DispatchedFrom(s, before)
      && PushedFrom(s, ops) == PushedFrom(s, before) + (if a.Push? then [a.event] else [])
      && RunFrom(s, ops).queue == s1.queue + (if a.Push? then [a.event] else [])
      && RunFrom(s, ops).delayed ==
           s1.delayed + (if a.PushDelayed? then [DelayedEvent(s1.nextNode, a.delayedEvent, a.delay, a.now)] else [])
  {
    var ops := before + [ArrivalOp(a)];
    assert ops[..|ops| - 1] == before;
    var s1 := RunFrom(s, before);
    assert DispatchedFrom(s, before) + [] == DispatchedFrom(s, before);
    assert s1.queue + [] == s1.queue && s1.delayed + [] == s1.delayed;
  }

  lemma AddsMore(list: seq<DelayedEvent>, more: seq<(Event, nat, Timeval)>, list': seq<DelayedEvent>, a: Arrival,
                 node: nat)
    requires Adds(list, more, list')
    ensures Adds(list, more + (if a.PushDelayed? then [(a.delayedEvent, a.delay, a.now)] else []),
      list' + (if a.PushDelayed? then [DelayedEvent(node, a.delayedEvent, a.delay, a.now)] else []))
  {
    assert more + [] == more && list' + [] == list';
  }

  lemma FourParts(s: State, a: seq<Op>, p: seq<Op>, b: seq<Op>, d: seq<Op>)
    ensures var s1 := RunFrom(s, a);
      var s2 := RunFrom(s1, p);
      var s3 := RunFrom(s2, b);
      && PushedFrom(s, a + p + b + d) ==
           PushedFrom(s, a) + PushedFrom(s1, p) + PushedFrom(s2, b) + PushedFrom(s3, d)
      && DispatchedFrom(s, a + p + b + d) ==
           DispatchedFrom(s, a) + DispatchedFrom(s1, p) + DispatchedFrom(s2, b) + DispatchedFrom(s3, d)
  {
    hide RunFrom, DispatchedFrom, PushedFrom;
    PushedConcat(s, a, p);
    RunFromConcat(s, a, p);
    PushedConcat(s, a + p, b);
    RunFromConcat(s, a + p, b);
    PushedConcat(s, a + p + b, d);
    RunFromConcat(s, a + p + b, d);
  }

  /** The pass and the dispatch of a turn, and what arrives before and between. */
  lemma TurnStates(s: State, t: Turn) returns (s1: State, s2: State, s3: State)
    requires NoStop(t.before) && NoStop(t.after)
    ensures s1 == RunFrom(s, ArrivalOps(t.before)) && s1.queue == s.queue + Direct(t.before)
    ensures s2 == RunFrom(s1, [UpdateDelayed(t.clock)]) && s1.queue <= s2.queue
    ensures s3 == RunFrom(s2, ArrivalOps(t.after)) && s3.queue == s2.queue + Direct(t.after)
    ensures Adds(s.delayed, Postponed(t.before), s1.delayed)
  {
    hide Adds, RunFrom, DispatchedFrom, PushedFrom, Swept, Expired, Ticked, Events;
    s1 := RunFrom(s, ArrivalOps(t.before));
    ArrivalsArrive(s, t.before);
    s2 := RunFrom(s1, [UpdateDelayed(t.clock)]);
    OneStepRun(s1, UpdateDelayed(t.clock));
    s3 := RunFrom(s2, ArrivalOps(t.after));
    ArrivalsArrive(s2, t.after);
  }

  /** The expired events are those whose countdown is used up, in the order of the list; the others are the rest. */
  lemma {:induction false} ExpiredInOrder(a: seq<DelayedEvent>, e: DelayedEvent, b: seq<DelayedEvent>)
    ensures Expired(a + [e] + b) == Expired(a) + (if e.msDelay == 0 then [e] else []) + Expired(b)
    ensures Expired([]) == []
  {
    if b == [] {
      assert a + [e] + b == a + [e] && (a + [e])[..|a|] == a;
    } else {
      var front, last := b[..|b| - 1], b[|b| - 1];
      assert (a + [e] + b)[..|a + [e] + b| - 1] == a + [e] + front;
      ExpiredInOrder(a, e, front);
    }
  }

  /** One turn pushes what arrives, and between, what its pass finds expired; and it dispatches one event. */
  lemma TurnPushes(s: State, t: Turn) returns (list: seq<DelayedEvent>)
    requires NoStop(t.before) && NoStop(t.after)
    ensures Adds(s.delayed, Postponed(t.before), list)
    ensures PushedFrom(s, TurnOps(t)) == Direct(t.before) + Events(Expired(Ticked(list, t.clock))) + Direct(t.after)
    ensures s.queue != [] ==> DispatchedFrom(s, TurnOps(t)) == [s.queue[0]]
  {
    hide Adds, Events, Expired, Ticked, Swept, RunFrom, DispatchedFrom, PushedFrom;
    var s1, s2, s3 := TurnStates(s, t);
    list := s1.delayed;
    ArrivalsArrive(s, t.before);
    ArrivalsArrive(s2, t.after);
    OneStepRun(s1, UpdateDelayed(t.clock));
    OneStepRun(s3, Dispatch);
    FourParts(s, ArrivalOps(t.before), [UpdateDelayed(t.clock)], ArrivalOps(t.after), [Dispatch]);
    var pushed := Direct(t.before) + Events(Expired(Ticked(list, t.clock))) + Direct(t.after);
    assert pushed + [] == pushed;
    if s.queue != [] {
      assert s3.queue[0] == s.queue[0];
      assert [] + [] + [] + [s.queue[0]] == [s.queue[0]];
    }
  }

  lemma TurnWithoutStop(t: Turn)
    requires NoStop(t.before) && NoStop(t.after)
    ensures NoTerminate(TurnOps(t))
  {
  }

  lemma OneStepRun(s: State, op: Op)
    ensures RunFrom(s, [op]) == Step(s, op)
    ensures DispatchedFrom(s, [op]) == DispatchedBy(s, op) && PushedFrom(s, [op]) == PushedBy(s, op)
  {
    assert [op][..0] == [];
    hide Step, DispatchedBy, PushedBy;
  }

  lemma PushedSnoc(s: State, ops: seq<Op>, op: Op)
    ensures PushedFrom(s, ops + [op]) == PushedFrom(s, ops) + PushedBy(RunFrom(s, ops), op)
  {
    hide PushedBy, RunFrom;
    assert (ops + [op])[..|ops|] == ops;
  }

  lemma {:induction false} PushedConcat(s: State, a: seq<Op>, b: seq<Op>)
    ensures PushedFrom(s, a + b) == PushedFrom(s, a) + PushedFrom(RunFrom(s, a), b)
  {
    if b == [] {
      assert a + b == a;
    } else {
      hide PushedBy, RunFrom, PushedFrom;
      var front, op := b[..|b| - 1], b[|b| - 1];
      assert a + b == (a + front) + [op] && b == front + [op];
      PushedConcat(s, a, front);
      RunFromConcat(s, a, front);
      PushedSnoc(s, a + front, op);
      PushedSnoc(RunFrom(s, a), front, op);
      Regroup(PushedFrom(s, a), PushedFrom(RunFrom(s, a), front), PushedBy(RunFrom(s, a + front), op));
    }
  }

  /** The worker serves what is queued in order, one event a turn, whatever arrives meanwhile. */
  lemma {:induction false} OneEventATurn(s: State, turns: seq<Turn>)
    requires NoStops(turns) && |turns| <= |s.queue|
    ensures NoTerminate(TurnsOps(turns)) && DispatchedFrom(s, TurnsOps(turns)) == s.queue[..|turns|]
  {
    hide RunFrom, DispatchedFrom, PushedFrom, TurnOps, NoStop;
    if turns == [] {
      NothingDone(s);
    } else {
      var n, front, last := |turns| - 1, turns[..|turns| - 1], turns[|turns| - 1];
      var s1 := RunFrom(s, TurnsOps(front));
      OneEventATurn(s, front);
      FifoFrom(s, TurnsOps(front));
      NextInLine(s.queue, n, s1.queue, PushedFrom(s, TurnsOps(front)));
      var _ := TurnPushes(s1, last);
      TurnWithoutStop(last);
      RunFromConcat(s, TurnsOps(front), TurnOps(last));
    }
  }

  lemma NothingDone(s: State)
    ensures DispatchedFrom(s, []) == []
  {
  }

  lemma NextInLine<T>(queue: seq<T>, n: nat, left: seq<T>, pushed: seq<T>)
    requires n < |queue| && queue[..n] + left == queue + pushed
    ensures left != [] && left[0] == queue[n] && queue[..n] + [left[0]] == queue[..n + 1]
  {
    assert (queue[..n] + left)[n] == left[0];
  }

  // ----- delivery of delayed events -----

  ghost predicate Holds(list: seq<DelayedEvent>, id: nat) {
    exists k :: 0 <= k < |list| && list[k].node == id
  }

  ghost predicate DistinctNodes(list: seq<DelayedEvent>) {
    forall i, j :: 0 <= i < j < |list| ==> list[i].node != list[j].node
  }

  /** This step counts the event in node `id` down to zero, or finds it there, and pushes it. */
  ghost predicate Delivers(s: State, op: Op, id: nat) {
    && op.UpdateDelayed?
    && exists k :: 0 <= k < |s.delayed| && s.delayed[k].node == id && Ticked(s.delayed, op.clock)[k].Execute()
  }

  /** In this pass the event in node `id` is second in the list, and both it and the head are expired. */
  ghost predicate SecondBehindExpiredHead(s: State, op: Op, id: nat) {
    && op.UpdateDelayed? && |s.delayed| >= 2 && s.delayed[1].node == id
    && Ticked(s.delayed, op.clock)[0].Execute() && Ticked(s.delayed, op.clock)[1].Execute()
  }

  ghost function Deliveries(ops: seq<Op>, id: nat): nat {
    if ops == [] then 0
    else
      var before := ops[..|ops| - 1];
      Deliveries(before, id) + (if Delivers(Run(before), ops[|ops| - 1], id) then 1 else 0)
  }

  /** In the pass that first delivered it, the event was second behind an expired head. */
  ghost predicate FirstDeliveredSecond(ops: seq<Op>, id: nat) {
    ops != [] &&
    var before := ops[..|ops| - 1];
    if Deliveries(before, id) > 0 then FirstDeliveredSecond(before, id)
    else SecondBehindExpiredHead(Run(before), ops[|ops| - 1], id)
  }

  /** What holds of each node between steps: only the head can be expired and already delivered. */
  ghost predicate Accounted(ops: seq<Op>, id: nat) {
    var s, n := Run(ops), Deliveries(ops, id);
    if !Holds(s.delayed, id) then n == (if FirstDeliveredSecond(ops, id) then 2 else 1)
    else if n == 0 then true
    else n == 1 && FirstDeliveredSecond(ops, id) && s.delayed[0].node == id && s.delayed[0].Execute()
  }

  lemma UnexpiredHolds(list: seq<DelayedEvent>, id: nat)
    ensures Holds(Unexpired(list), id) <==> exists k :: 0 <= k < |list| && list[k].node == id && !list[k].Execute()
  {
    var kept := Unexpired(list);
    hide Unexpired;
    if Holds(kept, id) {
      var j :| 0 <= j < |kept| && kept[j].node == id;
      assert kept[j] in kept;
    }
    if k :| 0 <= k < |list| && list[k].node == id && !list[k].Execute() {
      assert list[k] in kept;
    }
  }

  lemma {:induction false} UnexpiredDistinct(list: seq<DelayedEvent>)
    requires DistinctNodes(list)
    ensures DistinctNodes(Unexpired(list))
  {
    if list != [] {
      var kept := Unexpired(list[1..]);
      UnexpiredDistinct(list[1..]);
      forall j | 0 <= j < |kept|
        ensures kept[j].node != list[0].node
      {
        assert kept[j] in list[1..];
      }
    }
  }

  lemma HoldsCons(e: DelayedEvent, list: seq<DelayedEvent>, id: nat)
    ensures Holds([e] + list, id) <==> e.node == id || Holds(list, id)
  {
    var all := [e] + list;
    assert all[0] == e;
    if k :| 0 <= k < |list| && list[k].node == id {
      assert all[k + 1].node == id;
    }
  }

  lemma SweptNodesBehindHead(list: seq<DelayedEvent>, id: nat)
    requires DistinctNodes(list) && |list| >= 2 && list[0].Execute()
    ensures DistinctNodes(Swept(list)) && Swept(list)[0] == list[1]
    ensures Holds(Swept(list), id) <==>
      list[1].node == id || exists k :: 2 <= k < |list| && list[k].node == id && !list[k].Execute()
  {
    var tail := list[2..];
    var rest := Unexpired(tail);
    assert Swept(list) == [list[1]] + rest;
    hide Swept;
    HoldsCons(list[1], rest, id);
    UnexpiredHolds(tail, id);
    UnexpiredDistinct(tail);
    hide Unexpired;
    forall j | 0 <= j < |rest|
      ensures rest[j].node != list[1].node
    {
      assert rest[j] in tail;
    }
    if k :| 2 <= k < |list| && list[k].node == id && !list[k].Execute() {
      assert tail[k - 2] == list[k];
    }
  }

  /** The sweep keeps nodes distinct; a node survives it exactly when unexpired or second behind an expired head. */
  lemma SweptNodes(list: seq<DelayedEvent>, id: nat)
    requires DistinctNodes(list)
    ensures DistinctNodes(Swept(list))
    ensures Holds(Swept(list), id) <==>
      (exists k :: 0 <= k < |list| && list[k].node == id &&
        (!list[k].Execute() || (k == 1 && list[0].Execute())))
    ensures |list| >= 2 && list[0].Execute() ==> Swept(list)[0] == list[1]
  {
    if |list| >= 2 && list[0].Execute() {
      SweptNodesBehindHead(list, id);
    } else {
      UnexpiredHolds(list, id);
      UnexpiredDistinct(list);
    }
  }

  /** The sweep's result in the source's own terms: at most one expired event survives, and it is the head. */
  lemma OnlyTheHeadSurvivesExpired(list: seq<DelayedEvent>, k: nat)
    requires k < |Swept(list)| && Swept(list)[k].Execute()
    ensures k == 0 && |list| >= 2 && list[0].Execute() && list[1].Execute() && Swept(list)[0] == list[1]
  {
    assert Swept(list)[k] in Swept(list);
  }

  /** The nodes in the list are distinct and were handed out before. */
  ghost predicate NodesInOrder(s: State) {
    DistinctNodes(s.delayed) && forall k :: 0 <= k < |s.delayed| ==> s.delayed[k].node < s.nextNode
  }

  lemma PassKeepsNodes(s: State, op: Op)
    requires op.UpdateDelayed? && NodesInOrder(s)
    ensures NodesInOrder(Step(s, op))
  {
    var list := Ticked(s.delayed, op.clock);
    SweptNodes(list, 0);
    hide Swept;
    forall k | 0 <= k < |Swept(list)|
      ensures Swept(list)[k].node < s.nextNode
    {
      SweptNodes(list, Swept(list)[k].node);
    }
  }

  lemma OtherKeepsNodes(s: State, op: Op)
    requires !op.UpdateDelayed? && NodesInOrder(s)
    ensures NodesInOrder(Step(s, op))
  {
  }

  lemma {:induction false} NodesDistinct(ops: seq<Op>)
    requires NoTerminate(ops)
    ensures NodesInOrder(Run(ops))
  {
    if ops != [] {
      var before, op := ops[..|ops| - 1], ops[|ops| - 1];
      NodesDistinct(before);
      hide NodesInOrder, Step;
      if op.UpdateDelayed? {
        PassKeepsNodes(Run(before), op);
      } else {
        OtherKeepsNodes(Run(before), op);
      }
    }
  }

  /** A node not yet handed out is neither in the list nor delivered. */
  lemma {:induction false} NotYetAdded(ops: seq<Op>, id: nat)
    requires NoTerminate(ops) && id >= Run(ops).nextNode
    ensures Deliveries(ops, id) == 0 && !Holds(Run(ops).delayed, id)
  {
    NodesDistinct(ops);
    if ops != [] {
      NotYetAdded(ops[..|ops| - 1], id);
      assert !Delivers(Run(ops[..|ops| - 1]), ops[|ops| - 1], id);
    }
  }

  /** What one pass does with the node at position `k`. */
  lemma PassFate(s: State, op: Op, k: nat)
    requires op.UpdateDelayed? && DistinctNodes(s.delayed) && k < |s.delayed|
    ensures var id, list := s.delayed[k].node, Ticked(s.delayed, op.clock);
      && Holds(s.delayed, id)
      && (Delivers(s, op, id) <==> list[k].Execute())
      && (Holds(Step(s, op).delayed, id) <==> !list[k].Execute() || (k == 1 && list[0].Execute()))
      && (SecondBehindExpiredHead(s, op, id) <==> k == 1 && list[0].Execute() && list[1].Execute())
      && (k == 1 && list[0].Execute() ==> Step(s, op).delayed[0] == list[1])
  {
    var id, list := s.delayed[k].node, Ticked(s.delayed, op.clock);
    SweptNodes(list, id);
    hide Swept;
    assert list[k].node == id;
  }

  lemma PassFateAbsent(s: State, op: Op, id: nat)
    requires op.UpdateDelayed? && DistinctNodes(s.delayed) && !Holds(s.delayed, id)
    ensures !Delivers(s, op, id) && !Holds(Step(s, op).delayed, id)
  {
    var list := Ticked(s.delayed, op.clock);
    SweptNodes(list, id);
    hide Swept;
    assert forall k :: 0 <= k < |list| ==> list[k].node == s.delayed[k].node;
  }

  lemma AccountedByPass(before: seq<Op>, op: Op, id: nat)
    requires NoTerminate(before) && op.UpdateDelayed?
    requires id < Run(before).nextNode && Accounted(before, id)
    ensures Accounted(before + [op], id)
  {
    assert (before + [op])[..|before|] == before;
    NodesDistinct(before);
    var s := Run(before);
    assert Run(before + [op]) == Step(s, op);
    hide RunFrom, Step;
    if Holds(s.delayed, id) {
      var k :| 0 <= k < |s.delayed| && s.delayed[k].node == id;
      PassFate(s, op, k);
    } else {
      PassFateAbsent(s, op, id);
    }
  }

  lemma AccountedByOther(before: seq<Op>, op: Op, id: nat)
    requires NoTerminate(before) && !op.UpdateDelayed? && !op.Terminate?
    requires id < Step(Run(before), op).nextNode
    requires id < Run(before).nextNode ==> Accounted(before, id)
    ensures Accounted(before + [op], id)
  {
    var ops := before + [op];
    assert ops[..|ops| - 1] == before;
    var s := Run(before);
    if id == s.nextNode {
      NotYetAdded(before, id);
      assert Run(ops).delayed[|s.delayed|].node == id;
    } else {
      assert forall k :: 0 <= k < |s.delayed| ==> Run(ops).delayed[k] == s.delayed[k];
    }
  }

  lemma {:induction false} EveryNodeAccounted(ops: seq<Op>, id: nat)
    requires NoTerminate(ops) && id < Run(ops).nextNode
    ensures Accounted(ops, id)
  {
    if ops != [] {
      var before, op := ops[..|ops| - 1], ops[|ops| - 1];
      assert ops == before + [op];
      if id < Run(before).nextNode {
        EveryNodeAccounted(before, id);
      }
      if op.UpdateDelayed? {
        AccountedByPass(before, op, id);
      } else {
        AccountedByOther(before, op, id);
      }
    }
  }

  // ----- what is pushed -----

  /** The list elements whose events a step appends to the immediate queue. */
  function PushedNodes(s: State, op: Op): (r: seq<DelayedEvent>)
    ensures op.UpdateDelayed? ==> Events(r) == PushedBy(s, op)
  {
    if op.UpdateDelayed? then Expired(Ticked(s.delayed, op.clock)) else []
  }

  function CountNode(list: seq<DelayedEvent>, id: nat): nat {
    if list == [] then 0
    else CountNode(list[..|list| - 1], id) + (if list[|list| - 1].node == id then 1 else 0)
  }

  /** How often the event in node `id` was appended to the immediate queue. */
  ghost function Pushes(ops: seq<Op>, id: nat): nat {
    if ops == [] then 0
    else
      var before := ops[..|ops| - 1];
      Pushes(before, id) + CountNode(PushedNodes(Run(before), ops[|ops| - 1]), id)
  }

  lemma CountAppend(list: seq<DelayedEvent>, e: DelayedEvent, id: nat)
    ensures CountNode(list + [e], id) == CountNode(list, id) + (if e.node == id then 1 else 0)
  {
    assert (list + [e])[..|list|] == list;
  }

  /** Of a list of distinct nodes the expired elements with node `id` are one or none. */
  lemma {:induction false} CountExpired(list: seq<DelayedEvent>, id: nat)
    requires DistinctNodes(list)
    ensures CountNode(Expired(list), id) ==
      if exists k :: 0 <= k < |list| && list[k].node == id && list[k].Execute() then 1 else 0
  {
    if list != [] {
      var front, last := list[..|list| - 1], list[|list| - 1];
      CountExpired(front, id);
      CountAppend(Expired(front), last, id);
      assert Expired(front) + [] == Expired(front);
      hide Expired, CountNode;
      if k :| 0 <= k < |front| && front[k].node == id && front[k].Execute() {
        assert list[k].node == id && list[k].Execute();
      }
    }
  }

  /** The element a pass pushes is one or none, as `Delivers` tells. */
  lemma PushesOnce(s: State, op: Op, id: nat)
    requires DistinctNodes(s.delayed)
    ensures CountNode(PushedNodes(s, op), id) == if Delivers(s, op, id) then 1 else 0
  {
    if op.UpdateDelayed? {
      var list := Ticked(s.delayed, op.clock);
      assert forall k :: 0 <= k < |list| ==> list[k].node == s.delayed[k].node;
      CountExpired(list, id);
    }
  }

  lemma {:induction false} DeliveriesArePushes(ops: seq<Op>, id: nat)
    requires NoTerminate(ops)
    ensures Pushes(ops, id) == Deliveries(ops, id)
  {
    if ops != [] {
      var before, op := ops[..|ops| - 1], ops[|ops| - 1];
      DeliveriesArePushes(before, id);
      NodesDistinct(before);
      PushesOnce(Run(before), op, id);
      hide Run, PushedNodes, CountNode, Delivers;
    }
  }

  /**
   Delivery, over every run: an event that has left the list was appended to the queue once, or twice
   exactly when the pass that first appended it found it second behind an expired head; one still in the
   list was not, except that second event, which waits at the head for its second delivery.
   */
  lemma DeliveredOnceOrTwice(ops: seq<Op>, id: nat)
    requires NoTerminate(ops) && id < Run(ops).nextNode
    ensures var n, again := Pushes(ops, id), FirstDeliveredSecond(ops, id);
      && (!Holds(Run(ops).delayed, id) ==> n == (if again then 2 else 1))
      && (Holds(Run(ops).delayed, id) ==> n == (if again then 1 else 0))
  {
    DeliveriesArePushes(ops, id);
    EveryNodeAccounted(ops, id);
    if Deliveries(ops, id) == 0 {
      NeverDeliveredSecond(ops, id);
    }
  }

  lemma OneOpMore(ops: seq<Op>, op: Op, id: nat)
    ensures Run(ops + [op]) == Step(Run(ops), op)
    ensures Pushes(ops + [op], id) == Pushes(ops, id) + CountNode(PushedNodes(Run(ops), op), id)
  {
    hide Step, PushedNodes, CountNode;
    assert (ops + [op])[..|ops|] == ops;
  }

  /** A pass over two events that are due: both are pushed, and the second stays. */
  lemma BothDue(a: DelayedEvent, b: DelayedEvent, clock: nat -> Reading)
    requires a.Execute() && b.Execute()
    ensures var list := Ticked([a, b], clock);
      && Expired(list) == list && list[0].event == a.event && list[1].event == b.event
      && list[0].node == a.node && list[1].node == b.node
      && Swept(list) == [list[1]] && list[1].Execute()
  {
    var list := Ticked([a, b], clock);
    hide Ticked;
    assert list == [list[0], list[1]] && list[..1] == [list[0]] && list[..1][..0] == [];
    assert Expired(list[..1]) == [list[0]];
    assert list[2..] == [];
  }

  lemma OneDue(a: DelayedEvent, clock: nat -> Reading)
    requires a.Execute()
    ensures var list := Ticked([a], clock);
      && |list| == 1 && Expired(list) == list && Swept(list) == []
      && list[0].event == a.event && list[0].node == a.node
  {
    var list := Ticked([a], clock);
    hide Ticked;
    assert list == [list[0]] && list[..0] == [] && list[1..] == [] && Unexpired(list[1..]) == [];
  }

  lemma CountShort(a: DelayedEvent, b: DelayedEvent, id: nat)
    ensures CountNode([], id) == 0
    ensures CountNode([a], id) == if a.node == id then 1 else 0
    ensures CountNode([a, b], id) == CountNode([a], id) + (if b.node == id then 1 else 0)
  {
    CountAppend([], a, id);
    assert [] + [a] == [a] && [a] + [b] == [a, b];
    CountAppend([a], b, id);
  }

  lemma PassOnTwo(s: State, clock: nat -> Reading, e: Event)
    requires |s.delayed| == 2 && s.delayed[0].Execute() && s.delayed[1].Execute()
    requires s.delayed[0].event == s.delayed[1].event == e && s.delayed[0].node == 0 && s.delayed[1].node == 1
    ensures var s' := Step(s, UpdateDelayed(clock));
      && |s'.delayed| == 1 && s'.delayed[0].Execute() && s'.delayed[0].event == e && s'.delayed[0].node == 1
      && s'.queue == s.queue + [e, e]
    ensures var pushed := PushedNodes(s, UpdateDelayed(clock)); CountNode(pushed, 0) == 1 && CountNode(pushed, 1) == 1
  {
    hide Swept, Ticked, Expired, CountNode;
    var a, b := s.delayed[0], s.delayed[1];
    assert s.delayed == [a, b];
    var list := Ticked([a, b], clock);
    BothDue(a, b, clock);
    assert list == [list[0], list[1]];
    CountShort(list[0], list[1], 0);
    CountShort(list[0], list[1], 1);
    assert Events(list) == [e, e];
  }

  lemma PassOnOne(s: State, clock: nat -> Reading, e: Event)
    requires |s.delayed| == 1 && s.delayed[0].Execute() && s.delayed[0].event == e && s.delayed[0].node == 1
    ensures var s' := Step(s, UpdateDelayed(clock)); s'.delayed == [] && s'.queue == s.queue + [e]
    ensures var pushed := PushedNodes(s, UpdateDelayed(clock)); CountNode(pushed, 0) == 0 && CountNode(pushed, 1) == 1
  {
    hide Swept, Ticked, Expired, CountNode;
    var a := s.delayed[0];
    assert s.delayed == [a];
    var list := Ticked([a], clock);
    OneDue(a, clock);
    assert list == [list[0]];
    CountShort(list[0], list[0], 0);
    CountShort(list[0], list[0], 1);
    assert Events(list) == [e];
  }

  lemma TwoAdded(e: Event, now: Timeval)
    ensures var ops := [] + [AddDelayed(e, 0, now)] + [AddDelayed(e, 0, now)];
      && Run(ops) == State(true, [], [DelayedEvent(0, e, 0, now), DelayedEvent(1, e, 0, now)], 2)
      && Pushes(ops, 0) == 0 && Pushes(ops, 1) == 0
  {
    var add := AddDelayed(e, 0, now);
    OneOpMore([], add, 0);
    OneOpMore([], add, 1);
    OneOpMore([] + [add], add, 0);
    OneOpMore([] + [add], add, 1);
    assert Run([]) == INITIAL && Pushes([], 0) == 0 && Pushes([], 1) == 0;
    hide Run, Pushes;
  }

  /** It happens: of two events added without a delay, two passes deliver the first once and the second twice. */
  lemma SecondDeliveredTwice(e: Event, now: Timeval, clock: nat -> Reading)
    ensures var add, pass := AddDelayed(e, 0, now), UpdateDelayed(clock);
      var ops := [] + [add] + [add] + [pass] + [pass];
      && Pushes(ops, 0) == 1 && Pushes(ops, 1) == 2
      && Run(ops).delayed == [] && Run(ops).queue == [e, e, e]
  {
    hide Step, CountNode, PushedNodes, Run, Pushes;
    var add, pass := AddDelayed(e, 0, now), UpdateDelayed(clock);
    var added := [] + [add] + [add];
    TwoAdded(e, now);
    OneOpMore(added, pass, 0);
    OneOpMore(added, pass, 1);
    PassOnTwo(Run(added), clock, e);
    OneOpMore(added + [pass], pass, 0);
    OneOpMore(added + [pass], pass, 1);
    PassOnOne(Run(added + [pass]), clock, e);
  }

  lemma {:induction false} NeverDeliveredSecond(ops: seq<Op>, id: nat)
    requires Deliveries(ops, id) == 0
    ensures !FirstDeliveredSecond(ops, id)
  {
    if ops != [] {
      NeverDeliveredSecond(ops[..|ops| - 1], id);
    }
  }
}
