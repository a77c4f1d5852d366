/**
 The event scheduler: an immediate queue, a list of delayed events that count down, and the worker
 loop that moves expired events to the immediate queue and dispatches its front.

 The class below updates its fields as the source does; each of its methods is tied to `Step`, one
 transition of the scheduler as a value, and the theorems over whole runs are stated about `Run`.
 */
module Handler {
  import opened Clock

  // ----- events -----

  const EVENT_CONNECT := 0
  const EVENT_RECIEVE := 1
  const EVENT_SEND := 2
  const EVENT_DISCONNECT := 3
  const EVENT_CONNECT_DELAYED := 4
  const EVENT_RECIEVE_DELAYED := 5
  const EVENT_SEND_DELAYED := 6
  const EVENT_DISCONNECT_DELAYED := 7

  const EVENT_TYPES := {EVENT_CONNECT, EVENT_RECIEVE, EVENT_SEND, EVENT_DISCONNECT, EVENT_CONNECT_DELAYED,
                        EVENT_RECIEVE_DELAYED, EVENT_SEND_DELAYED, EVENT_DISCONNECT_DELAYED}

  /** `data` is the address of the event's buffer. */
  datatype Event = Event(eventType: nat, fd: int, address: nat, data: nat, received: int, errorcode: int)

  /** An element of the delayed list; `node` identifies the list node that holds it. */
  datatype DelayedEvent = DelayedEvent(node: nat, event: Event, msDelay: nat, updated: Timeval)
  {
    predicate Execute() {
      msDelay == 0
    }

    /** `Update(diff)`, with the reading of the clock that it stores. */
    function Update(diff: nat, now: Timeval): DelayedEvent {
      this.(msDelay := msDelay - (if msDelay > diff then diff else msDelay), updated := now)
    }
  }

  /** The two times one countdown reads the clock: to measure the tick, and to stamp the event. */
  datatype Reading = Reading(seen: Timeval, stored: Timeval)

  function Tick(e: DelayedEvent, r: Reading): DelayedEvent {
    e.Update(MsTimeDiff(e.updated, r.seen), r.stored)
  }

  // ----- one pass over the delayed list, in closed form -----

  /** Every event counted down; `clock(k)` is what the pass reads for the event at position `k`. */
  function Ticked(list: seq<DelayedEvent>, clock: nat -> Reading): (r: seq<DelayedEvent>)
    ensures |r| == |list|
    ensures forall k :: 0 <= k < |list| ==> r[k] == Tick(list[k], clock(k))
  {
    seq(|list|, k requires 0 <= k < |list| => Tick(list[k], clock(k)))
  }

  function Expired(list: seq<DelayedEvent>): seq<DelayedEvent> {
    if list == [] then []
    else Expired(list[..|list| - 1]) + (if list[|list| - 1].Execute() then [list[|list| - 1]] else [])
  }

  function Unexpired(list: seq<DelayedEvent>): (r: seq<DelayedEvent>)
    ensures forall e :: e in r <==> e in list && !e.Execute()
  {
    if list == [] then []
    else (if list[0].Execute() then [] else [list[0]]) + Unexpired(list[1..])
  }

  /**
   What the sweep leaves. It restarts at the head after an erase and then steps past it, so when the head
   goes, the second event is kept whatever its delay.
   */
  function Swept(list: seq<DelayedEvent>): seq<DelayedEvent> {
    if |list| >= 2 && list[0].Execute() then [list[1]] + Unexpired(list[2..])
    else Unexpired(list)
  }

  function Events(list: seq<DelayedEvent>): (r: seq<Event>)
    ensures |r| == |list|
    ensures forall k :: 0 <= k < |list| ==> r[k] == list[k].event
  {
    seq(|list|, k requires 0 <= k < |list| => list[k].event)
  }

  // ----- the scheduler as a value -----

  datatype State = State(process: bool, queue: seq<Event>, delayed: seq<DelayedEvent>, nextNode: nat)

  const INITIAL := State(true, [], [], 0)

  datatype Op =
    | AddEvent(event: Event)
    | AddDelayed(delayedEvent: Event, delay: nat, now: Timeval)
    | UpdateDelayed(clock: nat -> Reading)
    | Dispatch
    | Terminate

  /** What a step appends to the immediate queue. */
  function PushedBy(s: State, op: Op): seq<Event> {
    match op
    case AddEvent(e) => [e]
    case UpdateDelayed(clock) => Events(Expired(Ticked(s.delayed, clock)))
    case _ => []
  }

  /** What a step takes from the immediate queue and hands to the protocol library. */
  function DispatchedBy(s: State, op: Op): seq<Event> {
    if op.Dispatch? && s.queue != [] then [s.queue[0]] else []
  }

  function Step(s: State, op: Op): State {
    match op
    case AddEvent(e) => s.(queue := s.queue + [e])
    case AddDelayed(e, delay, now) =>
      s.(delayed := s.delayed + [DelayedEvent(s.nextNode, e, delay, now)], nextNode := s.nextNode + 1)
    case UpdateDelayed(clock) =>
      s.(queue := s.queue + Events(Expired(Ticked(s.delayed, clock))), delayed := Swept(Ticked(s.delayed, clock)))
    case Dispatch => if s.queue == [] then s else s.(queue := s.queue[1..])
    case Terminate => s.(process := false, queue := [], delayed := [])
  }

  function RunFrom(s: State, ops: seq<Op>): State {
    if ops == [] then s else Step(RunFrom(s, ops[..|ops| - 1]), ops[|ops| - 1])
  }

  function DispatchedFrom(s: State, ops: seq<Op>): seq<Event> {
    if ops == [] then []
    else
      var before := ops[..|ops| - 1];
      DispatchedFrom(s, before) + DispatchedBy(RunFrom(s, before), ops[|ops| - 1])
  }

  function PushedFrom(s: State, ops: seq<Op>): seq<Event> {
    if ops == [] then []
    else
      var before := ops[..|ops| - 1];
      PushedFrom(s, before) + PushedBy(RunFrom(s, before), ops[|ops| - 1])
  }

  ghost predicate NoTerminate(ops: seq<Op>) {
    forall k :: 0 <= k < |ops| ==> !ops[k].Terminate?
  }

  /** What the main thread does to the scheduler while the worker is elsewhere. */
  datatype Arrival = Push(event: Event) | PushDelayed(delayedEvent: Event, delay: nat, now: Timeval) | Stop

  /** One turn of the worker loop: what arrives before and after its pass, and what that pass reads. */
  datatype Turn = Turn(before: seq<Arrival>, clock: nat -> Reading, after: seq<Arrival>)

  function ArrivalOp(a: Arrival): Op {
    match a
    case Push(e) => AddEvent(e)
    case PushDelayed(e, delay, now) => AddDelayed(e, delay, now)
    case Stop => Terminate
  }

  function ArrivalOps(arrivals: seq<Arrival>): (r: seq<Op>)
    ensures |r| == |arrivals|
    ensures forall k :: 0 <= k < |arrivals| ==> r[k] == ArrivalOp(arrivals[k])
  {
    seq(|arrivals|, k requires 0 <= k < |arrivals| => ArrivalOp(arrivals[k]))
  }

  function TurnOps(t: Turn): seq<Op> {
    ArrivalOps(t.before) + [UpdateDelayed(t.clock)] + ArrivalOps(t.after) + [Dispatch]
  }

  function TurnsOps(turns: seq<Turn>): seq<Op> {
    if turns == [] then [] else TurnsOps(turns[..|turns| - 1]) + TurnOps(turns[|turns| - 1])
  }

  /** The type is one of the eight that exist, and the protocol library has a callback for it. */
  predicate HasCallback(e: Event, callbacks: set<nat>) {
    e.eventType <= EVENT_DISCONNECT_DELAYED && e.eventType in callbacks
  }

  /** The events among `events` that reach a callback. */
  function Handled(events: seq<Event>, callbacks: set<nat>): seq<Event> {
    if events == [] then []
    else
      var last := events[|events| - 1];
      Handled(events[..|events| - 1], callbacks) + (if HasCallback(last, callbacks) then [last] else [])
  }

  lemma CallbackOf(e: Event, callbacks: set<nat>)
    ensures HasCallback(e, callbacks) <==> e.eventType in EVENT_TYPES && e.eventType in callbacks
  {
  }

  /**
   Every event whose type is one of the eight that exist and has a callback reaches it as often as it is
   dispatched, and no other event does.
   */
  lemma {:induction false} HandledExactly(events: seq<Event>, callbacks: set<nat>, e: Event)
    ensures multiset(Handled(events, callbacks))[e] ==
      if e.eventType in EVENT_TYPES && e.eventType in callbacks then multiset(events)[e] else 0
  {
    hide HasCallback, EVENT_TYPES;
    if events != [] {
      CallbackOf(events[|events| - 1], callbacks);
      HandledExactly(events[..|events| - 1], callbacks, e);
      assert events == events[..|events| - 1] + [events[|events| - 1]];
    }
  }

  /** And they reach it in the order of their dispatch. */
  lemma {:induction false} HandledBoth(a: seq<Event>, b: seq<Event>, callbacks: set<nat>)
    ensures Handled(a + b, callbacks) == Handled(a, callbacks) + Handled(b, callbacks)
  {
    hide HasCallback;
    if b == [] {
      assert a + b == a;
    } else {
      assert (a + b)[..|a + b| - 1] == a + b[..|b| - 1];
      HandledBoth(a, b[..|b| - 1], callbacks);
    }
  }

  lemma {:induction false} RunFromConcat(s: State, a: seq<Op>, b: seq<Op>)
    ensures RunFrom(s, a + b) == RunFrom(RunFrom(s, a), b)
    ensures DispatchedFrom(s, a + b) == DispatchedFrom(s, a) + DispatchedFrom(RunFrom(s, a), b)
  {
    if b == [] {
      assert a + b == a;
    } else {
      assert (a + b)[..|a + b| - 1] == a + b[..|b| - 1];
      RunFromConcat(s, a, b[..|b| - 1]);
    }
  }

  lemma {:induction false} HandledConcat(a: seq<Event>, b: seq<Event>, callbacks: set<nat>)
    ensures Handled(a + b, callbacks) == Handled(a, callbacks) + Handled(b, callbacks)
  {
    if b == [] {
      assert a + b == a;
    } else {
      assert (a + b)[..|a + b| - 1] == a + b[..|b| - 1];
      HandledConcat(a, b[..|b| - 1], callbacks);
    }
  }

  // ----- the scheduler -----

  class PacketHandler {
    var process: bool
    var queue: seq<Event>
    var delayedQueue: seq<DelayedEvent>
    var nextNode: nat
    var callbacks: set<nat>
    var calls: seq<Event>

    ghost function View(): State
      reads this
    {
      State(process, queue, delayedQueue, nextNode)
    }

    constructor (callbacks: set<nat>)
      ensures View() == INITIAL && calls == [] && this.callbacks == callbacks
    {
      process := true;
      queue, delayedQueue, nextNode := [], [], 0;
      this.callbacks, calls := callbacks, [];
    }

    method AddEvent(event: Event)
      modifies this
      ensures View() == Step(old(View()), Op.AddEvent(event))
      ensures callbacks == old(callbacks) && calls == old(calls)
    {
      queue := queue + [event];
    }

    method AddDelayedEvent(event: Event, delay: nat, now: Timeval)
      modifies this
      ensures View() == Step(old(View()), AddDelayed(event, delay, now))
      ensures callbacks == old(callbacks) && calls == old(calls)
    {
      delayedQueue := delayedQueue + [DelayedEvent(nextNode, event, delay, now)];
      nextNode := nextNode + 1;
    }

    /** The pass: count every event down and push the expired ones, then sweep the list. */
    method UpdateDelayed(clock: nat -> Reading)
      modifies this
      ensures View() == Step(old(View()), Op.UpdateDelayed(clock))
      ensures callbacks == old(callbacks) && calls == old(calls)
    {
      hide Ticked, Expired, Events, Swept;
      if |delayedQueue| == 0 {
        EmptyPass(clock);
        return;
      }
      PushExpired(clock);
      Sweep();
    }

    method PushExpired(clock: nat -> Reading)
      modifies this`queue, this`delayedQueue
      ensures delayedQueue == Ticked(old(delayedQueue), clock)
      ensures queue == old(queue) + Events(Expired(delayedQueue))
    {
      hide Expired, Events, Tick;
      assert Events(Expired([])) == [] by {
        EventsOfNone();
      }
      var it := 0;
      while it < |delayedQueue|
        invariant it <= |delayedQueue| == |old(delayedQueue)|
        invariant forall k :: 0 <= k < it ==> delayedQueue[k] == Tick(old(delayedQueue)[k], clock(k))
        invariant forall k :: it <= k < |delayedQueue| ==> delayedQueue[k] == old(delayedQueue)[k]
        invariant queue == old(queue) + Events(Expired(delayedQueue[..it]))
      {
        var e := Tick(delayedQueue[it], clock(it));
        ghost var earlier := delayedQueue[..it];
        ExpiredNext(earlier, e);
        delayedQueue := delayedQueue[it := e];
        if e.Execute() {
          queue := queue + [e.event];
        }
        assert delayedQueue[..it + 1] == earlier + [e];
        it := it + 1;
      }
      assert delayedQueue[..it] == delayedQueue;
    }

    /** Erases at the cursor, goes back to the head, and then still takes the loop's step forward. */
    method Sweep()
      modifies this`delayedQueue
      ensures delayedQueue == Swept(old(delayedQueue))
    {
      hide Unexpired, Swept, KeptHead;
      ghost var list := delayedQueue;
      SweptOfOne(list);
      var it := 0;
      while it < |delayedQueue|
        invariant it <= |delayedQueue|
        invariant it == 0 ==> delayedQueue == list
        invariant it > 0 ==> KeptHead(delayedQueue) == Swept(list)
        invariant forall k :: 1 <= k < it ==> !delayedQueue[k].Execute()
        decreases |delayedQueue|, |delayedQueue| - it
      {
        SweptStart(list);
        if delayedQueue[it].Execute() {
          if it > 0 {
            EraseKeeps(delayedQueue, it);
          }
          delayedQueue := delayedQueue[..it] + delayedQueue[it + 1..];
          it := 0;
          if |delayedQueue| == 0 {
            break;
          }
        }
        it := it + 1;
      }
      if delayedQueue != [] {
        KeptWhole(delayedQueue);
      }
    }

    method Terminate()
      modifies this
      ensures View() == Step(old(View()), Op.Terminate)
      ensures callbacks == old(callbacks) && calls == old(calls)
    {
      delayedQueue := [];
      while |queue| > 0
        invariant delayedQueue == [] && nextNode == old(nextNode)
        invariant callbacks == old(callbacks) && calls == old(calls)
      {
        queue := queue[1..];
      }
      process := false;
    }

    /** Hands the front event to its callback, if the library has one, and pops it. */
    method DispatchFront()
      modifies this
      ensures View() == Step(old(View()), Dispatch)
      ensures callbacks == old(callbacks)
      ensures calls == old(calls) + Handled(DispatchedBy(old(View()), Dispatch), callbacks)
    {
      if |queue| > 0 {
        var event := queue[0];
        if HasCallback(event, callbacks) {
          calls := calls + [event];
        }
        queue := queue[1..];
      }
    }

    method Arrive(arrivals: seq<Arrival>)
      modifies this
      ensures View() == RunFrom(old(View()), ArrivalOps(arrivals))
      ensures DispatchedFrom(old(View()), ArrivalOps(arrivals)) == []
      ensures callbacks == old(callbacks) && calls == old(calls)
    {
      for i := 0 to |arrivals|
        invariant View() == RunFrom(old(View()), ArrivalOps(arrivals)[..i])
        invariant DispatchedFrom(old(View()), ArrivalOps(arrivals)[..i]) == []
        invariant callbacks == old(callbacks) && calls == old(calls)
      {
        assert ArrivalOps(arrivals)[..i + 1][..i] == ArrivalOps(arrivals)[..i];
        match arrivals[i] {
          case Push(e) => AddEvent(e);
          case PushDelayed(e, delay, now) => AddDelayedEvent(e, delay, now);
          case Stop => Terminate();
        }
      }
      assert ArrivalOps(arrivals)[..|arrivals|] == ArrivalOps(arrivals);
    }

    /** The body of the worker loop. */
    method TakeTurn(t: Turn) returns (ghost news: seq<Event>)
      modifies this
      ensures Leads(old(View()), TurnOps(t), View(), news)
      ensures calls == old(calls) + Handled(news, callbacks)
      ensures callbacks == old(callbacks)
    {
      Arrive(t.before);
      ghost var s1 := View();
      UpdateDelayed(t.clock);
      ghost var s2 := View();
      Arrive(t.after);
      ghost var s3 := View();
      DispatchFront();
      LeadsTurn(old(View()), t, s1, s2, s3, View());
      news := DispatchedBy(s3, Dispatch);
    }

    /**
     The worker loop over any finite stretch of turns: it does in `n` turns exactly what the `n` turns'
     steps do, and stops early only because of `Terminate`.
     */
    method ProcessQueue(turns: seq<Turn>) returns (n: nat)
      modifies this
      ensures n <= |turns| && (n < |turns| ==> !process)
      ensures View() == RunFrom(old(View()), TurnsOps(turns[..n]))
      ensures calls == old(calls) + Handled(DispatchedFrom(old(View()), TurnsOps(turns[..n])), callbacks)
      ensures callbacks == old(callbacks)
    {
      n := 0;
      ghost var done: seq<Event> := [];
      while process && n < |turns|
        invariant n <= |turns|
        invariant Leads(old(View()), TurnsOps(turns[..n]), View(), done)
        invariant calls == old(calls) + Handled(done, callbacks)
        invariant callbacks == old(callbacks)
      {
        ghost var begun := View();
        ghost var news := TakeTurn(turns[n]);
        LeadsThen(old(View()), TurnsOps(turns[..n]), begun, done, TurnOps(turns[n]), View(), news);
        TurnsOpsNext(turns, n);
        HandledNext(old(calls), done, news, callbacks);
        done := done + news;
        n := n + 1;
      }
    }
  }

  lemma HandledNext(calls: seq<Event>, done: seq<Event>, news: seq<Event>, callbacks: set<nat>)
    ensures calls + Handled(done + news, callbacks) == calls + Handled(done, callbacks) + Handled(news, callbacks)
  {
    HandledConcat(done, news, callbacks);
  }

  lemma TurnsOpsNext(turns: seq<Turn>, n: nat)
    requires n < |turns|
    ensures TurnsOps(turns[..n + 1]) == TurnsOps(turns[..n]) + TurnOps(turns[n])
  {
    assert turns[..n + 1][..n] == turns[..n];
  }

  lemma EmptyPass(clock: nat -> Reading)
    ensures Events(Expired(Ticked([], clock))) == [] && Swept(Ticked([], clock)) == []
  {
    assert Ticked([], clock) == [];
  }

  lemma EventsOfNone()
    ensures Events(Expired([])) == []
  {
  }

  lemma ExpiredNext(list: seq<DelayedEvent>, e: DelayedEvent)
    ensures Events(Expired(list + [e])) == Events(Expired(list)) + (if e.Execute() then [e.event] else [])
  {
    assert (list + [e])[..|list|] == list;
    assert Events(Expired(list) + [e]) == Events(Expired(list)) + [e.event];
  }

  /** What the sweep leaves once its cursor is past the head: the head, and of the rest what is unexpired. */
  function KeptHead(list: seq<DelayedEvent>): seq<DelayedEvent>
    requires list != []
  {
    [list[0]] + Unexpired(list[1..])
  }

  lemma SweptOfOne(list: seq<DelayedEvent>)
    ensures list == [] ==> Swept(list) == []
    ensures |list| == 1 && list[0].Execute() ==> Swept(list) == []
  {
    if |list| == 1 {
      assert list[1..] == [] && Unexpired(list[1..]) == [];
    }
  }

  lemma SweptStart(list: seq<DelayedEvent>)
    ensures |list| > 1 && list[0].Execute() ==> KeptHead(list[1..]) == Swept(list) && list[..0] + list[1..] == list[1..]
    ensures list != [] && !list[0].Execute() ==> KeptHead(list) == Swept(list)
  {
    if |list| > 1 {
      assert list[1..][1..] == list[2..] && list[..0] + list[1..] == list[1..];
    } else if |list| == 1 {
      assert list[1..] == [];
    }
  }

  lemma KeptWhole(list: seq<DelayedEvent>)
    requires list != [] && forall k :: 1 <= k < |list| ==> !list[k].Execute()
    ensures KeptHead(list) == list
  {
    UnexpiredAll(list[1..]);
  }

  lemma EraseKeeps(list: seq<DelayedEvent>, k: nat)
    requires 0 < k < |list| && list[k].Execute()
    ensures KeptHead(list[..k] + list[k + 1..]) == KeptHead(list)
  {
    UnexpiredSkips(list[1..], k - 1);
    assert (list[..k] + list[k + 1..])[1..] == list[1..][..k - 1] + list[1..][k..];
  }

  lemma {:induction false} UnexpiredAll(list: seq<DelayedEvent>)
    requires forall k :: 0 <= k < |list| ==> !list[k].Execute()
    ensures Unexpired(list) == list
  {
    if list != [] {
      UnexpiredAll(list[1..]);
    }
  }

  lemma {:induction false} UnexpiredSkips(list: seq<DelayedEvent>, k: nat)
    requires k < |list| && list[k].Execute()
    ensures Unexpired(list) == Unexpired(list[..k] + list[k + 1..])
  {
    var rest := list[..k] + list[k + 1..];
    if k == 0 {
      assert rest == list[1..];
    } else {
      UnexpiredSkips(list[1..], k - 1);
      assert rest[1..] == list[1..][..k - 1] + list[1..][k..];
    }
  }

  /** Steps taken from `s` lead to `t` and dispatch `events` on the way. */
  ghost predicate Leads(s: State, ops: seq<Op>, t: State, events: seq<Event>) {
    RunFrom(s, ops) == t && DispatchedFrom(s, ops) == events
  }

  lemma LeadsThen(s: State, a: seq<Op>, t: State, x: seq<Event>, b: seq<Op>, u: State, y: seq<Event>)
    requires Leads(s, a, t, x) && Leads(t, b, u, y)
    ensures Leads(s, a + b, u, x + y)
  {
    RunFromConcat(s, a, b);
  }

  lemma LeadsOne(s: State, op: Op)
    ensures Leads(s, [op], Step(s, op), DispatchedBy(s, op))
  {
    assert [op][..0] == [];
  }

  lemma LeadsTurn(s: State, t: Turn, s1: State, s2: State, s3: State, s4: State)
    requires Leads(s, ArrivalOps(t.before), s1, [])
    requires s2 == Step(s1, UpdateDelayed(t.clock))
    requires Leads(s2, ArrivalOps(t.after), s3, [])
    requires s4 == Step(s3, Dispatch)
    ensures Leads(s, TurnOps(t), s4, DispatchedBy(s3, Dispatch))
  {
    var a, b, c := ArrivalOps(t.before), [UpdateDelayed(t.clock)], ArrivalOps(t.after);
    LeadsOne(s1, UpdateDelayed(t.clock));
    LeadsOne(s3, Dispatch);
    LeadsThen(s, a, s1, [], b, s2, []);
    LeadsThen(s, a + b, s2, [], c, s3, []);
    LeadsThen(s, a + b + c, s3, [], [Dispatch], s4, DispatchedBy(s3, Dispatch));
  }
}
