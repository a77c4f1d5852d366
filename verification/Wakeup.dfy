/**
 Parking and resuming the worker thread. The producer enqueues, reads the worker's status and, if it
 finds it suspended, sends a continue signal; the worker tests both queues, stores its suspended
 status and waits for that signal. Every shared access is one move of an interleaving.

 Whether a wakeup can be lost depends on two things about the platform and the locking, which are the
 parameters of the model: whether the emptiness test and the status store are one step, and whether a
 signal sent before the worker waits for it stays pending.
 */
module Wakeup {
  import opened Basics
  import opened Clock
  import opened Handler

  datatype Mode = Mode(atomicPark: bool, latchedSignal: bool)

  /** Two separate statements, and a handler installed for the signal: neither holds of the source as it stands. */
  const AS_WRITTEN := Mode(false, false)

  datatype Worker = AtPass | AtTest | AtStoreSuspended | BeforeWait | Waiting | AtStoreActive | AtServe
  datatype Producer = Idle | AtReadStatus | AtSignal

  datatype System = System(sched: State, worker: Worker, suspended: bool, pending: bool, producer: Producer)
  {
    predicate HasWork() {
      sched.queue != [] || sched.delayed != []
    }

    /** Parked for good: there is work, no wakeup on its way, and nobody about to send one. */
    predicate LostWakeup() {
      worker == Waiting && HasWork() && !pending && producer == Idle
    }
  }

  const START := System(INITIAL, AtPass, false, false, Idle)

  datatype Move =
    | Enqueue(op: Op) | ReadStatus | Signal
    | Pass(clock: nat -> Reading) | Test | StoreSuspended | EnterWait | Wake | StoreActive | Serve

  predicate Enabled(s: System, m: Move) {
    match m
    case Enqueue(op) => s.producer == Idle && (op.AddEvent? || op.AddDelayed?)
    case ReadStatus => s.producer == AtReadStatus
    case Signal => s.producer == AtSignal
    case Pass(_) => s.worker == AtPass
    case Test => s.worker == AtTest
    case StoreSuspended => s.worker == AtStoreSuspended
    case EnterWait => s.worker == BeforeWait
    case Wake => s.worker == Waiting && s.pending
    case StoreActive => s.worker == AtStoreActive
    case Serve => s.worker == AtServe
  }

  function Apply(mode: Mode, s: System, m: Move): System {
    match m
    case Enqueue(op) => s.(sched := Step(s.sched, op), producer := AtReadStatus)
    case ReadStatus => s.(producer := if s.suspended then AtSignal else Idle)
    case Signal => s.(producer := Idle, pending := s.pending || mode.latchedSignal || s.worker == Waiting)
    case Pass(clock) => s.(sched := Step(s.sched, UpdateDelayed(clock)), worker := AtTest)
    case Test =>
      if s.HasWork() then s.(worker := AtServe)
      else if mode.atomicPark then s.(suspended := true, worker := BeforeWait)
      else s.(worker := AtStoreSuspended)
    case StoreSuspended => s.(suspended := true, worker := BeforeWait)
    case EnterWait => s.(worker := Waiting)
    case Wake => s.(pending := false, worker := AtStoreActive)
    case StoreActive => s.(suspended := false, worker := AtServe)
    case Serve => s.(sched := Step(s.sched, Dispatch), worker := AtPass)
  }

  ghost predicate Path(mode: Mode, s: System, moves: seq<Move>, t: System)
    decreases |moves|
  {
    if moves == [] then s == t
    else Enabled(s, moves[0]) && Path(mode, Apply(mode, s, moves[0]), moves[1..], t)
  }

  ghost predicate Reachable(mode: Mode, s: System) {
    exists moves :: Path(mode, START, moves, s)
  }

  // ----- safety with the two assumptions -----

  ghost predicate Inv(s: System) {
    && s.worker != AtStoreSuspended
    && (s.suspended <==> s.worker in {BeforeWait, Waiting, AtStoreActive})
    && (s.worker in {BeforeWait, Waiting} && s.HasWork() ==> s.pending || s.producer != Idle)
  }

  lemma InvStep(mode: Mode, s: System, m: Move)
    requires mode == Mode(true, true) && Inv(s) && Enabled(s, m)
    ensures Inv(Apply(mode, s, m))
  {
  }

  lemma {:induction false} InvPath(mode: Mode, s: System, moves: seq<Move>, t: System)
    requires mode == Mode(true, true) && Inv(s) && Path(mode, s, moves, t)
    ensures Inv(t)
    decreases |moves|
  {
    if moves != [] {
      InvPath(mode, Apply(mode, s, moves[0]), moves[1..], t);
    }
  }

  // ----- a lost wakeup without either of them -----

  /** The producer runs between the test and the store: it still reads the old status and sends nothing. */
  lemma LostBetweenTestAndStore(mode: Mode, event: Event, clock: nat -> Reading)
    requires !mode.atomicPark
    ensures exists s :: Reachable(mode, s) && s.LostWakeup()
  {
    var moves := [Pass(clock), Test, Enqueue(AddEvent(event)), ReadStatus, StoreSuspended, EnterWait];
    var s1 := Apply(mode, START, moves[0]);
    var s2 := Apply(mode, s1, moves[1]);
    var s3 := Apply(mode, s2, moves[2]);
    var s4 := Apply(mode, s3, moves[3]);
    var s5 := Apply(mode, s4, moves[4]);
    var s6 := Apply(mode, s5, moves[5]);
    PathOfSix(mode, START, moves, s1, s2, s3, s4, s5, s6);
    assert Reachable(mode, s6) && s6.LostWakeup();
  }

  /** The signal reaches a worker that has stored its status but does not wait yet, and is consumed by its handler. */
  lemma LostBeforeWait(mode: Mode, event: Event, clock: nat -> Reading)
    requires mode.atomicPark && !mode.latchedSignal
    ensures exists s :: Reachable(mode, s) && s.LostWakeup()
  {
    var moves := [Pass(clock), Test, Enqueue(AddEvent(event)), ReadStatus, Signal, EnterWait];
    var s1 := Apply(mode, START, moves[0]);
    var s2 := Apply(mode, s1, moves[1]);
    var s3 := Apply(mode, s2, moves[2]);
    var s4 := Apply(mode, s3, moves[3]);
    var s5 := Apply(mode, s4, moves[4]);
    var s6 := Apply(mode, s5, moves[5]);
    PathOfSix(mode, START, moves, s1, s2, s3, s4, s5, s6);
    assert Reachable(mode, s6) && s6.LostWakeup();
  }

  lemma PathOfSix(mode: Mode, s: System, m: seq<Move>, s1: System, s2: System, s3: System, s4: System,
                  s5: System, s6: System)
    requires |m| == 6
    requires Enabled(s, m[0]) && Apply(mode, s, m[0]) == s1
    requires Enabled(s1, m[1]) && Apply(mode, s1, m[1]) == s2
    requires Enabled(s2, m[2]) && Apply(mode, s2, m[2]) == s3
    requires Enabled(s3, m[3]) && Apply(mode, s3, m[3]) == s4
    requires Enabled(s4, m[4]) && Apply(mode, s4, m[4]) == s5
    requires Enabled(s5, m[5]) && Apply(mode, s5, m[5]) == s6
    ensures Path(mode, s, m, s6)
  {
    assert Path(mode, s6, m[6..], s6);
    assert m[5..][1..] == m[6..] && Path(mode, s5, m[5..], s6);
    assert m[4..][1..] == m[5..] && Path(mode, s4, m[4..], s6);
    assert m[3..][1..] == m[4..] && Path(mode, s3, m[3..], s6);
    assert m[2..][1..] == m[3..] && Path(mode, s2, m[2..], s6);
    assert m[1..][1..] == m[2..] && Path(mode, s1, m[1..], s6);
  }

  /** A wakeup can be lost exactly when one of the two assumptions is missing. */
  lemma NoLostWakeup(mode: Mode)
    ensures (exists s :: Reachable(mode, s) && s.LostWakeup()) <==> !(mode.atomicPark && mode.latchedSignal)
  {
    var t := Timeval(0, 0);
    if !mode.atomicPark {
      LostBetweenTestAndStore(mode, Event(EVENT_CONNECT, 0, 0, 0, 0, 0), (_: nat) => Reading(t, t));
    } else if !mode.latchedSignal {
      LostBeforeWait(mode, Event(EVENT_CONNECT, 0, 0, 0, 0, 0), (_: nat) => Reading(t, t));
    } else {
      forall s | Reachable(mode, s)
        ensures !s.LostWakeup()
      {
        var moves :| Path(mode, START, moves, s);
        InvPath(mode, START, moves, s);
      }
    }
  }

  /** As written, a run exists that parks the worker for good with an event in its queue. */
  lemma WakeupLostAsWritten()
    ensures exists s :: Reachable(AS_WRITTEN, s) && s.LostWakeup()
  {
    NoLostWakeup(AS_WRITTEN);
  }

  // ----- progress -----

  /** The moves the producer still owes. */
  function Owed(s: System): (r: seq<Move>)
    ensures |r| <= 2
  {
    match s.producer
    case Idle => []
    case AtReadStatus => if s.suspended then [ReadStatus, Signal] else [ReadStatus]
    case AtSignal => [Signal]
  }

  /** The worker's own moves up to its next dispatch. */
  function Remaining(w: Worker, clock: nat -> Reading): (r: seq<Move>)
    ensures r != [] && (w != AtStoreSuspended ==> |r| <= 4)
  {
    match w
    case AtPass => [Pass(clock), Test, Serve]
    case AtTest => [Test, Serve]
    case AtStoreSuspended => [StoreSuspended, EnterWait, Wake, StoreActive, Serve]
    case BeforeWait => [EnterWait, Wake, StoreActive, Serve]
    case Waiting => [Wake, StoreActive, Serve]
    case AtStoreActive => [StoreActive, Serve]
    case AtServe => [Serve]
  }

  lemma {:induction false} PathConcat(mode: Mode, s: System, a: seq<Move>, t: System, b: seq<Move>, u: System)
    requires Path(mode, s, a, t) && Path(mode, t, b, u)
    ensures Path(mode, s, a + b, u)
    decreases |a|
  {
    if a == [] {
      assert a + b == b;
    } else {
      PathConcat(mode, Apply(mode, s, a[0]), a[1..], t, b, u);
      assert (a + b)[1..] == a[1..] + b;
    }
  }

  lemma ProducerFinishes(mode: Mode, s: System) returns (t: System)
    requires mode == Mode(true, true) && Inv(s)
    ensures Path(mode, s, Owed(s), t) && Inv(t)
    ensures t.producer == Idle && t.sched == s.sched && t.worker == s.worker
  {
    t := s;
    var moves := Owed(s);
    if moves != [] {
      t := Apply(mode, s, moves[0]);
      assert Path(mode, t, [], t);
      if |moves| > 1 {
        var u := Apply(mode, t, moves[1]);
        assert Path(mode, u, moves[1..][1..], u);
        assert Path(mode, t, moves[1..], u);
        t := u;
      }
    }
  }

  function PushedOn(s: System, clock: nat -> Reading): seq<Event> {
    if s.worker == AtPass then PushedBy(s.sched, UpdateDelayed(clock)) else []
  }

  /** A step of the worker towards its dispatch leaves the front alone and pushes only behind it. */
  ghost predicate Nearer(mode: Mode, s: System, clock: nat -> Reading) {
    var moves := Remaining(s.worker, clock);
    var next := Apply(mode, s, moves[0]);
    && Enabled(s, moves[0]) && Inv(next) && next.producer == Idle
    && Remaining(next.worker, clock) == moves[1..]
    && next.sched.queue != [] && s.sched.queue != []
    && next.sched.queue[1..] == s.sched.queue[1..] + PushedOn(s, clock)
  }

  lemma PassNearer(mode: Mode, s: System, clock: nat -> Reading)
    requires mode == Mode(true, true) && Inv(s) && s.producer == Idle && s.sched.queue != [] && s.worker == AtPass
    ensures Nearer(mode, s, clock)
  {
    hide Swept, Expired, Ticked, Events;
    var pushed := PushedBy(s.sched, UpdateDelayed(clock));
    assert (s.sched.queue + pushed)[1..] == s.sched.queue[1..] + pushed;
  }

  lemma OneMoveNearer(mode: Mode, s: System, clock: nat -> Reading)
    requires mode == Mode(true, true) && Inv(s) && s.producer == Idle && s.sched.queue != [] && s.worker != AtServe
    ensures Nearer(mode, s, clock)
  {
    if s.worker == AtPass {
      PassNearer(mode, s, clock);
      hide Nearer;
    } else {
      hide Step, PushedBy;
      assert s.sched.queue[1..] + [] == s.sched.queue[1..];
    }
  }

  lemma FirstMove(mode: Mode, s: System, moves: seq<Move>, t: System)
    requires moves != [] && Enabled(s, moves[0]) && Path(mode, Apply(mode, s, moves[0]), moves[1..], t)
    ensures Path(mode, s, moves, t)
  {
    hide Enabled, Apply;
  }

  lemma ServeAtOnce(mode: Mode, s: System, clock: nat -> Reading) returns (t: System)
    requires s.worker == AtServe && s.sched.queue != []
    ensures Path(mode, s, Remaining(s.worker, clock), t) && t.sched.queue == s.sched.queue[1..] + []
  {
    t := Apply(mode, s, Serve);
    assert Path(mode, t, [Serve][1..], t);
  }

  /** With the producer idle the worker gets from anywhere to its next dispatch. */
  lemma {:induction false} WorkerServes(mode: Mode, s: System, clock: nat -> Reading)
      returns (t: System, pushed: seq<Event>)
    requires mode == Mode(true, true) && Inv(s) && s.producer == Idle && s.sched.queue != []
    ensures Path(mode, s, Remaining(s.worker, clock), t)
    ensures t.sched.queue == s.sched.queue[1..] + pushed
    decreases |Remaining(s.worker, clock)|
  {
    hide Apply, Inv, Enabled, PushedOn, Path, Remaining;
    if s.worker == AtServe {
      t := ServeAtOnce(mode, s, clock);
      pushed := [];
    } else {
      var moves := Remaining(s.worker, clock);
      var next := Apply(mode, s, moves[0]);
      OneMoveNearer(mode, s, clock);
      t, pushed := WorkerServes(mode, next, clock);
      FirstMove(mode, s, moves, t);
      Regroup(s.sched.queue[1..], PushedOn(s, clock), pushed);
      pushed := PushedOn(s, clock) + pushed;
    }
  }

  /**
   Progress: from every state reachable under the two assumptions with a non-empty immediate queue, at
   most six moves of the two threads, none of them a new enqueue, take exactly the front event out.
   */
  lemma FrontGetsServed(mode: Mode, s: System, clock: nat -> Reading)
    requires mode == Mode(true, true) && Reachable(mode, s) && s.sched.queue != []
    ensures |Owed(s) + Remaining(s.worker, clock)| <= 6
    ensures exists t, pushed ::
      Path(mode, s, Owed(s) + Remaining(s.worker, clock), t) && t.sched.queue == s.sched.queue[1..] + pushed
  {
    var moves :| Path(mode, START, moves, s);
    InvPath(mode, START, moves, s);
    assert s.worker != AtStoreSuspended;
    hide Apply, Remaining, Inv, Enabled, Path, Owed;
    var mid := ProducerFinishes(mode, s);
    var t, pushed := WorkerServes(mode, mid, clock);
    PathConcat(mode, s, Owed(s), mid, Remaining(s.worker, clock), t);
  }
}
