/**
 How the countdown of a delayed event relates to real time. Every pass measures a tick since the
 event's last stamp, so truncation errors add up, and whatever passes between measuring and stamping
 is never counted.
 */
module DelayTiming {
  import opened Clock
  import opened Handler
  import opened HandlerRuns

  // ----- one event through a series of passes -----

  /** The event after the passes that read `readings`. */
  function Aged(e: DelayedEvent, readings: seq<Reading>): DelayedEvent {
    if readings == [] then e else Tick(Aged(e, readings[..|readings| - 1]), readings[|readings| - 1])
  }

  /** The stamp the event carries after those passes. */
  function LastStamp(start: Timeval, readings: seq<Reading>): Timeval {
    if readings == [] then start else readings[|readings| - 1].stored
  }

  function SumOfTicks(start: Timeval, readings: seq<Reading>): nat {
    if readings == [] then 0
    else
      var before := readings[..|readings| - 1];
      SumOfTicks(start, before) + MsTimeDiff(LastStamp(start, before), readings[|readings| - 1].seen)
  }

  /** Microseconds spent between measuring and stamping in all passes but the last. */
  function Unmeasured(readings: seq<Reading>): int {
    if |readings| <= 1 then 0
    else
      var before := readings[..|readings| - 1];
      Unmeasured(before) + Micros(before[|before| - 1].stored) - Micros(before[|before| - 1].seen)
  }

  /** The clock these readings come from does not run backwards. */
  predicate MonotoneFrom(start: Timeval, readings: seq<Reading>) {
    readings != [] ==>
      var before, last := readings[..|readings| - 1], readings[|readings| - 1];
      MonotoneFrom(start, before) && NotAfter(LastStamp(start, before), last.seen) && NotAfter(last.seen, last.stored)
  }

  lemma {:induction false} RemainingDelay(e: DelayedEvent, readings: seq<Reading>)
    ensures var left := e.msDelay - SumOfTicks(e.updated, readings);
      Aged(e, readings).msDelay == (if left > 0 then left else 0)
    ensures Aged(e, readings).updated == LastStamp(e.updated, readings)
    ensures Aged(e, readings).node == e.node && Aged(e, readings).event == e.event
  {
    if readings != [] {
      RemainingDelay(e, readings[..|readings| - 1]);
    }
  }

  /** The counted milliseconds are the measured time up to 999 microseconds for each pass. */
  lemma {:induction false} TicksMeasureTime(start: Timeval, readings: seq<Reading>)
    requires readings != [] && MonotoneFrom(start, readings)
    ensures var elapsed := Micros(readings[|readings| - 1].seen) - Micros(start);
      -999 * |readings| <= 1000 * SumOfTicks(start, readings) - (elapsed - Unmeasured(readings)) <= 999 * |readings|
    ensures Unmeasured(readings) >= 0
  {
    var before, last := readings[..|readings| - 1], readings[|readings| - 1];
    TickError(LastStamp(start, before), last.seen);
    if before != [] {
      TicksMeasureTime(start, before);
    }
  }

  /** What the passes have rounded up, less what they have rounded down. */
  function SumOfRounding(start: Timeval, readings: seq<Reading>): int {
    if readings == [] then 0
    else
      var before := readings[..|readings| - 1];
      SumOfRounding(start, before) + Rounding(LastStamp(start, before), readings[|readings| - 1].seen)
  }

  /** The time the passes account for: what has passed until the last of them, less what went unmeasured, as rounded. */
  function Counted(start: Timeval, readings: seq<Reading>): int
    requires readings != []
  {
    Micros(readings[|readings| - 1].seen) - Micros(start) - Unmeasured(readings) + SumOfRounding(start, readings)
  }

  lemma {:induction false} TicksExactly(start: Timeval, readings: seq<Reading>)
    requires readings != [] && MonotoneFrom(start, readings)
    ensures 1000 * SumOfTicks(start, readings) == Counted(start, readings)
  {
    var before, last := readings[..|readings| - 1], readings[|readings| - 1];
    TickExactly(LastStamp(start, before), last.seen);
    hide MsTimeDiff, Rounding, Micros, NotAfter;
    if before == [] {
      assert SumOfTicks(start, before) == SumOfRounding(start, before) == 0;
    } else {
      TicksExactly(start, before);
    }
  }

  /** With one instant per pass nothing goes unmeasured. */
  lemma {:induction false} OneInstantMeasuresAll(readings: seq<Reading>)
    requires forall k :: 0 <= k < |readings| ==> readings[k].seen == readings[k].stored
    ensures Unmeasured(readings) == 0
  {
    if |readings| > 1 {
      OneInstantMeasuresAll(readings[..|readings| - 1]);
    }
  }

  /** So with one instant per pass the sum of ticks is the elapsed time up to 999 microseconds a pass. */
  lemma OneInstantError(start: Timeval, readings: seq<Reading>)
    requires readings != [] && MonotoneFrom(start, readings)
    requires forall k :: 0 <= k < |readings| ==> readings[k].seen == readings[k].stored
    ensures var elapsed := Micros(LastStamp(start, readings)) - Micros(start);
      -999 * |readings| <= 1000 * SumOfTicks(start, readings) - elapsed <= 999 * |readings|
  {
    TicksMeasureTime(start, readings);
    OneInstantMeasuresAll(readings);
  }

  // ----- the same event inside a run of the scheduler -----

  /** How a delayed event entered the list, and what the passes over it have read since. */
  datatype Life = Unborn | Life(added: DelayedEvent, readings: seq<Reading>)

  ghost function Position(list: seq<DelayedEvent>, id: nat): (k: nat)
    requires Holds(list, id)
    ensures k < |list| && list[k].node == id
  {
    var k :| 0 <= k < |list| && list[k].node == id;
    k
  }

  ghost function LifeOf(ops: seq<Op>, id: nat): Life {
    if ops == [] then Unborn
    else
      var before, op := ops[..|ops| - 1], ops[|ops| - 1];
      var s := Run(before);
      match op
      case AddDelayed(e, delay, now) =>
        if id == s.nextNode then Life(DelayedEvent(id, e, delay, now), []) else LifeOf(before, id)
      case UpdateDelayed(clock) =>
        if Holds(s.delayed, id) && LifeOf(before, id).Life? then
          Life(LifeOf(before, id).added, LifeOf(before, id).readings + [clock(Position(s.delayed, id))])
        else LifeOf(before, id)
      case _ => LifeOf(before, id)
  }

  ghost predicate Tracks(list: seq<DelayedEvent>, life: Life, id: nat) {
    Holds(list, id) ==>
      life.Life? && life.added.node == id && list[Position(list, id)] == Aged(life.added, life.readings)
  }

  lemma PositionUnique(list: seq<DelayedEvent>, k: nat)
    requires DistinctNodes(list) && k < |list|
    ensures Holds(list, list[k].node) && Position(list, list[k].node) == k
  {
    assert list[k].node == list[k].node;
  }

  lemma AgedOnce(life: Life, r: Reading)
    requires life.Life?
    ensures Aged(life.added, life.readings + [r]) == Tick(Aged(life.added, life.readings), r)
  {
    assert (life.readings + [r])[..|life.readings|] == life.readings;
  }

  lemma TracksThroughPass(before: seq<Op>, op: Op, id: nat)
    requires NoTerminate(before) && op.UpdateDelayed?
    requires Tracks(Run(before).delayed, LifeOf(before, id), id)
    ensures Tracks(Ticked(Run(before).delayed, op.clock), LifeOf(before + [op], id), id)
    ensures Tracks(Run(before + [op]).delayed, LifeOf(before + [op], id), id)
  {
    var ops := before + [op];
    assert ops[..|ops| - 1] == before;
    NodesDistinct(before);
    var s := Run(before);
    var list := Ticked(s.delayed, op.clock);
    SweptNodes(list, id);
    if Holds(list, id) {
      var k := Position(list, id);
      assert s.delayed[k].node == id;
      PositionUnique(s.delayed, k);
      AgedOnce(LifeOf(before, id), op.clock(k));
    }
    if Holds(Swept(list), id) {
      var k := Position(Swept(list), id);
      SweptFromList(list, k);
      var j :| 0 <= j < |list| && list[j] == Swept(list)[k];
      PositionUnique(list, j);
    }
  }

  lemma SweptFromList(list: seq<DelayedEvent>, k: nat)
    requires k < |Swept(list)|
    ensures exists j :: 0 <= j < |list| && list[j] == Swept(list)[k]
  {
    assert Swept(list)[k] in Swept(list);
    assert Swept(list)[k] in list;
  }

  /** In every run, an event in the list is the one that was added, aged by what the passes read. */
  lemma {:induction false} LifeTracks(ops: seq<Op>, id: nat)
    requires NoTerminate(ops)
    ensures Tracks(Run(ops).delayed, LifeOf(ops, id), id)
  {
    if ops != [] {
      var before, op := ops[..|ops| - 1], ops[|ops| - 1];
      assert ops == before + [op];
      LifeTracks(before, id);
      NodesDistinct(before);
      NodesDistinct(ops);
      if op.UpdateDelayed? {
        TracksThroughPass(before, op, id);
      } else if Holds(Run(ops).delayed, id) {
        var k := Position(Run(ops).delayed, id);
        if k < |Run(before).delayed| {
          assert Run(ops).delayed[k] == Run(before).delayed[k];
          PositionUnique(Run(before).delayed, k);
        }
      }
    }
  }

  /**
   When a pass over an event in the list delivers it, exactly: as soon as the time its passes account for
   reaches its delay. So it is early as far as their rounding exceeds what they left unmeasured.
   */
  lemma DeliveryExactly(before: seq<Op>, op: Op, id: nat)
    requires NoTerminate(before) && op.UpdateDelayed? && Holds(Run(before).delayed, id)
    requires var life := LifeOf(before + [op], id); life.Life? ==> MonotoneFrom(life.added.updated, life.readings)
    ensures var life := LifeOf(before + [op], id);
      && life.Life? && life.readings != []
      && (Delivers(Run(before), op, id) <==>
            Counted(life.added.updated, life.readings) >= 1000 * life.added.msDelay)
  {
    var life := LifeOf(before + [op], id);
    var s := Run(before);
    LifeTracks(before, id);
    NodesDistinct(before);
    TracksThroughPass(before, op, id);
    var k := Position(s.delayed, id);
    PositionUnique(s.delayed, k);
    PositionUnique(Ticked(s.delayed, op.clock), k);
    assert (before + [op])[..|before|] == before;
    assert life.Life? && life.readings != [];
    PassFate(s, op, k);
    RemainingDelay(life.added, life.readings);
    TicksExactly(life.added.updated, life.readings);
  }

  lemma CountedAtMost(start: Timeval, readings: seq<Reading>)
    requires readings != [] && MonotoneFrom(start, readings)
    ensures Counted(start, readings) <=
      Micros(readings[|readings| - 1].seen) - Micros(start) + 999 * |readings|
  {
    TicksMeasureTime(start, readings);
    TicksExactly(start, readings);
    hide MonotoneFrom, SumOfTicks;
  }

  /**
   No event is delivered early, beyond the rounding of its passes: whenever a pass delivers an event, at
   least `1000 * delay - 999 * passes` microseconds have gone by since it was added.
   */
  lemma NeverEarly(before: seq<Op>, op: Op, id: nat)
    requires NoTerminate(before) && Delivers(Run(before), op, id)
    requires var life := LifeOf(before + [op], id); life.Life? ==> MonotoneFrom(life.added.updated, life.readings)
    ensures var life := LifeOf(before + [op], id);
      && life.Life? && life.readings != []
      && Micros(life.readings[|life.readings| - 1].seen) - Micros(life.added.updated)
           >= 1000 * life.added.msDelay - 999 * |life.readings|
  {
    var life := LifeOf(before + [op], id);
    hide LifeOf, Run, Counted, MonotoneFrom;
    assert Holds(Run(before).delayed, id);
    DeliveryExactly(before, op, id);
    CountedAtMost(life.added.updated, life.readings);
  }

  /**
   Nor is it forgotten: an event still counting down has seen less than its delay, up to rounding and
   unmeasured time.
   */
  lemma NeverOverdue(ops: seq<Op>, id: nat)
    requires NoTerminate(ops) && Holds(Run(ops).delayed, id)
    requires !Run(ops).delayed[Position(Run(ops).delayed, id)].Execute()
    requires var life := LifeOf(ops, id);
      life.Life? ==> life.readings != [] && MonotoneFrom(life.added.updated, life.readings)
    ensures var life := LifeOf(ops, id);
      && life.Life?
      && Micros(life.readings[|life.readings| - 1].seen) - Micros(life.added.updated)
           < 1000 * life.added.msDelay + 999 * |life.readings| + Unmeasured(life.readings)
  {
    var life := LifeOf(ops, id);
    LifeTracks(ops, id);
    RemainingDelay(life.added, life.readings);
    TicksMeasureTime(life.added.updated, life.readings);
  }

  /** A clock that reads one instant throughout a pass. */
  function AtOnce(now: Timeval): nat -> Reading {
    (_: nat) => Reading(now, now)
  }

  /** One pass over an event that becomes due. */
  lemma PassOnDue(s: State, e: Event, a: Timeval, b: Timeval)
    requires s.delayed == [DelayedEvent(0, e, 1, a)] && MsTimeDiff(a, b) == 1
    ensures var pass := UpdateDelayed(AtOnce(b));
      CountNode(PushedNodes(s, pass), 0) == 1 && Step(s, pass).queue == s.queue + [e]
  {
    var pass, due := UpdateDelayed(AtOnce(b)), DelayedEvent(0, e, 0, b);
    hide MsTimeDiff, Swept;
    assert Ticked(s.delayed, pass.clock) == [due];
    assert [due][..0] == [] && Expired([due]) == [due];
    CountShort(due, due, 0);
    assert Events([due]) == [e];
    hide Ticked, Expired, CountNode;
  }

  lemma OneAdded(e: Event, a: Timeval)
    ensures var ops := [] + [AddDelayed(e, 1, a)];
      Run(ops) == State(true, [], [DelayedEvent(0, e, 1, a)], 1) && Pushes(ops, 0) == 0
  {
    var add := AddDelayed(e, 1, a);
    hide CountNode;
    OneOpMore([], add, 0);
    NothingPushed(INITIAL, add, 0);
    assert Run([]) == INITIAL && Pushes([], 0) == 0;
    hide Run, Pushes, PushedNodes;
  }

  /** It happens: an event with a delay of a millisecond is delivered one microsecond after it was added. */
  lemma DeliveredEarly(e: Event)
    ensures var a, b := Timeval(0, 999999), Timeval(1, 0);
      var ops := [] + [AddDelayed(e, 1, a)] + [UpdateDelayed(AtOnce(b))];
      Micros(b) - Micros(a) == 1 && Pushes(ops, 0) == 1 && Run(ops).queue == [e]
  {
    hide MsTimeDiff, CountNode, PushedNodes, Step, Run, Pushes, AtOnce;
    var a, b := Timeval(0, 999999), Timeval(1, 0);
    var added, pass := [] + [AddDelayed(e, 1, a)], UpdateDelayed(AtOnce(b));
    TickCanRunAhead();
    OneAdded(e, a);
    OneOpMore(added, pass, 0);
    PassOnDue(Run(added), e, a, b);
    assert [] + [e] == [e];
  }

  lemma NothingPushed(s: State, op: Op, id: nat)
    requires !op.UpdateDelayed?
    ensures CountNode(PushedNodes(s, op), id) == 0
  {
  }
}
