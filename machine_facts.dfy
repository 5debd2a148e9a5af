/**
 * What the interrupt handlers and the main line guarantee together: the state invariant,
 * the tick count a measurement accumulates, who may set the completion flag, and the
 * backlight schedule.
 */
module MachineFacts {
  import opened Width
  import opened Machine
  import opened Conversion

  // ---------------------------------------------------------------- single steps

  /** Every event, and every main-line update, keeps a reachable state reachable. */
  lemma StepKeepsConsistent(g: Globals, e: Event)
    requires Consistent(g)
    ensures Consistent(Step(g, e))
    ensures Consistent(Arm(g)) && Consistent(Disarm(g)) && Consistent(ServiceBacklight(g))
  {
  }

  /** Only a falling echo edge, delivered while INT0 is enabled, sets the completion flag. */
  lemma OnlyFallingEdgeSetsDone(g: Globals, e: Event)
    requires !g.echoDone && Step(g, e).echoDone
    ensures e == EchoEdge(false) && g.int0Enabled
  {
  }

  /** Once set, the completion flag stays set until the next `Arm`. */
  lemma DoneStaysDone(g: Globals, e: Event)
    requires g.echoDone
    ensures Step(g, e).echoDone
  {
  }

  /** A rising echo edge starts the clock and leaves the count, TCNT0 and the flag alone. */
  lemma RisingEdgeOnlyStartsClock(g: Globals)
    requires g.int0Enabled
    ensures var r := Step(g, EchoEdge(true));
      && r.clockRunning && r.overflowEnabled
      && r.countTimer0 == g.countTimer0 && r.tcnt0 == g.tcnt0 && r.echoDone == g.echoDone
  {
  }

  /** A falling echo edge stops the clock, adds TCNT0 to the count, clears TCNT0 and sets the flag. */
  lemma FallingEdgeFinalizes(g: Globals)
    requires g.int0Enabled
    ensures var r := Step(g, EchoEdge(false));
      && !r.clockRunning && r.tcnt0 == 0 && r.echoDone
      && r.countTimer0 == Wrap32(g.countTimer0 + g.tcnt0)
  {
  }

  // ---------------------------------------------------------------- one measurement

  /** The state during the busy-wait after `ticks` ticks of the echo pulse. */
  predicate Measuring(g: Globals, ticks: nat)
  {
    && Consistent(g) && g.int0Enabled && !g.echoDone
    && g.tcnt0 == ticks % COUNTER_RANGE
    && g.countTimer0 == Wrap32(OVERFLOW_INCREMENT * (ticks / COUNTER_RANGE))
    && (!g.clockRunning ==> ticks == 0)
  }

  /** One running tick moves a measuring state to the next tick count. */
  lemma TickCounts(g: Globals, ticks: nat)
    requires Measuring(g, ticks) && g.clockRunning
    ensures Measuring(Step(g, Tick), ticks + 1)
  {
    var q := ticks / COUNTER_RANGE;
    if g.tcnt0 == 255 {
      assert (ticks + 1) / COUNTER_RANGE == q + 1;
      WrapAdd(OVERFLOW_INCREMENT * q, OVERFLOW_INCREMENT);
    } else {
      assert (ticks + 1) / COUNTER_RANGE == q;
    }
  }

  /**
   * The busy-wait ends in an idle state with the flag set, and the count it leaves is the
   * accumulation of every tick of the echo pulse.
   */
  lemma {:induction false} SpinCounts(g: Globals, ticks: nat, events: seq<Event>)
    requires Measuring(g, ticks) && Completes(events)
    ensures var r := Spin(g, events);
      && r.echoDone && r.int0Enabled && Idle(r)
      && r.countTimer0 == Accumulated(ticks + TicksFrom(events, g.clockRunning))
    decreases |events|
  {
    var rest := events[1..];
    var g' := Step(g, events[0]);
    assert Spin(g, events) == Spin(g', rest);
    match events[0]
    case Tick =>
      CompletesTail(events);
      if g.clockRunning {
        TickCounts(g, ticks);
        SpinCounts(g', ticks + 1, rest);
      } else {
        SpinCounts(g', ticks, rest);
      }
    case EchoEdge(high) =>
      if high {
        CompletesTail(events);
        SpinCounts(g', ticks, rest);
      } else {
        WrapAdd(OVERFLOW_INCREMENT * (ticks / COUNTER_RANGE), ticks % COUNTER_RANGE);
      }
    case ButtonEdge(_) =>
      CompletesTail(events);
      SpinCounts(g', ticks, rest);
  }

  /** During the busy-wait the countdown is re-armed exactly when the button is seen low. */
  lemma {:induction false} SpinBacklight(g: Globals, events: seq<Event>)
    requires g.int0Enabled && !g.echoDone
    ensures Spin(g, events).backlightTimes == if Pressed(events) then BACKLIGHT_ON_TIMES else g.backlightTimes
    ensures Spin(g, events).ledOn == g.ledOn
    decreases |events|
  {
    if |events| > 0 {
      var g' := Step(g, events[0]);
      assert Spin(g, events) == Spin(g', events[1..]);
      match events[0]
      case Tick =>
        SpinBacklight(g', events[1..]);
      case EchoEdge(high) =>
        if high { SpinBacklight(g', events[1..]); }
      case ButtonEdge(_) =>
        SpinBacklight(g', events[1..]);
    }
  }

  /**
   * One `getDistance` from an idle state: arm, wait for the falling edge, disarm. The
   * count it leaves is fixed by the echo pulse alone, whatever came before.
   */
  lemma MeasureFromIdle(g: Globals, events: seq<Event>)
    requires Idle(g) && Completes(events)
    ensures var r := Disarm(Spin(Arm(g), events));
      && Idle(r) && r.echoDone && !r.int0Enabled
      && r.countTimer0 == Accumulated(EchoTicks(events))
      && r.backlightTimes == (if Pressed(events) then BACKLIGHT_ON_TIMES else g.backlightTimes)
      && r.ledOn == g.ledOn
  {
    assert Measuring(Arm(g), 0);
    SpinCounts(Arm(g), 0, events);
    SpinBacklight(Arm(g), events);
  }

  lemma {:induction false} TicksFromTicks(k: nat, rest: seq<Event>)
    ensures TicksFrom(Ticks(k) + rest, true) == k + TicksFrom(rest, true)
    decreases k
  {
    var s := Ticks(k) + rest;
    if k == 0 {
      assert s == rest;
    } else {
      assert s[0] == Tick;
      assert s[1..] == Ticks(k - 1) + rest;
      assert TicksFrom(s, true) == 1 + TicksFrom(s[1..], true);
      TicksFromTicks(k - 1, rest);
    }
  }

  /**
   * A clean echo: a rising edge, `n` full wraps of TCNT0 plus `v` further ticks, then the
   * falling edge. The count is 255 per wrap plus the residual counter value.
   */
  lemma EchoPulseCount(g: Globals, n: nat, v: nat)
    requires Idle(g) && v < COUNTER_RANGE
    ensures var events := [EchoEdge(true)] + Ticks(COUNTER_RANGE * n + v) + [EchoEdge(false)];
      Disarm(Spin(Arm(g), events)).countTimer0 == Wrap32(OVERFLOW_INCREMENT * n + v)
  {
    var k := COUNTER_RANGE * n + v;
    var events := [EchoEdge(true)] + Ticks(k) + [EchoEdge(false)];
    assert events[|events| - 1] == EchoEdge(false);
    MeasureFromIdle(g, events);
    assert events[1..] == Ticks(k) + [EchoEdge(false)];
    TicksFromTicks(k, [EchoEdge(false)]);
    assert EchoTicks(events) == k;
    assert k / COUNTER_RANGE == n && k % COUNTER_RANGE == v;
  }

  /**
   * The overflow handler adds 255 where 256 ticks have passed, so an echo of `ticks` ticks
   * is counted one tick short per wrap of TCNT0.
   */
  lemma AccumulatedUndercounts(ticks: nat)
    ensures Accumulated(ticks) == Wrap32(ticks - ticks / COUNTER_RANGE)
    ensures COUNTER_RANGE <= ticks ==> Accumulated(ticks) < ticks
  {
    var q, m := ticks / COUNTER_RANGE, ticks % COUNTER_RANGE;
    assert ticks == COUNTER_RANGE * q + m;
    assert OVERFLOW_INCREMENT * q + m == ticks - q;
  }

  /**
   * An echo of about 38 ms, the pulse the sensor returns when nothing reflects, lasts
   * 304000 ticks at 8 MHz. It accumulates a count of 302813, which the firmware's wrapped
   * conversion turns into 1070 mm: shown as 107.0 cm, in range. The exact distance of that
   * count is 6439 mm, out of range.
   */
  lemma LongEchoShownInRange()
    ensures Accumulated(304000) == 302813
    ensures Distance(Accumulated(304000)) == 1070 && InRange(Distance(Accumulated(304000)))
    ensures Render(Distance(Accumulated(304000))) == Reading(107, 0)
    ensures ExactDistance(Accumulated(304000)) == 6439 && !InRange(ExactDistance(Accumulated(304000)))
  {
  }

  // ---------------------------------------------------------------- backlight

  /**
   * With no button press, `k` services leave the countdown at max(c - k, 0), and the
   * k-th service (counting from 1) leaves the LED on exactly when k <= c.
   */
  lemma {:induction false} BacklightSchedule(g: Globals, k: nat)
    ensures ServiceTimes(g, k).backlightTimes == if k <= g.backlightTimes then g.backlightTimes - k else 0
    ensures k > 0 ==> ServiceTimes(g, k).ledOn == (k <= g.backlightTimes)
    decreases k
  {
    if k > 0 {
      BacklightSchedule(ServiceBacklight(g), k - 1);
    }
  }

  /** After a trigger, services 1 to 100 light the LED and every later one turns it off. */
  lemma BacklightAfterTrigger(g: Globals, k: nat)
    requires g.backlightTimes == BACKLIGHT_ON_TIMES && 0 < k
    ensures ServiceTimes(g, k).ledOn <==> k <= 100
  {
    BacklightSchedule(g, k);
  }
}
