/**
 * The firmware itself: the volatile globals and the registers the handlers touch are the
 * fields of one `Device`, changed in place by the interrupt handlers and by the main line.
 * Every method is tied to the functions of module Machine through `Snapshot()`.
 */
module Firmware {
  import opened Width
  import opened Machine
  import opened MachineFacts
  import opened Conversion

  class Device {
    var countTimer0: u32
    var echoDone: bool
    var backlightTimes: u8
    var tcnt0: u8
    var clockRunning: bool
    var overflowEnabled: bool
    var int0Enabled: bool
    var ledOn: bool

    /** The globals as a value. */
    ghost function Snapshot(): Globals
      reads this
    {
      Globals(countTimer0, echoDone, backlightTimes, tcnt0, clockRunning, overflowEnabled,
              int0Enabled, ledOn)
    }

    ghost predicate Valid()
      reads this
    {
      Consistent(Snapshot())
    }

    /** Reset (globals zeroed, Timer0 stopped, interrupts masked), then `initHCSR04` and `initBackLight`. */
    constructor ()
      ensures Valid() && !clockRunning
      ensures Snapshot() == PowerOn()
    {
      countTimer0, echoDone, tcnt0 := 0, false, 0;
      clockRunning, overflowEnabled, int0Enabled := false, false, false;
      ledOn := true;
      backlightTimes := BACKLIGHT_ON_TIMES;
    }

    // -------------------------------------------------------------- interrupt handlers

    /** ISR(TIMER0_OVF_vect): adds 255 to the count and touches nothing else. */
    method OnTimerOverflow()
      modifies this`countTimer0
      ensures countTimer0 == Wrap32(old(countTimer0) + OVERFLOW_INCREMENT)
      ensures Snapshot() == TimerOverflow(old(Snapshot()))
    {
      countTimer0 := Wrap32(countTimer0 + OVERFLOW_INCREMENT);
    }

    /** ISR(INT0_vect): the sampled level of the echo pin tells a rising from a falling edge. */
    method OnEchoEdge(high: bool)
      requires Valid()
      modifies this`clockRunning, this`overflowEnabled, this`countTimer0, this`tcnt0, this`echoDone
      ensures Valid()
      ensures high ==> clockRunning && overflowEnabled
      ensures high ==> countTimer0 == old(countTimer0) && tcnt0 == old(tcnt0) && echoDone == old(echoDone)
      ensures !high ==> !clockRunning && overflowEnabled == old(overflowEnabled)
      ensures !high ==> countTimer0 == Wrap32(old(countTimer0) + old(tcnt0)) && tcnt0 == 0 && echoDone
      ensures Snapshot() == EchoIsr(old(Snapshot()), high)
    {
      if high {
        clockRunning := true;
        overflowEnabled := true;
      } else {
        clockRunning := false;
        countTimer0 := Wrap32(countTimer0 + tcnt0);
        tcnt0 := 0;
        echoDone := true;
      }
    }

    /** ISR(INT1_vect): a low button line re-arms the backlight countdown. */
    method OnButtonEdge(high: bool)
      requires Valid()
      modifies this`backlightTimes
      ensures Valid()
      ensures backlightTimes == if high then old(backlightTimes) else BACKLIGHT_ON_TIMES
      ensures Snapshot() == ButtonIsr(old(Snapshot()), high)
    {
      if !high {
        backlightTimes := BACKLIGHT_ON_TIMES;
      }
    }

    /** One Timer0 clock; the wrap of TCNT0 runs the overflow handler when TOIE0 is set. */
    method OnTick()
      requires Valid()
      modifies this`tcnt0, this`countTimer0
      ensures Valid()
      ensures clockRunning ==> tcnt0 == (old(tcnt0) + 1) % COUNTER_RANGE
      ensures !clockRunning ==> tcnt0 == old(tcnt0)
      ensures countTimer0 == if clockRunning && overflowEnabled && old(tcnt0) == 255
                             then Wrap32(old(countTimer0) + OVERFLOW_INCREMENT) else old(countTimer0)
      ensures Snapshot() == CounterTick(old(Snapshot()))
    {
      if clockRunning {
        if tcnt0 < 255 {
          tcnt0 := tcnt0 + 1;
        } else {
          tcnt0 := 0;
          if overflowEnabled {
            OnTimerOverflow();
          }
        }
      }
    }

    /** Delivers one event: INT0 reaches its handler only while it is enabled. */
    method Handle(e: Event)
      requires Valid()
      modifies this
      ensures Valid()
      ensures Snapshot() == Step(old(Snapshot()), e)
    {
      match e
      case Tick => OnTick();
      case EchoEdge(high) =>
        if int0Enabled {
          OnEchoEdge(high);
        }
      case ButtonEdge(high) => OnButtonEdge(high);
    }

    // -------------------------------------------------------------- getDistance

    /** Arms a measurement with interrupts masked: INT0 on any change, flag and count cleared. */
    method ArmEcho()
      requires Valid()
      modifies this`int0Enabled, this`echoDone, this`countTimer0
      ensures Valid()
      ensures int0Enabled && !echoDone && countTimer0 == 0
      ensures Snapshot() == Arm(old(Snapshot()))
    {
      int0Enabled := true;
      echoDone := false;
      countTimer0 := 0;
    }

    /** Disables INT0 once the echo is over. */
    method DisarmEcho()
      requires Valid()
      modifies this`int0Enabled
      ensures Valid() && !int0Enabled
      ensures Snapshot() == Disarm(old(Snapshot()))
    {
      int0Enabled := false;
    }

    /**
     * `getDistance`: arm, wait until the falling edge has been handled, disarm, convert.
     * `events` is what happens after the arming; the wait ends at its first falling edge.
     */
    method GetDistance(events: seq<Event>) returns (distance: u32)
      requires Valid() && !clockRunning
      requires Completes(events)
      modifies this
      ensures Valid() && !clockRunning && echoDone && !int0Enabled
      ensures Snapshot() == Disarm(Spin(Arm(old(Snapshot())), events))
      ensures countTimer0 == Accumulated(EchoTicks(events))
      ensures distance == Distance(countTimer0)
      ensures backlightTimes == if Pressed(events) then BACKLIGHT_ON_TIMES else old(backlightTimes)
      ensures ledOn == old(ledOn)
    {
      ghost var measured := Spin(Arm(old(Snapshot())), events);
      ArmEcho();
      var i := 0;
      while !echoDone
        invariant 0 <= i <= |events|
        invariant Valid() && int0Enabled
        invariant Spin(Snapshot(), events[i..]) == measured
        invariant !echoDone ==> Completes(events[i..])
        decreases |events| - i
      {
        assert events[i..][0] == events[i] && events[i..][1..] == events[i + 1..];
        Handle(events[i]);
        if !echoDone {
          CompletesTail(events[i..]);
        }
        i := i + 1;
      }
      DisarmEcho();
      distance := Distance(countTimer0);
      MeasureFromIdle(old(Snapshot()), events);
    }

    // -------------------------------------------------------------- main loop

    /** The backlight countdown at the end of each main-loop iteration. */
    method UpdateBacklight()
      requires Valid()
      modifies this`ledOn, this`backlightTimes
      ensures Valid()
      ensures old(backlightTimes) != 0 ==> ledOn && backlightTimes == old(backlightTimes) - 1
      ensures old(backlightTimes) == 0 ==> !ledOn && backlightTimes == 0
      ensures Snapshot() == ServiceBacklight(old(Snapshot()))
    {
      if backlightTimes != 0 {
        ledOn := true;
        backlightTimes := backlightTimes - 1;
      } else {
        ledOn := false;
      }
    }

    /** One iteration of the main loop: measure, display, service the backlight. */
    method Iterate(events: seq<Event>) returns (shown: Display)
      requires Valid() && !clockRunning
      requires Completes(events)
      modifies this
      ensures Valid() && !clockRunning
      ensures shown == Render(Distance(Accumulated(EchoTicks(events))))
      ensures Snapshot() == Iteration(old(Snapshot()), events)
      ensures Pressed(events) ==> ledOn && backlightTimes == BACKLIGHT_ON_TIMES - 1
      ensures !Pressed(events) ==> ledOn == (old(backlightTimes) != 0)
      ensures !Pressed(events) ==>
                backlightTimes == if old(backlightTimes) != 0 then old(backlightTimes) - 1 else 0
    {
      var distance := GetDistance(events);
      shown := Render(distance);
      UpdateBacklight();
    }

    /**
     * The first |traces| iterations of the endless main loop, one event trace each.
     * Returns what each iteration displays and whether it left the backlight on.
     */
    method Run(traces: seq<seq<Event>>) returns (shown: seq<Display>, leds: seq<bool>)
      requires Valid() && !clockRunning
      requires forall i :: 0 <= i < |traces| ==> Completes(traces[i])
      modifies this
      ensures Valid() && !clockRunning
      ensures |shown| == |traces| && |leds| == |traces|
      ensures forall i :: 0 <= i < |traces| ==>
                shown[i] == Render(Distance(Accumulated(EchoTicks(traces[i]))))
      ensures forall i :: 0 <= i < |traces| && Pressed(traces[i]) ==> leds[i]
      ensures (forall i :: 0 <= i < |traces| ==> !Pressed(traces[i])) ==>
                forall i :: 0 <= i < |traces| ==> leds[i] == (i < old(backlightTimes))
    {
      shown, leds := [], [];
      ghost var start := backlightTimes;
      ghost var quiet := forall i :: 0 <= i < |traces| ==> !Pressed(traces[i]);
      var k := 0;
      while k < |traces|
        invariant 0 <= k <= |traces|
        invariant Valid() && !clockRunning
        invariant |shown| == k && |leds| == k
        invariant forall i :: 0 <= i < k ==>
                    shown[i] == Render(Distance(Accumulated(EchoTicks(traces[i]))))
        invariant forall i :: 0 <= i < k && Pressed(traces[i]) ==> leds[i]
        invariant quiet ==> backlightTimes == if k <= start then start - k else 0
        invariant quiet ==> forall i :: 0 <= i < k ==> leds[i] == (i < start)
      {
        var s := Iterate(traces[k]);
        shown := shown + [s];
        leds := leds + [ledOn];
        k := k + 1;
      }
    }
  }
}
