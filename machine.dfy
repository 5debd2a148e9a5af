/**
 * The firmware's shared globals as one value, and every way they change: the three
 * interrupt handlers, the Timer0 hardware counter, the arming and disarming done by
 * `getDistance`, its busy-wait, and the backlight service at the end of each main-loop
 * iteration. Register bits are abstracted to booleans: the Timer0 clock select (CS00),
 * the overflow interrupt enable (TOIE0), the INT0 enable and the backlight LED on PD6.
 * Each handler runs to completion, so an interrupt is one atomic step.
 */
module Machine {
  import opened Width

  /** BACKLIGHT_ON_TIMES: main-loop iterations the backlight stays on after a trigger. */
  const BACKLIGHT_ON_TIMES: u8 := 100
  /** What the Timer0 overflow handler adds to countTimer0 each time TCNT0 wraps. */
  const OVERFLOW_INCREMENT: nat := 255
  /** The number of counter ticks between two wraps of the 8-bit TCNT0. */
  const COUNTER_RANGE: nat := 256

  /** Something that happens while the main line runs. */
  datatype Event =
    | Tick                   // one Timer0 clock (prescaler 1, 8 MHz)
    | EchoEdge(high: bool)   // a logical change on INT0 (PD2); `high` is the level the handler reads
    | ButtonEdge(high: bool) // a logical change on INT1 (PD3); `high` is the level the handler reads

  datatype Globals = Globals(
    countTimer0: u32,       // volatile uint32_t countTimer0
    echoDone: bool,         // volatile uint8_t echoDone, only ever 0 or 1
    backlightTimes: u8,     // volatile uint8_t backlightTimes
    tcnt0: u8,              // the TCNT0 register
    clockRunning: bool,     // CS00 set in TCCR0B
    overflowEnabled: bool,  // TOIE0 set in TIMSK
    int0Enabled: bool,      // INT0 set in GIMSK
    ledOn: bool)            // PD6 driven low

  /** The state after reset and `initHCSR04` / `initBackLight`. */
  function PowerOn(): Globals
  {
    Globals(0, false, BACKLIGHT_ON_TIMES, 0, false, false, false, true)
  }

  /** What every reachable state satisfies. */
  predicate Consistent(g: Globals)
  {
    && g.backlightTimes <= BACKLIGHT_ON_TIMES
    && (g.clockRunning ==> g.overflowEnabled)
    && (!g.clockRunning ==> g.tcnt0 == 0)
  }

  /** Between two measurements the Timer0 clock is stopped. */
  predicate Idle(g: Globals)
  {
    Consistent(g) && !g.clockRunning
  }

  // ---------------------------------------------------------------- interrupt handlers

  /** ISR(TIMER0_OVF_vect): adds 255 to the count, modulo 2^32, and changes nothing else. */
  function TimerOverflow(g: Globals): (r: Globals)
    ensures (r.countTimer0 - g.countTimer0 - OVERFLOW_INCREMENT) % TWO_32 == 0
    ensures r.(countTimer0 := g.countTimer0) == g
  {
    g.(countTimer0 := Wrap32(g.countTimer0 + OVERFLOW_INCREMENT))
  }

  /** ISR(INT0_vect): a high level means a rising edge, a low level a falling edge. */
  function EchoIsr(g: Globals, high: bool): (r: Globals)
    ensures Consistent(g) ==> Consistent(r)
    ensures r.clockRunning == high && (r.echoDone <==> g.echoDone || !high)
    ensures r.overflowEnabled == (high || g.overflowEnabled)
    ensures high ==> r.countTimer0 == g.countTimer0 && r.tcnt0 == g.tcnt0
    ensures !high ==> r.tcnt0 == 0 && (r.countTimer0 - g.countTimer0 - g.tcnt0) % TWO_32 == 0
    ensures r.backlightTimes == g.backlightTimes && r.ledOn == g.ledOn && r.int0Enabled == g.int0Enabled
  {
    if high then
      g.(clockRunning := true, overflowEnabled := true)
    else
      g.(clockRunning := false, countTimer0 := Wrap32(g.countTimer0 + g.tcnt0), tcnt0 := 0,
         echoDone := true)
  }

  /** ISR(INT1_vect): a low level on the button line re-arms the backlight countdown. */
  function ButtonIsr(g: Globals, high: bool): (r: Globals)
    ensures r.backlightTimes == if high then g.backlightTimes else BACKLIGHT_ON_TIMES
    ensures r.(backlightTimes := g.backlightTimes) == g
  {
    if high then g else g.(backlightTimes := BACKLIGHT_ON_TIMES)
  }

  /** One Timer0 clock: TCNT0 counts while the clock runs; its wrap raises the overflow interrupt. */
  function CounterTick(g: Globals): (r: Globals)
    ensures Consistent(g) ==> Consistent(r)
    ensures !g.clockRunning ==> r == g
    ensures g.clockRunning ==> r.tcnt0 == (g.tcnt0 + 1) % COUNTER_RANGE
    ensures r.countTimer0 == if g.clockRunning && g.tcnt0 == 255 && g.overflowEnabled
                             then Wrap32(g.countTimer0 + OVERFLOW_INCREMENT) else g.countTimer0
    ensures r.echoDone == g.echoDone && r.backlightTimes == g.backlightTimes && r.ledOn == g.ledOn
    ensures r.clockRunning == g.clockRunning && r.overflowEnabled == g.overflowEnabled
    ensures r.int0Enabled == g.int0Enabled
  {
    if !g.clockRunning then g
    else if g.tcnt0 < 255 then g.(tcnt0 := g.tcnt0 + 1)
    else if g.overflowEnabled then TimerOverflow(g.(tcnt0 := 0))
    else g.(tcnt0 := 0)
  }

  /** One event; INT0 only reaches its handler while it is enabled, INT1 always (after initBackLight). */
  function Step(g: Globals, e: Event): Globals
  {
    match e
    case Tick => CounterTick(g)
    case EchoEdge(high) => if g.int0Enabled then EchoIsr(g, high) else g
    case ButtonEdge(high) => ButtonIsr(g, high)
  }

  // ---------------------------------------------------------------- getDistance

  /** main.c:132-138: enable INT0, clear the flag and the accumulated count. */
  function Arm(g: Globals): (r: Globals)
    ensures r.int0Enabled && !r.echoDone && r.countTimer0 == 0
    ensures Consistent(g) ==> Consistent(r)
    ensures r.(int0Enabled := g.int0Enabled, echoDone := g.echoDone, countTimer0 := g.countTimer0) == g
  {
    g.(int0Enabled := true, echoDone := false, countTimer0 := 0)
  }

  /** The busy-wait `while (!echoDone);`: events are handled until the flag is set. */
  function Spin(g: Globals, events: seq<Event>): (r: Globals)
    ensures g.echoDone ==> r == g
    ensures r.int0Enabled == g.int0Enabled
    ensures Consistent(g) ==> Consistent(r)
    ensures g.int0Enabled && Completes(events) ==> r.echoDone
    decreases |events|
  {
    if g.echoDone || |events| == 0 then g
    else
      assert events[0] != EchoEdge(false) && Completes(events) ==> Completes(events[1..]) by {
        if events[0] != EchoEdge(false) && Completes(events) {
          CompletesTail(events);
        }
      }
      Spin(Step(g, events[0]), events[1..])
  }

  /** main.c:160: disable INT0. */
  function Disarm(g: Globals): (r: Globals)
    ensures !r.int0Enabled && r.(int0Enabled := g.int0Enabled) == g
  {
    g.(int0Enabled := false)
  }

  /** True when the trace holds a falling echo edge, so that the busy-wait ends. */
  predicate Completes(events: seq<Event>)
  {
    exists i :: 0 <= i < |events| && events[i] == EchoEdge(false)
  }

  lemma CompletesTail(events: seq<Event>)
    requires Completes(events) && events[0] != EchoEdge(false)
    ensures Completes(events[1..])
  {
    var i :| 0 <= i < |events| && events[i] == EchoEdge(false);
    assert events[1..][i - 1] == events[i];
  }

  // ---------------------------------------------------------------- backlight

  /**
   * main.c:249-257: the LED is on exactly when one unit of the countdown is used up; at 0
   * the LED goes off and the countdown stays at 0.
   */
  function ServiceBacklight(g: Globals): (r: Globals)
    ensures r.ledOn == (g.backlightTimes != 0)
    ensures r.backlightTimes + (if r.ledOn then 1 else 0) == g.backlightTimes
    ensures r.countTimer0 == g.countTimer0 && r.echoDone == g.echoDone && r.tcnt0 == g.tcnt0
    ensures r.clockRunning == g.clockRunning && r.overflowEnabled == g.overflowEnabled
    ensures r.int0Enabled == g.int0Enabled
  {
    if g.backlightTimes != 0 then g.(ledOn := true, backlightTimes := g.backlightTimes - 1)
    else g.(ledOn := false)
  }

  /** One main-loop iteration: measure with `getDistance`, then service the backlight. */
  function Iteration(g: Globals, events: seq<Event>): Globals
  {
    ServiceBacklight(Disarm(Spin(Arm(g), events)))
  }

  /** `k` consecutive backlight services with no button press in between. */
  function ServiceTimes(g: Globals, k: nat): Globals
    decreases k
  {
    if k == 0 then g else ServiceTimes(ServiceBacklight(g), k - 1)
  }

  // ---------------------------------------------------------------- reference definitions

  /**
   * The length of the echo pulse in counter ticks, read off the trace alone: the ticks
   * after the first rising edge, up to the first falling edge. `risen` says whether the
   * rising edge has already been seen.
   */
  function TicksFrom(events: seq<Event>, risen: bool): nat
    decreases |events|
  {
    if |events| == 0 then 0
    else match events[0]
      case Tick => (if risen then 1 else 0) + TicksFrom(events[1..], risen)
      case EchoEdge(high) => if high then TicksFrom(events[1..], true) else 0
      case ButtonEdge(_) => TicksFrom(events[1..], risen)
  }

  function EchoTicks(events: seq<Event>): nat
  {
    TicksFrom(events, false)
  }

  /** True when the button line is seen low before the echo falls. */
  predicate Pressed(events: seq<Event>)
    decreases |events|
  {
    if |events| == 0 then false
    else match events[0]
      case ButtonEdge(high) => !high || Pressed(events[1..])
      case EchoEdge(high) => high && Pressed(events[1..])
      case Tick => Pressed(events[1..])
  }

  /** The count the handlers accumulate for an echo of `ticks` counter ticks. */
  function Accumulated(ticks: nat): u32
  {
    Wrap32(OVERFLOW_INCREMENT * (ticks / COUNTER_RANGE) + ticks % COUNTER_RANGE)
  }

  /** `k` consecutive clock ticks. */
  function Ticks(k: nat): (r: seq<Event>)
    ensures |r| == k && forall i :: 0 <= i < k ==> r[i] == Tick
  {
    seq(k, _ => Tick)
  }
}
