# HC-SR04 distance meter: a Dafny model of the firmware's integer core

The firmware (`Src/main.c`, for an ATtiny2313 at 8 MHz) times the echo pulse of an
HC-SR04 ultrasonic sensor with Timer0 and two edge interrupts. It converts the tick count
to millimetres and shows the result on a character LCD. A push button on INT1 keeps the
LCD backlight lit for 100 main-loop iterations.

This model covers the part of the firmware that is integer arithmetic and shared state:

- `width.dfy` (module `Width`): `uint8_t` and `uint32_t` as subset types. `Wrap32` gives
  the value a `uint32_t` holds after an assignment.
- `conversion.dfy` (module `Conversion`): the conversion
  `distance = (17013 * countTimer0) / 800000`, evaluated in 32 bits as the firmware does
  (`Distance`). It also holds the same formula without the wrap (`ExactDistance`), the
  `> 4000` range check, and the whole-centimetre/tenths split that is displayed (`Render`).
- `machine.dfy` (module `Machine`): the globals `countTimer0`, `echoDone` and
  `backlightTimes` as one value, plus the register state the handlers touch. That state is
  TCNT0 and four booleans: the Timer0 clock select, the overflow interrupt enable, the
  INT0 enable and the backlight LED. Each interrupt handler is a function. So are the
  Timer0 clock tick, the arming and disarming in `getDistance`, its busy-wait over a trace
  of events, and the backlight service. The module also has reference definitions read
  off the trace alone: `EchoTicks` (the echo's length in ticks) and `Pressed` (whether the
  button was seen low during the wait).
- `machine_facts.dfy` (module `MachineFacts`): lemmas about that machine. They cover the
  state invariant, the count a measurement accumulates, who may set `echoDone`, and the
  backlight schedule.
- `device.dfy` (module `Firmware`): class `Device`, whose fields are the globals and
  registers. The handlers, `getDistance` (with its `while (!echoDone)` loop), the backlight
  countdown and the main loop are methods that update those fields in place. Each method
  is tied to the `Machine` functions through `Snapshot()`.

Interrupt handlers run to completion and do not nest, so every interrupt is one atomic
event (`EchoEdge(level)`, `ButtonEdge(level)`), and so is every Timer0 clock step
(`Tick`), inside which the overflow handler runs. Events are delivered while the
busy-wait of `getDistance` runs, one trace per measurement. The
endless busy-wait is modelled by requiring that the event trace of a measurement contains
a falling echo edge (`Machine.Completes`). The endless `while (1)` loop is modelled by
`Device.Run` over any finite number of iterations.

Two points follow the code as written:

- The overflow handler adds 255 per wrap of TCNT0 (main.c:75). TCNT0 is an 8-bit counter,
  so 256 ticks pass between two wraps. The model keeps 255. `MachineFacts.AccumulatedUndercounts` shows what
  this causes: the count is one tick short for every wrap.
- The conversion wraps modulo 2^32 (main.c:174), because `17013` is a 16-bit `int` on AVR
  and `countTimer0` is a `uint32_t`. The model keeps the wrap (see "## Findings").

## Model

| member | source | states |
|---|---|---|
| `Conversion.Distance` | Src/main.c:174 | the firmware's 32-bit conversion never exceeds 5368 mm, the most a wrapped product divided by 800000 can give |
| `Conversion.ExactDistance` | Src/main.c:174 | the conversion without the wrap is floor(17013·count / 800000): d·800000 ≤ 17013·count < (d+1)·800000 |
| `Conversion.DistanceExactBelowWrap` | Src/main.c:174 | for counts up to 252452 the wrapped conversion equals the exact truncating one |
| `Conversion.WrapStartsAfterLastExact` | Src/main.c:174 | 17013·count fits in 32 bits exactly when count ≤ 252452 |
| `Conversion.ExactDistanceMonotone` | Src/main.c:174 | the exact conversion never decreases as the count grows |
| `Conversion.DistanceMonotoneBelowWrap` | Src/main.c:174 | the firmware's conversion never decreases as the count grows, up to count 252452 |
| `Conversion.DistanceDropsAtWrap` | Src/main.c:174 | at the wrap point the firmware's distance falls from 5368 mm (count 252452) to 0 (count 252453) |
| `Conversion.ExactInRangeIff` | Src/main.c:231 | the exact distance passes the `> 4000` check exactly when count ≤ 188138 |
| `Conversion.DistanceInRangeBelowWrap` | Src/main.c:229-231 | below the wrap point, the firmware shows a reading exactly when count ≤ 188138 and "Out of Range" otherwise |
| `Conversion.Render` | Src/main.c:231-245 | "Out of Range" exactly when `Conversion.InRange` fails, that is when distance > 4000 (so 4000 is in range). Otherwise whole·10 + tenths == distance, tenths < 10 and whole ≤ 400 |
| `Conversion.RenderInjective` | Src/main.c:243-244 | two different in-range distances never give the same display |
| `Machine.TimerOverflow` | Src/main.c:72-76 | the count grows by 255 modulo 2^32; every other global and register is unchanged |
| `Machine.EchoIsr` | Src/main.c:81-98 | the clock runs afterwards exactly when the level is high. `echoDone` is set afterwards iff it was set before or the level is low. High: count and TCNT0 unchanged. Low: TCNT0 is 0 and the count grew by the old TCNT0 (mod 2^32). The overflow interrupt is enabled afterwards iff the level is high or it was enabled before, so a falling edge leaves TOIE0 as it was. The backlight, LED and INT0 enable are untouched, and the invariant is kept |
| `Machine.ButtonIsr` | Src/main.c:103-110 | the countdown is 100 after a low level and unchanged after a high one; nothing else changes |
| `Machine.CounterTick` | Src/main.c:87-88 | a stopped clock changes nothing. A running clock advances TCNT0 mod 256. At the wrap 255 → 0 with the overflow interrupt enabled, the count grows by 255 (mod 2^32); in every other case it is unchanged. Only TCNT0 and the count change, and the invariant is kept |
| `Machine.Arm` | Src/main.c:132-138 | INT0 is enabled, `echoDone` is 0 and the count is 0; nothing else changes and the invariant is kept |
| `Machine.Spin` | Src/main.c:155-156 | with INT0 enabled, a trace holding a falling edge always ends the wait with `echoDone` set. A wait that starts with the flag set changes nothing. INT0's enable is never changed and the invariant is kept |
| `Machine.Disarm` | Src/main.c:158-160 | INT0 is disabled and nothing else changes |
| `Machine.ServiceBacklight` | Src/main.c:248-257 | the LED is on iff the countdown was non-zero. The new countdown plus one if the LED is on equals the old countdown, so it drops by one exactly when the LED is on and never underflows. Nothing else changes |
| `MachineFacts.StepKeepsConsistent` | Src/main.c:72-110 | every event, the arming, the disarming and the backlight service keep the invariant: countdown ≤ 100, clock running ⇒ overflow interrupt enabled, clock stopped ⇒ TCNT0 = 0 |
| `MachineFacts.OnlyFallingEdgeSetsDone` | Src/main.c:84-97 | if an event sets `echoDone`, it was a falling echo edge delivered while INT0 was enabled |
| `MachineFacts.DoneStaysDone` | Src/main.c:81-110 | no event clears `echoDone`; only the arming does |
| `MachineFacts.RisingEdgeOnlyStartsClock` | Src/main.c:84-89 | a rising edge starts the clock and enables the overflow interrupt; it leaves `countTimer0`, TCNT0 and `echoDone` unchanged |
| `MachineFacts.FallingEdgeFinalizes` | Src/main.c:90-97 | a falling edge stops the clock, adds TCNT0 to `countTimer0` (mod 2^32), zeroes TCNT0 and sets `echoDone` |
| `MachineFacts.TickCounts` | Src/main.c:72-76 | during a measurement, one clock tick keeps TCNT0 = ticks mod 256 and `countTimer0` = 255·(ticks div 256) mod 2^32, adding 255 on each wrap |
| `MachineFacts.SpinCounts` | Src/main.c:155-156 | the busy-wait ends with `echoDone` set and the clock stopped; the count is the 255-per-wrap accumulation of every echo tick |
| `MachineFacts.SpinBacklight` | Src/main.c:103-110 | during the wait the countdown becomes 100 exactly when the button is seen low; otherwise it and the LED are unchanged |
| `MachineFacts.MeasureFromIdle` | Src/main.c:132-160 | arm, wait and disarm leave INT0 disabled, `echoDone` set and the clock stopped. The count depends only on the echo: `Accumulated(EchoTicks(events))` |
| `MachineFacts.EchoPulseCount` | Src/main.c:72-97 | rising edge, then N wraps plus V ticks (V < 256), then falling edge: the count is (255·N + V) mod 2^32 |
| `MachineFacts.LongEchoShownInRange` | Src/main.c:174 | a 304000-tick echo (about 38 ms, the sensor's pulse when nothing reflects) accumulates count 302813. The firmware converts that to 1070 mm and shows "107.0 cm", in range. The exact distance of that count is 6439 mm, out of range |
| `MachineFacts.AccumulatedUndercounts` | Src/main.c:75 | the count for an echo of T ticks is T − T div 256 (mod 2^32), so it is strictly short of T once T ≥ 256 |
| `MachineFacts.BacklightSchedule` | Src/main.c:249-257 | with no press, k services leave the countdown at max(c − k, 0), and the k-th service leaves the LED on exactly when k ≤ c; the countdown never underflows |
| `MachineFacts.BacklightAfterTrigger` | Src/main.c:249-257 | starting from 100, exactly services 1 to 100 leave the LED on, and every later one turns it off |
| `Firmware.Device.constructor` | Src/main.c:184-198 | the snapshot equals `Machine.PowerOn()`, the power-on state: countdown 100, LED on, clock stopped, INT0 disabled, count and flag zero |
| `Firmware.Device.OnTimerOverflow` | Src/main.c:72-76 | adds 255 to `countTimer0` (mod 2^32) and changes no other field |
| `Firmware.Device.OnEchoEdge` | Src/main.c:81-98 | rising: starts the clock and the overflow interrupt; count, TCNT0 and flag unchanged. Falling: stops the clock, adds TCNT0 to the count, zeroes TCNT0, sets `echoDone` |
| `Firmware.Device.OnButtonEdge` | Src/main.c:103-110 | a low level sets `backlightTimes` to 100; a high level leaves it; no other field changes |
| `Firmware.Device.OnTick` | Src/main.c:87-88 | when the clock runs, TCNT0 advances mod 256, and its wrap adds 255 to the count when the overflow interrupt is enabled; when stopped, nothing changes |
| `Firmware.Device.Handle` | Src/main.c:81-110 | delivers an event as `Machine.Step`: echo edges reach the handler only while INT0 is enabled; the invariant is kept |
| `Firmware.Device.ArmEcho` | Src/main.c:132-138 | after arming, INT0 is enabled, `echoDone` is 0 and `countTimer0` is 0 |
| `Firmware.Device.DisarmEcho` | Src/main.c:158-160 | disables INT0 and changes nothing else |
| `Firmware.Device.GetDistance` | Src/main.c:128-177 | returns the wrapped conversion of a count equal to `Accumulated(EchoTicks(events))`, whatever came before. It ends with `echoDone` set, INT0 disabled and the clock stopped. The countdown is 100 if the button was pressed during the wait, otherwise unchanged |
| `Firmware.Device.UpdateBacklight` | Src/main.c:248-257 | countdown ≠ 0: LED on and countdown − 1. Countdown = 0: LED off and countdown stays 0 |
| `Firmware.Device.Iterate` | Src/main.c:227-259 | the new state is `Machine.Iteration` of the old one (arm, wait, disarm, then service the backlight); shows `Render` of the measured distance. A press during the wait leaves the LED on with countdown 99 |
| `Firmware.Device.Run` | Src/main.c:205-261 | iteration i shows the rendering of its own echo alone. Iterations with a press leave the LED on. With no press at all, iteration i leaves the LED on exactly when i < the starting countdown |

## Findings

| source | as written | input that shows it | evidently intended | confidence | as-written member | corrected member |
|---|---|---|---|---|---|---|
| Src/main.c:174 | `17013 * countTimer0` is evaluated in `uint32_t` and wraps for counts above 252452 | a 38 ms echo (304000 ticks, the sensor's pulse when nothing reflects) accumulates count 302813 and is shown as 107.0 cm instead of "Out of Range" | the exact quotient floor(17013·count / 800000), e.g. in 64 bits, so every long echo is out of range | high; not executed | `MachineFacts.LongEchoShownInRange` | `Conversion.ExactInRangeIff` |

`Conversion.Distance` models the conversion as written, and `Device.GetDistance` uses it
because that is what the firmware runs. `Conversion.ExactDistance` is the corrected
conversion. It carries the intended properties: monotone (`ExactDistanceMonotone`), and in
range exactly for counts up to 188138 (`ExactInRangeIff`). `DistanceDropsAtWrap` shows that
the as-written conversion loses monotonicity at the wrap point.

## Left out

- Register bit encoding (`DDRD`, `PORTD`, `MCUCR`, `GIMSK`, `TIMSK`, `TCCR0B`, `PIND`): each
  bit the code uses is a boolean field, and each sampled pin level is an event parameter.
- Pending interrupt flags of the AVR (an INT0 or overflow request raised while masked and
  served later) are not modelled: an event is handled at once, or dropped if its interrupt
  is disabled.
- `_delay_us` / `_delay_ms` timing and the trigger pulse (main.c:143-148) are hardware
  timing. Events during the trigger-pulse delays, which come after the `sei()` at
  main.c:138, are part of that measurement's trace.
- Events during the start-up banner delay (main.c:224) are not modelled: no trace covers
  the time between the constructor and the first iteration. They would change nothing.
  INT0 is still disabled and the Timer0 clock is stopped, so echo edges and clock steps
  have no effect. A press on INT1 writes 100, which `backlightTimes` already holds from
  main.c:192.
- `cli()` / `sei()` and true preemption are concurrency. Handlers are atomic events between
  main-line steps. So the model does not capture a button interrupt landing inside the
  read-modify-write of `backlightTimes--` (main.c:252), or inside the non-atomic 32-bit read
  of `countTimer0`.
- Events are delivered only during the busy-wait. INT0 stays enabled from the loop's exit
  (main.c:155-156) until `GIMSK &= ~(1 << INT0)` (main.c:160). An echo edge in that window
  would still run `ISR(INT0_vect)`, and a rising edge there would leave Timer0 running into
  the next `getDistance`. That window is not modelled, which is why `GetDistance` can
  promise a stopped clock.
- A button press after the falling edge, during the display or the delay of an iteration,
  is modelled as part of that iteration's trace before the falling edge, or as part of the
  next iteration's trace.
- The busy-wait `while (!echoDone);` (main.c:155-156) has no timeout and can hang forever.
  Its termination is not proved: a measurement requires a trace with a falling echo edge.
- The LCD driver and formatted output (`lcd_init`, `lcd_pos`, `lcd_clear`, `xputs`,
  `xprintf`, `xdev_out`) are not part of this model, because their source is not
  available. `Display` carries only the integers they receive: "Out of Range" or the
  whole/tenths pair printed with `%3u.%u cm`.
- `temp1` and `temp2` are 16-bit `int` in the firmware. They are modelled as `nat`, because
  they are computed only for distances ≤ 4000, so they never exceed 400 and nothing
  truncates.
- `initHCSR04` and the pin setup in `initBackLight` (direction and pull-up bits) only
  configure pins. Only their effect on the modelled state is kept, in the constructor.
- The floating-point derivation in the comment at main.c:168-172 is commentary, not code.
- `Firmware.Device.Run`: the LED state is stated for iterations with a press and for runs
  with no press at all. For a run that mixes both, it follows only from `Iterate`'s
  contract, iteration by iteration.
