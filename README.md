# Planter pump controller: a Dafny model

The firmware of the Planter irrigation controller (an Arduino sketch,
`src/main.cpp`) runs a pump relay on a duty cycle chosen by temperature.
The duty cycle is 20 min ON / 10 min OFF ("20/10") while a *hot latch* is
set and 15/15 otherwise. The latch is set when a valid DHT11 reading of at
least 30.0 °C arrives. It is cleared only at a phase boundary, where it is
then recomputed from the last recorded temperature. A button keeps the
display backlight on, and 60 s without a press turn it off.

This project models that decision and timing logic.

- `clock.dfy` (module `Clock`): the `uint32_t` millisecond clock, with
  wrap-around subtraction and addition written out.
- `cycles.dfy` (module `Cycles`): the two duty cycles and `updateCycle`'s
  choice between them.
- `pump_control.dfy` (module `PumpControl`): the globals as a `State`
  value. It has one pure function per block of `setup()`/`loop()` and the
  invariant they keep: the cycle always matches the latch.
- `planter.dfy` (module `Planter`): class `Controller`. Its fields are the
  globals and its methods follow the C++ statement by statement. Each
  method is proved to leave the fields as the matching `PumpControl`
  function says.
- `countdown.dfy` (module `Countdown`): the `mm:ss` countdown arithmetic
  of the display's second row, and the discrepancy listed under Findings.
- `scenarios.dfy` (module `Scenarios`): concrete runs: a hot reading
  after power-up, reversion at the end of a phase, the backlight timeout,
  and a press restarting it.

Hardware inputs become parameters. One pass of `loop()` receives a
`LoopInputs` value. It holds the `millis()` reading at the top of the loop,
the DHT humidity and temperature, the button level, and the `millis()`
readings taken inside `switchPump` and the backlight block. The code reads
the clock at those points separately, so the model keeps them as separate
values. Temperatures and humidities are integers in tenths. `None` stands
for NaN, and every comparison with it is false, as with a float NaN.

Where the code and its own comments disagree, the model follows the code:
- `setup()` calls `switchPump(true)`, so the pump starts ON, although the
  comment on line 75 says OFF.
- The backlight timeout is the 60 s of `BACKLIGHT_TIMEOUT` (line 14),
  although the comment on line 174 says 30 s.

`lastSensorRead` starts at 0, so the first read is due only once
`millis()` reaches 10 s (`Scenarios.HotReadingAfterPowerUp`).

## Model

| member | source | states |
|---|---|---|
| `Clock.Sub` | src/main.cpp:113 | `uint32_t` subtraction: the plain difference when it is non-negative, else the difference plus 2^32 |
| `Clock.Add` | src/main.cpp:146 | `uint32_t` addition: the plain sum below 2^32, else the sum minus 2^32 |
| `Clock.ElapsedIsWrapSafe` | src/main.cpp:113 | `now - stateStarted` gives the true delay between two clock readings even when the counter wrapped in between |
| `Clock.SubIsInverseOfAdd` | src/main.cpp:95 | the unsigned difference is the unique delay that takes the earlier reading to the later one |
| `Cycles.Select` | src/main.cpp:46-57 | hot selects the cycle whose ON phase is longer than its OFF phase, cool the other one; every tag names its own durations in minutes; each phase lasts between 1 min and 20 min |
| `Cycles.TagDeterminesMode` | src/main.cpp:48-56 | the two modes have different `cycleTag`s, so the tag tells which mode is active |
| `PumpControl.Initial` | src/main.cpp:33-43 | the static initialisers: pump off, cool cycle, latch clear, no reading, backlight on; this state already satisfies the invariant |
| `PumpControl.UpdateCycle` | src/main.cpp:46-57 | the cycle becomes the one the latch selects and no other global changes |
| `PumpControl.UpdateCycleIdempotent` | src/main.cpp:46-57 | calling `updateCycle` twice has the same effect as calling it once |
| `PumpControl.UpdateCycleKeepsConsistent` | src/main.cpp:119-120 | on a state whose cycle already matches the latch, `updateCycle` changes nothing, so `switchPump`'s second call is redundant |
| `PumpControl.SwitchPump` | src/main.cpp:60-68 | the phase becomes `turnOn` and starts at the switch time; the cycle follows the latch; nothing else changes |
| `PumpControl.Setup` | src/main.cpp:70-88 | after `setup` the pump is ON from the switch time, the cycle follows the latch, and the backlight is lit with its timer started; the latch, the readings and `lastSensorRead` are untouched; the invariant is kept |
| `PumpControl.Boot` | src/main.cpp:75-83 | at power-up the pump is ON with the cool cycle, the latch is clear, no reading exists and the invariant holds |
| `PumpControl.SensorBlock` | src/main.cpp:95-110 | a read is attempted only after 10 s, and an attempt restamps `lastSensorRead` even if it fails; a failed read changes nothing else; a valid read stores both values; afterwards the latch is set exactly when it was set or a valid due read reached 30 °C; a newly set latch brings the hot cycle at once; phase, phase start and backlight are untouched |
| `PumpControl.PumpBlock` | src/main.cpp:113-128 | at a phase boundary: the phase flips, its start becomes the switch time, the latch equals "last temperature valid and at least 30 °C", and the cycle follows the latch; otherwise the state is unchanged and the phase has less than its limit behind it; so at most one flip happens per pass; sensor and backlight fields are never touched |
| `PumpControl.BacklightBlock` | src/main.cpp:166-178 | a press restarts the idle timer; afterwards the backlight is on exactly when it was on or pressed and fewer than 60 s have passed on the timer; once off it stays off until a press; nothing else changes |
| `PumpControl.Step` | src/main.cpp:90-179 | one `loop()` pass keeps the invariant; the pump flips at most once; an unflipped phase has less than its limit behind it; a due valid reading of at least 30 °C leaves the hot cycle active whatever the phase does; the latch is cleared only at a flip; a valid temperature is never lost |
| `PumpControl.Run` | src/main.cpp:90-179 | any number of passes from a consistent state end in a consistent state and never lose a valid reading |
| `PumpControl.LatchHoldsWithinPhase` | src/main.cpp:104-128 | hysteresis: a set latch and the hot cycle hold for as long as the phase lasts, whatever the sensor reports |
| `PumpControl.Relatch` | src/main.cpp:116-118 | the latch becomes "last temperature valid and at least 30 °C", whatever it was, and no other global changes |
| `PumpControl.ReachableIsConsistent` | src/main.cpp:36-40 | in every reachable state, `onMs`, `offMs` and `cycleTag` are the cycle the latch selects |
| `Countdown.RemainingSeconds` | src/main.cpp:146 | while the phase is not over, line 146 gives the time left in seconds, rounded up |
| `Countdown.ReadoutOf` | src/main.cpp:147-148 | both `uint8_t` fields fit a byte and the seconds stay below 60; below 256 minutes they show the countdown exactly |
| `Countdown.ShownSecondsAsWritten` | src/main.cpp:113-146 | the code's countdown: on a pass that does not switch the pump, the time left in the phase in seconds, rounded up; on a pass that switches it, line 113's `elapsed` measured against the new phase's limit |
| `Countdown.AsWrittenCountdownWrapsAtSwitch` | src/main.cpp:146 | in the pass that ends a hot ON phase, the code's countdown wraps to 4,294,368 s and shows 148:48 |
| `Countdown.ShownSeconds` | src/main.cpp:146-148 | the corrected countdown, from a consistent state: the time left in the current phase in seconds, rounded up; at least 1 and never more than the phase's length; its readout is exact |
| `Countdown.AsWrittenAgreesUnlessSwitched` | src/main.cpp:113-146 | the code's countdown and the corrected one agree on every pass that does not switch the pump |
| `Planter.Controller.constructor` | src/main.cpp:33-43 | the fields start as the static initialisers and satisfy the invariant |
| `Planter.Controller.UpdateCycle` | src/main.cpp:46-57 | writes only `onMs`, `offMs` and `cycleTag`, leaving them as `PumpControl.UpdateCycle` says |
| `Planter.Controller.SwitchPump` | src/main.cpp:60-68 | leaves the globals as `PumpControl.SwitchPump` says |
| `Planter.Controller.Setup` | src/main.cpp:70-88 | leaves the globals as `PumpControl.Setup` says and keeps the invariant |
| `Planter.Controller.ReadSensor` | src/main.cpp:95-110 | leaves the globals as `PumpControl.SensorBlock` says |
| `Planter.Controller.PumpTiming` | src/main.cpp:113-128 | leaves the globals as `PumpControl.PumpBlock` says |
| `Planter.Controller.Backlight` | src/main.cpp:165-178 | leaves the globals as `PumpControl.BacklightBlock` says |
| `Planter.Controller.Loop` | src/main.cpp:90-179 | one `loop()` pass leaves the globals as `PumpControl.Step` says and keeps the invariant |
| `Planter.PowerUp` | src/main.cpp:70-179 | the static initialisers, then `setup()`, then the given `loop()` passes, end in the state `PumpControl.Run` gives, and the invariant holds |
| `Scenarios.HotReadingAfterPowerUp` | src/main.cpp:95-108 | no read before 10 s; a 32.0 °C read at 10 s switches to 20/10 while the ON phase begun at power-up continues |
| `Scenarios.CoolingRevertsAtPhaseEnd` | src/main.cpp:113-121 | a hot ON phase ending with the last reading at 28.0 °C clears the latch, restores 15/15 and starts a 15-minute OFF phase |
| `Scenarios.BacklightTimesOut` | src/main.cpp:174-178 | with no press, the backlight is on at 59.999 s, off at 60 s and still off at 60.001 s |
| `Scenarios.PressRestartsIdleTimer` | src/main.cpp:166-178 | after a press at 50 s, the backlight stays on until 110 s and goes off then |

## Left out

- The hardware and library calls are left out: the DHT driver, the LCD,
  `Serial`, `pinMode`, `digitalRead` and `delay(1500)`. Their results
  are parameters instead: the two readings, the button level and the
  clock readings.
- The relay output level written by `digitalWrite` on line 63 is I/O and
  is not recorded. It is LOW while `pumpOn` holds and HIGH otherwise,
  because `RELAY_ON_LEVEL` is LOW.
- The display output (lines 130-163) is left out apart from the
  countdown arithmetic of lines 146-148: the text of both rows, the
  500 ms refresh schedule and its `static lastLcd`, and the column
  padding. The padding count on line 161 does not match the widths
  printed before it, but that only affects blank-filling.
- Floating point is not modelled. Temperatures and humidities are integers
  in tenths, so a float reading finer than 0.1 °C is not represented.
  NaN is `None`.
- The button has no debounce, here as in the code. Each pass sees one
  boolean level.
- `Countdown.ShownSeconds`: its guarantees are stated only from a
  consistent state, the invariant every reachable state has.
  `Countdown.RemainingSeconds` is claimed to be the ceiling only while
  `elapsed <= limit`.

## Findings

| source | as written | input that shows it | evidently intended | confidence | as-written member | corrected member |
|---|---|---|---|---|---|---|
| src/main.cpp:146 | the countdown uses `elapsed` from line 113. That value is computed before the pump block and is not recomputed after `switchPump` restamps `stateStarted`, so it is measured against the limit of the new phase | a pass that ends a hot ON phase at `elapsed` = 1,200,000 ms, with the last reading at 35.0 °C, and that also refreshes the display: `600000 - 1200000 + 999` wraps in `uint32_t`, and the display shows 148:48 | the full countdown of the new phase, 10:00, measured from the new `stateStarted` | not executed; high (the arithmetic is forced) | `Countdown.AsWrittenCountdownWrapsAtSwitch` | `Countdown.ShownSeconds` |
