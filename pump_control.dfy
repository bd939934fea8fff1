/** The controller's global state and, as pure functions on it, what each
    block of `setup()` and `loop()` does to it (src/main.cpp). The class in
    planter.dfy performs the same updates step by step and is proved to
    agree with these functions. */
module PumpControl {
  import opened Clock
  import opened Cycles

  datatype Option<T> = None | Some(value: T)

  /** TEMP_THRESHOLD, 30.0 degrees Celsius, in tenths of a degree. */
  const TempThreshold: int := 300
  /** DHT11_READ_TIMEOUT: the sensor is polled every 10 s. */
  const ReadIntervalMs: U32 := 10 * 1000
  /** BACKLIGHT_TIMEOUT: 60 s of idle time turn the backlight off. */
  const BacklightTimeoutMs: U32 := 60 * 1000

  /** `reading >= TEMP_THRESHOLD` on a float that may be NaN: every comparison
      with NaN (None, "no valid reading") is false. Readings are in tenths of
      a degree. */
  predicate AtOrAboveThreshold(reading: Option<int>)
  {
    reading.Some? && reading.value >= TempThreshold
  }

  /** The firmware's globals (src/main.cpp:15-16, 33-43). `lastTemp` and
      `lastHum` are in tenths of a degree and of a percent; None stands for NaN. */
  datatype State = State(
    pumpOn: bool,
    stateStarted: U32,
    onMs: U32,
    offMs: U32,
    cycleTag: string,
    hotDetected: bool,
    lastSensorRead: U32,
    lastTemp: Option<int>,
    lastHum: Option<int>,
    backlightTimerStart: U32,
    backlightOn: bool)
  {
    /** The cycle held in `onMs`, `offMs` and `cycleTag`. */
    function ActiveCycle(): Cycle
    {
      Cycle(onMs, offMs, cycleTag)
    }

    /** The duration of the phase the pump is in. */
    function PhaseLimit(): U32
    {
      if pumpOn then onMs else offMs
    }
  }

  /** What the hardware tells one pass of `loop()`: the `millis()` read at its
      start (src/main.cpp:92), the two DHT results (lines 98-99, used only
      when a read is due), the `millis()` read inside `switchPump` (line 64,
      used only when the pump switches), the button level (line 166) and the
      two `millis()` reads of the backlight block (lines 171 and 175). */
  datatype LoopInputs = LoopInputs(
    now: U32,
    humidity: Option<int>,
    temperature: Option<int>,
    switchAt: U32,
    pressed: bool,
    pressAt: U32,
    checkAt: U32)

  /** The invariant every reachable state keeps: the cycle is the one the hot
      latch selects, temperature and humidity are valid together, and the
      latch is only ever set on a valid temperature. */
  predicate Consistent(s: State)
  {
    && s.ActiveCycle() == Select(s.hotDetected)
    && (s.lastTemp.Some? <==> s.lastHum.Some?)
    && (s.hotDetected ==> s.lastTemp.Some?)
  }

  /** The globals' static initialisers (src/main.cpp:15-16, 33-43): pump off,
      cool cycle, no latch, no reading yet, backlight on. */
  function Initial(): (s: State)
    ensures Consistent(s)
    ensures !s.pumpOn && !s.hotDetected && s.backlightOn
    ensures s.lastTemp == None && s.lastHum == None
    ensures s.ActiveCycle() == CoolCycle
  {
    State(false, 0, CoolOnMs, CoolOffMs, "15/15", false, 0, None, None, 0, true)
  }

  /** `updateCycle()` (src/main.cpp:46-57): re-derive the cycle from the latch,
      touching nothing else. */
  function UpdateCycle(s: State): (r: State)
    ensures r.ActiveCycle() == Select(s.hotDetected)
    ensures r.(onMs := s.onMs, offMs := s.offMs, cycleTag := s.cycleTag) == s
  {
    var c := Select(s.hotDetected);
    s.(onMs := c.onMs, offMs := c.offMs, cycleTag := c.tag)
  }

  /** `updateCycle()` is idempotent. */
  lemma UpdateCycleIdempotent(s: State)
    ensures UpdateCycle(UpdateCycle(s)) == UpdateCycle(s)
  {
  }

  /** On a consistent state `updateCycle()` changes nothing at all, so the
      second call that `switchPump` makes after the pump block's own call has
      no effect. */
  lemma UpdateCycleKeepsConsistent(s: State)
    requires Consistent(s)
    ensures UpdateCycle(s) == s
  {
  }

  /** `switchPump(turnOn)` (src/main.cpp:60-68) with `millis()` reading `at`:
      set the phase, restamp its start, re-derive the cycle. */
  function SwitchPump(s: State, turnOn: bool, at: U32): (r: State)
    ensures r.pumpOn == turnOn && r.stateStarted == at
    ensures r.ActiveCycle() == Select(s.hotDetected)
    ensures r.(pumpOn := s.pumpOn, stateStarted := s.stateStarted,
               onMs := s.onMs, offMs := s.offMs, cycleTag := s.cycleTag) == s
  {
    UpdateCycle(s.(pumpOn := turnOn, stateStarted := at))
  }

  /** `setup()` (src/main.cpp:75, 82-83) from state `s`: `switchPump(true)`
      with `millis()` reading `switchAt`, then the backlight timer started at
      the later reading `timerAt`. The pump starts ON, as the code does,
      although the comment on line 75 says OFF. */
  function Setup(s: State, switchAt: U32, timerAt: U32): (r: State)
    ensures r.pumpOn && r.stateStarted == switchAt
    ensures r.backlightOn && r.backlightTimerStart == timerAt
    ensures r.ActiveCycle() == Select(s.hotDetected)
    ensures r.(pumpOn := s.pumpOn, stateStarted := s.stateStarted,
               onMs := s.onMs, offMs := s.offMs, cycleTag := s.cycleTag,
               backlightTimerStart := s.backlightTimerStart, backlightOn := s.backlightOn) == s
    ensures Consistent(s) ==> Consistent(r)
  {
    SwitchPump(s, true, switchAt).(backlightTimerStart := timerAt, backlightOn := true)
  }

  /** Power-up: the static initialisers, then `setup()`. */
  function Boot(switchAt: U32, timerAt: U32): (r: State)
    ensures Consistent(r)
    ensures r.pumpOn && r.stateStarted == switchAt && r.ActiveCycle() == CoolCycle
    ensures r.backlightOn && r.backlightTimerStart == timerAt
    ensures !r.hotDetected && r.lastTemp == None && r.lastSensorRead == 0
  {
    Setup(Initial(), switchAt, timerAt)
  }

  /** Line 95: a sensor read is due once 10 s have passed since the last attempt. */
  predicate ReadDue(s: State, now: U32)
  {
    Sub(now, s.lastSensorRead) >= ReadIntervalMs
  }

  /** The sensor block of `loop()` (src/main.cpp:95-110) at time `now`, with
      the DHT returning `humidity` and `temperature` if it is asked.
      A due attempt restamps `lastSensorRead` whether or not it succeeds;
      a failed read (either value NaN) changes nothing else; a valid read
      replaces both values and sets the latch, with the hot cycle, when the
      temperature reaches the threshold. The latch is never cleared here and
      the pump phase and the backlight are never touched. */
  function SensorBlock(s: State, now: U32, humidity: Option<int>, temperature: Option<int>): (r: State)
    ensures r.lastSensorRead == if ReadDue(s, now) then now else s.lastSensorRead
    ensures !ReadDue(s, now) ==> r == s
    ensures humidity.None? || temperature.None? ==> r == s.(lastSensorRead := r.lastSensorRead)
    ensures ReadDue(s, now) && humidity.Some? && temperature.Some? ==>
              r.lastTemp == temperature && r.lastHum == humidity
    ensures r.hotDetected <==>
              s.hotDetected || (ReadDue(s, now) && humidity.Some? && AtOrAboveThreshold(temperature))
    ensures r.hotDetected != s.hotDetected ==> r.ActiveCycle() == HotCycle
    ensures r.hotDetected == s.hotDetected ==> r.ActiveCycle() == s.ActiveCycle()
    ensures r.pumpOn == s.pumpOn && r.stateStarted == s.stateStarted
    ensures r.backlightOn == s.backlightOn && r.backlightTimerStart == s.backlightTimerStart
    ensures s.lastTemp.Some? ==> r.lastTemp.Some?
  {
    if ReadDue(s, now) then
      var attempted := s.(lastSensorRead := now);
      if humidity.Some? && temperature.Some? then
        var read := attempted.(lastHum := humidity, lastTemp := temperature);
        if temperature.value >= TempThreshold && !read.hotDetected then
          UpdateCycle(read.(hotDetected := true))
        else
          read
      else
        attempted
    else
      s
  }

  /** Line 114 and 122: the current phase has run its course. */
  predicate PhaseDue(s: State, now: U32)
  {
    var elapsed := Sub(now, s.stateStarted);
    (s.pumpOn && elapsed >= s.onMs) || (!s.pumpOn && elapsed >= s.offMs)
  }

  /** The pump timing block of `loop()` (src/main.cpp:113-128) at time `now`,
      with `switchPump`'s own `millis()` reading `switchAt`. At a phase
      boundary the latch is recomputed from the last recorded temperature
      alone (so it is false while no valid reading exists), the cycle follows
      it, the phase flips and its start is restamped; otherwise nothing
      changes. So at most one flip happens per pass, and a phase that is not
      over has less than its limit behind it. */
  function PumpBlock(s: State, now: U32, switchAt: U32): (r: State)
    ensures PhaseDue(s, now) ==>
              && r.pumpOn == !s.pumpOn
              && r.stateStarted == switchAt
              && (r.hotDetected <==> AtOrAboveThreshold(s.lastTemp))
              && r.ActiveCycle() == Select(r.hotDetected)
    ensures !PhaseDue(s, now) ==> r == s && Sub(now, r.stateStarted) < r.PhaseLimit()
    ensures r.pumpOn == s.pumpOn ==> r == s
    ensures r.(pumpOn := s.pumpOn, stateStarted := s.stateStarted, hotDetected := s.hotDetected,
               onMs := s.onMs, offMs := s.offMs, cycleTag := s.cycleTag) == s
  {
    var elapsed := Sub(now, s.stateStarted);
    if s.pumpOn && elapsed >= s.onMs then
      SwitchPump(UpdateCycle(Relatch(s)), false, switchAt)
    else if !s.pumpOn && elapsed >= s.offMs then
      SwitchPump(UpdateCycle(Relatch(s)), true, switchAt)
    else
      s
  }

  /** Lines 116-118 (and 124-125): clear the latch, then set it again if the
      last recorded temperature is at or above the threshold. */
  function Relatch(s: State): (r: State)
    ensures r.hotDetected <==> s.lastTemp.Some? && s.lastTemp.value >= TempThreshold
    ensures r.(hotDetected := s.hotDetected) == s
  {
    var cleared := s.(hotDetected := false);
    if AtOrAboveThreshold(s.lastTemp) then cleared.(hotDetected := true) else cleared
  }

  /** The backlight block of `loop()` (src/main.cpp:166-178): a press
      (`pressed`, timer read `pressAt`) forces the backlight on and restarts
      the idle timer; then, with the clock read `checkAt`, a lit backlight
      whose timer has run 60 s goes off. Afterwards the backlight is on
      exactly when it was on or pressed and its timer has not yet run out,
      and a press keeps it on unless a full timeout lies between the two
      clock reads. */
  function BacklightBlock(s: State, pressed: bool, pressAt: U32, checkAt: U32): (r: State)
    ensures r.backlightTimerStart == if pressed then pressAt else s.backlightTimerStart
    ensures r.backlightOn <==>
              (pressed || s.backlightOn) && Sub(checkAt, r.backlightTimerStart) < BacklightTimeoutMs
    ensures !pressed && !s.backlightOn ==> !r.backlightOn
    ensures r.(backlightOn := s.backlightOn, backlightTimerStart := s.backlightTimerStart) == s
  {
    var touched := if pressed then s.(backlightOn := true, backlightTimerStart := pressAt) else s;
    if touched.backlightOn && Sub(checkAt, touched.backlightTimerStart) >= BacklightTimeoutMs then
      touched.(backlightOn := false)
    else
      touched
  }

  /** One pass of `loop()` (src/main.cpp:90-179) without the display output:
      the sensor, pump and backlight blocks in that order. It keeps the
      invariant; the pump flips at most once (if the phase is unchanged so
      is its start); a phase that has not flipped has less than its limit
      behind it; a valid hot reading leaves the controller in hot mode
      whatever the phase does; the latch is cleared only at a flip; and once
      a valid temperature exists it is never replaced by "no data". */
  function Step(s: State, inputs: LoopInputs): (r: State)
    ensures Consistent(s) ==> Consistent(r)
    ensures r.pumpOn == s.pumpOn ==> r.stateStarted == s.stateStarted
    ensures r.pumpOn == s.pumpOn ==> Sub(inputs.now, r.stateStarted) < r.PhaseLimit()
    ensures Consistent(s) && ReadDue(s, inputs.now) && inputs.humidity.Some?
              && AtOrAboveThreshold(inputs.temperature) ==>
              r.hotDetected && r.ActiveCycle() == HotCycle
    ensures s.hotDetected && r.pumpOn == s.pumpOn ==> r.hotDetected
    ensures s.lastTemp.Some? ==> r.lastTemp.Some?
  {
    var sensed := SensorBlock(s, inputs.now, inputs.humidity, inputs.temperature);
    var timed := PumpBlock(sensed, inputs.now, inputs.switchAt);
    BacklightBlock(timed, inputs.pressed, inputs.pressAt, inputs.checkAt)
  }

  /** The state after the passes of `loop()` that see `inputs`, in order.
      Every pass keeps the invariant, so every run from a consistent state
      ends in one; and a valid reading, once made, is never lost. */
  function Run(s: State, inputs: seq<LoopInputs>): (r: State)
    ensures Consistent(s) ==> Consistent(r)
    ensures s.lastTemp.Some? ==> r.lastTemp.Some?
    decreases |inputs|
  {
    if inputs == [] then s else Run(Step(s, inputs[0]), inputs[1..])
  }

  /** No pass of the run flips the pump: the whole run stays in one phase. */
  predicate WithinOnePhase(s: State, inputs: seq<LoopInputs>)
    decreases |inputs|
  {
    inputs == [] || (Step(s, inputs[0]).pumpOn == s.pumpOn && WithinOnePhase(Step(s, inputs[0]), inputs[1..]))
  }

  /** Hysteresis: once the hot latch is set it holds, with the hot cycle, for
      as long as the phase lasts, whatever the sensor reports meanwhile; the
      phase keeps its start time throughout. */
  lemma {:induction false} LatchHoldsWithinPhase(s: State, inputs: seq<LoopInputs>)
    requires Consistent(s) && s.hotDetected
    requires WithinOnePhase(s, inputs)
    ensures Run(s, inputs).hotDetected && Run(s, inputs).ActiveCycle() == HotCycle
    ensures Run(s, inputs).pumpOn == s.pumpOn && Run(s, inputs).stateStarted == s.stateStarted
    decreases |inputs|
  {
    if inputs != [] {
      LatchHoldsWithinPhase(Step(s, inputs[0]), inputs[1..]);
    }
  }

  /** Every state the firmware can reach, power-up followed by any number of
      `loop()` passes, has the cycle the latch selects. */
  lemma ReachableIsConsistent(switchAt: U32, timerAt: U32, inputs: seq<LoopInputs>)
    ensures Consistent(Run(Boot(switchAt, timerAt), inputs))
    ensures Run(Boot(switchAt, timerAt), inputs).ActiveCycle()
              == Select(Run(Boot(switchAt, timerAt), inputs).hotDetected)
  {
  }
}
