/** The countdown on the display's second row (src/main.cpp:146-148): the
    seconds left in the current phase, rounded up, split into minutes and
    seconds. The rest of the display output is not part of this model. */
module Countdown {
  import opened Clock
  import opened Cycles
  import opened PumpControl

  /** Line 146: `(limit - elapsed + 999UL) / 1000UL`, all in `uint32_t`.
      While the phase is not over (and the limit leaves room for the 999),
      it is the ceiling of the time left in seconds: the whole seconds that
      cover what remains, and no more. */
  function RemainingSeconds(limit: U32, elapsed: U32): (r: U32)
    ensures elapsed <= limit <= Modulus - 1000 ==>
              (r - 1) * 1000 < limit - elapsed <= r * 1000
  {
    Add(Sub(limit, elapsed), 999) / 1000
  }

  /** The `mm:ss` pair of lines 147-148. */
  datatype Readout = Readout(minutes: int, seconds: int)

  /** Lines 147-148: `uint8_t mm = remaining / 60U; uint8_t ss = remaining % 60U;`
      the conversion to `uint8_t` keeps the value modulo 256. Both fields
      fit a byte and the seconds stay below 60; below 256 minutes the
      readout is exact, showing the same number of seconds. */
  function ReadoutOf(remaining: U32): (r: Readout)
    ensures 0 <= r.minutes < 256 && 0 <= r.seconds < 60
    ensures remaining < 256 * 60 ==> r.minutes * 60 + r.seconds == remaining
  {
    Readout((remaining / 60) % 256, (remaining % 60) % 256)
  }

  /** The countdown one `loop()` pass shows, as the code computes it: the
      `elapsed` of line 113, taken before the pump block ran, against the
      limit of the phase the pump is in after it. On a pass that does not
      switch the pump this is the ceiling of the seconds left in the phase;
      on a pass that does, it measures the old phase's elapsed time against
      the new phase's limit. */
  function ShownSecondsAsWritten(s: State, inputs: LoopInputs): (r: U32)
    ensures Consistent(s) && Step(s, inputs).pumpOn == s.pumpOn ==>
              var left := Step(s, inputs).PhaseLimit() - Sub(inputs.now, s.stateStarted);
              0 < left && (r - 1) * 1000 < left <= r * 1000
    ensures Step(s, inputs).pumpOn != s.pumpOn ==>
              r == RemainingSeconds(Step(s, inputs).PhaseLimit(), Sub(inputs.now, s.stateStarted))
  {
    var sensed := SensorBlock(s, inputs.now, inputs.humidity, inputs.temperature);
    var elapsed := Sub(inputs.now, sensed.stateStarted);
    RemainingSeconds(PumpBlock(sensed, inputs.now, inputs.switchAt).PhaseLimit(), elapsed)
  }

  /** The pass that ends a hot ON phase with the temperature still high
      switches to a 600 s OFF phase, yet `elapsed` is still the 1,200,000 ms of
      the ON phase: the subtraction wraps and the display shows 148:48. */
  lemma AsWrittenCountdownWrapsAtSwitch()
    ensures
      var s := State(true, 0, HotOnMs, HotOffMs, "20/10", true, 1_195_000, Some(350), Some(400), 0, true);
      var inputs := LoopInputs(1_200_000, None, None, 1_200_000, false, 1_200_000, 1_200_000);
      && Consistent(s)
      && !Step(s, inputs).pumpOn && Step(s, inputs).PhaseLimit() == HotOffMs
      && ShownSecondsAsWritten(s, inputs) == 4_294_368
      && ReadoutOf(ShownSecondsAsWritten(s, inputs)) == Readout(148, 48)
  {
  }

  /** The countdown as intended: the time spent in the phase the pump is in
      after the pump block, which is nothing yet when the pass has just
      switched it. From a consistent state it is the ceiling of the seconds
      left, at least one and at most the phase's length, and its `mm:ss`
      readout is exact. */
  function ShownSeconds(s: State, inputs: LoopInputs): (r: U32)
    ensures Consistent(s) ==>
      var after := Step(s, inputs);
      var spent := if after.pumpOn == s.pumpOn then Sub(inputs.now, after.stateStarted) else 0;
      && spent < after.PhaseLimit()
      && (r - 1) * 1000 < after.PhaseLimit() - spent <= r * 1000
      && 1 <= r && r * 1000 <= after.PhaseLimit()
      && ReadoutOf(r).minutes * 60 + ReadoutOf(r).seconds == r
  {
    var sensed := SensorBlock(s, inputs.now, inputs.humidity, inputs.temperature);
    var timed := PumpBlock(sensed, inputs.now, inputs.switchAt);
    var spent := if timed.pumpOn == sensed.pumpOn then Sub(inputs.now, sensed.stateStarted) else 0;
    var r := RemainingSeconds(timed.PhaseLimit(), spent);
    // One value in both branches: the first only brings in the proof of the contract.
    if Consistent(s) then
      ShownSecondsFacts(s, inputs, spent, r);
      r
    else
      r
  }

  /** The arithmetic behind ShownSeconds' contract. */
  lemma ShownSecondsFacts(s: State, inputs: LoopInputs, spent: U32, r: U32)
    requires Consistent(s)
    requires
      var sensed := SensorBlock(s, inputs.now, inputs.humidity, inputs.temperature);
      var timed := PumpBlock(sensed, inputs.now, inputs.switchAt);
      && spent == (if timed.pumpOn == sensed.pumpOn then Sub(inputs.now, sensed.stateStarted) else 0)
      && r == RemainingSeconds(timed.PhaseLimit(), spent)
    ensures
      var after := Step(s, inputs);
      && spent == (if after.pumpOn == s.pumpOn then Sub(inputs.now, after.stateStarted) else 0)
      && spent < after.PhaseLimit()
      && (r - 1) * 1000 < after.PhaseLimit() - spent <= r * 1000
      && 1 <= r && r * 1000 <= after.PhaseLimit()
      && ReadoutOf(r).minutes * 60 + ReadoutOf(r).seconds == r
  {
  }

  /** The two agree on every pass that does not switch the pump: the
      discrepancy is confined to the pass that does. */
  lemma AsWrittenAgreesUnlessSwitched(s: State, inputs: LoopInputs)
    requires Step(s, inputs).pumpOn == s.pumpOn
    ensures ShownSecondsAsWritten(s, inputs) == ShownSeconds(s, inputs)
  {
  }
}
