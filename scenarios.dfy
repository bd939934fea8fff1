/** Concrete runs of the controller: a hot reading after power-up, the
    reversion to the cool cycle at the end of a phase, the backlight
    timeout, and a press restarting it. */
module Scenarios {
  import opened Clock
  import opened Cycles
  import opened PumpControl

  /** A pass at time `t` whose sensor read, if any, fails, with no button
      press and every clock read equal to `t`. */
  function Idle(t: U32): LoopInputs
  {
    LoopInputs(t, None, None, t, false, t, t)
  }

  /** A hot reading right after power-up. The first read is only attempted
      once the clock reaches 10 s (`lastSensorRead` starts at 0), so an
      earlier pass leaves the cool cycle in place; the read at 10 s of 32.0
      degrees switches to the 20/10 cycle at once while the pump stays in
      the ON phase that began at power-up. */
  lemma HotReadingAfterPowerUp()
    ensures
      var booted := Boot(0, 0);
      var early := Step(booted, LoopInputs(9_999, Some(500), Some(320), 9_999, false, 9_999, 9_999));
      var read := Step(booted, LoopInputs(10_000, Some(500), Some(320), 10_000, false, 10_000, 10_000));
      && !early.hotDetected && early.ActiveCycle() == CoolCycle && early.lastTemp == None
      && read.hotDetected && read.ActiveCycle() == HotCycle
      && read.pumpOn && read.stateStarted == 0 && read.lastSensorRead == 10_000
  {
  }

  /** The end of a hot ON phase with the last reading down to 28.0 degrees:
      the latch clears and stays clear, the 15/15 cycle returns, and the
      pump turns OFF with a fresh 15-minute budget. */
  lemma CoolingRevertsAtPhaseEnd()
    ensures
      var s := State(true, 0, HotOnMs, HotOffMs, "20/10", true, 1_195_000, Some(280), Some(500), 0, true);
      var r := Step(s, LoopInputs(1_200_000, None, None, 1_200_005, false, 1_200_005, 1_200_005));
      && Consistent(s)
      && !r.hotDetected && r.ActiveCycle() == CoolCycle
      && !r.pumpOn && r.stateStarted == 1_200_005 && r.PhaseLimit() == 15 * MsPerMinute
  {
  }

  /** Backlight without a press: on from power-up, off at 60 s, still off
      one millisecond later. */
  lemma BacklightTimesOut()
    ensures
      var s := Boot(0, 0);
      && Run(s, [Idle(59_999)]).backlightOn
      && !Run(s, [Idle(60_000)]).backlightOn
      && !Run(s, [Idle(60_000), Idle(60_001)]).backlightOn
  {
  }

  /** A press at 50 s restarts the idle timer: the backlight is still on at
      60 s and at 109.999 s, and goes off at 110 s. */
  lemma PressRestartsIdleTimer()
    ensures
      var pressed := Step(Boot(0, 0), LoopInputs(50_000, None, None, 50_000, true, 50_000, 50_000));
      && pressed.backlightOn && pressed.backlightTimerStart == 50_000
      && Run(pressed, [Idle(60_000)]).backlightOn
      && Run(pressed, [Idle(60_000), Idle(109_999)]).backlightOn
      && !Run(pressed, [Idle(60_000), Idle(109_999), Idle(110_000)]).backlightOn
  {
  }
}
