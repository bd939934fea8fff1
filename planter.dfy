/** The firmware itself: one object whose fields are the globals of
    src/main.cpp and whose methods are `updateCycle`, `switchPump`, `setup`
    and the blocks of `loop`, updating those fields in the code's order.
    Each method is proved to leave the fields as the corresponding function
    of PumpControl says. */
module Planter {
  import opened Clock
  import opened Cycles
  import opened PumpControl

  class Controller {
    var pumpOn: bool
    var stateStarted: U32
    var onMs: U32
    var offMs: U32
    var cycleTag: string
    var hotDetected: bool
    var lastSensorRead: U32
    var lastTemp: Option<int>
    var lastHum: Option<int>
    var backlightTimerStart: U32
    var backlightOn: bool

    /** The globals as one value. */
    function Model(): State
      reads this
    {
      State(pumpOn, stateStarted, onMs, offMs, cycleTag, hotDetected,
            lastSensorRead, lastTemp, lastHum, backlightTimerStart, backlightOn)
    }

    /** The controller's invariant: the cycle matches the hot latch. */
    predicate Valid()
      reads this
    {
      Consistent(Model())
    }

    /** The static initialisers of the globals (src/main.cpp:15-16, 33-43). */
    constructor ()
      ensures Model() == Initial()
      ensures Valid()
    {
      pumpOn := false;
      stateStarted := 0;
      onMs := CoolOnMs;
      offMs := CoolOffMs;
      cycleTag := "15/15";
      hotDetected := false;
      lastSensorRead := 0;
      lastTemp, lastHum := None, None;
      backlightTimerStart := 0;
      backlightOn := true;
    }

    /** `updateCycle()` (src/main.cpp:46-57). */
    method UpdateCycle()
      modifies this`onMs, this`offMs, this`cycleTag
      ensures Model() == PumpControl.UpdateCycle(old(Model()))
    {
      if hotDetected {
        onMs := HotOnMs;
        offMs := HotOffMs;
        cycleTag := "20/10";
      } else {
        onMs := CoolOnMs;
        offMs := CoolOffMs;
        cycleTag := "15/15";
      }
    }

    /** `switchPump(turnOn)` (src/main.cpp:60-68); `at` is its `millis()` reading. */
    method SwitchPump(turnOn: bool, at: U32)
      modifies this
      ensures Model() == PumpControl.SwitchPump(old(Model()), turnOn, at)
    {
      pumpOn := turnOn;
      stateStarted := at;
      UpdateCycle();
    }

    /** `setup()` (src/main.cpp:70-88) without the pin, serial and display
        calls: the pump is switched ON at `switchAt`, the backlight timer
        starts at `timerAt`. */
    method Setup(switchAt: U32, timerAt: U32)
      modifies this
      ensures old(Valid()) ==> Valid()
      ensures Model() == PumpControl.Setup(old(Model()), switchAt, timerAt)
    {
      SwitchPump(true, switchAt);
      backlightTimerStart := timerAt;
      backlightOn := true;
    }

    /** The sensor block of `loop()` (src/main.cpp:95-110). */
    method ReadSensor(now: U32, humidity: Option<int>, temperature: Option<int>)
      modifies this
      ensures Model() == SensorBlock(old(Model()), now, humidity, temperature)
    {
      if Sub(now, lastSensorRead) >= ReadIntervalMs {
        lastSensorRead := now;
        if humidity.Some? && temperature.Some? {
          lastHum := humidity;
          lastTemp := temperature;
          if temperature.value >= TempThreshold && !hotDetected {
            hotDetected := true;
            UpdateCycle();
          }
        }
      }
    }

    /** The pump timing block of `loop()` (src/main.cpp:113-128). */
    method PumpTiming(now: U32, switchAt: U32)
      modifies this
      ensures Model() == PumpBlock(old(Model()), now, switchAt)
    {
      var elapsed := Sub(now, stateStarted);
      if pumpOn && elapsed >= onMs {
        hotDetected := false;
        if AtOrAboveThreshold(lastTemp) {
          hotDetected := true;
        }
        UpdateCycle();
        SwitchPump(false, switchAt);
      } else if !pumpOn && elapsed >= offMs {
        hotDetected := false;
        if AtOrAboveThreshold(lastTemp) {
          hotDetected := true;
        }
        UpdateCycle();
        SwitchPump(true, switchAt);
      }
    }

    /** The backlight block of `loop()` (src/main.cpp:165-178). */
    method Backlight(pressed: bool, pressAt: U32, checkAt: U32)
      modifies this
      ensures Model() == BacklightBlock(old(Model()), pressed, pressAt, checkAt)
    {
      if pressed {
        if !backlightOn {
          backlightOn := true;
        }
        backlightTimerStart := pressAt;
      }
      if backlightOn && Sub(checkAt, backlightTimerStart) >= BacklightTimeoutMs {
        backlightOn := false;
      }
    }

    /** One pass of `loop()` (src/main.cpp:90-179) without the display output. */
    method Loop(inputs: LoopInputs)
      modifies this
      ensures old(Valid()) ==> Valid()
      ensures Model() == Step(old(Model()), inputs)
    {
      ReadSensor(inputs.now, inputs.humidity, inputs.temperature);
      PumpTiming(inputs.now, inputs.switchAt);
      Backlight(inputs.pressed, inputs.pressAt, inputs.checkAt);
    }
  }

  /** What the Arduino runtime does with the sketch: initialise the globals,
      call `setup()` once, then call `loop()` again and again (here, once per
      element of `inputs`). The controller ends in the state Run computes,
      with the cycle its latch selects. */
  method PowerUp(switchAt: U32, timerAt: U32, inputs: seq<LoopInputs>) returns (c: Controller)
    ensures fresh(c) && c.Valid()
    ensures c.Model() == Run(Boot(switchAt, timerAt), inputs)
  {
    c := new Controller();
    c.Setup(switchAt, timerAt);
    var i := 0;
    while i < |inputs|
      invariant 0 <= i <= |inputs|
      invariant c.Valid()
      invariant Run(c.Model(), inputs[i..]) == Run(Boot(switchAt, timerAt), inputs)
    {
      assert inputs[i..][0] == inputs[i] && inputs[i..][1..] == inputs[i + 1..];
      c.Loop(inputs[i]);
      i := i + 1;
    }
    assert inputs[i..] == [];
  }
}
