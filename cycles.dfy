/** The duty cycles of the pump and `updateCycle`'s choice between them
    (src/main.cpp:19-22, 46-57). */
module Cycles {
  import opened Clock

  const MsPerMinute: U32 := 60 * 1000

  const HotOnMs: U32 := 20 * 60 * 1000
  const HotOffMs: U32 := 10 * 60 * 1000
  const CoolOnMs: U32 := 15 * 60 * 1000
  const CoolOffMs: U32 := 15 * 60 * 1000

  /** The triple the firmware keeps in `onMs`, `offMs` and `cycleTag`. */
  datatype Cycle = Cycle(onMs: U32, offMs: U32, tag: string)

  const HotCycle: Cycle := Cycle(HotOnMs, HotOffMs, "20/10")
  const CoolCycle: Cycle := Cycle(CoolOnMs, CoolOffMs, "15/15")

  /** The longest phase any cycle has. */
  const LongestPhaseMs: U32 := HotOnMs

  function Digit(d: nat): char
    requires d < 10
  {
    ('0' as int + d) as char
  }

  function TwoDigits(n: nat): string
    requires n < 100
  {
    [Digit(n / 10), Digit(n % 10)]
  }

  /** The label a cycle of whole minutes is known by: "<on minutes>/<off minutes>". */
  function MinutesLabel(onMs: U32, offMs: U32): string
    requires onMs < 100 * MsPerMinute && offMs < 100 * MsPerMinute
  {
    TwoDigits(onMs / MsPerMinute) + "/" + TwoDigits(offMs / MsPerMinute)
  }

  /** `updateCycle`: the hot latch chooses the 20/10 cycle, its absence the 15/15 one.
      Each cycle's tag names its own durations in minutes, both phases last
      between one minute and the longest phase, and the hot cycle is the one
      that keeps the pump on longer than off. */
  function Select(hot: bool): (c: Cycle)
    ensures c.onMs % MsPerMinute == 0 && c.offMs % MsPerMinute == 0
    ensures MsPerMinute <= c.onMs <= LongestPhaseMs && MsPerMinute <= c.offMs <= LongestPhaseMs
    ensures c.tag == MinutesLabel(c.onMs, c.offMs)
    ensures hot <==> c.onMs > c.offMs
  {
    if hot then HotCycle else CoolCycle
  }

  /** The cycle tag alone tells which mode the controller is in. */
  lemma TagDeterminesMode(a: bool, b: bool)
    ensures Select(a).tag == Select(b).tag ==> a == b
  {
  }
}
