/** When a burst of high-priority frames must yield to the low-priority queue. */
module Fairness {
  import opened Base

  /** `maxHighBeforeLow` of zero disables the counter; times are clock readings. */
  datatype Config = Config(maxHighBeforeLow: nat, timeSlice: Option<nat>)

  /** Frames since the last yield, and when the burst began. */
  datatype Burst = Burst(config: Config, highCounter: nat, highStart: Option<nat>)

  function Record(b: Burst, now: nat): Burst {
    b.(highCounter := b.highCounter + 1, highStart := if b.highCounter == 0 then Some(now) else b.highStart)
  }

  function Reset(b: Burst): Burst { b.(highCounter := 0, highStart := None) }

  predicate ShouldYield(b: Burst, now: nat) {
    || (b.config.maxHighBeforeLow > 0 && b.highCounter >= b.config.maxHighBeforeLow)
    || (b.config.timeSlice.Some? && b.highStart.Some?
        && (if now < b.highStart.value then 0 else now - b.highStart.value) >= b.config.timeSlice.value)
  }

  class FairnessTracker {
    var config: Config
    var highCounter: nat
    var highStart: Option<nat>

    function State(): Burst
      reads this
    {
      Burst(config, highCounter, highStart)
    }

    constructor (c: Config)
      ensures State() == Burst(c, 0, None)
    {
      config := c;
      highCounter := 0;
      highStart := None;
    }

    method RecordHighPriority(now: nat)
      modifies this
      ensures State() == Record(old(State()), now)
    {
      highCounter := highCounter + 1;
      if highCounter == 1 {
        highStart := Some(now);
      }
    }

    method ShouldYieldToLowPriority(now: nat) returns (due: bool)
      ensures due == ShouldYield(State(), now)
    {
      if config.maxHighBeforeLow > 0 && highCounter >= config.maxHighBeforeLow {
        return true;
      }
      match (config.timeSlice, highStart) {
        case (Some(slice), Some(start)) =>
          return (if now < start then 0 else now - start) >= slice;
        case _ =>
          return false;
      }
    }

    method Clear()
      modifies this
      ensures State() == Reset(old(State()))
    {
      highCounter := 0;
      highStart := None;
    }

    /** A new policy starts without history. */
    method SetConfig(c: Config)
      modifies this
      ensures State() == Burst(c, 0, None)
    {
      config := c;
      Clear();
    }
  }
}
