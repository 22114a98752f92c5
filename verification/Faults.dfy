/** Where a call stops. */
module Faults {

  /** At the first step k with `!goes(k)` the call fails, or the driver is killed, before the step
      has an effect. */
  type Schedule = nat -> bool
}
