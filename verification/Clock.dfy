/** Millisecond clocks of 64 bits: adding a delay stops at the largest time. */
module Clock {
  const TIME_MAX: nat := 0xffff_ffff_ffff_ffff

  function Later(now: nat, delay: nat): (t: nat)
    ensures t <= TIME_MAX
  {
    if now + delay > TIME_MAX then TIME_MAX else now + delay
  }
}
