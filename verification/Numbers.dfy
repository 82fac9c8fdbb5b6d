// Rounding as Python does it, over exact reals.

module Numbers {

  /** `int(x)` of a float drops the fraction, towards zero. */
  function Truncate(x: real): int
  {
    if x >= 0.0 then x.Floor else -((-x).Floor)
  }

  /** `math.ceil` */
  function Ceil(x: real): int
  {
    -((-x).Floor)
  }
}
