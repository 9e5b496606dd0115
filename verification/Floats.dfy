module Floats {
  /** A float64: a number, or not one. Rounding and infinities are not modelled. */
  datatype Float = NaN | Num(value: real)
}
