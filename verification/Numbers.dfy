/** Number formats of the firmware: integer casts, C rounding and IEEE special values.
    Finite floats are exact reals; rounding is not modelled. */
module Numbers {

  /** A `float` as the code can tell its values apart. */
  datatype Float = Num(r: real) | NaN | PosInf | NegInf

  /** C++ `<`: every comparison with a NaN is false. */
  predicate Less(a: Float, b: Float) {
    match (a, b)
    case (Num(x), Num(y)) => x < y
    case (Num(_), PosInf) => true
    case (NegInf, Num(_)) => true
    case (NegInf, PosInf) => true
    case _ => false
  }

  /** `std::min(a, b)`: the first argument unless the second is smaller. */
  function MinF(a: Float, b: Float): Float {
    if Less(b, a) then b else a
  }

  /** Product with a finite factor k >= 0; infinity times zero is a NaN. */
  function Scale(a: Float, k: real): Float {
    match a
    case Num(x) => Num(x * k)
    case NaN => NaN
    case _ => if k == 0.0 then NaN else a
  }

  /** The `constrain` macro on a float with finite bounds. */
  function ClampF(a: Float, lo: real, hi: real): Float {
    if Less(a, Num(lo)) then Num(lo) else if Less(Num(hi), a) then Num(hi) else a
  }

  function MinI(a: int, b: int): int { if b < a then b else a }

  function MaxI(a: int, b: int): int { if a < b then b else a }

  function MinR(a: real, b: real): real { if b < a then b else a }

  function MaxR(a: real, b: real): real { if a < b then b else a }

  function AbsR(a: real): real { if a < 0.0 then -a else a }

  /** The Arduino `constrain` macro: the lower bound is tested first. */
  function Constrain(x: int, lo: int, hi: int): int {
    if x < lo then lo else if x > hi then hi else x
  }

  function ConstrainR(x: real, lo: real, hi: real): real {
    if x < lo then lo else if x > hi then hi else x
  }

  /** Conversion to `uint16_t`. */
  function U16(x: int): nat { x % 65536 }

  /** Difference of two `uint64_t` times. */
  function U64(x: int): nat { x % 0x1_0000_0000_0000_0000 }

  /** Conversion of an `int` to `int16_t`. */
  function I16(x: int): int { (x + 32768) % 65536 - 32768 }

  /** C integer division: truncates toward zero. */
  function TruncDiv(a: int, b: nat): int
    requires b > 0
  {
    if a >= 0 then a / b else -((-a) / b)
  }

  /** Conversion of a float to an integer: truncates toward zero. */
  function Trunc(x: real): (k: int)
    ensures -1.0 < x - k as real < 1.0
    ensures x >= 0.0 ==> 0 <= k && k as real <= x
    ensures x <= 0.0 ==> k <= 0 && x <= k as real
  {
    if x >= 0.0 then x.Floor else -((-x).Floor)
  }

  /** `std::lround`: nearest integer, halves away from zero. */
  function RoundHalfAway(x: real): (k: int)
    ensures -0.5 <= x - k as real <= 0.5
  {
    if x >= 0.0 then (x + 0.5).Floor else -((-x + 0.5).Floor)
  }
}
