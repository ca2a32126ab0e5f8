/** The three conversions the game's C++ arithmetic relies on. A C++ `double` is an exact `real` here:
    rounding by IEEE 754 is not part of this model. */
module Rounding {

  /** `static_cast<int>` of a double: truncation toward zero. */
  function Trunc(x: real): (r: int)
    ensures 0.0 <= x ==> r as real <= x < r as real + 1.0
    ensures x < 0.0 ==> r as real - 1.0 < x <= r as real
    ensures 0.0 <= x ==> 0 <= r
    ensures x <= 0.0 ==> r <= 0
  {
    if 0.0 <= x then x.Floor else -((-x).Floor)
  }

  /** `std::lround`: to the nearest integer, halves away from zero. */
  function LRound(x: real): (r: int)
    ensures x - 0.5 <= r as real <= x + 0.5
    ensures 0.0 <= x ==> x - 0.5 < r as real
    ensures x <= 0.0 ==> r as real < x + 0.5
  {
    if 0.0 <= x then (x + 0.5).Floor else -((-x + 0.5).Floor)
  }

  lemma TruncMonotone(x: real, y: real)
    requires x <= y
    ensures Trunc(x) <= Trunc(y)
  {
  }

  lemma LRoundMonotone(x: real, y: real)
    requires x <= y
    ensures LRound(x) <= LRound(y)
  {
  }

  /** `int / int`: truncation toward zero, where Dafny's `/` is Euclidean. */
  function DivInt(a: int, b: int): (q: int)
    requires b > 0
    ensures 0 <= a ==> b * q <= a < b * (q + 1)
    ensures a < 0 ==> b * (q - 1) < a <= b * q
  {
    if 0 <= a then a / b else -((-a) / b)
  }
}
