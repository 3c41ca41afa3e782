/** Small value types and real-number helpers shared by the model. */
module Common {

  datatype Option<+T> = None | Some(value: T)

  datatype Result<+T, +E> = Success(value: T) | Failure(error: E)

  function Max(a: real, b: real): (r: real)
    ensures r >= a && r >= b && (r == a || r == b)
  {
    if a >= b then a else b
  }

  function Min(a: real, b: real): (r: real)
    ensures r <= a && r <= b && (r == a || r == b)
  {
    if a <= b then a else b
  }

  function Abs(a: real): (r: real)
    ensures r >= 0.0 && (r == a || r == -a)
  {
    if a >= 0.0 then a else -a
  }

  /** The largest integer not above `a` (`f32::floor`). */
  function Floor(a: real): (r: int)
    ensures r as real <= a < r as real + 1.0
  {
    a.Floor
  }

  /** The smallest integer not below `a` (`f32::ceil`). */
  function Ceil(a: real): (r: int)
    ensures r as real - 1.0 < a <= r as real
  {
    -((-a).Floor)
  }

  /** `f32::round`: the nearest integer, halfway cases rounded away from zero. */
  function Round(a: real): (r: int)
    ensures a - 0.5 <= r as real <= a + 0.5
    ensures r as real == a - 0.5 ==> a < 0.0
    ensures r as real == a + 0.5 ==> a > 0.0
  {
    if a >= 0.0 then (a + 0.5).Floor else -((-a + 0.5).Floor)
  }

  const I32_MIN: int := -0x8000_0000
  const I32_MAX: int := 0x7fff_ffff
  const U32_MAX: int := 0xffff_ffff

  /** Rust's saturating `as i32` conversion of an integral float. */
  function SaturateI32(n: int): (r: int)
    ensures I32_MIN <= r <= I32_MAX
    ensures I32_MIN <= n <= I32_MAX ==> r == n
    ensures n < I32_MIN ==> r == I32_MIN
    ensures n > I32_MAX ==> r == I32_MAX
  {
    if n < I32_MIN then I32_MIN else if n > I32_MAX then I32_MAX else n
  }

  /** Rust's saturating `as u32` conversion of an integral float. */
  function SaturateU32(n: int): (r: nat)
    ensures r <= U32_MAX
    ensures 0 <= n <= U32_MAX ==> r == n
    ensures n < 0 ==> r == 0
    ensures n > U32_MAX ==> r == U32_MAX
  {
    if n < 0 then 0 else if n > U32_MAX then U32_MAX else n
  }
}
