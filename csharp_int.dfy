/** The parts of C#'s 32-bit `int` semantics that the selection overlay relies on:
    unchecked (wrapping) subtraction, `Math.Min`, and `Math.Abs`, which throws an
    `OverflowException` for `int.MinValue`. */
module CSharpInt {

  const IntMin: int := -0x8000_0000
  const IntMax: int := 0x7FFF_FFFF
  /** 2^32, the modulus of two's-complement `int` arithmetic. */
  const Modulus: int := 0x1_0000_0000

  predicate IsInt32(v: int) {
    IntMin <= v <= IntMax
  }

  /** The values of a C# `int`, the range `IsInt32` accepts. */
  type Int32 = v: int | IntMin <= v <= IntMax

  /** The exceptions the modelled code can raise. */
  datatype Error = OverflowException

  /** A value, or the exception that was thrown instead of producing it. */
  datatype Result<T> = Ok(value: T) | Err(error: Error) {
    predicate IsFailure() { Err? }

    function PropagateFailure<U>(): Result<U>
      requires Err?
    {
      Err(error)
    }

    function Extract(): T
      requires Ok?
    {
      value
    }
  }

  /** Two's-complement truncation of a mathematical integer to 32 bits: the one
      `int` that is congruent to `v` modulo 2^32. */
  function Wrap32(v: int): (r: Int32)
    ensures IsInt32(v) ==> r == v
    ensures (v - r) % Modulus == 0
  {
    (v - IntMin) % Modulus + IntMin
  }

  /** `a - b` in an unchecked C# context. */
  function Sub32(a: Int32, b: Int32): (r: Int32)
    ensures IsInt32(a - b) ==> r == a - b
    ensures a - b > IntMax ==> r == a - b - Modulus
    ensures a - b < IntMin ==> r == a - b + Modulus
  {
    var d: int := a as int - b as int;
    if d > IntMax then
      WrapShifted(d, Modulus); Wrap32(d)
    else if d < IntMin then
      WrapShifted(d, -Modulus); Wrap32(d)
    else
      Wrap32(d)
  }

  /** Shifting an `int` by a multiple of 2^32 does not change its truncation. */
  lemma WrapShifted(v: int, k: int)
    requires IsInt32(v - k) && k % Modulus == 0
    ensures Wrap32(v) == v - k
  {
  }

  /** `Math.Min(int, int)`. */
  function Min(a: Int32, b: Int32): (r: Int32)
    ensures r <= a && r <= b
    ensures r == a || r == b
  {
    if a <= b then a else b
  }

  /** `Math.Abs(int)`: the magnitude, or an `OverflowException` when the magnitude
      of `int.MinValue` does not fit in an `int`. */
  function Abs32(v: Int32): (r: Result<Int32>)
    ensures r.Err? <==> v == IntMin
    ensures r.Ok? ==> r.value >= 0 && (r.value == v || r.value + v == 0)
  {
    if v == IntMin then Err(OverflowException)
    else if v < 0 then var m: Int32 := -(v as int); Ok(m)
    else Ok(v)
  }
}
