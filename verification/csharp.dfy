/** The parts of C#'s runtime semantics the battle code relies on: 32-bit
    `int` arithmetic, the truncating `%` operator, list indexing, and the two
    exceptions the battle code can raise, turned into an explicit result. */
module CSharp {

  const MinInt32: int := -0x8000_0000
  const MaxInt32: int := 0x7fff_ffff

  /** A C# `int`. */
  type Int32 = x: int | -0x8000_0000 <= x <= 0x7fff_ffff

  /** The exceptions the battle code can throw: the `ArgumentOutOfRangeException`
      of the `List<T>` indexer and the `DivideByZeroException` of `%`. */
  datatype Fault = ArgumentOutOfRange | DivideByZero

  /** The outcome of an operation that may throw. */
  datatype Result<+T> = Ok(value: T) | Err(fault: Fault) {

    predicate IsFailure() {
      Err?
    }

    function PropagateFailure<U>(): Result<U>
      requires Err?
    {
      Err(fault)
    }

    function Extract(): T
      requires Ok?
    {
      value
    }
  }

  function Abs(n: int): (r: int)
    ensures r >= 0
  {
    if n < 0 then -n else n
  }

  /** Unchecked 32-bit addition or subtraction: the exact result reduced to
      the `int` range by two's-complement wrap-around. */
  function Wrap32(x: int): (r: Int32)
    ensures (x - r) % 0x1_0000_0000 == 0
    ensures MinInt32 <= x <= MaxInt32 ==> r == x
  {
    (x + 0x8000_0000) % 0x1_0000_0000 - 0x8000_0000
  }

  /** C#'s `/` by a positive divisor: the quotient is truncated toward
      zero. */
  function Quot(a: int, m: int): (r: int)
    requires m > 0
    ensures a >= 0 ==> 0 <= r && m * r <= a < m * (r + 1)
    ensures a <= 0 ==> r <= 0 && m * (r - 1) < a <= m * r
  {
    if a >= 0 then a / m else -((-a) / m)
  }

  /** C#'s `%`: the quotient is truncated toward zero, so the remainder
      carries the sign of the dividend. */
  function Rem(a: int, n: int): (r: int)
    requires n != 0
    ensures a >= 0 ==> 0 <= r < Abs(n)
    ensures a <= 0 ==> -Abs(n) < r <= 0
    ensures a >= 0 ==> r == a % Abs(n)
    ensures a == Abs(n) * Quot(a, Abs(n)) + r
  {
    if a >= 0 then a % Abs(n) else -((-a) % Abs(n))
  }

  /** The `List<T>` indexer: throws unless `0 <= i < Count`. */
  function At<T>(s: seq<T>, i: int): (r: Result<T>)
    ensures r.Ok? <==> 0 <= i < |s|
    ensures r.Ok? ==> r.value == s[i]
  {
    if 0 <= i < |s| then Ok(s[i]) else Err(ArgumentOutOfRange)
  }
}
