/** The cyclic cursor idiom `(i + n + direction) % n` shared by the unit
    selector, the single-target selector and the move menu. */
module Cursor {
  import opened CSharp

  /** NavigateUp moves a cursor by -1, NavigateDown by +1. */
  datatype Direction = Up | Down

  function Delta(d: Direction): int {
    match d
    case Up => -1
    case Down => 1
  }

  /** `(value + n) % n` in C#: throws on an empty range, otherwise brings any
      `value >= -n` into `[0, n)`. */
  function Wrap(value: int, n: int): (r: Result<int>)
    ensures r.Ok? <==> n != 0
    ensures n > 0 && value >= -n ==> 0 <= r.value < n
  {
    if n == 0 then Err(DivideByZero) else Ok(Rem(value + n, n))
  }

  /** On the values a one-position step can produce, the remainder is the
      wrap-around of the cursor: a position left of the range comes back in
      at its right end and a position inside the range stays put. */
  lemma WrapValue(value: int, n: int)
    requires -n <= value < n
    ensures Wrap(value, n) == Ok(if value < 0 then value + n else value)
  {
    var a := value + n;
    assert Abs(n) == n;
    if value >= 0 {
      assert a - n < n;
      assert a % n == a - n;
    } else {
      assert a % n == a;
    }
  }

  /** A value more than `n` below zero wraps to a negative position: C#'s
      `%` does not bring it back into the range. */
  lemma WrapBelow(value: int, n: int)
    ensures n > 0 && -2 * n < value < -n ==> Wrap(value, n) == Ok(value + n)
  {
    if n > 0 && -2 * n < value < -n {
      assert (-(value + n)) % n == -(value + n);
    }
  }

  /** One cursor step of `d` over a range of `n` positions. */
  function Step(i: int, n: int, d: Direction): (r: Result<int>)
    ensures r.Ok? <==> n != 0
    ensures n > 0 && i >= 0 ==> 0 <= r.value < n
  {
    Wrap(i + Delta(d), n)
  }

  /** Stepping up from the first position lands on the last one, and
      stepping down from the last lands on the first. */
  lemma StepWrapsAround(n: int)
    requires n > 0
    ensures Step(0, n, Up) == Ok(n - 1)
    ensures Step(n - 1, n, Down) == Ok(0)
  {
    WrapValue(-1, n);
    assert Step(0, n, Up) == Wrap(-1, n);
    WrapValue(0, n);
    assert Step(n - 1, n, Down) == Wrap(n, n);
    assert Wrap(n, n) == Ok(Rem(n + n, n));
    assert (n + n) % n == 0;
  }

  /** Inside the range, a step moves by exactly one position. */
  lemma StepInside(i: int, n: int)
    requires 0 <= i < n
    ensures 0 < i ==> Step(i, n, Up) == Ok(i - 1)
    ensures i < n - 1 ==> Step(i, n, Down) == Ok(i + 1)
  {
    WrapValue(i - 1, n);
    if i < n - 1 {
      WrapValue(i + 1, n);
    }
  }

  /** Up then Down, or Down then Up, returns to the starting position. */
  lemma {:induction false} StepInverse(i: int, n: int)
    requires 0 <= i < n
    ensures Step(Step(i, n, Up).value, n, Down) == Ok(i)
    ensures Step(Step(i, n, Down).value, n, Up) == Ok(i)
  {
    if i == 0 {
      StepWrapsAround(n);
    } else {
      StepInside(i, n);
      StepInside(i - 1, n);
    }
    if i == n - 1 {
      StepWrapsAround(n);
    } else {
      StepInside(i, n);
      StepInside(i + 1, n);
    }
  }
}
