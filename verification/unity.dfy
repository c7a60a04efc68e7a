/** The two engine library calls the battle logic depends on: `Mathf.Clamp`
    and the integer overload of `Random.Range`. */
module Unity {

  /** `Mathf.Clamp` on integers: a value below `min` becomes `min`, otherwise
      a value above `max` becomes `max`. */
  function Clamp(value: int, min: int, max: int): (r: int)
    ensures min <= max ==> min <= r <= max
    ensures min <= value <= max ==> r == value
    ensures r == value || r == min || r == max
    ensures value < min ==> r == min
    ensures min <= max < value ==> r == max
  {
    if value < min then min else if value > max then max else value
  }

  /** `Mathf.Clamp` on floats, with `real` standing for `float`. */
  function ClampReal(value: real, min: real, max: real): (r: real)
    ensures min <= max ==> min <= r <= max
    ensures min <= value <= max ==> r == value
    ensures value < min ==> r == min
    ensures min <= max < value ==> r == max
  {
    if value < min then min else if value > max then max else value
  }

  /** `Random.Range(0, n)` with the random draw supplied by the caller as
      `roll`: a value in `[0, n)`, or `0` when the range is empty. */
  function RandomRange(n: nat, roll: nat): (r: nat)
    ensures n > 0 ==> r < n
    ensures n == 0 ==> r == 0
  {
    if n == 0 then 0 else roll % n
  }

  /** Every value the engine may draw is some roll's result, so modelling
      the draw as a roll loses no behaviour. */
  lemma RandomRangeCovers(n: nat, i: nat)
    requires i < n
    ensures RandomRange(n, i) == i
  {
  }
}
