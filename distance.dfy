/** The distance between two neighbouring stations: a strictly positive integer, compared by value. */
module Distances {
  import opened Errors

  newtype Distance = v: int | 0 < v witness 1

  /** `new Distance(value)`: refused with InvalidArgument unless the value is greater than 0. */
  function New(value: int): (r: Result<Distance>)
    ensures r.Ok? <==> 0 < value
    ensures r.Ok? ==> r.value as int == value
    ensures r.Err? ==> r.error == InvalidArgument
  {
    if 0 < value then Ok(value as Distance) else Err(InvalidArgument)
  }

  /** `plus(n)`: a new distance `n` longer; it must still be greater than 0. */
  function Plus(d: Distance, n: int): (r: Result<Distance>)
    ensures r.Ok? <==> 0 < d as int + n
    ensures r.Ok? ==> r.value as int == d as int + n
    ensures r.Err? ==> r.error == InvalidArgument
  {
    New(d as int + n)
  }

  /** `minus(n)`: a new distance `n` shorter; refused when nothing positive would remain. */
  function Minus(d: Distance, n: int): (r: Result<Distance>)
    ensures r.Ok? <==> n < d as int
    ensures r.Ok? ==> r.value as int == d as int - n
    ensures r.Err? ==> r.error == InvalidArgument
  {
    New(d as int - n)
  }

  /** `validateLargerThan(n)`: a leg of length `n` may only replace part of `d` when it is strictly shorter. */
  function ValidateLargerThan(d: Distance, n: int): (r: Outcome)
    ensures r.Pass? <==> n < d as int
    ensures r.Fail? ==> r.error == CannotUpdateSection(DistanceNotShorter)
  {
    if n >= d as int then Fail(CannotUpdateSection(DistanceNotShorter)) else Pass
  }

  /** Taking `n` off and adding it back gives the distance one started from. */
  lemma MinusThenPlus(d: Distance, n: int)
    requires Minus(d, n).Ok?
    ensures Plus(Minus(d, n).value, n) == Ok(d)
  {
  }

  /** What passes the split check is exactly what leaves a positive remainder. */
  lemma ValidatedSplitLeavesRemainder(d: Distance, n: int)
    ensures ValidateLargerThan(d, n).Pass? <==> Minus(d, n).Ok?
    ensures ValidateLargerThan(d, n).Pass? && 0 < n ==> Plus(Minus(d, n).value, n) == Ok(d)
  {
  }
}
