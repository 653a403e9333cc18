/** The scenarios of `DistanceTest`, on the distance 10. */
module DistanceTests {
  import opened Errors
  import opened Distances

  /** A distance of 0 is refused. */
  method GreaterThanZero() returns (r: Result<Distance>)
    ensures r == Err(InvalidArgument)
  {
    r := New(0);
  }

  /** 10 - 3 - 2 is the distance 5. */
  method MinusTwice() returns (r: Result<Distance>)
    ensures r.Ok? && r == New(5)
  {
    var ten := New(10).value;
    var seven := Minus(ten, 3).value;
    r := Minus(seven, 2);
  }

  /** 10 + 3 + 2 is the distance 15. */
  method PlusTwice() returns (r: Result<Distance>)
    ensures r.Ok? && r == New(15)
  {
    var ten := New(10).value;
    var thirteen := Plus(ten, 3).value;
    r := Plus(thirteen, 2);
  }

  /** A new leg of 12 may not replace part of a leg of 10. */
  method ValidateLargerThanTwelve() returns (r: Outcome)
    ensures r == Fail(CannotUpdateSection(DistanceNotShorter))
  {
    r := ValidateLargerThan(10, 12);
  }

  /** Two distances built from the same value are equal, and from different values are not. */
  lemma SameValueSameDistance(a: int, b: int)
    requires New(a).Ok? && New(b).Ok?
    ensures New(a) == New(b) <==> a == b
  {
  }
}
