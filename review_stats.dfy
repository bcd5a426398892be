/**
 * The summary the sidebar shows: the count of reviews per star, in the
 * fixed order 5, 4, 3, 2, 1, and the average rating.
 */
module ReviewStats {
  import opened Reviews

  /** The number of reviews whose rating is exactly `star`. */
  function CountRating(s: seq<Review>, star: int): (n: nat)
    ensures n <= |s|
  {
    if s == [] then 0 else (if s[0].rating == star then 1 else 0) + CountRating(s[1..], star)
  }

  /** One bar of the distribution. */
  datatype StarCount = StarCount(star: int, count: nat)

  /** `ratingDistribution`: five entries, for stars 5 down to 1. */
  function RatingDistribution(s: seq<Review>): (d: seq<StarCount>)
    ensures |d| == 5
    ensures forall i :: 0 <= i < 5 ==> d[i].star == 5 - i && d[i].count == CountRating(s, 5 - i)
  {
    [StarCount(5, CountRating(s, 5)), StarCount(4, CountRating(s, 4)), StarCount(3, CountRating(s, 3)),
     StarCount(2, CountRating(s, 2)), StarCount(1, CountRating(s, 1))]
  }

  function SumCounts(d: seq<StarCount>): (n: int) {
    if d == [] then 0 else d[0].count + SumCounts(d[1..])
  }

  /** The count of a star is the multiplicity of that rating among the ratings. */
  lemma {:induction false} CountRatingIsMultiplicity(s: seq<Review>, star: int)
    ensures CountRating(s, star) == multiset(Ratings(s))[star]
  {
    if s != [] {
      CountRatingIsMultiplicity(s[1..], star);
      assert Ratings(s) == [s[0].rating] + Ratings(s[1..]);
    }
  }

  /** With every rating in 1..5, the five counts add up to the number of reviews. */
  lemma {:induction false} DistributionSumsToTotal(s: seq<Review>)
    requires AllRatingsValid(s)
    ensures SumCounts(RatingDistribution(s)) == |s|
  {
    var d := RatingDistribution(s);
    assert SumCounts(d[4..]) == d[4].count by { assert d[4..][1..] == []; }
    assert SumCounts(d[3..]) == d[3].count + SumCounts(d[4..]) by { assert d[3..][1..] == d[4..]; }
    assert SumCounts(d[2..]) == d[2].count + SumCounts(d[3..]) by { assert d[2..][1..] == d[3..]; }
    assert SumCounts(d[1..]) == d[1].count + SumCounts(d[2..]) by { assert d[1..][1..] == d[2..]; }
    CountsAddUp(s);
  }

  lemma {:induction false} CountsAddUp(s: seq<Review>)
    requires AllRatingsValid(s)
    ensures CountRating(s, 5) + CountRating(s, 4) + CountRating(s, 3) + CountRating(s, 2) + CountRating(s, 1) == |s|
  {
    if s != [] {
      CountsAddUp(s[1..]);
    }
  }

  /** The sum of all ratings (the `reduce` of `averageRating`). */
  function SumRatings(s: seq<Review>): (n: int) {
    if s == [] then 0 else s[0].rating + SumRatings(s[1..])
  }

  /** An exact quotient `num / den`, standing in for the floating-point average. */
  datatype Fraction = Fraction(num: int, den: nat)

  /**
   * `averageRating` before rounding: the sum of the ratings over their number,
   * and 0 (written 0/1) for an empty collection, where the page shows "0.0".
   */
  function AverageRating(s: seq<Review>): (a: Fraction)
    ensures a.den > 0
    ensures s == [] ==> a == Fraction(0, 1)
    ensures s != [] ==> a.den == |s| && a.num == SumRatings(s)
  {
    if |s| > 0 then Fraction(SumRatings(s), |s|) else Fraction(0, 1)
  }

  /** With every rating in 1..5, a non-empty collection averages between 1 and 5. */
  lemma {:induction false} AverageWithinStars(s: seq<Review>)
    requires AllRatingsValid(s) && s != []
    ensures var a := AverageRating(s); a.den <= a.num <= 5 * a.den
  {
    SumWithinStars(s);
  }

  lemma {:induction false} SumWithinStars(s: seq<Review>)
    requires AllRatingsValid(s)
    ensures |s| <= SumRatings(s) <= 5 * |s|
  {
    if s != [] {
      SumWithinStars(s[1..]);
    }
  }

  /** The average agrees with the distribution: the sum of the ratings is the star-weighted sum of the counts. */
  lemma {:induction false} SumIsWeightedDistribution(s: seq<Review>)
    requires AllRatingsValid(s)
    ensures SumRatings(s) == 5 * CountRating(s, 5) + 4 * CountRating(s, 4) + 3 * CountRating(s, 3)
                             + 2 * CountRating(s, 2) + CountRating(s, 1)
  {
    if s != [] {
      SumIsWeightedDistribution(s[1..]);
    }
  }

  /** Two collections with the same ratings in the same order have the same summary. */
  lemma {:induction false} SummaryDependsOnRatingsOnly(s: seq<Review>, t: seq<Review>)
    requires Ratings(s) == Ratings(t)
    ensures RatingDistribution(s) == RatingDistribution(t)
    ensures AverageRating(s) == AverageRating(t)
  {
    forall star: int ensures CountRating(s, star) == CountRating(t, star) {
      CountRatingIsMultiplicity(s, star);
      CountRatingIsMultiplicity(t, star);
    }
    SumRatingsOfRatings(s, t);
  }

  lemma {:induction false} SumRatingsOfRatings(s: seq<Review>, t: seq<Review>)
    requires Ratings(s) == Ratings(t)
    ensures SumRatings(s) == SumRatings(t)
  {
    if s != [] {
      assert Ratings(s)[1..] == Ratings(s[1..]);
      assert Ratings(t)[1..] == Ratings(t[1..]);
      SumRatingsOfRatings(s[1..], t[1..]);
    }
  }
}
