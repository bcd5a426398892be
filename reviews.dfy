/** The review record that the page keeps, shows and persists. */
module Reviews {
  import opened Wrappers

  /**
   * One customer review. `id` is the submission time in milliseconds and
   * `date` the date text formatted at submission. `helpful` is `None` for a
   * stored record that lacks the field; the page reads it as 0.
   */
  datatype Review = Review(
    id: int,
    name: string,
    rating: int,
    title: string,
    comment: string,
    date: string,
    helpful: Option<int>)

  /** `review.helpful || 0`: the helpful count, a missing one read as 0. */
  function HelpfulCount(r: Review): (n: int)
    ensures r.helpful.None? ==> n == 0
    ensures r.helpful.Some? ==> n == r.helpful.value
  {
    r.helpful.GetOr(0)
  }

  /** The ratings of the reviews, in collection order. */
  function Ratings(s: seq<Review>): (rs: seq<int>)
    ensures |rs| == |s|
    ensures forall i :: 0 <= i < |s| ==> rs[i] == s[i].rating
  {
    if s == [] then [] else [s[0].rating] + Ratings(s[1..])
  }

  /** Every rating is a whole number of stars from 1 to 5. */
  predicate AllRatingsValid(s: seq<Review>) {
    forall i :: 0 <= i < |s| ==> 1 <= s[i].rating <= 5
  }
}
