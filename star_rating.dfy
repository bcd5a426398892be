/** The star widgets: which of the five stars are filled, and the label under the input. */
module StarRating {
  import opened JsText

  /** `StarInput`: star `star` is filled when it is at most the hovered star, or the rating when nothing is hovered. */
  predicate InputStarFilled(star: int, hoverRating: int, rating: int) {
    star <= (if hoverRating != 0 then hoverRating else rating)
  }

  /** `StarDisplay`: star `star` is filled when it is at most the rating. */
  predicate DisplayStarFilled(star: int, rating: int) {
    star <= rating
  }

  /** How many of the stars 1..n a display of `rating` fills. */
  function DisplayFilledCount(n: nat, rating: int): (c: nat) {
    if n == 0 then 0 else DisplayFilledCount(n - 1, rating) + (if DisplayStarFilled(n, rating) then 1 else 0)
  }

  /** How many of the stars 1..n the input fills. */
  function InputFilledCount(n: nat, hoverRating: int, rating: int): (c: nat) {
    if n == 0 then 0
    else InputFilledCount(n - 1, hoverRating, rating) + (if InputStarFilled(n, hoverRating, rating) then 1 else 0)
  }

  function Clamp(x: int, lo: int, hi: int): (c: int)
    requires lo <= hi
    ensures lo <= c <= hi
    ensures lo <= x <= hi ==> c == x
  {
    if x < lo then lo else if x > hi then hi else x
  }

  lemma {:induction false} DisplayCountClamped(n: nat, rating: int)
    ensures DisplayFilledCount(n, rating) == Clamp(rating, 0, n)
  {
    if n > 0 {
      DisplayCountClamped(n - 1, rating);
    }
  }

  lemma {:induction false} InputCountClamped(n: nat, hoverRating: int, rating: int)
    ensures InputFilledCount(n, hoverRating, rating) == Clamp(if hoverRating != 0 then hoverRating else rating, 0, n)
  {
    if n > 0 {
      InputCountClamped(n - 1, hoverRating, rating);
    }
  }

  /**
   * A review rated r in 0..5 shows exactly r filled stars, and they are the
   * first r: of the first k stars, all k are filled up to the rating and none
   * is added after it.
   */
  lemma DisplayFillsRating(rating: int)
    requires 0 <= rating <= 5
    ensures DisplayFilledCount(5, rating) == rating
    ensures forall k :: 0 <= k <= 5 ==> DisplayFilledCount(k, rating) == if k <= rating then k else rating
  {
    forall k | 0 <= k <= 5
      ensures DisplayFilledCount(k, rating) == if k <= rating then k else rating
    {
      DisplayCountClamped(k, rating);
    }
  }

  /** The input previews the hovered star while hovering and shows the chosen rating otherwise. */
  lemma InputFillsPreview(hoverRating: int, rating: int)
    requires 0 <= hoverRating <= 5 && 0 <= rating <= 5
    ensures hoverRating != 0 ==> InputFilledCount(5, hoverRating, rating) == hoverRating
    ensures hoverRating == 0 ==> InputFilledCount(5, hoverRating, rating) == rating
  {
    InputCountClamped(5, hoverRating, rating);
  }

  /** The text under the star input: "Select rating", "1 star" or "k stars". */
  function RatingText(rating: int): (t: string)
    ensures rating <= 0 <==> t == "Select rating"
    ensures rating == 1 ==> t == "1 star"
    ensures rating >= 2 ==> t == Digits(rating) + " stars"
  {
    if rating > 0 then
      var t := Digits(rating) + " star" + (if rating != 1 then "s" else "");
      assert t[0] == Digits(rating)[0] && "Select rating"[0] == 'S';
      t
    else "Select rating"
  }

  /** The number in a star label reads back as the rating. */
  lemma RatingTextNumber(rating: int)
    requires rating > 0
    ensures exists k :: 0 < k <= |RatingText(rating)| && ParseDigits(RatingText(rating)[..k]) == rating
  {
    var d := Digits(rating);
    assert RatingText(rating)[..|d|] == d;
    ParseDigitsOfDigits(rating);
  }
}
