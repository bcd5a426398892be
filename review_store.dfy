/** The collection operations of the page: loading the stored slot and marking a review helpful. */
module ReviewStore {
  import opened Wrappers
  import opened Reviews
  import ReviewStats

  /** The collection the load effect starts from: the stored one, or empty when the slot is absent. */
  function Loaded(saved: Option<seq<Review>>): (s: seq<Review>)
    ensures saved.None? ==> s == []
    ensures saved.Some? ==> s == saved.value
  {
    saved.GetOr([])
  }

  /** `{ ...review, helpful: (review.helpful || 0) + 1 }` */
  function Bumped(r: Review): (b: Review)
    ensures HelpfulCount(b) == HelpfulCount(r) + 1
    ensures b.(helpful := r.helpful) == r
  {
    r.(helpful := Some(HelpfulCount(r) + 1))
  }

  /** `handleHelpful`'s map: every review with the given id gets one more helpful vote. */
  function MarkHelpful(s: seq<Review>, id: int): (r: seq<Review>)
    ensures |r| == |s|
    ensures forall i :: 0 <= i < |s| && s[i].id == id ==>
      HelpfulCount(r[i]) == HelpfulCount(s[i]) + 1 && r[i].(helpful := s[i].helpful) == s[i]
    ensures forall i :: 0 <= i < |s| && s[i].id != id ==> r[i] == s[i]
  {
    seq(|s|, i requires 0 <= i < |s| => if s[i].id == id then Bumped(s[i]) else s[i])
  }

  /** An id that no review carries leaves the collection equal to what it was. */
  lemma MarkHelpfulAbsentId(s: seq<Review>, id: int)
    requires forall i :: 0 <= i < |s| ==> s[i].id != id
    ensures MarkHelpful(s, id) == s
  {
  }

  /** Helpful counts never go down, and ids and ratings stay where they were. */
  lemma MarkHelpfulMonotone(s: seq<Review>, id: int)
    ensures var r := MarkHelpful(s, id);
      forall i :: 0 <= i < |s| ==>
        HelpfulCount(r[i]) >= HelpfulCount(s[i]) && r[i].id == s[i].id && r[i].rating == s[i].rating
  {
  }

  /** Marking a review helpful changes neither the distribution nor the average. */
  lemma MarkHelpfulKeepsSummary(s: seq<Review>, id: int)
    ensures ReviewStats.RatingDistribution(MarkHelpful(s, id)) == ReviewStats.RatingDistribution(s)
    ensures ReviewStats.AverageRating(MarkHelpful(s, id)) == ReviewStats.AverageRating(s)
  {
    assert Ratings(MarkHelpful(s, id)) == Ratings(s);
    ReviewStats.SummaryDependsOnRatingsOnly(MarkHelpful(s, id), s);
  }
}
