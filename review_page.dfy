/**
 * The `ReviewPage` component's state and the handlers that change it.
 * Each React state setter becomes a field assignment; the save effect,
 * which writes the whole collection to the 'userReviews' slot whenever
 * it changes, becomes the assignment to `storage` that follows every
 * assignment to `reviews`. Submission is split at the 500 ms timer:
 * `StartSubmit` is `handleSubmit` up to arming the timer, and
 * `CompleteSubmit` is the timer's callback, which sees the draft and the
 * collection of the render that handled the submit.
 */
module ReviewComponent {
  import opened Wrappers
  import opened Reviews
  import opened ReviewForm
  import ReviewStore
  import ReviewSort
  import JsText

  /** What an armed submission timer has captured. */
  datatype PendingSubmit = PendingSubmit(draft: Draft, reviews: seq<Review>)

  /**
   * A timer is only armed for a draft that passed the guard, with a rating picked from the
   * stars. The guard is written in the terms `CanSubmitMeaning` proves equivalent to it, so
   * that the class invariant does not unfold `trim`.
   */
  predicate Armable(p: PendingSubmit) {
    !JsText.IsBlank(p.draft.name) && !JsText.IsBlank(p.draft.comment) && 1 <= p.draft.rating <= 5
  }

  /** Every armed timer holds a draft that may be armed. */
  predicate AllArmable(ps: seq<PendingSubmit>) {
    ps == [] || (Armable(ps[0]) && AllArmable(ps[1..]))
  }

  lemma {:induction false} ArmAnother(ps: seq<PendingSubmit>, p: PendingSubmit)
    requires AllArmable(ps) && Armable(p)
    ensures AllArmable(ps + [p])
  {
    if ps == [] {
      assert ([] + [p])[1..] == [];
    } else {
      ArmAnother(ps[1..], p);
      assert (ps + [p])[0] == ps[0] && (ps + [p])[1..] == ps[1..] + [p];
    }
  }

  class ReviewPage {
    var reviews: seq<Review>
    var newReview: Draft
    var hoverRating: int
    var isSubmitting: bool
    var showReviewForm: bool
    var sortBy: string
    /** The armed submission timers, oldest first. */
    var pending: seq<PendingSubmit>
    /** The 'userReviews' local-storage slot. */
    var storage: seq<Review>

    ghost predicate Valid()
      reads this
    {
      && storage == reviews
      && 0 <= newReview.rating <= 5
      && 0 <= hoverRating <= 5
      && (isSubmitting ==> pending != [])
      && AllArmable(pending)
    }

    /** Mounting: initial state, then the load effect and the save effect. */
    constructor (saved: Option<seq<Review>>)
      ensures Valid()
      ensures reviews == ReviewStore.Loaded(saved) && storage == reviews
      ensures newReview == EmptyDraft && hoverRating == 0
      ensures !isSubmitting && !showReviewForm && sortBy == "recent" && pending == []
    {
      reviews := ReviewStore.Loaded(saved);
      newReview := EmptyDraft;
      hoverRating := 0;
      isSubmitting := false;
      showReviewForm := false;
      sortBy := "recent";
      pending := [];
      storage := reviews;
    }

    /** "Write a customer review" and "Write the first review": the draft is left as it was. */
    method OpenForm()
      requires Valid()
      modifies this`showReviewForm
      ensures Valid() && showReviewForm
    {
      showReviewForm := true;
    }

    /** The close button and Cancel: the draft is kept, and an armed timer still fires. */
    method CloseForm()
      requires Valid()
      modifies this`showReviewForm
      ensures Valid() && !showReviewForm
    {
      showReviewForm := false;
    }

    /** `handleChange` for the title, comment and name inputs. */
    method HandleChange(field: Field, value: string)
      requires Valid()
      modifies this`newReview
      ensures Valid() && newReview == SetField(old(newReview), field, value)
    {
      newReview := SetField(newReview, field, value);
    }

    /** A click on star `star` of the input. */
    method SetRating(star: int)
      requires Valid() && 1 <= star <= 5
      modifies this`newReview
      ensures Valid() && newReview == old(newReview).(rating := star)
    {
      newReview := newReview.(rating := star);
    }

    /** The pointer entering star `star`, or leaving the stars (`star` is 0). */
    method SetHoverRating(star: int)
      requires Valid() && 0 <= star <= 5
      modifies this`hoverRating
      ensures Valid() && hoverRating == star
    {
      hoverRating := star;
    }

    /** A choice in the sort selector. */
    method SetSortBy(value: string)
      requires Valid()
      modifies this`sortBy
      ensures Valid() && sortBy == value
    {
      sortBy := value;
    }

    /** `getSortedReviews()`: a sorted copy; the collection itself is not touched. */
    method GetSortedReviews() returns (sorted: seq<Review>)
      ensures sorted == ReviewSort.SortReviews(reviews, sortBy)
      ensures multiset(sorted) == multiset(reviews)
    {
      sorted := ReviewSort.SortReviews(reviews, sortBy);
    }

    /**
     * `handleSubmit` up to arming the timer. A draft that fails the guard changes
     * nothing; otherwise `isSubmitting` is set and a timer is armed with the
     * current draft and collection. The guard does not look at `isSubmitting`:
     * only the disabled button keeps a second submission out.
     */
    method StartSubmit() returns (accepted: bool)
      requires Valid()
      modifies this`isSubmitting, this`pending
      ensures Valid()
      ensures accepted == CanSubmit(old(newReview))
      ensures accepted ==> isSubmitting && pending == old(pending) + [PendingSubmit(newReview, reviews)]
      ensures !accepted ==> isSubmitting == old(isSubmitting) && pending == old(pending)
    {
      accepted := CanSubmit(newReview);
      if accepted {
        CanSubmitMeaning(newReview);
        Arm(PendingSubmit(newReview, reviews));
      }
    }

    /** Arms a timer with `p` and marks the submission as under way. */
    method Arm(p: PendingSubmit)
      requires Valid() && Armable(p)
      modifies this`isSubmitting, this`pending
      ensures Valid()
      ensures isSubmitting && pending == old(pending) + [p]
    {
      ArmAnother(pending, p);
      isSubmitting, pending := true, pending + [p];
    }

    /**
     * The oldest timer fires at time `now` (ms), with `dateStr` the formatted date: the
     * captured draft becomes a record prepended to the captured collection, which is
     * saved, and the form is reset and closed.
     */
    method CompleteSubmit(now: int, dateStr: string)
      requires Valid() && pending != []
      modifies this
      ensures Valid()
      ensures reviews == [Finalize(old(pending[0].draft), now, dateStr)] + old(pending[0].reviews)
      ensures storage == reviews
      ensures newReview == EmptyDraft && hoverRating == 0 && !isSubmitting && !showReviewForm
      ensures pending == old(pending[1..]) && sortBy == old(sortBy)
      ensures 1 <= reviews[0].rating <= 5
      ensures !JsText.IsBlank(reviews[0].name) && !JsText.IsBlank(reviews[0].comment)
      ensures AllRatingsValid(old(pending[0].reviews)) ==> AllRatingsValid(reviews)
    {
      var p := pending[0];
      assert Armable(p);
      var added := [Finalize(p.draft, now, dateStr)] + p.reviews;
      reviews, storage, pending := added, added, pending[1..];
      newReview, hoverRating, isSubmitting, showReviewForm := EmptyDraft, 0, false, false;
    }

    /** `handleHelpful(reviewId)`, followed by the save effect. */
    method HandleHelpful(reviewId: int)
      requires Valid()
      modifies this`reviews, this`storage
      ensures Valid()
      ensures reviews == ReviewStore.MarkHelpful(old(reviews), reviewId) && storage == reviews
      ensures AllRatingsValid(old(reviews)) ==> AllRatingsValid(reviews)
    {
      reviews := ReviewStore.MarkHelpful(reviews, reviewId);
      storage := reviews;
    }
  }

  /**
   * Reloading the page from the slot this page wrote gives back the same collection,
   * with the form state and sort order fresh.
   */
  method Reload(page: ReviewPage) returns (reloaded: ReviewPage)
    requires page.Valid()
    ensures fresh(reloaded) && reloaded.Valid()
    ensures reloaded.reviews == page.reviews
    ensures reloaded.newReview == EmptyDraft && !reloaded.showReviewForm && reloaded.sortBy == "recent"
  {
    reloaded := new ReviewPage(Some(page.storage));
  }
}
