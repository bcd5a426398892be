/** The draft being written in the modal form, its validation and the record it becomes. */
module ReviewForm {
  import opened Wrappers
  import opened JsText
  import opened Reviews

  /** `newReview`: a review under composition; rating 0 means "not chosen yet". */
  datatype Draft = Draft(name: string, rating: int, title: string, comment: string)

  /** `{ name: '', rating: 0, title: '', comment: '' }` */
  const EmptyDraft := Draft("", 0, "", "")

  /** The text inputs wired to `handleChange`, by their `name` attribute. */
  datatype Field = Name | Title | Comment

  function FieldValue(d: Draft, f: Field): (v: string) {
    match f
    case Name => d.name
    case Title => d.title
    case Comment => d.comment
  }

  /** `{ ...prev, [name]: value }`: the named field now holds `value`, nothing else changes. */
  function SetField(d: Draft, f: Field, value: string): (r: Draft)
    ensures FieldValue(r, f) == value
    ensures forall g :: g != f ==> FieldValue(r, g) == FieldValue(d, g)
    ensures r.rating == d.rating
  {
    match f
    case Name => d.(name := value)
    case Title => d.(title := value)
    case Comment => d.(comment := value)
  }

  /** The guard of `handleSubmit`: a name and a comment that are not blank, and a chosen rating. */
  predicate CanSubmit(d: Draft) {
    Trim(d.name) != [] && Trim(d.comment) != [] && d.rating > 0
  }

  /** The guard in terms of the characters: each required text has a character that is not white space. */
  lemma CanSubmitMeaning(d: Draft)
    ensures CanSubmit(d) <==> !IsBlank(d.name) && !IsBlank(d.comment) && d.rating > 0
  {
  }

  /** The `disabled` condition of the submit button. */
  predicate SubmitDisabled(d: Draft, isSubmitting: bool) {
    Trim(d.name) == [] || Trim(d.comment) == [] || d.rating == 0 || isSubmitting
  }

  /**
   * For a rating chosen from the stars (never negative), the button is enabled exactly when
   * the guard holds and no submission is under way.
   */
  lemma EnabledIffSubmittable(d: Draft, isSubmitting: bool)
    requires d.rating >= 0
    ensures !SubmitDisabled(d, isSubmitting) <==> CanSubmit(d) && !isSubmitting
  {
  }

  /** The record built when the delay ends: the draft plus the id, the date and no helpful votes. */
  function Finalize(d: Draft, now: int, date: string): (r: Review)
    ensures r.id == now && r.date == date && r.helpful == Some(0)
    ensures r.name == d.name && r.rating == d.rating && r.title == d.title && r.comment == d.comment
  {
    Review(now, d.name, d.rating, d.title, d.comment, date, Some(0))
  }

  /** A record built from a submittable draft has a rating and a non-blank name and comment. */
  lemma FinalizedIsWellFormed(d: Draft, now: int, date: string)
    requires CanSubmit(d)
    ensures var r := Finalize(d, now, date);
      r.rating > 0 && !IsBlank(r.name) && !IsBlank(r.comment) && HelpfulCount(r) == 0
  {
  }
}
