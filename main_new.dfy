/**
 * The serving module built around the transformer model: its text
 * normaliser and the mapping from the predicted class to a rating.
 */
module MainNew {
  import opened Wrappers
  import opened TextClean

  /**
   * `light_clean`: a missing value gives ""; otherwise the text is normalised,
   * split, stop words and words of two letters or fewer are dropped, and the
   * rest is joined with single spaces. `None` stands for a pandas NA value.
   */
  function LightClean(text: Option<string>, stopWords: set<string>): (r: string)
    requires text.Some? ==> IsAscii(text.value)
    ensures text.None? ==> r == ""
    ensures LettersAndBlanks(r) && SingleSpaced(r)
    ensures forall i :: 0 <= i < |Words(r)| ==> KeepWord(Words(r)[i], stopWords) && IsWord(Words(r)[i])
    ensures text.Some? ==> Words(r) == KeepWords(Words(Normalized(text.value)), stopWords)
    ensures text.Some? ==> IsSubsequence(Words(r), Words(Normalized(text.value)))
  {
    match text
    case None => ""
    case Some(t) =>
      var words := Words(Normalized(t));
      var kept := KeepWords(words, stopWords);
      NormalizedChars(t);
      WordsOfLetters(Normalized(t));
      KeepWordsOfWords(words, stopWords);
      JoinWellFormed(kept);
      WordsOfJoin(kept);
      Join(kept)
  }

  /** `predicted_class + 1`: labels 0..4 become ratings 1..5, and the class can be read back. */
  function RatingOfClass(predictedClass: int): (rating: int)
    ensures rating - 1 == predictedClass
    ensures 0 <= predictedClass < 5 <==> 1 <= rating <= 5
  {
    predictedClass + 1
  }
}
