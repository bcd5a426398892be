/**
 * The earlier serving module. Its normaliser and its rating mapping are
 * written the same way as in `MainNew`; the lemma below states that they
 * compute the same results.
 */
module OldMain {
  import opened Wrappers
  import opened TextClean
  import MainNew

  /** `light_clean` as written in this module. */
  function LightClean(text: Option<string>, stopWords: set<string>): (r: string)
    requires text.Some? ==> IsAscii(text.value)
    ensures text.None? ==> r == ""
    ensures LettersAndBlanks(r) && SingleSpaced(r)
    ensures forall i :: 0 <= i < |Words(r)| ==> KeepWord(Words(r)[i], stopWords)
    ensures text.Some? ==> IsSubsequence(Words(r), Words(Normalized(text.value)))
  {
    if text.None? then ""
    else
      var t := text.value;
      var words := Words(Strip(CollapseSpaces(ReplaceNonAlpha(StripUrls(Lower(t))))));
      var kept := KeepWords(words, stopWords);
      NormalizedChars(t);
      WordsOfLetters(Normalized(t));
      KeepWordsOfWords(words, stopWords);
      JoinWellFormed(kept);
      WordsOfJoin(kept);
      Join(kept)
  }

  /** `int(predicted_class) + 1` */
  function RatingOfClass(predictedClass: int): (rating: int)
    ensures rating - 1 == predictedClass
    ensures 0 <= predictedClass < 5 <==> 1 <= rating <= 5
  {
    predictedClass + 1
  }

  /** The two copies of the normaliser and of the mapping agree on every input. */
  lemma SameAsMainNew(text: Option<string>, stopWords: set<string>, predictedClass: int)
    requires text.Some? ==> IsAscii(text.value)
    ensures LightClean(text, stopWords) == MainNew.LightClean(text, stopWords)
    ensures RatingOfClass(predictedClass) == MainNew.RatingOfClass(predictedClass)
  {
  }
}
