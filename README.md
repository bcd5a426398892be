# Review rating system: the review page and the text normaliser

This project models two parts of a review rating system:

- **The review page of the web front end** (`frontend/src/ReviewPage.js`). It holds a collection of customer reviews and keeps it in the browser's local storage under the key `userReviews`. It shows a summary with the rating distribution and the average. It lists the reviews in one of four sort orders. It collects new reviews through a form with a star input, and it counts "helpful" votes.
- **The `light_clean` text normaliser** of the prediction service, with the rule that turns the classifier's predicted class into a rating of 1 to 5 (`app/main_new.py`, `app/old_main.py`).

## How the model is built

Modules:

- `Reviews`: the review record.
- `ReviewStats`: the distribution and the average.
- `ReviewSort`: the four sort policies, as one stable sort by a rank.
- `ReviewStore`: loading the slot and the helpful vote.
- `ReviewForm`: the draft, the submit guard and the finished record.
- `StarRating`: the two star widgets and the rating label.
- `JsText`: JavaScript's `trim` and the decimal rendering of numbers.
- `ReviewComponent`: the page itself.
- `TextClean`: the steps of `light_clean`.
- `MainNew` and `OldMain`: the two serving modules.

The page is a class, `ReviewComponent.ReviewPage`:

- Its fields are the component's state variables, plus `storage`, the local-storage slot.
- Every update of the collection is followed by writing it to `storage`, the save effect. So the invariant `Valid()` includes `storage == reviews`.
- A submission is split at its 500 ms timer:
  - `StartSubmit` is `handleSubmit` up to arming the timer. It records what the timer's closure captured: the draft and the collection of that render.
  - `CompleteSubmit` is the callback.
  - Because the callback prepends to the *captured* collection, a helpful vote cast while a submission is pending is lost when the timer fires. The model keeps this behaviour.
- The guard in `handleSubmit` does not test `isSubmitting`. Only the disabled button does, so the model lets several timers be armed.

The sort policies:

- `Array.prototype.sort` is stable, so each policy is the stable sort of the collection by a number, largest first.
- That number is the id, the helpful count (a missing count read as 0), the rating, or the negated rating for `lowest`. Ranking by the negated rating, largest first, gives the same stable order as the comparator `a.rating - b.rating`.
- `ReviewSort.StableSortIsUnique` shows that only one order is stable and descending, so the model's insertion sort yields exactly what any conforming `sort` yields.

White space differs between the two halves:

- `trim()` uses ECMAScript's white space and line terminators.
- `light_clean` uses Python's ASCII white space. `re`'s `\s`, `str.split()` and `str.strip()` all treat the same ten code points as white space: tab, line feed, vertical tab, form feed and carriage return (0x09..0x0D), the four separators 0x1C..0x1F, and space (0x20).

Values from outside the program are parameters:

- the clock `Date.now()` becomes `now`;
- `toLocaleDateString` becomes `dateStr`;
- the previous content of the storage slot becomes `saved`;
- nltk's English stop-word list becomes `stopWords`;
- the classifier's arg-max becomes `predictedClass`.

## Model

| member | source | states |
|---|---|---|
| Reviews.HelpfulCount | frontend/src/ReviewPage.js:45 | `review.helpful \|\| 0`: a record without the field counts 0 votes, otherwise its own count |
| Reviews.Ratings | frontend/src/ReviewPage.js:20 | the ratings of the collection, one per review, in order |
| ReviewStats.CountRating | frontend/src/ReviewPage.js:20 | the number of reviews with a given rating never exceeds the number of reviews |
| ReviewStats.RatingDistribution | frontend/src/ReviewPage.js:18-23 | five entries for 5, 4, 3, 2, 1 stars in that order, each holding the count of reviews with that rating |
| ReviewStats.CountRatingIsMultiplicity | frontend/src/ReviewPage.js:20 | the count for a star is the multiplicity of that rating in the collection's ratings |
| ReviewStats.DistributionSumsToTotal | frontend/src/ReviewPage.js:18-23 | when every rating is 1..5, the five counts add up to the number of reviews |
| ReviewStats.CountsAddUp | frontend/src/ReviewPage.js:18-23 | the per-star counts of a collection with ratings in 1..5 sum to its length |
| ReviewStats.SumRatings | frontend/src/ReviewPage.js:138 | the `reduce` over the collection: the sum of the ratings |
| ReviewStats.AverageRating | frontend/src/ReviewPage.js:137-139 | the average as an exact fraction: 0 for an empty collection, otherwise the rating sum over the number of reviews |
| ReviewStats.AverageWithinStars | frontend/src/ReviewPage.js:137-139 | with ratings in 1..5 the average of a non-empty collection lies between 1 and 5 |
| ReviewStats.SumWithinStars | frontend/src/ReviewPage.js:138 | the rating sum lies between the number of reviews and five times that |
| ReviewStats.SumIsWeightedDistribution | frontend/src/ReviewPage.js:18-23 | the rating sum equals the distribution weighted by stars, so the average and the bars agree |
| ReviewStats.SummaryDependsOnRatingsOnly | frontend/src/ReviewPage.js:18-23 | two collections with the same ratings in the same order have the same distribution and average |
| ReviewStats.SumRatingsOfRatings | frontend/src/ReviewPage.js:138 | the rating sum depends only on the ratings |
| ReviewSort.Rank | frontend/src/ReviewPage.js:43-49 | the number each comparator orders by, largest first: the id, the helpful count with missing as 0, the rating, or the negated rating |
| ReviewSort.PolicyOf | frontend/src/ReviewPage.js:41-52 | each of "recent", "helpful", "highest", "lowest" selects its own policy, and every other value selects none |
| ReviewSort.Descending | frontend/src/ReviewPage.js:39-53 | every review ranks at least as high as each review after it |
| ReviewSort.WithRank | frontend/src/ReviewPage.js:39-53 | the reviews of one rank, in their order in the list; stability means the sort keeps these |
| ReviewSort.WithRankMember | frontend/src/ReviewPage.js:39-53 | every review picked out for a rank is in the collection and has that rank |
| ReviewSort.Insert | frontend/src/ReviewPage.js:39-53 | inserting adds exactly the one review to the multiset and keeps the length plus one |
| ReviewSort.InsertDescending | frontend/src/ReviewPage.js:39-53 | inserting into a list ordered largest rank first keeps it ordered |
| ReviewSort.WithRankCons | frontend/src/ReviewPage.js:39-53 | the reviews of a rank in a list are the head's, if it has that rank, followed by the tail's |
| ReviewSort.InsertWithRank | frontend/src/ReviewPage.js:39-53 | insertion places the new review before all reviews of its rank and keeps every rank class's order |
| ReviewSort.StableSort | frontend/src/ReviewPage.js:39-53 | a permutation of the collection, ordered largest rank first, in which reviews of equal rank keep their original order |
| ReviewSort.SortReviews | frontend/src/ReviewPage.js:39-53 | `getSortedReviews()`: a permutation; unchanged order for an unknown `sortBy`; otherwise ordered by the policy and stable |
| ReviewSort.StableSortIsUnique | frontend/src/ReviewPage.js:39-53 | any order that is descending by rank and keeps each rank's reviews in input order is the model's sort, so the result agrees with any stable `sort` |
| ReviewSort.SameRankClassesSameOrder | frontend/src/ReviewPage.js:39-53 | two descending lists with the same rank classes are equal |
| ReviewSort.DescendingTail | frontend/src/ReviewPage.js:39-53 | the tail of a list ordered by rank is ordered by rank |
| ReviewSort.SameHead | frontend/src/ReviewPage.js:39-53 | two lists whose heads share a rank and whose reviews of that rank agree start with the same review |
| ReviewSort.SameFirstRank | frontend/src/ReviewPage.js:39-53 | two descending lists with the same rank classes start with the same rank |
| ReviewSort.TailRankClass | frontend/src/ReviewPage.js:39-53 | lists with the same head and the same reviews of a rank have tails with the same reviews of that rank |
| ReviewSort.SortRecent | frontend/src/ReviewPage.js:42-43 | "recent" lists the largest id, the newest review, first |
| ReviewSort.SortHelpful | frontend/src/ReviewPage.js:44-45 | "helpful" lists the most helpful first, a missing count read as 0 |
| ReviewSort.SortHighest | frontend/src/ReviewPage.js:46-47 | "highest" lists the highest rating first |
| ReviewSort.SortLowest | frontend/src/ReviewPage.js:48-49 | "lowest" lists the lowest rating first |
| ReviewStore.Loaded | frontend/src/ReviewPage.js:26-31 | an empty slot leaves the collection empty; a saved collection becomes the collection |
| ReviewStore.Bumped | frontend/src/ReviewPage.js:92 | one more helpful vote, missing read as 0, and every other field unchanged |
| ReviewStore.MarkHelpful | frontend/src/ReviewPage.js:89-95 | same length; every review with the id gets one more vote and keeps its other fields; every other review is unchanged |
| ReviewStore.MarkHelpfulAbsentId | frontend/src/ReviewPage.js:89-95 | a vote for an id no review has changes nothing |
| ReviewStore.MarkHelpfulMonotone | frontend/src/ReviewPage.js:89-95 | no review's helpful count decreases, and the ids and ratings stay as they were |
| ReviewStore.MarkHelpfulKeepsSummary | frontend/src/ReviewPage.js:89-95 | a helpful vote changes neither the distribution nor the average |
| ReviewForm.SetField | frontend/src/ReviewPage.js:81-87 | `handleChange`: the named field gets the value, and the other text fields and the rating are unchanged |
| ReviewForm.CanSubmit | frontend/src/ReviewPage.js:57 | the guard of `handleSubmit`: trimmed name and comment non-empty and a rating above 0 |
| ReviewForm.CanSubmitMeaning | frontend/src/ReviewPage.js:57 | the submit guard holds exactly when the name and the comment each have a character that is not white space and a rating was picked |
| ReviewForm.SubmitDisabled | frontend/src/ReviewPage.js:358 | the `disabled` condition of the submit button, as written |
| ReviewForm.EnabledIffSubmittable | frontend/src/ReviewPage.js:358 | the submit button is enabled exactly when the guard holds and no submission is under way |
| ReviewForm.Finalize | frontend/src/ReviewPage.js:61-70 | the record has the draft's fields, id `now`, the formatted date and zero helpful votes |
| ReviewForm.FinalizedIsWellFormed | frontend/src/ReviewPage.js:57-70 | a record built from a draft that passed the guard has a rating, a non-blank name and comment, and no votes |
| StarRating.InputStarFilled | frontend/src/ReviewPage.js:105 | a star of the input is filled when it is at most the hovered star, or the chosen rating when nothing is hovered |
| StarRating.DisplayStarFilled | frontend/src/ReviewPage.js:128 | a star of the display is filled when it is at most the rating |
| StarRating.Clamp | frontend/src/ReviewPage.js:102-105 | the clamped value lies within the bounds and is the value itself when that is already within them |
| StarRating.DisplayFilledCount | frontend/src/ReviewPage.js:125-130 | how many of the first n display stars are filled |
| StarRating.InputFilledCount | frontend/src/ReviewPage.js:102-105 | how many of the first n input stars are filled |
| StarRating.DisplayCountClamped | frontend/src/ReviewPage.js:125-130 | the display fills `rating` stars, clamped to 0..5 |
| StarRating.InputCountClamped | frontend/src/ReviewPage.js:102-105 | the input fills the hovered count, or the chosen rating when nothing is hovered, clamped to 0..5 |
| StarRating.DisplayFillsRating | frontend/src/ReviewPage.js:125-130 | a rating r in 0..5 fills r stars, and of the first k stars it fills k up to r and none after: exactly stars 1..r are filled |
| StarRating.InputFillsPreview | frontend/src/ReviewPage.js:105 | hovering previews the hovered count; otherwise the chosen rating is shown |
| StarRating.RatingText | frontend/src/ReviewPage.js:115 | "Select rating" exactly when no rating is picked; "1 star" for one; otherwise the number followed by " stars" |
| StarRating.RatingTextNumber | frontend/src/ReviewPage.js:115 | the label of a picked rating starts with that rating's decimal digits |
| JsText.IsJsSpace | frontend/src/ReviewPage.js:57 | the characters `trim` removes: ECMAScript white space and line terminators |
| JsText.IsBlank | frontend/src/ReviewPage.js:57 | every character is one `trim` removes |
| JsText.TrimStart | frontend/src/ReviewPage.js:57 | a suffix of the text that is empty exactly for blank text and otherwise starts with a character that is not white space |
| JsText.TrimStartDropsOnlySpace | frontend/src/ReviewPage.js:57 | the prefix `TrimStart` removes is all white space |
| JsText.TrimEnd | frontend/src/ReviewPage.js:57 | a prefix of the text that is empty exactly for blank text and otherwise ends with a character that is not white space |
| JsText.TrimEndDropsOnlySpace | frontend/src/ReviewPage.js:57 | the suffix `TrimEnd` removes is all white space |
| JsText.Trim | frontend/src/ReviewPage.js:57 | a slice of the text with only white space before and after it; empty exactly when the text is blank; otherwise with no white space at either end |
| JsText.TrimSlices | frontend/src/ReviewPage.js:57 | trimming the start and then the end leaves a slice with blank text on both sides, empty exactly for blank text |
| JsText.Digits | frontend/src/ReviewPage.js:115 | the decimal rendering: non-empty, all digits, no leading zero |
| JsText.ParseDigitsOfDigits | frontend/src/ReviewPage.js:115 | reading back the decimal rendering of a number gives the number |
| ReviewComponent.Armable | frontend/src/ReviewPage.js:57 | what an armed timer may hold: a draft that passed the guard, with a rating 1..5 |
| ReviewComponent.ArmAnother | frontend/src/ReviewPage.js:60 | arming one more armable timer keeps every timer armable |
| ReviewComponent.ReviewPage.Valid | frontend/src/ReviewPage.js:34-36 | the class invariant: the slot holds the collection (the save effect), the draft's rating and the hovered star are 0..5, a submission under way has an armed timer, and every armed timer holds an armable draft |
| ReviewComponent.ReviewPage.constructor | frontend/src/ReviewPage.js:5-36 | initial state, the saved collection loaded, that collection in the slot, and the invariant established |
| ReviewComponent.ReviewPage.OpenForm | frontend/src/ReviewPage.js:152 | the form is shown and the draft is left as it was |
| ReviewComponent.ReviewPage.CloseForm | frontend/src/ReviewPage.js:286 | the form is hidden; the draft and any armed timer are kept |
| ReviewComponent.ReviewPage.HandleChange | frontend/src/ReviewPage.js:81-87 | the draft becomes `SetField` of the old draft, and nothing else changes |
| ReviewComponent.ReviewPage.SetRating | frontend/src/ReviewPage.js:297 | the draft's rating becomes the clicked star, and the rest of the draft is unchanged |
| ReviewComponent.ReviewPage.SetHoverRating | frontend/src/ReviewPage.js:107-108 | the hovered count becomes the star entered, or 0 on leaving |
| ReviewComponent.ReviewPage.SetSortBy | frontend/src/ReviewPage.js:206-207 | the sort choice becomes the selected value |
| ReviewComponent.ReviewPage.GetSortedReviews | frontend/src/ReviewPage.js:39-53 | the sorted copy is `SortReviews` of the current state and a permutation of it; the state is untouched |
| ReviewComponent.ReviewPage.StartSubmit | frontend/src/ReviewPage.js:55-59 | accepted exactly when the guard holds for the draft; then `isSubmitting` is set and a timer with the current draft and collection is armed; otherwise nothing changes |
| ReviewComponent.ReviewPage.Arm | frontend/src/ReviewPage.js:58-60 | `isSubmitting` is set and one timer is added after the ones already armed |
| ReviewComponent.ReviewPage.CompleteSubmit | frontend/src/ReviewPage.js:60-77 | the collection becomes the new record prepended to the captured collection, and that is saved; the form is reset, closed and not submitting; the new record has a rating 1..5 and a non-blank name and comment; valid ratings stay valid |
| ReviewComponent.ReviewPage.HandleHelpful | frontend/src/ReviewPage.js:89-95 | the collection becomes `MarkHelpful` of the old one and is saved; valid ratings stay valid |
| ReviewComponent.Reload | frontend/src/ReviewPage.js:26-36 | mounting again from the slot this page wrote gives back the same collection with a fresh form and sort order |
| TextClean.IsSpace | app/main_new.py:61-65 | Python's white space on ASCII text, shared by `\s`, `split()` and `strip()` |
| TextClean.LowerChar | app/main_new.py:60 | `lower()` on one ASCII character: capitals become small letters, everything else is kept |
| TextClean.Lower | app/main_new.py:60 | `lower()` on ASCII text: same length, no capital letter left, and every other character kept in place |
| TextClean.RunLength | app/main_new.py:61 | the length of the leading run of non-white-space characters; the next character, if any, is white space |
| TextClean.UrlAt | app/main_new.py:61 | a match of `http\S+\|www\S+` starts here: `http` or `www` followed by a character that is not white space |
| TextClean.StripUrls | app/main_new.py:61 | deleting addresses never lengthens the text |
| TextClean.StripUrlsAppend | app/main_new.py:61 | an address never reaches past white space: text split before a white-space character is cleaned piece by piece, so everything from the white space after a deleted address on is kept as the result for that rest |
| TextClean.RunLengthAppend | app/main_new.py:61 | a match's `\S+` stops at the white space that follows it, whatever comes after |
| TextClean.UrlAtAppend | app/main_new.py:61 | whether a match starts is not affected by text appended after white space |
| TextClean.SkipUrl | app/main_new.py:61 | at a match, the same run is deleted from `a` and from `a + b` |
| TextClean.KeepFirst | app/main_new.py:61 | where no match starts, the first character is kept in `a` and in `a + b` |
| TextClean.StripUrlsAfterMatch | app/main_new.py:61 | after a deleted match the remaining text does not start with a non-white-space character |
| TextClean.StripUrlsKeepsWordPrefix | app/main_new.py:61 | the result's leading word is the same leading part of the input |
| TextClean.StripUrlsStep | app/main_new.py:61 | a character that starts no match is kept, followed by the result for the rest |
| TextClean.UrlAtFromPrefix | app/main_new.py:61 | whether a match starts is decided by the first five characters up to white space |
| TextClean.RunLengthAtLeast | app/main_new.py:61 | a text starting with `n` non-white-space characters has a leading run of at least `n` |
| TextClean.StripUrlsLeavesNoUrl | app/main_new.py:61 | no match of `http\S+\|www\S+` starts anywhere in the result |
| TextClean.FirstIsNotUrl | app/main_new.py:61 | a kept first character does not start a new match together with what follows it |
| TextClean.StripUrlsWithoutUrls | app/main_new.py:61 | text without a match is left unchanged |
| TextClean.StripUrlsIdempotent | app/main_new.py:61 | deleting addresses twice deletes nothing more |
| TextClean.SpacesOfAppend | app/main_new.py:61 | the white space of a concatenation is the white space of its parts |
| TextClean.NoSpacesInRun | app/main_new.py:61 | a run of non-white-space characters holds no white space |
| TextClean.StripUrlsKeepsSpaces | app/main_new.py:61 | deleting addresses removes no white space, so the word boundaries around them survive |
| TextClean.ReplaceNonAlpha | app/main_new.py:62 | replacing non-letters keeps the length |
| TextClean.ReplaceNonAlphaChars | app/main_new.py:62 | afterwards only lower-case letters and white space remain |
| TextClean.DropSpaces | app/main_new.py:63 | a suffix of the text; everything removed is white space, and what stays does not start with white space |
| TextClean.DropTrailingSpaces | app/main_new.py:63 | a prefix of the text; everything removed is white space, and what stays does not end with white space |
| TextClean.Strip | app/main_new.py:63 | `strip()`: a slice of the text with only white space before and after it, and no white space at either end |
| TextClean.StripSlices | app/main_new.py:63 | dropping white space at the start and then at the end leaves such a slice |
| TextClean.CollapseSpaces | app/main_new.py:63 | `re.sub(r"\s+", " ", ...)`: each run of white space becomes one space |
| TextClean.CollapseSpacesChars | app/main_new.py:63 | after collapsing, letters and white space become letters and the space character only |
| TextClean.Normalized | app/main_new.py:60-63 | the text just before it is split: lowered, addresses deleted, non-letters blanked, white space collapsed and stripped |
| TextClean.NormalizedChars | app/main_new.py:60-63 | the normalised text holds only lower-case letters and spaces |
| TextClean.LettersAndBlanksSlice | app/main_new.py:63 | a slice of text of letters and spaces is text of letters and spaces |
| TextClean.Words | app/main_new.py:65 | `split()`: non-empty words that contain no white space |
| TextClean.WordsOfLetters | app/main_new.py:65 | splitting text of letters and spaces gives non-empty words of letters |
| TextClean.KeepWord | app/main_new.py:66 | the comprehension's condition: not a stop word and longer than two characters |
| TextClean.KeepWords | app/main_new.py:66 | every kept word passes the filter; each word that passes is kept as often as it occurs, and no other word is; the kept words are in their original order |
| TextClean.KeepWordsOfWords | app/main_new.py:66 | every kept word occurs among the words, so filtering words of letters leaves words of letters |
| TextClean.JoinWellFormed | app/main_new.py:68 | joining words of letters gives letters with single interior spaces; non-empty for a non-empty list |
| TextClean.Join | app/main_new.py:68 | `" ".join(...)`: the words with one space between each pair |
| TextClean.RunLengthOfWord | app/main_new.py:65 | a word followed by white space or nothing is read as one run |
| TextClean.WordsOfJoin | app/main_new.py:65-68 | splitting the joined words gives the words back |
| MainNew.LightClean | app/main_new.py:55-68 | a missing value gives ""; the result holds only letters and single spaces; its words are exactly the words of the normalised text that pass the filter, and they are words of letters in their original order |
| MainNew.RatingOfClass | app/main_new.py:102-103 | the rating is the class plus one, so the class can be read back; the rating is 1..5 exactly when the class is 0..4 |
| OldMain.LightClean | app/old_main.py:23-32 | the same results as `MainNew.LightClean`: "" when missing, letters and single spaces, kept words in order |
| OldMain.RatingOfClass | app/old_main.py:56 | the rating is the class plus one; 1..5 exactly when the class is 0..4 |
| OldMain.SameAsMainNew | app/old_main.py:23-56 | both services clean text and map a class to a rating identically |

## Left out

- Percentages of the distribution (`ReviewPage.js:21-22`) and their `toFixed(0)` rendering: floating point, so they are left out. The counts they are computed from are modelled.
- ReviewStats.AverageRating: the mean is an exact fraction. Its `toFixed(1)` string and the `Math.round(parseFloat(...))` shown as stars (`ReviewPage.js:138, 168`) are floating point and are not modelled.
- JSON parsing and serialisation of the slot (`ReviewPage.js:29, 35`): the slot holds the collection itself. Malformed stored text, which would make `JSON.parse` throw, is not modelled. The load effect tests the stored string's truthiness; an absent slot is `None`, and the empty string cannot be written by the save effect.
- The mount-time ordering of the two effects: the load effect runs first. It reads the slot and schedules the saved collection as the new state. The save effect then runs with the still empty collection and writes `[]`. After the re-render, the save effect writes the saved collection back. The constructor models the final state of that sequence: the saved collection, or the empty one when the slot is absent, both in the state and in the slot.
- The 500 ms delay and the clock: time is the `now` parameter, and which armed timer fires next is the order in which they were armed.
- ReviewComponent.ReviewPage.SetRating: this requires a star in 1..5, because the rating input only produces those values.
- Rendering: JSX, CSS classes, the star glyphs, the avatar initial, the "Please select a rating" message and the empty-list message. Only the values they are computed from are modelled.
- `app/main.py`, the database functions and the HTTP endpoints of `app/main_new.py` (SQLite, FastAPI): they are not part of this model.
- The transformer model, its tokenizer and the arg-max: the predicted class is a parameter.
- The nltk stop-word download: the stop-word set is a parameter.
- MainNew.LightClean: requires ASCII text. For non-ASCII text Python's `lower()` and Unicode white space differ from the ASCII rules modelled here.
- OldMain.LightClean: requires ASCII text, for the same reason as `MainNew.LightClean`.
- `pd.isna` on values other than a missing value or a string (a number, for instance): `None` stands for any missing value, and the text is otherwise a string.
