/**
 * The steps of the review-text normaliser `light_clean`, each a function on
 * strings: ASCII lower-casing, deletion of web addresses, replacement of
 * everything but letters and white space, collapsing and stripping of white
 * space, splitting into words, filtering and joining. White space is
 * Python's for ASCII text: `re`'s `\s`, `str.split()` and `str.strip()` all
 * use the same set (tab, line feed, vertical tab, form feed, carriage
 * return, the four separator controls 0x1C..0x1F, and the space).
 */
module TextClean {

  predicate IsSpace(c: char) {
    ('\t' <= c <= '\r') || ('\U{1C}' <= c <= '\U{1F}') || c == ' '
  }

  predicate IsAscii(s: string) {
    forall i :: 0 <= i < |s| ==> s[i] < '\U{80}'
  }

  predicate IsLowerAlpha(c: char) {
    'a' <= c <= 'z'
  }

  /** `str.lower()` on an ASCII character. */
  function LowerChar(c: char): (l: char) {
    if 'A' <= c <= 'Z' then (c as int - 'A' as int + 'a' as int) as char else c
  }

  function Lower(s: string): (r: string)
    ensures |r| == |s|
    ensures forall i :: 0 <= i < |s| ==> !('A' <= r[i] <= 'Z') && ('A' <= s[i] <= 'Z' || r[i] == s[i])
  {
    seq(|s|, i requires 0 <= i < |s| => LowerChar(s[i]))
  }

  /** The length of the run of non-white-space characters that `s` starts with. */
  function RunLength(s: string): (k: nat)
    ensures k <= |s|
    ensures forall i :: 0 <= i < k ==> !IsSpace(s[i])
    ensures k < |s| ==> IsSpace(s[k])
  {
    if s == [] || IsSpace(s[0]) then 0 else 1 + RunLength(s[1..])
  }

  /** A match of `http\S+|www\S+` starts here. */
  predicate UrlAt(s: string) {
    || (|s| > 4 && s[..4] == "http" && !IsSpace(s[4]))
    || (|s| > 3 && s[..3] == "www" && !IsSpace(s[3]))
  }

  /**
   * `re.sub(r"http\S+|www\S+", "", s)`: scanning from the left, a match runs
   * from its `http` or `www` to the next white space (`\S+` is greedy) and is
   * deleted; scanning resumes after it.
   */
  function StripUrls(s: string): (r: string)
    ensures |r| <= |s|
    decreases |s|
  {
    if s == [] then []
    else if UrlAt(s) then StripUrls(s[RunLength(s)..])
    else [s[0]] + StripUrls(s[1..])
  }

  /** `re.sub(r"[^a-z\s]", " ", s)` */
  function ReplaceNonAlpha(s: string): (r: string)
    ensures |r| == |s|
  {
    seq(|s|, i requires 0 <= i < |s| => if IsLowerAlpha(s[i]) || IsSpace(s[i]) then s[i] else ' ')
  }

  /** `s` without its leading white space: what goes is white space, and what stays does not start with it. */
  function DropSpaces(s: string): (r: string)
    ensures |r| <= |s| && r == s[|s| - |r|..]
    ensures forall i :: 0 <= i < |s| - |r| ==> IsSpace(s[i])
    ensures s != [] && IsSpace(s[0]) ==> |r| < |s|
    ensures r != [] ==> !IsSpace(r[0])
  {
    if s != [] && IsSpace(s[0]) then DropSpaces(s[1..]) else s
  }

  /** `re.sub(r"\s+", " ", s)`: every run of white space becomes one space. */
  function CollapseSpaces(s: string): (r: string)
    decreases |s|
  {
    if s == [] then []
    else if IsSpace(s[0]) then [' '] + CollapseSpaces(DropSpaces(s))
    else [s[0]] + CollapseSpaces(s[1..])
  }

  /** `s` without its trailing white space: what goes is white space, and what stays does not end with it. */
  function DropTrailingSpaces(s: string): (r: string)
    ensures |r| <= |s| && r == s[..|r|]
    ensures r != [] ==> !IsSpace(r[|r| - 1])
    ensures forall i :: |r| <= i < |s| ==> IsSpace(s[i])
  {
    if s != [] && IsSpace(s[|s| - 1]) then DropTrailingSpaces(s[..|s| - 1]) else s
  }

  /** `str.strip()` */
  function Strip(s: string): (r: string)
    ensures exists i, j :: 0 <= i <= j <= |s| && r == s[i..j] && AllSpace(s[..i]) && AllSpace(s[j..])
    ensures r != [] ==> !IsSpace(r[0]) && !IsSpace(r[|r| - 1])
  {
    var d := DropSpaces(s);
    var r := DropTrailingSpaces(d);
    StripSlices(s, d, r);
    r
  }

  predicate AllSpace(s: string) {
    forall i :: 0 <= i < |s| ==> IsSpace(s[i])
  }

  /** Dropping white space at the start and then at the end leaves a slice with white space on either side. */
  lemma StripSlices(s: string, d: string, r: string)
    requires |d| <= |s| && d == s[|s| - |d|..] && forall i :: 0 <= i < |s| - |d| ==> IsSpace(s[i])
    requires d != [] ==> !IsSpace(d[0])
    requires |r| <= |d| && r == d[..|r|] && forall i :: |r| <= i < |d| ==> IsSpace(d[i])
    requires r != [] ==> !IsSpace(r[|r| - 1])
    ensures var i, j := |s| - |d|, |s| - |d| + |r|;
      0 <= i <= j <= |s| && r == s[i..j] && AllSpace(s[..i]) && AllSpace(s[j..])
    ensures r != [] ==> !IsSpace(r[0]) && !IsSpace(r[|r| - 1])
  {
    var i, j := |s| - |d|, |s| - |d| + |r|;
    assert r == s[i..][..|r|] == s[i..j];
    assert s[j..] == d[|r|..];
    assert r != [] ==> r[0] == d[0];
  }

  /** `str.split()`: the maximal runs of non-white-space characters, in order. */
  function Words(s: string): (ws: seq<string>)
    ensures forall i :: 0 <= i < |ws| ==> ws[i] != [] && NoSpace(ws[i])
    decreases |s|
  {
    if s == [] then []
    else if IsSpace(s[0]) then Words(s[1..])
    else
      var k := RunLength(s);
      assert NoSpace(s[..k]) by {
        assert forall i :: 0 <= i < k ==> s[..k][i] == s[i];
      }
      [s[..k]] + Words(s[k..])
  }

  predicate NoSpace(w: string) {
    forall i :: 0 <= i < |w| ==> !IsSpace(w[i])
  }

  /** `" ".join(ws)` */
  function Join(ws: seq<string>): (s: string) {
    if ws == [] then "" else if |ws| == 1 then ws[0] else ws[0] + " " + Join(ws[1..])
  }

  /** The comprehension's condition: `w not in stop_words and len(w) > 2`. */
  predicate KeepWord(w: string, stopWords: set<string>) {
    w !in stopWords && |w| > 2
  }

  /** The comprehension: the words that pass the filter, each as often as in `ws`, in their order. */
  function KeepWords(ws: seq<string>, stopWords: set<string>): (kept: seq<string>)
    ensures forall i :: 0 <= i < |kept| ==> KeepWord(kept[i], stopWords)
    ensures forall w :: multiset(kept)[w] == if KeepWord(w, stopWords) then multiset(ws)[w] else 0
    ensures IsSubsequence(kept, ws)
  {
    assert ws != [] ==> ws == [ws[0]] + ws[1..];
    if ws == [] then []
    else if KeepWord(ws[0], stopWords) then [ws[0]] + KeepWords(ws[1..], stopWords)
    else KeepWords(ws[1..], stopWords)
  }

  /** `a` is `b` with some elements left out and the rest in order. */
  predicate IsSubsequence<T(==)>(a: seq<T>, b: seq<T>)
    decreases |b|
  {
    if a == [] then true
    else if b == [] then false
    else (a[0] == b[0] && IsSubsequence(a[1..], b[1..])) || IsSubsequence(a, b[1..])
  }

  /** The text just before it is split: lowered, addresses deleted, non-letters blanked, white space collapsed and stripped. */
  function Normalized(t: string): (s: string) {
    Strip(CollapseSpaces(ReplaceNonAlpha(StripUrls(Lower(t)))))
  }

  // ---------------------------------------------------------------------
  // Web addresses

  /** Deleting a match leaves the text from the next white space on, so the rest does not start with a word character. */
  lemma StripUrlsAfterMatch(t: string)
    ensures UrlAt(t) ==> RunLength(StripUrls(t)) == 0
  {
    if UrlAt(t) {
      var u := t[RunLength(t)..];
      assert u == [] || (IsSpace(u[0]) && !UrlAt(u));
    }
  }

  /** The part of `StripUrls(t)` before its first white space is the same part of `t`. */
  lemma {:induction false} StripUrlsKeepsWordPrefix(t: string, j: nat)
    requires j <= RunLength(StripUrls(t))
    ensures j <= |t| && StripUrls(t)[..j] == t[..j]
    decreases |t|
  {
    StripUrlsAfterMatch(t);
    if j > 0 {
      assert !UrlAt(t);
      var r' := StripUrls(t[1..]);
      StripUrlsStep(t);
      StripUrlsKeepsWordPrefix(t[1..], j - 1);
      assert t[..j] == [t[0]] + t[1..][..j - 1];
    }
  }

  lemma StripUrlsStep(t: string)
    requires t != [] && !UrlAt(t) && !IsSpace(t[0])
    ensures var r, r' := StripUrls(t), StripUrls(t[1..]);
      r == [t[0]] + r' && RunLength(r) == 1 + RunLength(r') && forall n :: 0 < n <= |r| ==> r[..n] == [t[0]] + r'[..n - 1]
  {
    var r, r' := StripUrls(t), StripUrls(t[1..]);
    assert r[1..] == r';
  }

  /** Whether a match starts here is decided by the first five characters, up to the first white space. */
  lemma UrlAtFromPrefix(r: string, s: string, j: nat)
    requires j == if RunLength(r) < 5 then RunLength(r) else 5
    requires j <= |s| && r[..j] == s[..j]
    ensures UrlAt(r) ==> UrlAt(s)
  {
    if UrlAt(r) {
      if |r| > 4 && r[..4] == "http" && !IsSpace(r[4]) {
        assert RunLength(r) >= 5 by { RunLengthAtLeast(r, 5); }
        assert s[..4] == r[..5][..4] == r[..4];
        assert s[4] == s[..5][4] == r[..5][4] == r[4];
      } else {
        assert RunLength(r) >= 4 by { RunLengthAtLeast(r, 4); }
        assert s[..3] == r[..j][..3] == r[..3];
        assert s[3] == s[..j][3] == r[..j][3] == r[3];
      }
    }
  }

  lemma {:induction false} RunLengthAtLeast(r: string, n: nat)
    requires n <= |r| && forall q :: 0 <= q < n ==> !IsSpace(r[q])
    ensures RunLength(r) >= n
  {
    if n > 0 {
      RunLengthAtLeast(r[1..], n - 1);
    }
  }

  /** No match of `http\S+|www\S+` is left anywhere in the result. */
  lemma {:induction false} StripUrlsLeavesNoUrl(s: string)
    ensures forall i :: 0 <= i < |StripUrls(s)| ==> !UrlAt(StripUrls(s)[i..])
    decreases |s|
  {
    if s != [] {
      if UrlAt(s) {
        StripUrlsLeavesNoUrl(s[RunLength(s)..]);
      } else {
        var r' := StripUrls(s[1..]);
        var r := [s[0]] + r';
        StripUrlsLeavesNoUrl(s[1..]);
        forall i | 0 <= i < |r| ensures !UrlAt(r[i..]) {
          if i == 0 {
            FirstIsNotUrl(s, r, r');
          } else {
            assert r[i..] == r'[i - 1..];
          }
        }
      }
    }
  }

  lemma FirstIsNotUrl(s: string, r: string, r': string)
    requires s != [] && !UrlAt(s)
    requires r' == StripUrls(s[1..]) && r == [s[0]] + r'
    ensures !UrlAt(r)
  {
    assert r == StripUrls(s);
    var j := if RunLength(r) < 5 then RunLength(r) else 5;
    StripUrlsKeepsWordPrefix(s, j);
    UrlAtFromPrefix(r, s, j);
  }

  /** Text with no address in it is left as it is, so deleting addresses twice deletes nothing more. */
  lemma {:induction false} StripUrlsWithoutUrls(s: string)
    requires forall i :: 0 <= i < |s| ==> !UrlAt(s[i..])
    ensures StripUrls(s) == s
  {
    if s != [] {
      assert !UrlAt(s[0..]) && s[0..] == s;
      forall i | 0 <= i < |s[1..]| ensures !UrlAt(s[1..][i..]) {
        assert s[1..][i..] == s[i + 1..];
      }
      StripUrlsWithoutUrls(s[1..]);
    }
  }

  lemma StripUrlsIdempotent(s: string)
    ensures StripUrls(StripUrls(s)) == StripUrls(s)
  {
    StripUrlsLeavesNoUrl(s);
    StripUrlsWithoutUrls(StripUrls(s));
  }

  /** A run of non-white-space characters stops at the white space that follows it. */
  lemma {:induction false} RunLengthAppend(a: string, b: string)
    requires b == [] || IsSpace(b[0])
    ensures RunLength(a + b) == RunLength(a)
    decreases |a|
  {
    if a == [] {
      assert a + b == b;
    } else {
      assert (a + b)[0] == a[0] && (a + b)[1..] == a[1..] + b;
      RunLengthAppend(a[1..], b);
    }
  }

  /** Whether a match starts at `a + b` does not depend on the `b` that starts with white space. */
  lemma UrlAtAppend(a: string, b: string)
    requires b == [] || IsSpace(b[0])
    ensures UrlAt(a + b) == UrlAt(a)
  {
    var s := a + b;
    if |a| > 4 {
      assert s[..4] == a[..4] && s[4] == a[4];
    }
    if |a| > 3 {
      assert s[..3] == a[..3] && s[3] == a[3];
    }
    assert |a| < |s| ==> s[|a|] == b[0];
    assert |s| > 4 && |a| < 4 ==> s[|a|] == s[..4][|a|];
    assert |s| > 3 && |a| < 3 ==> s[|a|] == s[..3][|a|];
  }

  /**
   * An address never reaches past white space: the text before a white-space
   * character and the text from it on are cleaned independently, so
   * everything after a deleted address, from the next white space on, is
   * kept as `StripUrls` of that rest.
   */
  lemma {:induction false} StripUrlsAppend(a: string, b: string)
    requires b == [] || IsSpace(b[0])
    ensures StripUrls(a + b) == StripUrls(a) + StripUrls(b)
    decreases |a|
  {
    if a == [] {
      assert a + b == b;
    } else {
      UrlAtAppend(a, b);
      if UrlAt(a) {
        var k := RunLength(a);
        RunLengthAppend(a, b);
        SkipUrl(a, b, k);
        StripUrlsAppend(a[k..], b);
      } else {
        KeepFirst(a, b);
        StripUrlsAppend(a[1..], b);
        ConcatAssoc([a[0]], StripUrls(a[1..]), StripUrls(b));
      }
    }
  }

  /** At a match, `StripUrls` skips the same run in `a` and in `a + b`. */
  lemma SkipUrl(a: string, b: string, k: nat)
    requires UrlAt(a) && UrlAt(a + b) && k == RunLength(a) == RunLength(a + b)
    ensures 0 < k && StripUrls(a + b) == StripUrls(a[k..] + b) && StripUrls(a) == StripUrls(a[k..])
  {
    assert a[0] == 'h' || a[0] == 'w' by { assert a[0] == a[..3][0]; }
    assert (a + b)[k..] == a[k..] + b;
  }

  /** Where no match starts, `StripUrls` keeps the first character of `a` and of `a + b`. */
  lemma KeepFirst(a: string, b: string)
    requires a != [] && !UrlAt(a) && !UrlAt(a + b)
    ensures StripUrls(a + b) == [a[0]] + StripUrls(a[1..] + b)
    ensures StripUrls(a) == [a[0]] + StripUrls(a[1..])
  {
    assert (a + b)[0] == a[0] && (a + b)[1..] == a[1..] + b;
  }

  lemma ConcatAssoc(x: string, y: string, z: string)
    ensures x + (y + z) == (x + y) + z
  {
  }

  /** The white-space characters of `s`, in order. */
  function SpacesOf(s: string): (sp: string) {
    if s == [] then [] else (if IsSpace(s[0]) then [s[0]] else []) + SpacesOf(s[1..])
  }

  lemma {:induction false} SpacesOfAppend(a: string, b: string)
    ensures SpacesOf(a + b) == SpacesOf(a) + SpacesOf(b)
  {
    if a == [] {
      assert a + b == b;
    } else {
      assert (a + b)[1..] == a[1..] + b;
      SpacesOfAppend(a[1..], b);
      ConcatAssoc(if IsSpace(a[0]) then [a[0]] else [], SpacesOf(a[1..]), SpacesOf(b));
    }
  }

  lemma {:induction false} NoSpacesInRun(s: string, k: nat)
    requires k <= |s| && forall i :: 0 <= i < k ==> !IsSpace(s[i])
    ensures SpacesOf(s[..k]) == []
  {
    if k > 0 {
      assert s[..k][1..] == s[1..][..k - 1];
      NoSpacesInRun(s[1..], k - 1);
    }
  }

  /** A deleted address never takes white space with it: the white space of the text survives in order. */
  lemma {:induction false} StripUrlsKeepsSpaces(s: string)
    ensures SpacesOf(StripUrls(s)) == SpacesOf(s)
    decreases |s|
  {
    if s != [] {
      if UrlAt(s) {
        var k := RunLength(s);
        StripUrlsKeepsSpaces(s[k..]);
        assert s == s[..k] + s[k..];
        SpacesOfAppend(s[..k], s[k..]);
        NoSpacesInRun(s, k);
      } else {
        StripUrlsKeepsSpaces(s[1..]);
        SpacesOfAppend([s[0]], StripUrls(s[1..]));
      }
    }
  }

  // ---------------------------------------------------------------------
  // The character set of the normalised text

  /** Only lower-case letters and white space. */
  predicate LettersAndSpaces(s: string) {
    forall i :: 0 <= i < |s| ==> IsLowerAlpha(s[i]) || IsSpace(s[i])
  }

  /** Only lower-case letters and the space character. */
  predicate LettersAndBlanks(s: string) {
    forall i :: 0 <= i < |s| ==> IsLowerAlpha(s[i]) || s[i] == ' '
  }

  lemma ReplaceNonAlphaChars(s: string)
    ensures LettersAndSpaces(ReplaceNonAlpha(s))
  {
  }

  lemma {:induction false} CollapseSpacesChars(s: string)
    requires LettersAndSpaces(s)
    ensures LettersAndBlanks(CollapseSpaces(s))
    decreases |s|
  {
    if s != [] {
      if IsSpace(s[0]) {
        var d := DropSpaces(s);
        assert forall i :: 0 <= i < |d| ==> d[i] == s[|s| - |d| + i];
        CollapseSpacesChars(d);
      } else {
        assert forall i :: 0 <= i < |s| - 1 ==> s[1..][i] == s[i + 1];
        CollapseSpacesChars(s[1..]);
      }
    }
  }

  lemma NormalizedChars(t: string)
    ensures LettersAndBlanks(Normalized(t))
  {
    var c := CollapseSpaces(ReplaceNonAlpha(StripUrls(Lower(t))));
    ReplaceNonAlphaChars(StripUrls(Lower(t)));
    CollapseSpacesChars(ReplaceNonAlpha(StripUrls(Lower(t))));
    var d := DropSpaces(c);
    LettersAndBlanksSlice(c, |c| - |d|, |c|);
    assert c[|c| - |d|..|c|] == d;
    var e := DropTrailingSpaces(d);
    LettersAndBlanksSlice(d, 0, |e|);
    assert d[0..|e|] == e;
  }

  lemma LettersAndBlanksSlice(s: string, i: int, j: int)
    requires LettersAndBlanks(s) && 0 <= i <= j <= |s|
    ensures LettersAndBlanks(s[i..j])
  {
    assert forall k :: 0 <= k < j - i ==> s[i..j][k] == s[i + k];
  }

  // ---------------------------------------------------------------------
  // Words and joining

  /** A non-empty run of lower-case letters. */
  predicate IsWord(w: string) {
    |w| > 0 && forall i :: 0 <= i < |w| ==> IsLowerAlpha(w[i])
  }

  predicate AllWords(ws: seq<string>) {
    forall i :: 0 <= i < |ws| ==> IsWord(ws[i])
  }

  /** Splitting text of letters and spaces gives words of letters. */
  lemma {:induction false} WordsOfLetters(s: string)
    requires LettersAndBlanks(s)
    ensures AllWords(Words(s))
    decreases |s|
  {
    if s != [] {
      if IsSpace(s[0]) {
        assert forall i :: 0 <= i < |s| - 1 ==> s[1..][i] == s[i + 1];
        WordsOfLetters(s[1..]);
      } else {
        var k := RunLength(s);
        assert forall i :: 0 <= i < |s| - k ==> s[k..][i] == s[k + i];
        WordsOfLetters(s[k..]);
        assert IsWord(s[..k]) by {
          forall i | 0 <= i < k ensures IsLowerAlpha(s[..k][i]) {
            assert s[..k][i] == s[i] && !IsSpace(s[i]);
          }
        }
        var ws := [s[..k]] + Words(s[k..]);
        assert forall i :: 1 <= i < |ws| ==> ws[i] == Words(s[k..])[i - 1];
      }
    }
  }

  /** No space at either end and no two spaces in a row. */
  predicate SingleSpaced(s: string) {
    && (s != [] ==> s[0] != ' ' && s[|s| - 1] != ' ')
    && forall i :: 0 <= i < |s| - 1 && s[i] == ' ' ==> s[i + 1] != ' '
  }

  /** Joining words of letters gives letters and single interior spaces. */
  lemma {:induction false} JoinWellFormed(ws: seq<string>)
    requires AllWords(ws)
    ensures LettersAndBlanks(Join(ws)) && SingleSpaced(Join(ws))
    ensures ws != [] ==> Join(ws) != [] && IsLowerAlpha(Join(ws)[0])
  {
    if |ws| == 1 {
    } else if |ws| > 1 {
      var w, rest := ws[0], Join(ws[1..]);
      assert AllWords(ws[1..]) by {
        forall i | 0 <= i < |ws| - 1 ensures IsWord(ws[1..][i]) {
          assert ws[1..][i] == ws[i + 1];
        }
      }
      JoinWellFormed(ws[1..]);
      var j := w + " " + rest;
      assert j == Join(ws);
      assert IsWord(ws[0]);
      forall i | 0 <= i < |j| ensures IsLowerAlpha(j[i]) || j[i] == ' ' {
        if i < |w| { assert j[i] == w[i]; }
        else if i > |w| { assert j[i] == rest[i - |w| - 1]; }
      }
      assert forall i :: 0 <= i < |w| ==> j[i] == w[i];
      forall i | 0 <= i < |j| - 1 && j[i] == ' ' ensures j[i + 1] != ' ' {
        if i == |w| {
          assert j[i + 1] == rest[0];
        } else {
          assert j[i] == rest[i - |w| - 1] && j[i + 1] == rest[i - |w|];
        }
      }
      assert j[0] == w[0];
      assert j[|j| - 1] == rest[|rest| - 1];
    }
  }

  lemma {:induction false} RunLengthOfWord(w: string, t: string)
    requires IsWord(w)
    requires t == [] || IsSpace(t[0])
    ensures RunLength(w + t) == |w|
  {
    if |w| > 1 {
      assert (w + t)[1..] == w[1..] + t;
      assert IsWord(w[1..]) by {
        forall i | 0 <= i < |w| - 1 ensures IsLowerAlpha(w[1..][i]) { assert w[1..][i] == w[i + 1]; }
      }
      RunLengthOfWord(w[1..], t);
    } else {
      assert (w + t)[1..] == t;
    }
  }

  /** Splitting a joined list of words gives the list back. */
  lemma {:induction false} WordsOfJoin(ws: seq<string>)
    requires AllWords(ws)
    ensures Words(Join(ws)) == ws
  {
    if |ws| == 1 {
      RunLengthOfWord(ws[0], []);
      assert ws[0] + [] == ws[0];
      assert ws[0][..|ws[0]|] == ws[0] && ws[0][|ws[0]|..] == [];
    } else if |ws| > 1 {
      assert AllWords(ws[1..]) by {
        forall i | 0 <= i < |ws| - 1 ensures IsWord(ws[1..][i]) {
          assert ws[1..][i] == ws[i + 1];
        }
      }
      WordsOfJoin(ws[1..]);
      var w, rest := ws[0], Join(ws[1..]);
      var j := w + (" " + rest);
      assert j == Join(ws);
      RunLengthOfWord(w, " " + rest);
      assert j[..|w|] == w;
      assert j[|w|..] == " " + rest;
      assert (" " + rest)[1..] == rest;
      assert IsSpace((" " + rest)[0]);
      assert Words(" " + rest) == Words(rest);
      assert ws == [w] + ws[1..];
    }
  }

  /** Every kept word occurs in `ws`, so filtering words of letters leaves words of letters. */
  lemma KeepWordsOfWords(ws: seq<string>, stopWords: set<string>)
    requires AllWords(ws)
    ensures AllWords(KeepWords(ws, stopWords))
  {
    var kept := KeepWords(ws, stopWords);
    forall i | 0 <= i < |kept| ensures IsWord(kept[i]) {
      assert multiset(kept)[kept[i]] > 0;
      assert kept[i] in multiset(ws);
      var j :| 0 <= j < |ws| && ws[j] == kept[i];
    }
  }
}
