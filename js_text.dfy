/**
 * The two pieces of JavaScript string behaviour the review page relies on:
 * `String.prototype.trim` (used to test that a field is filled in) and the
 * decimal text of a positive integer (used in template literals).
 */
module JsText {

  /** The ECMAScript WhiteSpace and LineTerminator code points, which `trim` removes. */
  predicate IsJsSpace(c: char) {
    || c == '\t' || c == '\n' || c == '\U{B}' || c == '\U{C}' || c == '\r' || c == ' '
    || c == '\U{A0}' || c == '\U{1680}' || ('\U{2000}' <= c <= '\U{200A}')
    || c == '\U{2028}' || c == '\U{2029}' || c == '\U{202F}' || c == '\U{205F}'
    || c == '\U{3000}' || c == '\U{FEFF}'
  }

  /** True when every character of `s` is white space, so that `s.trim()` is the empty (falsy) string. */
  predicate IsBlank(s: string) {
    forall i :: 0 <= i < |s| ==> IsJsSpace(s[i])
  }

  /** `s` with its leading white space removed: what goes is white space, and what stays starts with a character that is not. */
  function TrimStart(s: string): (r: string)
    ensures |r| <= |s| && r == s[|s| - |r|..]
    ensures r == [] <==> IsBlank(s)
    ensures r != [] ==> !IsJsSpace(r[0])
  {
    if s != [] && IsJsSpace(s[0]) then
      var r := TrimStart(s[1..]);
      assert forall i :: 1 <= i < |s| ==> s[i] == s[1..][i - 1];
      r
    else s
  }

  /** `s` with its trailing white space removed: what goes is white space, and what stays ends with a character that is not. */
  function TrimEnd(s: string): (r: string)
    ensures |r| <= |s| && r == s[..|r|]
    ensures r == [] <==> IsBlank(s)
    ensures r != [] ==> !IsJsSpace(r[|r| - 1])
  {
    if s != [] && IsJsSpace(s[|s| - 1]) then
      var r := TrimEnd(s[..|s| - 1]);
      assert forall i :: 0 <= i < |s| - 1 ==> s[i] == s[..|s| - 1][i];
      r
    else s
  }

  /** What `TrimStart` removes is white space. */
  lemma {:induction false} TrimStartDropsOnlySpace(s: string)
    ensures IsBlank(s[..|s| - |TrimStart(s)|])
    decreases |s|
  {
    if s != [] && IsJsSpace(s[0]) {
      var r := TrimStart(s[1..]);
      assert TrimStart(s) == r;
      TrimStartDropsOnlySpace(s[1..]);
      var k := |s| - |r|;
      forall i | 0 <= i < k ensures IsJsSpace(s[..k][i]) {
        if i > 0 {
          assert s[..k][i] == s[1..][..k - 1][i - 1];
        }
      }
    }
  }

  /** What `TrimEnd` removes is white space. */
  lemma {:induction false} TrimEndDropsOnlySpace(s: string)
    ensures IsBlank(s[|TrimEnd(s)|..])
    decreases |s|
  {
    if s != [] && IsJsSpace(s[|s| - 1]) {
      var r := TrimEnd(s[..|s| - 1]);
      assert TrimEnd(s) == r;
      TrimEndDropsOnlySpace(s[..|s| - 1]);
      forall i | 0 <= i < |s| - |r| ensures IsJsSpace(s[|r|..][i]) {
        if i < |s| - 1 - |r| {
          assert s[|r|..][i] == s[..|s| - 1][|r|..][i];
        }
      }
    }
  }

  /** `String.prototype.trim`: white space removed from both ends. */
  function Trim(s: string): (r: string)
    ensures r == [] <==> IsBlank(s)
    ensures r != [] ==> !IsJsSpace(r[0]) && !IsJsSpace(r[|r| - 1])
    ensures exists i, j :: 0 <= i <= j <= |s| && r == s[i..j] && IsBlank(s[..i]) && IsBlank(s[j..])
  {
    var t := TrimStart(s);
    var r := TrimEnd(t);
    TrimStartDropsOnlySpace(s);
    TrimEndDropsOnlySpace(t);
    TrimSlices(s, t, r);
    r
  }

  /** Trimming the start and then the end leaves a slice of `s` with blank text on either side. */
  lemma TrimSlices(s: string, t: string, r: string)
    requires |t| <= |s| && t == s[|s| - |t|..] && IsBlank(s[..|s| - |t|])
    requires |r| <= |t| && r == t[..|r|] && IsBlank(t[|r|..])
    requires (t == [] <==> IsBlank(s)) && (r == [] <==> IsBlank(t))
    ensures var i, j := |s| - |t|, |s| - |t| + |r|;
      0 <= i <= j <= |s| && r == s[i..j] && IsBlank(s[..i]) && IsBlank(s[j..])
    ensures r != [] ==> r[0] == t[0]
    ensures r == [] <==> IsBlank(s)
  {
    var i, j := |s| - |t|, |s| - |t| + |r|;
    assert r == s[i..][..|r|] == s[i..j];
    assert s[j..] == t[|r|..];
  }

  /** The decimal digit character for `d`. */
  function DigitChar(d: nat): (c: char)
    requires d < 10
  {
    ['0', '1', '2', '3', '4', '5', '6', '7', '8', '9'][d]
  }

  /** The value of a decimal digit character (0 for any other character). */
  function DigitValue(c: char): (n: nat) {
    if '0' <= c <= '9' then c as int - '0' as int else 0
  }

  predicate IsDigitString(s: string) {
    forall i :: 0 <= i < |s| ==> '0' <= s[i] <= '9'
  }

  /** The decimal text of `n`, as JavaScript converts an integral number to a string. */
  function Digits(n: nat): (s: string)
    ensures 0 < |s| && IsDigitString(s)
    ensures |s| > 1 ==> s[0] != '0'
  {
    if n < 10 then [DigitChar(n)] else Digits(n / 10) + [DigitChar(n % 10)]
  }

  /** Reads a string of decimal digits back as a number. */
  function ParseDigits(s: string): (n: nat) {
    if s == [] then 0 else 10 * ParseDigits(s[..|s| - 1]) + DigitValue(s[|s| - 1])
  }

  lemma DigitCharValue(d: nat)
    requires d < 10
    ensures DigitValue(DigitChar(d)) == d
  {
  }

  /** Writing a number in decimal and reading it back gives the number. */
  lemma {:induction false} ParseDigitsOfDigits(n: nat)
    ensures ParseDigits(Digits(n)) == n
  {
    if n < 10 {
      DigitCharValue(n);
      assert ParseDigits([DigitChar(n)]) == 10 * ParseDigits([]) + DigitValue(DigitChar(n));
    } else {
      var s := Digits(n / 10) + [DigitChar(n % 10)];
      assert s[..|s| - 1] == Digits(n / 10);
      ParseDigitsOfDigits(n / 10);
      DigitCharValue(n % 10);
    }
  }
}
