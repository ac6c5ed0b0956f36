/** String helpers with the meaning JavaScript gives them:
    `String.prototype.trim`, `toUpperCase` on ASCII letters,
    `includes`, and the regular-expression class `[A-Z0-9_]` under the `i` flag. */
module Text {

  /** The characters `String.prototype.trim` removes: ECMAScript WhiteSpace and LineTerminator. */
  predicate IsJsSpace(c: char) {
    || c == '\t' || c == '\n' || c == '\U{000B}' || c == '\U{000C}' || c == '\r' || c == ' '
    || c == '\U{00A0}' || c == '\U{1680}' || ('\U{2000}' <= c <= '\U{200A}')
    || c == '\U{2028}' || c == '\U{2029}' || c == '\U{202F}' || c == '\U{205F}'
    || c == '\U{3000}' || c == '\U{FEFF}'
  }

  /** Every character of `s` is trimmable white space (vacuously true of ""). */
  predicate IsBlank(s: string) {
    forall i :: 0 <= i < |s| ==> IsJsSpace(s[i])
  }

  /** `s.trimStart()`: drops the longest all-space prefix. */
  function TrimStart(s: string): (r: string)
    ensures |r| <= |s| && r == s[|s| - |r|..]
    ensures IsBlank(s[..|s| - |r|])
    ensures |r| > 0 ==> !IsJsSpace(r[0])
    ensures r == "" <==> IsBlank(s)
  {
    if |s| > 0 && IsJsSpace(s[0]) then
      var t := s[1..];
      var r := TrimStart(t);
      var k := |s| - |r|;
      assert t[k - 1..] == s[k..];
      assert IsBlank(s[..k]) by {
        forall i | 0 <= i < k ensures IsJsSpace(s[..k][i]) {
          if i > 0 {
            assert s[..k][i] == t[..k - 1][i - 1];
          }
        }
      }
      assert IsBlank(t) <==> IsBlank(s) by {
        if IsBlank(t) {
          forall i | 0 <= i < |s| ensures IsJsSpace(s[i]) {
            if i > 0 {
              assert s[i] == t[i - 1];
            }
          }
        }
      }
      r
    else
      assert |s| > 0 ==> !IsBlank(s);
      s
  }

  /** `s.trimEnd()`: drops the longest all-space suffix. */
  function TrimEnd(s: string): (r: string)
    ensures |r| <= |s| && r == s[..|r|]
    ensures IsBlank(s[|r|..])
    ensures |r| > 0 ==> !IsJsSpace(r[|r| - 1])
    ensures r == "" <==> IsBlank(s)
  {
    if |s| > 0 && IsJsSpace(s[|s| - 1]) then
      var r := TrimEnd(s[..|s| - 1]);
      assert forall i :: |r| <= i < |s| - 1 ==> s[i] == s[..|s| - 1][i];
      r
    else
      assert |s| > 0 ==> !IsBlank(s);
      s
  }

  /** `s.trim()`: a slice of `s` with no white space at either end; it is empty
      exactly when `s` is all white space (so `s.trim() === ''` tests blankness). */
  function Trim(s: string): (r: string)
    ensures |r| <= |s|
    ensures |r| > 0 ==> !IsJsSpace(r[0]) && !IsJsSpace(r[|r| - 1])
    ensures r == "" <==> IsBlank(s)
  {
    var t := TrimStart(s);
    var r := TrimEnd(t);
    assert |r| > 0 ==> r[0] == t[0];
    r
  }

  /** The class `[A-Z0-9_]` under the `i` flag: ASCII letters of either case, digits, underscore.
      (Without the `u` flag a non-ASCII character never folds onto an ASCII one.) */
  predicate IsWordChar(c: char) {
    ('A' <= c <= 'Z') || ('a' <= c <= 'z') || ('0' <= c <= '9') || c == '_'
  }

  /** The class `[A-Z0-9_]` without the `i` flag. */
  predicate IsUpperWordChar(c: char) {
    ('A' <= c <= 'Z') || ('0' <= c <= '9') || c == '_'
  }

  predicate AllWordChars(s: string) {
    forall i :: 0 <= i < |s| ==> IsWordChar(s[i])
  }

  predicate AllUpperWordChars(s: string) {
    forall i :: 0 <= i < |s| ==> IsUpperWordChar(s[i])
  }

  /** Upper-casing one character; only ASCII letters change. */
  function UpperChar(c: char): (u: char)
    ensures IsWordChar(c) ==> IsUpperWordChar(u)
    ensures IsUpperWordChar(c) ==> u == c
    ensures !('a' <= c <= 'z') ==> u == c
  {
    if 'a' <= c <= 'z' then (c as int - 32) as char else c
  }

  /** Upper-casing never turns white space into text or text into white space. */
  lemma UpperKeepsSpace(c: char)
    ensures IsJsSpace(UpperChar(c)) <==> IsJsSpace(c)
  {
  }

  /** `s.toUpperCase()` on the ASCII letters of `s`. */
  function ToUpper(s: string): (r: string)
    ensures |r| == |s|
    ensures forall i :: 0 <= i < |s| ==> r[i] == UpperChar(s[i])
  {
    seq(|s|, i requires 0 <= i < |s| => UpperChar(s[i]))
  }

  /** Upper-casing a word yields an upper-case word of the same length, and is idempotent. */
  lemma ToUpperOfWord(s: string)
    requires AllWordChars(s)
    ensures AllUpperWordChars(ToUpper(s))
    ensures ToUpper(ToUpper(s)) == ToUpper(s)
  {
  }

  /** Upper-casing twice is upper-casing once. */
  lemma ToUpperIdempotent(s: string)
    ensures ToUpper(ToUpper(s)) == ToUpper(s)
  {
  }

  /** An upper-case word is its own upper-case form. */
  lemma ToUpperFixesUpperWord(s: string)
    requires AllUpperWordChars(s)
    ensures ToUpper(s) == s
  {
  }

  /** `pat` occurs in `s` starting at index `i`. */
  predicate OccursAt(s: string, pat: string, i: int) {
    0 <= i && i + |pat| <= |s| && s[i..i + |pat|] == pat
  }

  /** `s.includes(pat)`. */
  predicate Contains(s: string, pat: string) {
    exists i :: 0 <= i <= |s| - |pat| && OccursAt(s, pat, i)
  }

  /** Characters equal after folding to upper case, as the `i` flag compares them. */
  predicate SameIgnoringCase(a: char, b: char) {
    UpperChar(a) == UpperChar(b)
  }

  /** A pattern holding a character that `s` lacks does not occur in `s`. */
  lemma AbsentCharNotContained(s: string, pat: string, j: int)
    requires 0 <= j < |pat|
    requires forall i :: 0 <= i < |s| ==> s[i] != pat[j]
    ensures !Contains(s, pat)
  {
    forall i | 0 <= i <= |s| - |pat|
      ensures !OccursAt(s, pat, i)
    {
      assert s[i..i + |pat|][j] == s[i + j];
    }
  }
}
