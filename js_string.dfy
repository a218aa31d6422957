/**
 * The string operations of JavaScript that the core uses: the character
 * classes of regular expressions and `trim`, `toLowerCase`, `includes`,
 * `indexOf` and `substring(0, n)`. Strings are sequences of
 * characters.
 */
module JsString {

  /** LineTerminator: what `.` in a regular expression does not match. */
  predicate IsLineTerminator(c: char) {
    c == '\n' || c == '\r' || c == '\U{2028}' || c == '\U{2029}'
  }

  /**
   * WhiteSpace or LineTerminator: the class `\s` of regular expressions, and
   * the characters `String.prototype.trim` removes.
   */
  predicate IsWhiteSpace(c: char) {
    c == '\t' || c == '\U{000B}' || c == '\U{000C}' || c == ' ' || c == '\U{00A0}' || c == '\U{FEFF}'
    || c == '\U{1680}' || ('\U{2000}' <= c <= '\U{200A}') || c == '\U{202F}' || c == '\U{205F}' || c == '\U{3000}'
    || IsLineTerminator(c)
  }

  /** The class `\w` of a regular expression without the `u` flag. */
  predicate IsWordChar(c: char) {
    ('a' <= c <= 'z') || ('A' <= c <= 'Z') || ('0' <= c <= '9') || c == '_'
  }

  /**
   * Lower-casing of ASCII letters. This is the case folding of a regular
   * expression with the `i` flag and without `u` when it compares against an
   * ASCII pattern, and it agrees with `toLowerCase` on every test the core
   * makes (see `LowerCase`).
   */
  function AsciiLower(c: char): char {
    if 'A' <= c <= 'Z' then (c as int + 32) as char else c
  }

  /**
   * `s.toLowerCase()`, character by character on ASCII letters. Full Unicode
   * lower-casing also maps U+0130 to "i" + U+0307 and U+212A to "k"; neither
   * can complete an occurrence of the scheme names the core searches for
   * ("javascript:", "data:", "vbscript:", "file:"), so `includes` tests on
   * this function give the same answers.
   */
  function LowerCase(s: string): (r: string)
    ensures |r| == |s|
    ensures forall i :: 0 <= i < |s| ==> r[i] == AsciiLower(s[i])
    ensures forall i :: 0 <= i < |r| ==> !('A' <= r[i] <= 'Z')
  {
    seq(|s|, i requires 0 <= i < |s| => AsciiLower(s[i]))
  }

  /** Lower-casing is idempotent: text that is already lower-cased is kept. */
  lemma LowerCaseIdempotent(s: string)
    ensures LowerCase(LowerCase(s)) == LowerCase(s)
  {
  }

  /** `p` occurs in `s` starting at index `i`. */
  predicate OccursAt(s: string, p: string, i: int) {
    0 <= i && i + |p| <= |s| && s[i..i + |p|] == p
  }

  /** `p` occurs somewhere in `s`. */
  ghost predicate Occurs(s: string, p: string) {
    exists i :: OccursAt(s, p, i)
  }

  /** `s.includes(p)`, as a scan from the left. */
  function Includes(s: string, p: string): (r: bool)
    ensures r ==> |p| <= |s|
    ensures p == [] ==> r
    decreases |s|
  {
    if |p| <= |s| && s[..|p|] == p then true
    else if s == [] then false
    else Includes(s[1..], p)
  }

  /** The scan of `Includes` finds `p` exactly when `p` occurs in `s`. */
  lemma {:induction false} IncludesOccurs(s: string, p: string)
    ensures Includes(s, p) <==> Occurs(s, p)
    decreases |s|
  {
    if |p| <= |s| && s[..|p|] == p {
      assert OccursAt(s, p, 0);
    } else if s != [] {
      IncludesOccurs(s[1..], p);
      if Occurs(s, p) {
        var i :| OccursAt(s, p, i);
        if i > 0 {
          assert s[1..][i - 1..i - 1 + |p|] == s[i..i + |p|];
          assert OccursAt(s[1..], p, i - 1);
        }
      }
      if Occurs(s[1..], p) {
        var i :| OccursAt(s[1..], p, i);
        assert s[1..][i..i + |p|] == s[i + 1..i + 1 + |p|];
        assert OccursAt(s, p, i + 1);
      }
    }
  }

  /** The string `s` begins with `p`, comparing ASCII letters without regard to case. */
  predicate StartsWithIgnoringCase(s: string, p: string) {
    |p| <= |s| && LowerCase(s[..|p|]) == LowerCase(p)
  }

  /** A string begins with each of its prefixes. */
  lemma StartsWithPrefix(p: string, rest: string)
    ensures StartsWithIgnoringCase(p + rest, p)
  {
    assert (p + rest)[..|p|] == p;
  }

  /** Two characters that differ, ignoring case, at some index of `p` rule the prefix out. */
  lemma MismatchAt(s: string, p: string, k: nat)
    requires k < |p| && (|p| <= |s| ==> AsciiLower(s[k]) != AsciiLower(p[k]))
    ensures !StartsWithIgnoringCase(s, p)
  {
    if |p| <= |s| {
      assert LowerCase(s[..|p|])[k] != LowerCase(p)[k];
    }
  }

  /** The only character that lower-cases to a non-letter `c` is `c` itself. */
  lemma AsciiLowerNonLetter(c: char, d: char)
    requires !('a' <= d <= 'z') && c != d
    ensures AsciiLower(c) != d
  {
  }

  /** `s.indexOf(c)`, with `|s|` standing for "not found". */
  function IndexOf(s: string, c: char): (i: nat)
    ensures i <= |s|
    ensures i < |s| ==> s[i] == c
    ensures forall j :: 0 <= j < i ==> s[j] != c
    decreases |s|
  {
    if s == [] then 0 else if s[0] == c then 0 else 1 + IndexOf(s[1..], c)
  }

  /** The first occurrence of `c` is at `i` when `c` stands there and nowhere before. */
  lemma {:induction false} IndexOfIs(s: string, c: char, i: nat)
    requires i < |s| && s[i] == c
    requires forall k :: 0 <= k < i ==> s[k] != c
    ensures IndexOf(s, c) == i
    decreases i
  {
    if i > 0 {
      IndexOfIs(s[1..], c, i - 1);
    }
  }

  /** Every character of `s` is white space. */
  predicate AllWhiteSpace(s: string) {
    forall i :: 0 <= i < |s| ==> IsWhiteSpace(s[i])
  }

  /** `s.trimStart()`: the suffix left after removing the white space in front. */
  function TrimStart(s: string): (r: string)
    ensures |r| <= |s| && r == s[|s| - |r|..]
    ensures AllWhiteSpace(s[..|s| - |r|])
    ensures r == [] || !IsWhiteSpace(r[0])
    decreases |s|
  {
    if |s| > 0 && IsWhiteSpace(s[0]) then
      var r := TrimStart(s[1..]);
      WhiteSpaceFront(s, r);
      r
    else s
  }

  /** `s.trimEnd()`: the prefix left after removing the white space at the end. */
  function TrimEnd(s: string): (r: string)
    ensures |r| <= |s| && r == s[..|r|]
    ensures AllWhiteSpace(s[|r|..])
    ensures r == [] || !IsWhiteSpace(r[|r| - 1])
    decreases |s|
  {
    if |s| > 0 && IsWhiteSpace(s[|s| - 1]) then
      var r := TrimEnd(s[..|s| - 1]);
      WhiteSpaceBack(s, r);
      r
    else s
  }

  /** A suffix of `s` after white space that follows a white-space first character. */
  lemma WhiteSpaceFront(s: string, r: string)
    requires |s| > 0 && IsWhiteSpace(s[0])
    requires |r| <= |s| - 1 && r == s[1..][|s| - 1 - |r|..] && AllWhiteSpace(s[1..][..|s| - 1 - |r|])
    ensures r == s[|s| - |r|..] && AllWhiteSpace(s[..|s| - |r|])
  {
    assert s[..|s| - |r|] == [s[0]] + s[1..][..|s| - 1 - |r|];
  }

  /** A prefix of `s` before white space that precedes a white-space last character. */
  lemma WhiteSpaceBack(s: string, r: string)
    requires |s| > 0 && IsWhiteSpace(s[|s| - 1])
    requires |r| <= |s| - 1 && r == s[..|s| - 1][..|r|] && AllWhiteSpace(s[..|s| - 1][|r|..])
    ensures r == s[..|r|] && AllWhiteSpace(s[|r|..])
  {
    assert s[|r|..] == s[..|s| - 1][|r|..] + [s[|s| - 1]];
  }

  /** How much white space `s.trim()` removes from the front of `s`. */
  function TrimmedFront(s: string): (n: nat)
    ensures n <= |s|
  {
    |s| - |TrimStart(s)|
  }

  /**
   * `s.trim()`: the contiguous part of `s` that neither starts nor ends with
   * white space and beyond which `s` holds only white space.
   */
  function Trim(s: string): (r: string)
    ensures TrimmedFront(s) + |r| <= |s|
    ensures r == s[TrimmedFront(s)..TrimmedFront(s) + |r|]
    ensures AllWhiteSpace(s[..TrimmedFront(s)]) && AllWhiteSpace(s[TrimmedFront(s) + |r|..])
    ensures r == [] || (!IsWhiteSpace(r[0]) && !IsWhiteSpace(r[|r| - 1]))
  {
    var t := TrimStart(s);
    var r := TrimEnd(t);
    TrimSlices(s, t, r);
    r
  }

  /** Trimming a suffix `t` of `s` down to its prefix `r` leaves a slice of `s`. */
  lemma TrimSlices(s: string, t: string, r: string)
    requires |t| <= |s| && t == s[|s| - |t|..]
    requires |r| <= |t| && r == t[..|r|] && AllWhiteSpace(t[|r|..])
    ensures r == s[|s| - |t|..|s| - |t| + |r|]
    ensures AllWhiteSpace(s[|s| - |t| + |r|..])
  {
    assert s[|s| - |t| + |r|..] == t[|r|..];
  }

  /** A string that neither starts nor ends with white space is its own trim. */
  lemma TrimUnpadded(s: string)
    requires s == [] || (!IsWhiteSpace(s[0]) && !IsWhiteSpace(s[|s| - 1]))
    ensures Trim(s) == s
  {
    assert TrimStart(s) == s;
    assert TrimEnd(s) == s;
  }

  /** `s.substring(0, n)`: the first `n` characters, or all of `s` if it is shorter. */
  function Prefix(s: string, n: nat): (r: string)
    ensures |r| <= n
    ensures |s| <= n ==> r == s
    ensures |s| > n ==> |r| == n
    ensures r == s[..|r|]
  {
    if |s| <= n then s else s[..n]
  }
}
