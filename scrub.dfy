/**
 * The regular-expression replacements of `sanitizeUserInput`, each written as
 * the left-to-right scan that `String.prototype.replace` performs with a
 * global pattern and an empty replacement.
 *
 * None of the patterns has the `u` flag, so case-insensitive matching folds
 * ASCII letters only, `\w` is `[A-Za-z0-9_]`, and `.` is every character but
 * a line terminator.
 */
module Scrub {
  import opened Wrappers
  import opened JsString

  /** The patterns that `sanitizeUserInput` removes. */
  datatype Pattern =
    /** `/<script[^>]*>.*?<\/script>/gi` */
    | ScriptElement
    /** `/javascript:/gi`, `/data:/gi`, `/vbscript:/gi`: a literal, ignoring ASCII case */
    | Scheme(name: string)
    /** `/on\w+\s*=/gi` */
    | EventHandler
    /** `/<[^>]*>/g` */
    | Tag

  const ScriptClose: string := "</script>"

  /**
   * The lazy tail `.*?<\/script>` matched from index `i` of `t`: the index
   * just past the first `</script>` (any ASCII case) at or after `i`,
   * provided no line terminator comes before it (see `CloseScriptIsLazy`).
   */
  function CloseScriptFrom(t: string, i: nat): (r: Option<nat>)
    requires i <= |t|
    ensures r.Some? ==> i + |ScriptClose| <= r.value <= |t|
    decreases |t| - i
  {
    if StartsWithIgnoringCase(t[i..], ScriptClose) then Some(i + |ScriptClose|)
    else if i == |t| || IsLineTerminator(t[i]) then None
    else CloseScriptFrom(t, i + 1)
  }

  /** Where no closer and no line terminator stands at `i`, the scan moves on to `i + 1`. */
  lemma CloseScriptStep(t: string, i: nat)
    requires i < |t| && !IsLineTerminator(t[i]) && !StartsWithIgnoringCase(t[i..], ScriptClose)
    ensures CloseScriptFrom(t, i) == CloseScriptFrom(t, i + 1)
  {
  }

  /**
   * The scan finds the shortest match: a closer ends it, and no line
   * terminator and no other closer comes before that one.
   */
  lemma {:induction false} CloseScriptIsLazy(t: string, i: nat) returns (n: nat)
    requires i <= |t| && CloseScriptFrom(t, i).Some?
    ensures CloseScriptFrom(t, i) == Some(n + |ScriptClose|)
    ensures i <= n && StartsWithIgnoringCase(t[n..], ScriptClose)
    ensures forall k :: i <= k < n ==> !IsLineTerminator(t[k]) && !StartsWithIgnoringCase(t[k..], ScriptClose)
    decreases |t| - i
  {
    if StartsWithIgnoringCase(t[i..], ScriptClose) {
      n := i;
    } else {
      assert i < |t| && !IsLineTerminator(t[i]);
      CloseScriptStep(t, i);
      n := CloseScriptIsLazy(t, i + 1);
    }
  }

  /** When the scan finds no match, every closer after `i` comes after a line terminator. */
  lemma {:induction false} CloseScriptFailsOnlyAtLineBreak(t: string, i: nat, k: nat)
    requires i <= k <= |t| && CloseScriptFrom(t, i).None?
    requires StartsWithIgnoringCase(t[k..], ScriptClose)
    ensures exists j :: i <= j < k && IsLineTerminator(t[j])
    decreases k - i
  {
    assert i != k;
    if !IsLineTerminator(t[i]) {
      CloseScriptStep(t, i);
      CloseScriptFailsOnlyAtLineBreak(t, i + 1, k);
      var j :| i + 1 <= j < k && IsLineTerminator(t[j]);
      assert i <= j < k;
    } else {
      assert i <= i < k && IsLineTerminator(t[i]);
    }
  }

  /** A character other than `<` cannot begin a closer. */
  lemma NoCloserAt(t: string, i: nat)
    requires i < |t| && t[i] != '<'
    ensures !StartsWithIgnoringCase(t[i..], ScriptClose)
  {
    assert t[i..][0] == t[i];
    AsciiLowerNonLetter(t[i], '<');
    assert AsciiLower(ScriptClose[0]) == '<';
  }

  /** Characters that can neither begin `</script>` nor stop `.` are skipped by the scan. */
  lemma {:induction false} CloseScriptSkips(t: string, i: nat, n: nat)
    requires i <= n <= |t|
    requires forall k :: i <= k < n ==> t[k] != '<' && !IsLineTerminator(t[k])
    ensures CloseScriptFrom(t, i) == CloseScriptFrom(t, n)
    decreases n - i
  {
    if i < n {
      NoCloserAt(t, i);
      CloseScriptStep(t, i);
      CloseScriptSkips(t, i + 1, n);
    }
  }

  /** The length of the longest prefix of `s` made of `\w` characters. */
  function WordSpan(s: string): (n: nat)
    ensures n <= |s|
    ensures forall k :: 0 <= k < n ==> IsWordChar(s[k])
    ensures n < |s| ==> !IsWordChar(s[n])
    decreases |s|
  {
    if s != [] && IsWordChar(s[0]) then 1 + WordSpan(s[1..]) else 0
  }

  /** The length of the longest prefix of `s` made of `\s` characters. */
  function SpaceSpan(s: string): (n: nat)
    ensures n <= |s|
    ensures forall k :: 0 <= k < n ==> IsWhiteSpace(s[k])
    ensures n < |s| ==> !IsWhiteSpace(s[n])
    decreases |s|
  {
    if s != [] && IsWhiteSpace(s[0]) then 1 + SpaceSpan(s[1..]) else 0
  }

  /** `<script[^>]*>.*?<\/script>` (ignoring ASCII case) matched at the start of `s`. */
  function ScriptElementMatch(s: string): (r: Option<nat>)
    ensures r.Some? ==> 0 < r.value <= |s|
  {
    if StartsWithIgnoringCase(s, "<script") then
      var gt := 7 + IndexOf(s[7..], '>');
      if gt < |s| then CloseScriptFrom(s, gt + 1) else None
    else None
  }

  /** A scheme name (ignoring ASCII case) matched at the start of `s`. */
  function SchemeMatch(name: string, s: string): (r: Option<nat>)
    ensures r.Some? ==> 0 < r.value <= |s|
  {
    if name != [] && StartsWithIgnoringCase(s, name) then Some(|name|) else None
  }

  /**
   * `on\w+\s*=` (ignoring ASCII case) matched at the start of `s`. The three
   * classes `\w`, `\s` and `=` are disjoint, so only the longest runs can be
   * followed by `=` and no backtracking can find another match.
   */
  function EventHandlerMatch(s: string): (r: Option<nat>)
    ensures r.Some? ==> 0 < r.value <= |s|
  {
    if StartsWithIgnoringCase(s, "on") then
      var w := WordSpan(s[2..]);
      var e := 2 + w + SpaceSpan(s[2 + w..]);
      if 0 < w && e < |s| && s[e] == '=' then Some(e + 1) else None
    else None
  }

  /** `<[^>]*>` matched at the start of `s`: up to the first `>`. */
  function TagMatch(s: string): (r: Option<nat>)
    ensures r.Some? ==> 0 < r.value <= |s|
  {
    if s != [] && s[0] == '<' then
      var gt := 1 + IndexOf(s[1..], '>');
      if gt < |s| then Some(gt + 1) else None
    else None
  }

  /**
   * The length of the match of `p` at the start of `s`, if there is one.
   * Where a pattern offers a choice the choice is forced: `[^>]*>` can only
   * stop at the first `>`, so every match found here is the one the regular
   * expression engine finds.
   */
  function MatchLength(p: Pattern, s: string): (r: Option<nat>)
    ensures r.Some? ==> 0 < r.value <= |s|
  {
    match p
    case ScriptElement => ScriptElementMatch(s)
    case Scheme(name) => SchemeMatch(name, s)
    case EventHandler => EventHandlerMatch(s)
    case Tag => TagMatch(s)
  }

  /** The characters at which a match of `p` can begin. */
  predicate CanStart(p: Pattern, c: char) {
    match p
    case ScriptElement => c == '<'
    case Scheme(name) => name != [] && AsciiLower(c) == AsciiLower(name[0])
    case EventHandler => AsciiLower(c) == 'o'
    case Tag => c == '<'
  }

  lemma MatchStart(p: Pattern, s: string)
    ensures MatchLength(p, s).Some? ==> CanStart(p, s[0])
  {
  }

  /** The matcher of a pattern, as a function from a string to the length of the match at its start. */
  function Matcher(p: Pattern): string -> Option<nat> {
    s => MatchLength(p, s)
  }

  /** `m` finds a non-empty match at the start of `s`. */
  predicate MatchesAt(m: string -> Option<nat>, s: string) {
    m(s).Some? && 0 < m(s).value <= |s|
  }

  /** No match of `m` begins anywhere in `s`. */
  predicate NoMatch(m: string -> Option<nat>, s: string) {
    forall i :: 0 <= i < |s| ==> !MatchesAt(m, s[i..])
  }

  /**
   * `s.replace(re, '')` for a global regular expression whose matcher is
   * `m`: scanning from the left, a match is dropped and the scan resumes
   * right after it; where there is no match one character is kept. (Where a
   * match would be empty the character is kept too, as the lastIndex
   * advance of `replace` does; no matcher of this module returns one.)
   */
  function ReplaceAll(m: string -> Option<nat>, s: string): (r: string)
    ensures |r| <= |s|
    decreases |s|
  {
    if s == [] then []
    else if MatchesAt(m, s) then ReplaceAll(m, s[m(s).value..])
    else [s[0]] + ReplaceAll(m, s[1..])
  }

  /** The replacement only removes characters: it never introduces one. */
  lemma {:induction false} ReplaceAllKeepsCharacters(m: string -> Option<nat>, s: string, c: char)
    requires c in ReplaceAll(m, s)
    ensures c in s
    decreases |s|
  {
    if MatchesAt(m, s) {
      ReplaceAllKeepsCharacters(m, s[m(s).value..], c);
    } else if c != s[0] {
      ReplaceAllKeepsCharacters(m, s[1..], c);
    }
  }

  /** A string in which the pattern does not match is left as it is. */
  lemma {:induction false} ReplaceAllNoMatch(m: string -> Option<nat>, s: string)
    requires NoMatch(m, s)
    ensures ReplaceAll(m, s) == s
    decreases |s|
  {
    if s != [] {
      assert s[0..] == s;
      assert NoMatch(m, s[1..]) by {
        forall i | 0 <= i < |s[1..]| ensures !MatchesAt(m, s[1..][i..]) {
          assert s[1..][i..] == s[i + 1..];
        }
      }
      ReplaceAllNoMatch(m, s[1..]);
    }
  }

  /** A string in which the pattern matches somewhere gets strictly shorter. */
  lemma {:induction false} ReplaceAllShrinks(m: string -> Option<nat>, s: string)
    requires !NoMatch(m, s)
    ensures |ReplaceAll(m, s)| < |s|
    decreases |s|
  {
    var i :| 0 <= i < |s| && MatchesAt(m, s[i..]);
    if i == 0 {
      assert s[0..] == s;
    } else if !MatchesAt(m, s) {
      assert s[1..][i - 1..] == s[i..];
      ReplaceAllShrinks(m, s[1..]);
    }
  }

  /** The replacement changes `s` exactly when the pattern matches somewhere in it. */
  lemma ReplaceAllUnchanged(m: string -> Option<nat>, s: string)
    ensures ReplaceAll(m, s) == s <==> NoMatch(m, s)
  {
    if NoMatch(m, s) {
      ReplaceAllNoMatch(m, s);
    } else {
      ReplaceAllShrinks(m, s);
    }
  }

  /** A prefix in which no match begins is kept as it is. */
  lemma {:induction false} ReplaceAllKeepsPrefix(m: string -> Option<nat>, a: string, b: string)
    requires forall i :: 0 <= i < |a| ==> !MatchesAt(m, a[i..] + b)
    ensures ReplaceAll(m, a + b) == a + ReplaceAll(m, b)
    decreases |a|
  {
    if a == [] {
      assert a + b == b;
    } else {
      var t := a[1..] + b;
      assert a + b == [a[0]] + t && (a + b)[1..] == t;
      assert a[0..] == a;
      assert forall i :: 0 <= i < |a[1..]| ==> a[1..][i..] == a[i + 1..];
      ReplaceAllKeepsPrefix(m, a[1..], b);
      assert [a[0]] + (a[1..] + ReplaceAll(m, b)) == a + ReplaceAll(m, b);
    }
  }

  /** A prefix none of whose characters can begin a match of `p` is kept as it is. */
  lemma PatternKeepsPrefix(p: Pattern, a: string, b: string)
    requires forall i :: 0 <= i < |a| ==> !CanStart(p, a[i])
    ensures ReplaceAll(Matcher(p), a + b) == a + ReplaceAll(Matcher(p), b)
  {
    forall i | 0 <= i < |a| ensures !MatchesAt(Matcher(p), a[i..] + b) {
      MatchStart(p, a[i..] + b);
    }
    ReplaceAllKeepsPrefix(Matcher(p), a, b);
  }

  /** A match at the front is dropped and the scan resumes right after it. */
  lemma ReplaceAllDropsMatch(m: string -> Option<nat>, a: string, b: string)
    requires a != [] && m(a + b) == Some(|a|)
    ensures ReplaceAll(m, a + b) == ReplaceAll(m, b)
  {
    assert (a + b)[|a|..] == b;
  }

  /** A run of `n` word characters followed by a non-word character has span `n`. */
  lemma {:induction false} WordSpanIs(s: string, n: nat)
    requires n < |s| && !IsWordChar(s[n])
    requires forall k :: 0 <= k < n ==> IsWordChar(s[k])
    ensures WordSpan(s) == n
    decreases n
  {
    if n > 0 {
      WordSpanIs(s[1..], n - 1);
    }
  }

  /**
   * A script element at the front of `s`: its opening tag ends with the
   * first `>` at `gt`, and its closer, starting at `close`, follows a
   * one-line body with no `<`.
   */
  lemma ScriptElementMatchesAt(s: string, gt: nat, close: nat)
    requires StartsWithIgnoringCase(s, "<script")
    requires 7 <= gt < close <= |s| && s[gt] == '>'
    requires forall k :: 7 <= k < gt ==> s[k] != '>'
    requires forall k :: gt < k < close ==> s[k] != '<' && !IsLineTerminator(s[k])
    requires StartsWithIgnoringCase(s[close..], ScriptClose)
    ensures ScriptElementMatch(s) == Some(close + |ScriptClose|)
  {
    var u := s[7..];
    assert u[gt - 7] == '>';
    assert forall k :: 0 <= k < gt - 7 ==> u[k] == s[7 + k];
    IndexOfIs(u, '>', gt - 7);
    CloseScriptSkips(s, gt + 1, close);
    assert CloseScriptFrom(s, close) == Some(close + |ScriptClose|);
  }

  /** A whole tag at the front of a string. */
  lemma TagMatchesWhole(inner: string, rest: string)
    requires '>' !in inner
    ensures TagMatch("<" + inner + ">" + rest) == Some(|inner| + 2)
  {
    var s := "<" + inner + ">" + rest;
    assert s[1..] == inner + ">" + rest;
    IndexOfIs(s[1..], '>', |inner|);
  }

  /** A whole event-handler attribute `on<name>=` at the front of a string. */
  lemma EventHandlerMatchesWhole(name: string, rest: string)
    requires name != [] && forall k :: 0 <= k < |name| ==> IsWordChar(name[k])
    ensures EventHandlerMatch("on" + name + "=" + rest) == Some(|name| + 3)
  {
    var s := "on" + name + "=" + rest;
    assert s[2..] == name + "=" + rest;
    assert s[2..][|name|] == '=';
    WordSpanIs(s[2..], |name|);
    assert s[2 + |name|..] == "=" + rest;
    assert SpaceSpan(s[2 + |name|..]) == 0;
  }

  /** No `<` in `s` is followed, anywhere later, by a `>`. */
  predicate NoTagShape(s: string) {
    forall i, j :: 0 <= i < j < |s| && s[i] == '<' ==> s[j] != '>'
  }

  /** A string has no tag shape exactly when the tag pattern does not match in it. */
  lemma NoTagShapeIsNoMatch(s: string)
    ensures NoTagShape(s) <==> NoMatch(Matcher(Tag), s)
  {
    if !NoMatch(Matcher(Tag), s) {
      var i :| 0 <= i < |s| && MatchesAt(Matcher(Tag), s[i..]);
      var t := s[i..];
      var gt := 1 + IndexOf(t[1..], '>');
      assert s[i] == '<' && s[i + gt] == '>';
    }
    if !NoTagShape(s) {
      var i, j :| 0 <= i < j < |s| && s[i] == '<' && s[j] == '>';
      var t := s[i..];
      assert t[1..][j - i - 1] == '>';
      assert MatchesAt(Matcher(Tag), t);
    }
  }

  /** Removing the tag pattern leaves no `<` that is followed by a `>`. */
  lemma {:induction false} ReplaceTagsLeavesNoTagShape(s: string)
    ensures NoTagShape(ReplaceAll(Matcher(Tag), s))
    decreases |s|
  {
    var m := Matcher(Tag);
    if s != [] {
      if MatchesAt(m, s) {
        ReplaceTagsLeavesNoTagShape(s[m(s).value..]);
      } else {
        var rest := ReplaceAll(m, s[1..]);
        ReplaceTagsLeavesNoTagShape(s[1..]);
        if s[0] == '<' {
          assert IndexOf(s[1..], '>') == |s[1..]|;
          assert '>' !in s[1..];
          if '>' in rest {
            ReplaceAllKeepsCharacters(m, s[1..], '>');
          }
        }
        var r := [s[0]] + rest;
        forall i, j | 0 <= i < j < |r| && r[i] == '<' ensures r[j] != '>' {
          if i > 0 {
            assert r[i] == rest[i - 1] && r[j] == rest[j - 1];
          } else {
            assert r[j] == rest[j - 1] && rest[j - 1] in rest;
          }
        }
      }
    }
  }

  /** A contiguous part of a string without a tag shape has none either. */
  lemma NoTagShapeSlice(s: string, i: int, j: int)
    requires 0 <= i <= j <= |s| && NoTagShape(s)
    ensures NoTagShape(s[i..j])
  {
    var t := s[i..j];
    forall a, b | 0 <= a < b < |t| && t[a] == '<' ensures t[b] != '>' {
      assert t[a] == s[i + a] && t[b] == s[i + b];
    }
  }
}
