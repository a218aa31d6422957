/**
 * What `sanitizeUserInput` does with typical payloads: a script element in
 * front of plain text, an event-handler attribute inside a tag, scheme names
 * split so that removing one occurrence joins another, an attribute that
 * removal joins together, and an unclosed script opener. Each lemma is
 * stated for a whole family of inputs; the comment before it names one
 * member of the family.
 */
module SecurityExamples {
  import opened Wrappers
  import opened Js
  import opened JsString
  import opened Scrub
  import opened Security

  /** Text that `Trim` leaves alone and `Prefix` does not cut. */
  predicate IsFinishedText(w: string) {
    |w| <= MaxInputLength && (w == [] || (!IsWhiteSpace(w[0]) && !IsWhiteSpace(w[|w| - 1])))
  }

  /** A one-line script body without `<`. */
  predicate IsPlainScriptBody(body: string) {
    forall k :: 0 <= k < |body| ==> body[k] != '<' && !IsLineTerminator(body[k])
  }

  /** Inert text goes through the last five replacements unchanged. */
  lemma InertAfterScripts(w: string)
    requires IsInertText(w)
    ensures ReplaceAll(Matcher(Tag), ReplaceAll(Matcher(EventHandler), ReplaceAll(Matcher(Scheme("vbscript:")),
              ReplaceAll(Matcher(Scheme("data:")), ReplaceAll(Matcher(Scheme("javascript:")), w))))) == w
  {
    InertTextIsFreeOfMarkup(w);
    ReplaceAllNoMatch(Matcher(Scheme("javascript:")), w);
    ReplaceAllNoMatch(Matcher(Scheme("data:")), w);
    ReplaceAllNoMatch(Matcher(Scheme("vbscript:")), w);
    ReplaceAllNoMatch(Matcher(EventHandler), w);
    ReplaceAllNoMatch(Matcher(Tag), w);
  }

  /** The script pass drops a leading script element. */
  lemma ScriptPassDropsElement(body: string, rest: string)
    requires IsPlainScriptBody(body)
    ensures ReplaceAll(Matcher(ScriptElement), "<script>" + body + ScriptClose + rest)
            == ReplaceAll(Matcher(ScriptElement), rest)
  {
    var element := "<script>" + body + ScriptClose;
    var s := element + rest;
    var gt, close := 7, 8 + |body|;
    assert s[..7] == "<script";
    assert s[gt] == '>';
    assert forall k :: gt < k < close ==> s[k] == body[k - 8];
    assert s[close..] == ScriptClose + rest;
    StartsWithPrefix(ScriptClose, rest);
    ScriptElementMatchesAt(s, gt, close);
    ReplaceAllDropsMatch(Matcher(ScriptElement), element, rest);
  }

  /**
   * A script element in front of finished inert text is removed with all its
   * content, and the text is what remains. Instance: `<script>alert(1)</script>hello`
   * gives `hello` (body `alert(1)`, rest `hello`).
   */
  lemma ScriptElementRemoved(body: string, rest: string)
    requires IsPlainScriptBody(body)
    requires IsInertText(rest) && IsFinishedText(rest)
    ensures SanitizeUserInput(JStr("<script>" + body + ScriptClose + rest)) == rest
  {
    var s := "<script>" + body + ScriptClose + rest;
    ScriptPassDropsElement(body, rest);
    InertTextIsFreeOfMarkup(rest);
    ReplaceAllNoMatch(Matcher(ScriptElement), rest);
    InertAfterScripts(rest);
    StripMarkupPasses(s);
    TrimUnpadded(rest);
    SanitizeUserInputOfString(s);
  }

  /** A non-empty run of `\w` characters: the name of an event in an `on<name>=` attribute. */
  predicate IsEventName(name: string) {
    name != [] && forall k :: 0 <= k < |name| ==> IsWordChar(name[k])
  }

  /** The tag `<img on<name>=value>` does not start a script element, and holds no `<` after its first character. */
  lemma ImgTagIsNoScript(name: string, value: string, s: string)
    requires IsEventName(name) && IsInertText(value) && s == "<img on" + name + "=" + value + ">"
    ensures ReplaceAll(Matcher(ScriptElement), s) == s
  {
    var tail := "img on" + name + "=" + value + ">";
    assert s == "<" + tail;
    MismatchAt(s, "<script", 1);
    assert !MatchesAt(Matcher(ScriptElement), s);
    assert forall i :: 0 <= i < |tail| ==> tail[i] != '<';
    PatternKeepsPrefix(ScriptElement, tail, []);
    assert tail + [] == tail;
    ReplaceAllKeepsPrefix(Matcher(ScriptElement), "<", tail);
  }

  /** No scheme name can begin in `<img on<name>=value>` when the name holds no `j`, `d` or `v`. */
  lemma ImgTagHasNoScheme(name: string, value: string, s: string)
    requires IsInertText(name) && IsInertText(value) && s == "<img on" + name + "=" + value + ">"
    ensures ReplaceAll(Matcher(Scheme("javascript:")), s) == s
    ensures ReplaceAll(Matcher(Scheme("data:")), s) == s
    ensures ReplaceAll(Matcher(Scheme("vbscript:")), s) == s
  {
    assert forall i :: 0 <= i < |s| ==>
      AsciiLower(s[i]) != 'j' && AsciiLower(s[i]) != 'd' && AsciiLower(s[i]) != 'v';
    assert s + [] == s;
    PatternKeepsPrefix(Scheme("javascript:"), s, []);
    PatternKeepsPrefix(Scheme("data:"), s, []);
    PatternKeepsPrefix(Scheme("vbscript:"), s, []);
  }

  /** The event-handler pass drops an attribute `on<name>=` in front of inert text. */
  lemma HandlerAttributeDropped(name: string, after: string)
    requires IsEventName(name) && IsInertText(after)
    ensures ReplaceAll(Matcher(EventHandler), "on" + name + "=" + after) == after
  {
    var handler := "on" + name + "=";
    assert "on" + name + "=" + after == handler + after;
    EventHandlerMatchesWhole(name, after);
    ReplaceAllDropsMatch(Matcher(EventHandler), handler, after);
    InertTextIsFreeOfMarkup(after);
    ReplaceAllNoMatch(Matcher(EventHandler), after);
  }

  /** The event-handler pass takes `on<name>=` out of `<img on<name>=value>`. */
  lemma ImgTagLosesHandler(name: string, value: string, s: string)
    requires IsEventName(name) && IsInertText(value) && s == "<img on" + name + "=" + value + ">"
    ensures ReplaceAll(Matcher(EventHandler), s) == "<img " + value + ">"
  {
    var after := value + ">";
    InertTextConcat(value, ">");
    var attribute := "on" + name + "=" + after;
    assert s == "<img " + attribute;
    assert forall i :: 0 <= i < 5 ==> AsciiLower("<img "[i]) != 'o';
    PatternKeepsPrefix(EventHandler, "<img ", attribute);
    HandlerAttributeDropped(name, after);
    assert "<img " + after == "<img " + value + ">";
  }

  /** The tag pass removes what is left of the tag. */
  lemma ImgTagRemoved(value: string, s: string)
    requires '>' !in value && s == "<img " + value + ">"
    ensures ReplaceAll(Matcher(Tag), s) == ""
  {
    var inner := "img " + value;
    assert '>' !in "img ";
    TagMatchesWhole(inner, []);
    assert s == "<" + inner + ">" + [];
    ReplaceAllDropsMatch(Matcher(Tag), "<" + inner + ">", []);
  }

  /**
   * A tag that carries an event-handler attribute is removed entirely.
   * Instance: `<img onerror=alert(1)>` gives the empty string (name `error`,
   * value `alert(1)`).
   */
  lemma EventHandlerTagRemoved(name: string, value: string)
    requires IsEventName(name) && IsInertText(name)
    requires IsInertText(value) && '>' !in value
    ensures SanitizeUserInput(JStr("<img on" + name + "=" + value + ">")) == ""
  {
    var s := "<img on" + name + "=" + value + ">";
    ImgTagIsNoScript(name, value, s);
    ImgTagHasNoScheme(name, value, s);
    ImgTagLosesHandler(name, value, s);
    ImgTagRemoved(value, "<img " + value + ">");
    StripMarkupPasses(s);
    SanitizeUserInputOfString(s);
    TrimUnpadded([]);
  }

  // ---------------------------------------------------------------------
  // Scheme names that removal joins together

  /** A whole scheme name at the front is dropped by its own pass. */
  lemma SchemeNameDropped(name: string, rest: string)
    requires name != []
    ensures ReplaceAll(Matcher(Scheme(name)), name + rest) == ReplaceAll(Matcher(Scheme(name)), rest)
  {
    StartsWithPrefix(name, rest);
    ReplaceAllDropsMatch(Matcher(Scheme(name)), name, rest);
  }

  /** Where in `javascript:` a match of each pattern can begin. */
  lemma JavascriptLetters()
    ensures forall i :: 0 <= i < 11 ==>
      && !CanStart(ScriptElement, "javascript:"[i]) && !CanStart(Scheme("data:"), "javascript:"[i])
      && !CanStart(EventHandler, "javascript:"[i]) && !CanStart(Tag, "javascript:"[i])
      && (i != 2 ==> !CanStart(Scheme("vbscript:"), "javascript:"[i]))
      && (i != 0 ==> !CanStart(Scheme("javascript:"), "javascript:"[i]))
  {
  }

  /** A pass none of whose matches can begin in `x` keeps `x` in front of text it leaves alone. */
  lemma PassKeepsText(p: Pattern, x: string, tail: string)
    requires forall i :: 0 <= i < |x| ==> !CanStart(p, x[i])
    requires NoMatch(Matcher(p), tail)
    ensures ReplaceAll(Matcher(p), x + tail) == x + tail
  {
    PatternKeepsPrefix(p, x, tail);
    ReplaceAllNoMatch(Matcher(p), tail);
  }

  /**
   * A pass keeps `x` in front of text it leaves alone when a match could
   * begin only at index `j` of `x` and does not.
   */
  lemma PassKeepsTextButOne(p: Pattern, x: string, j: nat, tail: string)
    requires j < |x| && forall i :: 0 <= i < |x| && i != j ==> !CanStart(p, x[i])
    requires !MatchesAt(Matcher(p), x[j..] + tail)
    requires NoMatch(Matcher(p), tail)
    ensures ReplaceAll(Matcher(p), x + tail) == x + tail
  {
    forall i | 0 <= i < |x| ensures !MatchesAt(Matcher(p), x[i..] + tail) {
      if i != j {
        MatchStart(p, x[i..] + tail);
      }
    }
    ReplaceAllKeepsPrefix(Matcher(p), x, tail);
    ReplaceAllNoMatch(Matcher(p), tail);
  }

  /** The `vbscript:` pass keeps `javascript:`: its `v` is followed by `a`. */
  lemma VbscriptPassKeepsJavascript(tail: string)
    requires NoMatch(Matcher(Scheme("vbscript:")), tail)
    ensures ReplaceAll(Matcher(Scheme("vbscript:")), "javascript:" + tail) == "javascript:" + tail
  {
    JavascriptLetters();
    assert ("javascript:"[2..] + tail)[1] == 'a';
    MismatchAt("javascript:"[2..] + tail, "vbscript:", 1);
    PassKeepsTextButOne(Scheme("vbscript:"), "javascript:", 2, tail);
  }

  /** `javascript:` in front of inert text survives the last four passes. */
  lemma JavascriptSchemeSurvives(tail: string)
    requires IsInertText(tail)
    ensures ReplaceAll(Matcher(Tag), ReplaceAll(Matcher(EventHandler), ReplaceAll(Matcher(Scheme("vbscript:")),
              ReplaceAll(Matcher(Scheme("data:")), "javascript:" + tail)))) == "javascript:" + tail
  {
    InertTextIsFreeOfMarkup(tail);
    JavascriptLetters();
    PassKeepsText(Scheme("data:"), "javascript:", tail);
    VbscriptPassKeepsJavascript(tail);
    PassKeepsText(EventHandler, "javascript:", tail);
    PassKeepsText(Tag, "javascript:", tail);
  }

  /** The first `k` letters of a scheme name are kept when the whole name follows them. */
  lemma SplitFrontKept(name: string, k: nat, after: string)
    requires 0 < k < |name|
    requires forall i :: 0 < i < |name| ==> AsciiLower(name[i]) != AsciiLower(name[0])
    ensures ReplaceAll(Matcher(Scheme(name)), name[..k] + (name + after))
            == name[..k] + ReplaceAll(Matcher(Scheme(name)), name + after)
  {
    var m := Matcher(Scheme(name));
    var front, rest := name[..k], name + after;
    forall i | 0 <= i < k ensures !MatchesAt(m, front[i..] + rest) {
      var s := front[i..] + rest;
      if i == 0 {
        assert s[k] == name[0];
        MismatchAt(s, name, k);
      } else {
        MatchStart(Scheme(name), s);
      }
    }
    ReplaceAllKeepsPrefix(m, front, rest);
  }

  /**
   * Removing a scheme name from the middle of a split copy of itself joins
   * the copy: when the first letter of `name` occurs nowhere else in it, the
   * pass turns `name[..k] + name + name[k..] + tail` into `name + tail`.
   */
  lemma SchemeJoinPass(name: string, k: nat, tail: string)
    requires 0 < k < |name|
    requires forall i :: 0 < i < |name| ==> AsciiLower(name[i]) != AsciiLower(name[0])
    requires NoMatch(Matcher(Scheme(name)), tail)
    ensures ReplaceAll(Matcher(Scheme(name)), name[..k] + name + name[k..] + tail) == name + tail
  {
    var m := Matcher(Scheme(name));
    var front, back := name[..k], name[k..];
    assert name[..k] + name + name[k..] + tail == front + (name + (back + tail));
    calc {
      ReplaceAll(m, front + (name + (back + tail)));
      { SplitFrontKept(name, k, back + tail); }
      front + ReplaceAll(m, name + (back + tail));
      { SchemeNameDropped(name, back + tail); }
      front + ReplaceAll(m, back + tail);
      { PatternKeepsPrefix(Scheme(name), back, tail); }
      front + (back + ReplaceAll(m, tail));
      { ReplaceAllNoMatch(m, tail); }
      front + (back + tail);
      { assert front + back == name; }
      name + tail;
    }
  }

  /** The script pass keeps `javajavascript:script:` in front of text it leaves alone. */
  lemma NestedSchemeScriptPass(tail: string)
    requires NoMatch(Matcher(ScriptElement), tail)
    ensures ReplaceAll(Matcher(ScriptElement), "javajavascript:script:" + tail) == "javajavascript:script:" + tail
  {
    assert forall i :: 0 <= i < 22 ==> "javajavascript:script:"[i] != '<';
    PatternKeepsPrefix(ScriptElement, "javajavascript:script:", tail);
    ReplaceAllNoMatch(Matcher(ScriptElement), tail);
  }

  /** The `javascript:` pass over `javajavascript:script:` + tail leaves `javascript:` + tail. */
  lemma NestedSchemePass(tail: string)
    requires NoMatch(Matcher(Scheme("javascript:")), tail)
    ensures ReplaceAll(Matcher(Scheme("javascript:")), "javajavascript:script:" + tail) == "javascript:" + tail
  {
    JavascriptLetters();
    assert "javascript:"[..4] + "javascript:" + "javascript:"[4..] == "javajavascript:script:";
    SchemeJoinPass("javascript:", 4, tail);
  }

  /** Text that starts with `javascript:` mentions that scheme, whatever the case of the rest. */
  lemma StartsWithJavascript(tail: string)
    ensures MentionsScheme("javascript:" + tail, "javascript:")
  {
    var lower := LowerCase("javascript:" + tail);
    assert lower[..11] == "javascript:";
    assert OccursAt(lower, "javascript:", 0);
  }

  /** A lower-case name is mentioned by every string that begins with it. */
  lemma MentionsOwnPrefix(name: string, tail: string)
    requires forall i :: 0 <= i < |name| ==> AsciiLower(name[i]) == name[i]
    ensures MentionsScheme(name + tail, name)
  {
    var lower := LowerCase(name + tail);
    assert forall i :: 0 <= i < |name| ==> lower[i] == AsciiLower((name + tail)[i]) == name[i];
    assert lower[..|name|] == name;
    assert OccursAt(lower, name, 0);
  }

  /**
   * A string that begins with one of the three dangerous scheme names is
   * refused by the favicon check and by the redirect check, whatever
   * follows it and whatever the URL parser makes of it. Instances:
   * `javascript:alert(1)`, `data:text/html,...` and `vbscript:msgbox(1)`.
   */
  lemma DangerousSchemeRefused(host: Host, name: string, tail: string)
    requires name == "javascript:" || name == "data:" || name == "vbscript:"
    ensures SanitizeFaviconUrl(host, JStr(name + tail)) == host.noFavicon
    ensures !IsValidRedirectUrl(host, JStr(name + tail))
  {
    assert forall i :: 0 <= i < |name| ==> AsciiLower(name[i]) == name[i];
    MentionsOwnPrefix(name, tail);
  }

  /**
   * Removing a scheme name can join the text around it into the same name:
   * the output still mentions `javascript:`. Instance:
   * `javajavascript:script:alert(1)` gives `javascript:alert(1)` (tail
   * `alert(1)`).
   */
  lemma NestedSchemeNameSurvives(tail: string)
    requires IsInertText(tail) && IsFinishedText("javascript:" + tail)
    ensures SanitizeUserInput(JStr("javajavascript:script:" + tail)) == "javascript:" + tail
    ensures MentionsScheme("javascript:" + tail, "javascript:")
  {
    var s := "javajavascript:script:" + tail;
    InertTextIsFreeOfMarkup(tail);
    NestedSchemeScriptPass(tail);
    NestedSchemePass(tail);
    JavascriptSchemeSurvives(tail);
    StripMarkupPasses(s);
    TrimUnpadded("javascript:" + tail);
    SanitizeUserInputOfString(s);
    StartsWithJavascript(tail);
  }

  /** Sanitising `javascript:` + text a second time removes the scheme name. */
  lemma JavascriptPrefixRemoved(tail: string)
    requires IsInertText(tail) && IsFinishedText(tail)
    ensures SanitizeUserInput(JStr("javascript:" + tail)) == tail
  {
    var s := "javascript:" + tail;
    InertTextIsFreeOfMarkup(tail);
    JavascriptLetters();
    PassKeepsText(ScriptElement, "javascript:", tail);
    SchemeNameDropped("javascript:", tail);
    ReplaceAllNoMatch(Matcher(Scheme("javascript:")), tail);
    InertAfterScripts(tail);
    StripMarkupPasses(s);
    TrimUnpadded(tail);
    SanitizeUserInputOfString(s);
  }

  /**
   * `SanitizeUserInput` is not idempotent: on the nested scheme name, a
   * second application gives a different text.
   */
  lemma SanitizeIsNotIdempotent(tail: string)
    requires IsInertText(tail) && IsFinishedText(tail) && IsFinishedText("javascript:" + tail)
    ensures var once := SanitizeUserInput(JStr("javajavascript:script:" + tail));
            SanitizeUserInput(JStr(once)) != once
  {
    NestedSchemeNameSurvives(tail);
    JavascriptPrefixRemoved(tail);
  }

  /** The script pass keeps `java<b>script:`: its `<` is followed by `b`. */
  lemma SplitTagScriptPass(tail: string)
    requires NoMatch(Matcher(ScriptElement), tail)
    ensures ReplaceAll(Matcher(ScriptElement), "java<b>script:" + tail) == "java<b>script:" + tail
  {
    var x := "java<b>script:";
    assert forall i :: 0 <= i < 14 && i != 4 ==> x[i] != '<';
    assert (x[4..] + tail)[1] == 'b';
    MismatchAt(x[4..] + tail, "<script", 1);
    PassKeepsTextButOne(ScriptElement, x, 4, tail);
  }

  /** The `javascript:` pass keeps `java<b>script:`: its `j` is followed by `ava<`. */
  lemma SplitTagJavascriptPass(tail: string)
    requires NoMatch(Matcher(Scheme("javascript:")), tail)
    ensures ReplaceAll(Matcher(Scheme("javascript:")), "java<b>script:" + tail) == "java<b>script:" + tail
  {
    var x := "java<b>script:";
    assert forall i :: 0 < i < 14 ==> AsciiLower(x[i]) != 'j';
    assert (x[0..] + tail)[4] == '<';
    MismatchAt(x[0..] + tail, "javascript:", 4);
    PassKeepsTextButOne(Scheme("javascript:"), x, 0, tail);
  }

  /** The `vbscript:` pass keeps `java<b>script:`: its `v` is followed by `a`. */
  lemma SplitTagVbscriptPass(tail: string)
    requires NoMatch(Matcher(Scheme("vbscript:")), tail)
    ensures ReplaceAll(Matcher(Scheme("vbscript:")), "java<b>script:" + tail) == "java<b>script:" + tail
  {
    var x := "java<b>script:";
    assert forall i :: 0 <= i < 14 && i != 2 ==> AsciiLower(x[i]) != 'v';
    assert (x[2..] + tail)[1] == 'a';
    MismatchAt(x[2..] + tail, "vbscript:", 1);
    PassKeepsTextButOne(Scheme("vbscript:"), x, 2, tail);
  }

  /** The `data:`, `vbscript:` and event-handler passes keep `java<b>script:`. */
  lemma SplitTagSchemePasses(tail: string)
    requires NoMatch(Matcher(Scheme("data:")), tail)
    requires NoMatch(Matcher(Scheme("vbscript:")), tail)
    requires NoMatch(Matcher(EventHandler), tail)
    ensures ReplaceAll(Matcher(EventHandler), ReplaceAll(Matcher(Scheme("vbscript:")),
              ReplaceAll(Matcher(Scheme("data:")), "java<b>script:" + tail))) == "java<b>script:" + tail
  {
    var x := "java<b>script:";
    assert forall i :: 0 <= i < 14 ==> AsciiLower(x[i]) != 'd' && AsciiLower(x[i]) != 'o';
    PassKeepsText(Scheme("data:"), x, tail);
    SplitTagVbscriptPass(tail);
    PassKeepsText(EventHandler, x, tail);
  }

  /** The tag pass removes a tag that stands between two runs of text without `<`. */
  lemma TagPassJoins(front: string, inner: string, back: string, tail: string)
    requires forall i :: 0 <= i < |front| ==> !CanStart(Tag, front[i])
    requires forall i :: 0 <= i < |back| ==> !CanStart(Tag, back[i])
    requires '>' !in inner && NoMatch(Matcher(Tag), tail)
    ensures ReplaceAll(Matcher(Tag), front + ("<" + inner + ">" + (back + tail))) == front + (back + tail)
  {
    var rest := back + tail;
    PatternKeepsPrefix(Tag, front, "<" + inner + ">" + rest);
    TagDropped(inner, rest);
    PassKeepsText(Tag, back, tail);
  }

  /** The tag pass removes a whole tag `<inner>` in front of the rest. */
  lemma TagDropped(inner: string, rest: string)
    requires '>' !in inner
    ensures ReplaceAll(Matcher(Tag), "<" + inner + ">" + rest) == ReplaceAll(Matcher(Tag), rest)
  {
    TagMatchesWhole(inner, rest);
    ReplaceAllDropsMatch(Matcher(Tag), "<" + inner + ">", rest);
  }

  /** The tag pass removes `<b>` from `java<b>script:`, joining `javascript:`. */
  lemma SplitTagTagPass(tail: string)
    requires NoMatch(Matcher(Tag), tail)
    ensures ReplaceAll(Matcher(Tag), "java<b>script:" + tail) == "javascript:" + tail
  {
    assert "java<b>script:" + tail == "java" + ("<" + "b" + ">" + ("script:" + tail));
    assert "javascript:" + tail == "java" + ("script:" + tail);
    TagPassJoins("java", "b", "script:", tail);
  }

  /**
   * A tag that splits a scheme name is removed after the scheme passes have
   * run, so the name comes out whole. Instance: `java<b>script:alert(1)`
   * gives `javascript:alert(1)` (tail `alert(1)`).
   */
  lemma TagSplitSchemeNameSurvives(tail: string)
    requires IsInertText(tail) && IsFinishedText("javascript:" + tail)
    ensures SanitizeUserInput(JStr("java<b>script:" + tail)) == "javascript:" + tail
    ensures MentionsScheme("javascript:" + tail, "javascript:")
  {
    var s := "java<b>script:" + tail;
    InertTextIsFreeOfMarkup(tail);
    SplitTagScriptPass(tail);
    SplitTagJavascriptPass(tail);
    SplitTagSchemePasses(tail);
    SplitTagTagPass(tail);
    StripMarkupPasses(s);
    TrimUnpadded("javascript:" + tail);
    SanitizeUserInputOfString(s);
    StartsWithJavascript(tail);
  }

  // ---------------------------------------------------------------------
  // What the replacements let through

  /** Text without `<` and without the letters j, d, v: no script element, scheme name or tag begins in it. */
  predicate IsOpenText(w: string) {
    forall i :: 0 <= i < |w| ==>
      w[i] != '<' && AsciiLower(w[i]) != 'j' && AsciiLower(w[i]) != 'd' && AsciiLower(w[i]) != 'v'
  }

  /** Every pass but the event-handler pass leaves such text alone. */
  lemma OpenTextPasses(w: string)
    requires IsOpenText(w)
    ensures ReplaceAll(Matcher(ScriptElement), w) == w
    ensures ReplaceAll(Matcher(Scheme("javascript:")), w) == w
    ensures ReplaceAll(Matcher(Scheme("data:")), w) == w
    ensures ReplaceAll(Matcher(Scheme("vbscript:")), w) == w
    ensures ReplaceAll(Matcher(Tag), w) == w
  {
    assert w + [] == w;
    PassKeepsText(ScriptElement, w, []);
    PassKeepsText(Scheme("javascript:"), w, []);
    PassKeepsText(Scheme("data:"), w, []);
    PassKeepsText(Scheme("vbscript:"), w, []);
    PassKeepsText(Tag, w, []);
  }

  /** Text in which no letter is an `o` in either case: no event-handler attribute begins in it. */
  predicate HasNoLetterO(w: string) {
    forall i :: 0 <= i < |w| ==> AsciiLower(w[i]) != 'o'
  }

  /** An `o` followed by something other than `n` begins no attribute, so the event-handler pass keeps it. */
  lemma HandlerKeepsLoneO(t: string)
    requires t != [] && AsciiLower(t[0]) != 'n'
    ensures ReplaceAll(Matcher(EventHandler), "o" + t) == "o" + ReplaceAll(Matcher(EventHandler), t)
  {
    assert ("o" + t)[1] == t[0];
    MismatchAt("o" + t, "on", 1);
    assert "o"[0..] + t == "o" + t;
    ReplaceAllKeepsPrefix(Matcher(EventHandler), "o", t);
  }

  /** The event-handler pass drops an attribute `on<name>=` at the front. */
  lemma HandlerDropped(name: string, rest: string)
    requires IsEventName(name)
    ensures ReplaceAll(Matcher(EventHandler), "on" + name + "=" + rest) == ReplaceAll(Matcher(EventHandler), rest)
  {
    EventHandlerMatchesWhole(name, rest);
    ReplaceAllDropsMatch(Matcher(EventHandler), "on" + name + "=", rest);
  }

  /** The event-handler pass leaves text without an `o` alone. */
  lemma HandlerKeepsText(w: string)
    requires HasNoLetterO(w)
    ensures ReplaceAll(Matcher(EventHandler), w) == w
  {
    assert w + [] == w;
    PassKeepsText(EventHandler, w, []);
  }

  // Proof helpers: `SecondHalfHasNoO`, `JoinAfterO` and `OJoinsSecondHalf`
  // state facts about literal pieces and their concatenation and model
  // nothing in the program; they keep `HandlerPassJoins` small enough for
  // the solver.

  /** `n<name>=` holds no `o` when the name holds none. */
  lemma SecondHalfHasNoO(name: string)
    requires HasNoLetterO(name)
    ensures HasNoLetterO("n" + name + "=")
  {
  }

  /**
   * The event-handler pass keeps the first `o` of `oon<name>=n<name>=`,
   * removes the attribute `on<name>=` after it and keeps the rest, which
   * joins that `o` into a new attribute.
   */
  lemma HandlerPassJoins(name: string)
    requires IsEventName(name) && HasNoLetterO(name)
    ensures ReplaceAll(Matcher(EventHandler), "o" + ("on" + name + "=") + ("n" + name + "=")) == "on" + name + "="
  {
    var first := "on" + name + "=";
    var second := "n" + name + "=";
    JoinAfterO(first, second);
    HandlerKeepsLoneO(first + second);
    HandlerDropped(name, second);
    SecondHalfHasNoO(name);
    HandlerKeepsText(second);
    OJoinsSecondHalf(name);
  }

  /** The text after the lone `o` begins with the `o` of the first attribute. */
  lemma JoinAfterO(first: string, second: string)
    requires first != [] && first[0] == 'o'
    ensures "o" + first + second == "o" + (first + second)
    ensures first + second != [] && AsciiLower((first + second)[0]) != 'n'
  {
  }

  /** The lone `o` and the second half spell the attribute again. */
  lemma OJoinsSecondHalf(name: string)
    ensures "o" + ("n" + name + "=") == "on" + name + "="
  {
  }

  /** Open text splits over concatenation. */
  lemma OpenTextConcat(a: string, b: string)
    requires IsOpenText(a) && IsOpenText(b)
    ensures IsOpenText(a + b)
  {
    assert forall i :: 0 <= i < |a| + |b| ==> (a + b)[i] == if i < |a| then a[i] else b[i - |a|];
  }

  /** `on<name>=` and `n<name>=` are open text when the name is inert. */
  lemma HandlerHalvesAreOpen(name: string)
    requires IsInertText(name)
    ensures IsOpenText("on" + name + "=") && IsOpenText("n" + name + "=")
  {
  }

  /** An attribute `on<name>=` is its own trim and is matched whole. */
  lemma AttributeIsWhole(name: string)
    requires IsEventName(name)
    ensures Trim("on" + name + "=") == "on" + name + "="
    ensures EventHandlerMatch("on" + name + "=") == Some(|name| + 3)
  {
    var a := "on" + name + "=";
    assert a[|a| - 1] == '=';
    TrimUnpadded(a);
    assert a + [] == a;
    EventHandlerMatchesWhole(name, []);
  }

  /**
   * The event-handler pattern is removed in one left-to-right scan, so an
   * attribute that the removal joins together comes out whole. Instance:
   * `oonx=nx=` gives `onx=` (name `x`), which still matches `on\w+\s*=`.
   */
  lemma HandlerNameSurvives(name: string)
    requires IsEventName(name) && IsInertText(name) && HasNoLetterO(name)
    requires |name| + 3 <= MaxInputLength
    ensures SanitizeUserInput(JStr("o" + ("on" + name + "=") + ("n" + name + "="))) == "on" + name + "="
    ensures EventHandlerMatch("on" + name + "=") == Some(|name| + 3)
  {
    var first := "on" + name + "=";
    var second := "n" + name + "=";
    var s := "o" + first + second;
    HandlerHalvesAreOpen(name);
    assert IsOpenText("o");
    OpenTextConcat("o", first);
    OpenTextConcat("o" + first, second);
    OpenTextPasses(s);
    HandlerPassJoins(name);
    OpenTextPasses(first);
    StripMarkupPasses(s);
    AttributeIsWhole(name);
    SanitizeUserInputOfString(s);
  }

  /** Neither the script pass nor the tag pass matches an opening `<script` that no `>` follows. */
  lemma ScriptOpenerUnmatched(tail: string)
    requires '>' !in tail
    ensures !MatchesAt(Matcher(ScriptElement), "<script" + tail)
    ensures !MatchesAt(Matcher(Tag), "<script" + tail)
  {
    var s := "<script" + tail;
    StartsWithPrefix("<script", tail);
    assert s[7..] == tail;
    assert IndexOf(tail, '>') == |tail|;
    assert s[1..] == "script" + tail;
    assert '>' !in "script" + tail;
    assert IndexOf(s[1..], '>') == |s| - 1;
  }

  /** Where in `<script` a match of each pattern can begin: only a script element or a tag, at its `<`. */
  lemma ScriptOpenerLetters()
    ensures forall i :: 0 <= i < 7 ==>
      && !CanStart(Scheme("javascript:"), "<script"[i]) && !CanStart(Scheme("data:"), "<script"[i])
      && !CanStart(Scheme("vbscript:"), "<script"[i]) && !CanStart(EventHandler, "<script"[i])
      && (i != 0 ==> !CanStart(ScriptElement, "<script"[i]) && !CanStart(Tag, "<script"[i]))
  {
  }

  /**
   * An opening `<script` with no `>` after it is not a tag to any of the
   * patterns, so it passes through. Instance: `<script` gives `<script`
   * (the empty tail).
   */
  lemma ScriptOpenerSurvives(tail: string)
    requires IsInertText(tail) && '>' !in tail && IsFinishedText("<script" + tail)
    ensures SanitizeUserInput(JStr("<script" + tail)) == "<script" + tail
  {
    var x := "<script";
    var s := x + tail;
    InertTextIsFreeOfMarkup(tail);
    ScriptOpenerUnmatched(tail);
    assert x[0..] + tail == s;
    ScriptOpenerLetters();
    PassKeepsTextButOne(ScriptElement, x, 0, tail);
    PassKeepsText(Scheme("javascript:"), x, tail);
    PassKeepsText(Scheme("data:"), x, tail);
    PassKeepsText(Scheme("vbscript:"), x, tail);
    PassKeepsText(EventHandler, x, tail);
    PassKeepsTextButOne(Tag, x, 0, tail);
    StripMarkupPasses(s);
    TrimUnpadded(s);
    SanitizeUserInputOfString(s);
  }
}
