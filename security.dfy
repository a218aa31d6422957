/**
 * The validation and sanitisation functions of src/utils/security.ts: URL
 * allow-listing, text scrubbing, the backup schema check, the normalisation
 * of backup records, and the shape check of runtime messages.
 */
module Security {
  import opened Wrappers
  import opened JsNumber
  import opened Js
  import opened JsString
  import opened Scrub

  // ---------------------------------------------------------------------
  // URL allow-listing
  // ---------------------------------------------------------------------

  /** The protocols a redirect target or a favicon may use. */
  const AllowedProtocols: set<string> := {"http:", "https:"}

  /** `p` occurs in the lower-cased form of `s`. */
  ghost predicate MentionsScheme(s: string, p: string) {
    Occurs(LowerCase(s), p)
  }

  /**
   * A URL that both layers of the favicon check accept: the URL parser
   * accepts it with an http or https protocol, and no dangerous scheme name
   * occurs anywhere in it, whatever the case of its letters.
   */
  ghost predicate SafeHttpUrl(host: Host, s: string) {
    && s != ""
    && host.parseUrl(s).Some?
    && host.parseUrl(s).value.protocol in AllowedProtocols
    && !MentionsScheme(s, "javascript:")
    && !MentionsScheme(s, "data:")
    && !MentionsScheme(s, "vbscript:")
  }

  lemma IncludesDangerousSchemes(s: string)
    ensures Includes(LowerCase(s), "javascript:") <==> MentionsScheme(s, "javascript:")
    ensures Includes(LowerCase(s), "data:") <==> MentionsScheme(s, "data:")
    ensures Includes(LowerCase(s), "vbscript:") <==> MentionsScheme(s, "vbscript:")
    ensures Includes(LowerCase(s), "file:") <==> MentionsScheme(s, "file:")
  {
    IncludesOccurs(LowerCase(s), "javascript:");
    IncludesOccurs(LowerCase(s), "data:");
    IncludesOccurs(LowerCase(s), "vbscript:");
    IncludesOccurs(LowerCase(s), "file:");
  }

  /**
   * `isValidRedirectUrl(url)`: a non-empty string that is a safe http(s)
   * URL and does not mention `file:` either. A URL that the parser rejects
   * (the constructor throws) is not valid.
   */
  function IsValidRedirectUrl(host: Host, url: JValue): (r: bool)
    ensures r <==> url.JStr? && SafeHttpUrl(host, url.s) && !MentionsScheme(url.s, "file:")
  {
    if !Truthy(url) || TypeOf(url) != "string" then false
    else
      match host.parseUrl(url.s)
      case None => false
      case Some(u) =>
        if u.protocol !in AllowedProtocols then false
        else
          var lower := LowerCase(url.s);
          IncludesDangerousSchemes(url.s);
          !(Includes(lower, "javascript:") || Includes(lower, "data:")
            || Includes(lower, "vbscript:") || Includes(lower, "file:"))
  }

  /**
   * `sanitizeFaviconUrl(favicon)`: the favicon itself when it is a safe
   * http(s) URL, and the `NO_FAVICON` placeholder for everything else:
   * null, undefined, the empty string, non-strings, strings the URL parser
   * rejects, other protocols, and strings that mention a dangerous scheme.
   */
  function SanitizeFaviconUrl(host: Host, favicon: JValue): (r: string)
    ensures r == host.noFavicon || (favicon.JStr? && r == favicon.s)
    ensures !favicon.JStr? || favicon.s == "" ==> r == host.noFavicon
    ensures favicon.JStr? && SafeHttpUrl(host, favicon.s) ==> r == favicon.s
    ensures r != host.noFavicon ==> favicon.JStr? && SafeHttpUrl(host, favicon.s)
  {
    if !Truthy(favicon) || TypeOf(favicon) != "string" then host.noFavicon
    else
      match host.parseUrl(favicon.s)
      case None => host.noFavicon
      case Some(u) =>
        if u.protocol !in AllowedProtocols then host.noFavicon
        else
          var lower := LowerCase(favicon.s);
          IncludesDangerousSchemes(favicon.s);
          if Includes(lower, "javascript:") || Includes(lower, "data:") || Includes(lower, "vbscript:")
          then host.noFavicon
          else favicon.s
  }

  /** Every URL accepted as a redirect target passes the favicon check unchanged. */
  lemma RedirectUrlIsSafeFavicon(host: Host, url: JValue)
    requires IsValidRedirectUrl(host, url)
    ensures SanitizeFaviconUrl(host, url) == url.s
  {
  }

  /** A URL that mentions `file:` in any letter case is never a valid redirect target. */
  lemma RedirectRejectsFileScheme(host: Host, url: string)
    requires MentionsScheme(url, "file:")
    ensures !IsValidRedirectUrl(host, JStr(url))
  {
  }

  /** The redirect check is the favicon check plus the `file:` exclusion. */
  lemma RedirectIsFaviconCheckWithoutFile(host: Host, url: string)
    requires url != host.noFavicon
    ensures IsValidRedirectUrl(host, JStr(url))
            <==> SanitizeFaviconUrl(host, JStr(url)) == url && !MentionsScheme(url, "file:")
  {
  }

  // ---------------------------------------------------------------------
  // Text scrubbing
  // ---------------------------------------------------------------------

  /** The length `sanitizeUserInput` truncates to. */
  const MaxInputLength: nat := 1000

  /**
   * The chain of six `replace` calls of `sanitizeUserInput`, in source
   * order: script elements, the three scheme names, event-handler
   * attributes, then every remaining tag.
   */
  function StripMarkup(s: string): (r: string)
    ensures |r| <= |s|
    ensures NoTagShape(r)
  {
    var noScripts := ReplaceAll(Matcher(ScriptElement), s);
    var noJavascript := ReplaceAll(Matcher(Scheme("javascript:")), noScripts);
    var noData := ReplaceAll(Matcher(Scheme("data:")), noJavascript);
    var noVbscript := ReplaceAll(Matcher(Scheme("vbscript:")), noData);
    var noHandlers := ReplaceAll(Matcher(EventHandler), noVbscript);
    ReplaceTagsLeavesNoTagShape(noHandlers);
    ReplaceAll(Matcher(Tag), noHandlers)
  }

  /** The six passes of `StripMarkup`, spelt out. */
  lemma StripMarkupPasses(s: string)
    ensures StripMarkup(s)
            == ReplaceAll(Matcher(Tag), ReplaceAll(Matcher(EventHandler), ReplaceAll(Matcher(Scheme("vbscript:")),
                 ReplaceAll(Matcher(Scheme("data:")), ReplaceAll(Matcher(Scheme("javascript:")),
                 ReplaceAll(Matcher(ScriptElement), s))))))
  {
  }

  /** Text with no leading white space, at most 1000 characters long, in which no `<` is followed by a `>`. */
  predicate IsScrubbedText(s: string) {
    |s| <= MaxInputLength && (s == [] || !IsWhiteSpace(s[0])) && NoTagShape(s)
  }

  /**
   * `sanitizeUserInput(input)`: the empty string for a non-string;
   * otherwise the markup-stripped text, trimmed, then cut to its first 1000
   * characters.
   */
  function SanitizeUserInput(input: JValue): (r: string)
    ensures !input.JStr? ==> r == ""
    ensures |r| <= MaxInputLength
    ensures r == [] || !IsWhiteSpace(r[0])
    ensures NoTagShape(r)
  {
    if TypeOf(input) != "string" then ""
    else
      var stripped := StripMarkup(input.s);
      var trimmed := Trim(stripped);
      NoTagShapeSlice(stripped, TrimmedFront(stripped), TrimmedFront(stripped) + |trimmed|);
      NoTagShapeSlice(trimmed, 0, |Prefix(trimmed, MaxInputLength)|);
      Prefix(trimmed, MaxInputLength)
  }

  /** The string case of `SanitizeUserInput`, spelt out. */
  lemma SanitizeUserInputOfString(s: string)
    ensures SanitizeUserInput(JStr(s)) == Prefix(Trim(StripMarkup(s)), MaxInputLength)
  {
    assert TypeOf(JStr(s)) == "string";
  }

  /** Text in which none of the six patterns matches anywhere. */
  predicate FreeOfMarkup(s: string) {
    && NoMatch(Matcher(ScriptElement), s)
    && NoMatch(Matcher(Scheme("javascript:")), s)
    && NoMatch(Matcher(Scheme("data:")), s)
    && NoMatch(Matcher(Scheme("vbscript:")), s)
    && NoMatch(Matcher(EventHandler), s)
    && NoMatch(Matcher(Tag), s)
  }

  /** Text free of every removed pattern comes through the replacements unchanged. */
  lemma StripMarkupClean(s: string)
    requires FreeOfMarkup(s)
    ensures StripMarkup(s) == s
  {
    ReplaceAllNoMatch(Matcher(ScriptElement), s);
    ReplaceAllNoMatch(Matcher(Scheme("javascript:")), s);
    ReplaceAllNoMatch(Matcher(Scheme("data:")), s);
    ReplaceAllNoMatch(Matcher(Scheme("vbscript:")), s);
    ReplaceAllNoMatch(Matcher(EventHandler), s);
    ReplaceAllNoMatch(Matcher(Tag), s);
  }

  /** Text free of every removed pattern is only trimmed and truncated. */
  lemma SanitizeCleanText(s: string)
    requires FreeOfMarkup(s)
    ensures SanitizeUserInput(JStr(s)) == Prefix(Trim(s), MaxInputLength)
  {
    SanitizeUserInputOfString(s);
    StripMarkupClean(s);
  }

  /**
   * Text in which no removed pattern can begin: no `<`, no `=`, and none of
   * the letters j, d, v in either case.
   */
  predicate IsInertText(w: string) {
    forall i :: 0 <= i < |w| ==>
      && w[i] != '<' && w[i] != '='
      && AsciiLower(w[i]) != 'j' && AsciiLower(w[i]) != 'd' && AsciiLower(w[i]) != 'v'
  }

  /** Inertness is a property of each character, so it splits over concatenation. */
  lemma InertTextConcat(a: string, b: string)
    ensures IsInertText(a + b) <==> IsInertText(a) && IsInertText(b)
  {
    assert forall i :: 0 <= i < |a| ==> (a + b)[i] == a[i];
    assert forall i :: 0 <= i < |b| ==> (a + b)[|a| + i] == b[i];
  }

  /** An event-handler match ends with `=`. */
  lemma EventHandlerNeedsEquals(s: string)
    ensures MatchesAt(Matcher(EventHandler), s) ==> '=' in s
  {
    if MatchesAt(Matcher(EventHandler), s) {
      var w := WordSpan(s[2..]);
      var e := 2 + w + SpaceSpan(s[2 + w..]);
      assert s[e] == '=';
    }
  }

  /** No pattern matches anywhere in inert text. */
  lemma InertTextIsFreeOfMarkup(w: string)
    requires IsInertText(w)
    ensures FreeOfMarkup(w)
  {
    forall i | 0 <= i < |w|
      ensures !MatchesAt(Matcher(ScriptElement), w[i..])
      ensures !MatchesAt(Matcher(Scheme("javascript:")), w[i..])
      ensures !MatchesAt(Matcher(Scheme("data:")), w[i..])
      ensures !MatchesAt(Matcher(Scheme("vbscript:")), w[i..])
      ensures !MatchesAt(Matcher(Tag), w[i..])
    {
      MatchStart(ScriptElement, w[i..]);
      MatchStart(Scheme("javascript:"), w[i..]);
      MatchStart(Scheme("data:"), w[i..]);
      MatchStart(Scheme("vbscript:"), w[i..]);
      MatchStart(Tag, w[i..]);
    }
    forall i | 0 <= i < |w| ensures !MatchesAt(Matcher(EventHandler), w[i..]) {
      EventHandlerNeedsEquals(w[i..]);
      assert forall k :: 0 <= k < |w[i..]| ==> w[i..][k] == w[i + k];
    }
  }

  // ---------------------------------------------------------------------
  // Backup schema
  // ---------------------------------------------------------------------

  /** The test `isValidBackupData` applies to each element, as written in JavaScript. */
  predicate IsValidBackupItem(item: JValue)
    ensures IsValidBackupItem(item) ==> item.JObj?
  {
    && TypeOf(item) == "object"
    && item != JNull
    && TypeOf(Get(item, "url")) == "string"
    && TypeOf(Get(item, "summaryTime")) == "number"
    && AtLeastZero(Get(item, "summaryTime").n)
  }

  /** `isValidBackupData(data)`: an array every element of which passes the item test. */
  predicate IsValidBackupData(data: JValue)
    ensures IsValidBackupData(data) ==> data.JArr? && forall i :: 0 <= i < |data.elems| ==> data.elems[i].JObj?
  {
    data.JArr? && forall i :: 0 <= i < |data.elems| ==> IsValidBackupItem(data.elems[i])
  }

  /**
   * The item test in structural terms: a plain object (an array is an object
   * to `typeof`, but has no `url`) with a string `url` and a numeric
   * `summaryTime` that is `>= 0`, which admits +Infinity and excludes NaN.
   */
  ghost predicate IsBackupRecordShape(item: JValue) {
    && item.JObj?
    && "url" in item.props && item.props["url"].JStr?
    && "summaryTime" in item.props && item.props["summaryTime"].JNum?
    && (item.props["summaryTime"].n == PosInf
        || (item.props["summaryTime"].n.Finite? && item.props["summaryTime"].n.r >= 0.0))
  }

  lemma ValidBackupItemShape(item: JValue)
    ensures IsValidBackupItem(item) <==> IsBackupRecordShape(item)
  {
  }

  /**
   * The schema check holds exactly for arrays of record-shaped objects; in
   * particular the empty array passes.
   */
  lemma ValidBackupDataShape(data: JValue)
    ensures IsValidBackupData(data)
            <==> data.JArr? && forall i :: 0 <= i < |data.elems| ==> IsBackupRecordShape(data.elems[i])
    ensures IsValidBackupData(JArr([]))
  {
    if data.JArr? {
      forall i | 0 <= i < |data.elems| ensures IsValidBackupItem(data.elems[i]) <==> IsBackupRecordShape(data.elems[i]) {
        ValidBackupItemShape(data.elems[i]);
      }
    }
  }

  // ---------------------------------------------------------------------
  // Record normalisation
  // ---------------------------------------------------------------------

  /** One day of a sanitised record: the object literal built by `sanitizeDayData`. */
  datatype DayRecord = DayRecord(date: string, summary: Num, counter: Num)

  /** A sanitised activity record: the object literal built by `sanitizeBackupData`. */
  datatype ActivityRecord = ActivityRecord(
    url: string, summaryTime: Num, counter: Num, favicon: string, days: seq<DayRecord>)

  /** A counter after normalisation: a non-negative integer, or +Infinity. */
  predicate IsCount(n: Num) {
    IsNonNegativeInteger(n) || n == PosInf
  }

  /** What every day leaving the sanitiser satisfies. */
  predicate IsSanitizedDay(d: DayRecord) {
    IsScrubbedText(d.date) && IsCount(d.summary) && IsCount(d.counter)
  }

  /** What every record leaving the sanitiser satisfies. */
  ghost predicate IsSanitizedRecord(host: Host, r: ActivityRecord) {
    && IsScrubbedText(r.url)
    && IsCount(r.summaryTime)
    && IsCount(r.counter)
    && (r.favicon == host.noFavicon || SafeHttpUrl(host, r.favicon))
    && forall i :: 0 <= i < |r.days| ==> IsSanitizedDay(r.days[i])
  }

  /**
   * `Math.max(0, Math.floor(Number(v) || 0))`: None when `Number(v)` throws,
   * otherwise a count; a missing field (undefined) reads as 0.
   */
  function SanitizeCount(host: Host, v: JValue): (r: Option<Num>)
    ensures r.None? <==> ToNumber(host, v).None?
    ensures r.Some? ==> IsCount(r.value) && r.value == ToNonNegativeInt(ToNumber(host, v).value)
    ensures v == JUndef ==> r == Some(Finite(0.0))
  {
    match ToNumber(host, v)
    case Some(n) => Some(ToNonNegativeInt(n))
    case None => None
  }

  /** `xs.map(f)` with a callback that may throw (None): the first throw ends the whole map. */
  function MapOrThrow<T, U>(f: T -> Option<U>, xs: seq<T>): (r: Option<seq<U>>)
    ensures r.Some? <==> forall i :: 0 <= i < |xs| ==> f(xs[i]).Some?
    ensures r.Some? ==> |r.value| == |xs| && forall i :: 0 <= i < |xs| ==> f(xs[i]) == Some(r.value[i])
  {
    if forall i :: 0 <= i < |xs| ==> f(xs[i]).Some?
    then Some(seq(|xs|, i requires 0 <= i < |xs| => f(xs[i]).value))
    else None
  }

  /**
   * `sanitizeDayData(day)`: None when it throws, which is when `day` is null
   * or undefined (reading `day.date` fails) or a counter cannot be converted
   * to a number.
   */
  function SanitizeDayData(host: Host, day: JValue): (r: Option<DayRecord>)
    ensures r.None? <==> (Nullish(day)
                          || SanitizeCount(host, Get(day, "summary")).None?
                          || SanitizeCount(host, Get(day, "counter")).None?)
    ensures r.Some? ==> IsSanitizedDay(r.value)
    ensures r.Some? ==> r.value.date == SanitizeUserInput(Or(Get(day, "date"), JStr("")))
    ensures r.Some? ==> Some(r.value.summary) == SanitizeCount(host, Get(day, "summary"))
    ensures r.Some? ==> Some(r.value.counter) == SanitizeCount(host, Get(day, "counter"))
  {
    if Nullish(day) then None
    else
      var date := SanitizeUserInput(Or(Get(day, "date"), JStr("")));
      match (SanitizeCount(host, Get(day, "summary")), SanitizeCount(host, Get(day, "counter")))
      case (Some(summary), Some(counter)) => Some(DayRecord(date, summary, counter))
      case _ => None
  }

  /** The `days` field of a sanitised record: each day sanitised if it is an array, otherwise nothing. */
  function SanitizeDays(host: Host, days: JValue): (r: Option<seq<DayRecord>>)
    ensures !days.JArr? ==> r == Some([])
    ensures days.JArr? ==> (r.Some? <==> forall i :: 0 <= i < |days.elems| ==> SanitizeDayData(host, days.elems[i]).Some?)
    ensures days.JArr? && r.Some? ==> |r.value| == |days.elems|
    ensures days.JArr? && r.Some? ==> forall i :: 0 <= i < |days.elems| ==> SanitizeDayData(host, days.elems[i]) == Some(r.value[i])
  {
    if days.JArr? then MapOrThrow((d: JValue) => SanitizeDayData(host, d), days.elems) else Some([])
  }

  /**
   * The callback of `sanitizeBackupData` applied to one item: None when it
   * throws, which is when the item is null or undefined, a counter cannot be
   * converted, or a day throws.
   */
  function SanitizeItem(host: Host, item: JValue): (r: Option<ActivityRecord>)
    ensures r.None? <==> (Nullish(item)
                          || SanitizeCount(host, Get(item, "summaryTime")).None?
                          || SanitizeCount(host, Get(item, "counter")).None?
                          || SanitizeDays(host, Get(item, "days")).None?)
    ensures r.Some? ==> r.value.url == SanitizeUserInput(Or(Get(item, "url"), JStr("")))
    ensures r.Some? ==> Some(r.value.summaryTime) == SanitizeCount(host, Get(item, "summaryTime"))
    ensures r.Some? ==> Some(r.value.counter) == SanitizeCount(host, Get(item, "counter"))
    ensures r.Some? ==> r.value.favicon == SanitizeFaviconUrl(host, Get(item, "favicon"))
    ensures r.Some? ==> Some(r.value.days) == SanitizeDays(host, Get(item, "days"))
  {
    if Nullish(item) then None
    else
      var url := SanitizeUserInput(Or(Get(item, "url"), JStr("")));
      var favicon := SanitizeFaviconUrl(host, Get(item, "favicon"));
      match (SanitizeCount(host, Get(item, "summaryTime")), SanitizeCount(host, Get(item, "counter")),
             SanitizeDays(host, Get(item, "days")))
      case (Some(summaryTime), Some(counter), Some(days)) =>
        Some(ActivityRecord(url, summaryTime, counter, favicon, days))
      case _ => None
  }

  /**
   * `sanitizeBackupData(data)` for an array `data`: one record per item, in
   * order, or None when the callback throws for some item.
   */
  function SanitizeBackupData(host: Host, data: seq<JValue>): (r: Option<seq<ActivityRecord>>)
    ensures r.Some? <==> forall i :: 0 <= i < |data| ==> SanitizeItem(host, data[i]).Some?
    ensures r.Some? ==> |r.value| == |data|
    ensures r.Some? ==> forall i :: 0 <= i < |data| ==> SanitizeItem(host, data[i]) == Some(r.value[i])
  {
    MapOrThrow((item: JValue) => SanitizeItem(host, item), data)
  }

  /** Every record that the sanitiser returns satisfies the record invariant. */
  lemma SanitizedRecordsAreSafe(host: Host, data: seq<JValue>)
    requires SanitizeBackupData(host, data).Some?
    ensures forall r :: r in SanitizeBackupData(host, data).value ==> IsSanitizedRecord(host, r)
  {
    var rs := SanitizeBackupData(host, data).value;
    forall r | r in rs ensures IsSanitizedRecord(host, r) {
      var i :| 0 <= i < |rs| && rs[i] == r;
      var item := data[i];
      var days := Get(item, "days");
      if days.JArr? {
        forall k | 0 <= k < |r.days| ensures IsSanitizedDay(r.days[k]) {
          assert SanitizeDayData(host, days.elems[k]) == Some(r.days[k]);
        }
      }
    }
  }

  /**
   * A schema-valid item sanitises to a record whose `summaryTime` is the
   * floor of the one it had, and whose url is the scrubbed url.
   */
  lemma ValidItemKeepsSummaryTime(host: Host, item: JValue, r: ActivityRecord)
    requires IsValidBackupItem(item)
    requires SanitizeItem(host, item) == Some(r)
    ensures var t := item.props["summaryTime"].n;
            r.summaryTime == (if t == PosInf then PosInf else Finite(t.r.Floor as real))
    ensures r.url == SanitizeUserInput(item.props["url"])
  {
    ValidBackupItemShape(item);
  }

  /**
   * The sanitiser throws on a schema-valid item exactly when its `counter`
   * is an object with an own `toString` (or an array the host cannot
   * convert), or one of its days throws.
   */
  lemma ValidItemThrows(host: Host, item: JValue)
    requires IsValidBackupItem(item)
    ensures SanitizeItem(host, item).None?
            <==> ToNumber(host, Get(item, "counter")).None? || SanitizeDays(host, Get(item, "days")).None?
  {
    ValidBackupItemShape(item);
  }

  // ---------------------------------------------------------------------
  // Message shape
  // ---------------------------------------------------------------------

  /**
   * `isValidMessage(message)`, which returns a JavaScript value rather than a
   * boolean: `message` itself when it is falsy, `true` for a (non-empty)
   * string, `false` for any other non-object, and `message.type ||
   * message.message` for an object. The verdict is truthy exactly for the
   * well-shaped messages: null, undefined, booleans, numbers, the empty
   * string, arrays and objects without a truthy tag are all turned away.
   */
  function IsValidMessage(message: JValue): (r: JValue)
    ensures Truthy(r) <==> IsWellShapedMessage(message)
    ensures !Truthy(message) ==> r == message
    ensures message.JObj? ==> r == Get(message, "type") || r == Get(message, "message")
  {
    if !Truthy(message) then message
    else if TypeOf(message) == "string" then JBool(true)
    else if TypeOf(message) == "object" then Or(Get(message, "type"), Get(message, "message"))
    else JBool(false)
  }

  /**
   * The two message shapes the gate lets through: a bare command (a
   * non-empty string), or an object that carries a truthy `type` or
   * `message` tag.
   */
  predicate IsWellShapedMessage(message: JValue) {
    || (message.JStr? && message.s != "")
    || (message.JObj? && (Truthy(Get(message, "type")) || Truthy(Get(message, "message"))))
  }
}
