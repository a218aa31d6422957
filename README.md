# Input validation and sanitisation of a time-tracking browser extension

This project models the security layer of a browser extension that records
the time spent on web sites and can block a site once a limit is reached:

- `src/utils/security.ts` decides which URLs may be used as redirect
  targets or favicons. It scrubs free text of markup. It checks the shape
  of a backup file and normalises its records. It screens runtime messages.
- `src/functions/useRestoreData.ts` restores a backup file. It checks the
  input, parses the JSON, checks the schema and sanitises the records. It
  then hands one restore message to the background script; every failure
  after the input check is reported with one error message.
- `src/utils/block-page.ts` writes the query string of the block page,
  reads it back from the page's URL, and passes the favicon through the
  favicon check again.

All three files are pure code, so the model is made of datatypes, functions
and lemmas.

- JavaScript values are a datatype `Js.JValue`. `typeof`, truthiness, `||`,
  property access and `Number(v)` are written out in `Js`. A property read
  on `null` or `undefined` throws; the sanitisers model that throw as `None`.
- Numbers (`JsNumber.Num`) are a real value or one of NaN, +Infinity and
  -Infinity. `Number(s)` and Number::toString are exact for decimal
  integers of magnitude at most 2^53. Other strings and numbers go through
  conversions supplied by the host.
- The `replace` calls of `sanitizeUserInput` are each a left-to-right scan
  (`Scrub.ReplaceAll`) that uses a matcher per regular expression. A matcher
  finds the same match as the JavaScript engine: case folding is ASCII-only,
  `\w` is `[A-Za-z0-9_]`, `.` stops at line terminators and `.*?` is lazy.
- What the code calls but does not define is a field of `Js.Host`:
  - the WHATWG URL parser;
  - `JSON.parse`;
  - the conversions between numbers and strings that the model does not
    spell itself;
  - `Array.prototype.toString`;
  - the `NO_FAVICON` placeholder;
  - the restore command tag.

  Every property proved holds for every host.

Where the code and the repository's design document disagree, the model
follows the code. The lemmas named below prove each disagreement:
- The design document says the text sanitiser removes every `javascript:`,
  `data:` and `vbscript:` fragment. The code does not: removing one
  occurrence, or removing a tag, can join the text around it into a new
  `javascript:`. `SecurityExamples.NestedSchemeNameSurvives` proves this
  for `javajavascript:script:…`, and
  `SecurityExamples.TagSplitSchemeNameSurvives` proves it for
  `java<b>script:…`.
- The design document says the text sanitiser strips script tags and event
  handlers. Each `replace` is one left-to-right scan, so removing one
  attribute can join the text around it into another:
  `SecurityExamples.HandlerNameSurvives` proves that `oonx=nx=` comes out
  as `onx=`. A `<script` that no `>` follows matches neither the script
  pattern nor the tag pattern and passes through
  (`SecurityExamples.ScriptOpenerSurvives`).
- The design document says sanitising twice equals sanitising once. For
  text it does not: `SecurityExamples.SanitizeIsNotIdempotent`. The
  numeric normalisation is idempotent (`JsNumber.ToNonNegativeIntIdempotent`).
  A record sanitised again keeps its counts, its favicon and the counts of
  its days; its url and each day's date are scrubbed again and can change
  (`RestoreData.ResanitizeRecord`).
- The design document says the sanitisers are total. `sanitizeDayData`
  throws on a `null` day, and the restore then fails
  (`RestoreData.NullDayRejected`). `Number(v)` throws on an object with an
  own `toString` (`Security.ValidItemThrows`).
- The design document's end-to-end example has a record with
  `"summaryTime": -5` and expects it to be clamped to 0. The code rejects
  the whole backup at the schema check before it sanitises anything
  (`RestoreData.NegativeSummaryTimeRejected`).
- The design document says the message gate returns a boolean.
  `isValidMessage` returns a JavaScript value whose truthiness is the
  verdict. `Security.IsValidMessage` returns that value and characterises
  when it is truthy.

## Model

| member | source | states |
|---|---|---|
| `Security.IncludesDangerousSchemes` | src/utils/security.ts:25-31 | the `includes` scans of the lower-cased URL find each scheme name exactly when it occurs somewhere in it, in any letter case |
| `Security.IsValidRedirectUrl` | src/utils/security.ts:11-39 | true exactly for a string that the URL parser accepts, whose protocol is `http:` or `https:` and that mentions none of `javascript:`, `data:`, `vbscript:`, `file:` in any case; false for non-strings, the empty string and unparsable input |
| `Security.SanitizeFaviconUrl` | src/utils/security.ts:45-73 | the result is the placeholder or the input itself; non-strings and the empty string give the placeholder; the input comes back exactly when it is a parsable http(s) URL that mentions no dangerous scheme |
| `Security.RedirectUrlIsSafeFavicon` | src/utils/security.ts:11-73 | every valid redirect target passes the favicon check unchanged |
| `Security.RedirectRejectsFileScheme` | src/utils/security.ts:26-33 | a URL that mentions `file:` in any case is never a valid redirect target |
| `Security.RedirectIsFaviconCheckWithoutFile` | src/utils/security.ts:11-73 | for any URL other than the placeholder, the redirect check holds exactly when the favicon check keeps the URL and the URL does not mention `file:` |
| `SecurityExamples.DangerousSchemeRefused` | src/utils/security.ts:58-66 | a string beginning with `javascript:`, `data:` or `vbscript:` is refused by both URL checks whatever the parser says |
| `Security.StripMarkup` | src/utils/security.ts:84-90 | the six replacements never lengthen the text and leave no `<` that is followed later by a `>` |
| `Security.SanitizeUserInput` | src/utils/security.ts:78-93 | a non-string gives `""`; a result is at most 1000 characters long, does not begin with white space, and has no `<` followed by a `>` |
| `Security.StripMarkupClean` | src/utils/security.ts:84-90 | text in which none of the six patterns matches is left unchanged by the replacements |
| `Security.SanitizeCleanText` | src/utils/security.ts:84-92 | such text is only trimmed and cut to 1000 characters |
| `Security.EventHandlerNeedsEquals` | src/utils/security.ts:89 | a match of `on\w+\s*=` contains `=` |
| `Security.InertTextIsFreeOfMarkup` | src/utils/security.ts:85-90 | text without `<`, `=` and the letters j, d, v holds no match of any of the six patterns |
| `Security.IsValidBackupItem` | src/utils/security.ts:103-111 | an element that passes the item test is a plain object (null and arrays fail it) |
| `Security.IsValidBackupData` | src/utils/security.ts:98-112 | data that passes the schema check is an array of plain objects |
| `Security.ValidBackupItemShape` | src/utils/security.ts:103-111 | the item test holds exactly for a plain object with a string `url` and a numeric `summaryTime` that is at least 0 or +Infinity (NaN fails) |
| `Security.ValidBackupDataShape` | src/utils/security.ts:98-112 | the schema check holds exactly for arrays whose every element passes the item test; the empty array passes |
| `Security.SanitizeCount` | src/utils/security.ts:120-121 | throws exactly when `Number(v)` throws; otherwise a non-negative integer or +Infinity, and a missing field gives 0 |
| `Security.MapOrThrow` | src/utils/security.ts:118 | `map` with a callback that may throw: a result exists exactly when no call throws, and it holds one result per element, in order |
| `Security.SanitizeDayData` | src/utils/security.ts:130-136 | throws exactly on a null or undefined day or an unconvertible counter; otherwise the date is the scrubbed `date \|\| ''`, both counts are normalised, and the day satisfies the day invariant |
| `Security.SanitizeDays` | src/utils/security.ts:123 | a non-array gives no days; an array gives one sanitised day per element, or throws when some day throws |
| `Security.SanitizeItem` | src/utils/security.ts:118-124 | throws exactly on a null or undefined item, an unconvertible count or a throwing day; otherwise each field is the sanitised field of the item |
| `Security.SanitizeBackupData` | src/utils/security.ts:117-125 | one record per item, in order, each the sanitised item; throws exactly when some item throws |
| `Security.SanitizedRecordsAreSafe` | src/utils/security.ts:117-136 | every record produced has scrubbed text, normalised counts, a safe favicon or the placeholder, and days that satisfy the day invariant |
| `Security.ValidItemKeepsSummaryTime` | src/utils/security.ts:98-125 | a schema-valid item keeps the floor of its `summaryTime` (or +Infinity) and its scrubbed url |
| `Security.ValidItemThrows` | src/utils/security.ts:117-136 | on a schema-valid item the sanitiser throws exactly when its counter cannot be converted or a day throws |
| `Security.IsValidMessage` | src/utils/security.ts:141-147 | the verdict is truthy exactly for a non-empty string or an object with a truthy `type` or `message`, so null, undefined, booleans, numbers, arrays and tagless objects are turned away; a falsy message is returned as it is, and for an object the verdict is its `type` or its `message` field |
| `JsNumber.Floor` | src/utils/security.ts:120 | `Math.floor`: the greatest integer not above a finite number; non-finite values are kept |
| `JsNumber.MaxZero` | src/utils/security.ts:120 | `Math.max(0, n)`: NaN stays NaN, anything else is at least 0, a value at least 0 is kept and a smaller one becomes 0 |
| `JsNumber.OrZero` | src/utils/security.ts:120 | `n \|\| 0` is never NaN, is `n` or 0, and is truthy exactly when `n` is, so falsy numbers become 0 and the others are kept |
| `JsNumber.ToNonNegativeInt` | src/utils/security.ts:120-121 | the normalisation gives a non-negative integer or +Infinity (only from +Infinity); a non-negative number gives its floor; NaN, -Infinity and negative numbers give 0 |
| `JsNumber.ToNonNegativeIntIdempotent` | src/utils/security.ts:133-134 | normalising a normalised count changes nothing |
| `JsNumber.NumberToString` | src/utils/block-page.ts:18 | an integer of magnitude at most 2^53 is spelt as a decimal integer literal with that value |
| `JsNumber.IntToDecimalRoundTrip` | src/utils/block-page.ts:18 | the decimal spelling of every integer reads back as that integer |
| `JsNumber.IntegerStringRoundTrip` | src/utils/block-page.ts:18-31 | `Number(String(k))` is `k` for every integer of magnitude at most 2^53, whatever the host conversions are |
| `Js.Or` | src/utils/security.ts:119 | `a \|\| b` is truthy exactly when one operand is, and is one of the two operands |
| `Js.ToNumber` | src/utils/security.ts:120 | `Number(v)`: undefined gives NaN, null gives 0, a number is kept, only objects and arrays can throw, and an object throws exactly when it has an own `toString` |
| `Js.TypeOf` | src/utils/security.ts:105-108 | `typeof` gives one of the five type names; it is `"object"` exactly for null, arrays and objects, and `"undefined"` only for undefined |
| `Js.Truthy` | src/utils/security.ts:143-145 | null and undefined are falsy, arrays and objects are truthy, and a string is truthy exactly when it is non-empty |
| `Js.Get` | src/utils/security.ts:107-109 | a property read gives the object's own property, and `undefined` when there is none or the value is not an object |
| `JsString.LowerCase` | src/utils/security.ts:25 | `toLowerCase` keeps the length, lower-cases each character, and leaves no upper-case ASCII letter |
| `JsString.LowerCaseIdempotent` | src/utils/security.ts:25 | lower-casing already lower-cased text changes nothing |
| `JsString.Includes` | src/utils/security.ts:27-30 | `includes` is true for the empty pattern and false for a pattern longer than the text |
| `JsString.IncludesOccurs` | src/utils/security.ts:27-30 | `includes` is true exactly when the pattern occurs at some index |
| `JsString.Trim` | src/utils/security.ts:91 | `trim` gives a slice of the input that neither begins nor ends with white space, beyond which there is only white space |
| `JsString.TrimUnpadded` | src/utils/security.ts:91 | a string without surrounding white space is its own trim |
| `JsString.Prefix` | src/utils/security.ts:92 | `substring(0, n)` is the first n characters, or the whole string when it is shorter |
| `Scrub.ReplaceAll` | src/utils/security.ts:84-90 | a replacement with `''` never lengthens the text |
| `Scrub.ReplaceAllKeepsCharacters` | src/utils/security.ts:84-90 | a replacement with `''` introduces no character |
| `Scrub.ReplaceAllUnchanged` | src/utils/security.ts:84-90 | a replacement changes the text exactly when the pattern matches somewhere in it |
| `Scrub.ReplaceAllKeepsPrefix` | src/utils/security.ts:84-90 | a prefix in which no match begins is kept as it is |
| `Scrub.ReplaceAllDropsMatch` | src/utils/security.ts:84-90 | a match at the front is removed and the scan resumes right after it |
| `Scrub.CloseScriptFrom` | src/utils/security.ts:85 | a match of the lazy tail ends at least one whole closer after its start and within the text |
| `Scrub.ScriptElementMatch` | src/utils/security.ts:85 | a match of `<script[^>]*>.*?<\/script>` is non-empty and lies within the text |
| `Scrub.SchemeMatch` | src/utils/security.ts:86-88 | a match of a scheme name is non-empty and lies within the text |
| `Scrub.EventHandlerMatch` | src/utils/security.ts:89 | a match of `on\w+\s*=` is non-empty and lies within the text |
| `Scrub.TagMatch` | src/utils/security.ts:90 | a match of `<[^>]*>` is non-empty and lies within the text |
| `Scrub.MatchLength` | src/utils/security.ts:85-90 | a match of any of the six patterns is non-empty and lies within the text, so every scan makes progress |
| `Scrub.CloseScriptIsLazy` | src/utils/security.ts:85 | `.*?<\/script>` ends at the first closer, with no line terminator and no other closer before it |
| `Scrub.CloseScriptFailsOnlyAtLineBreak` | src/utils/security.ts:85 | when no script element matches, every later closer comes after a line terminator |
| `Scrub.ScriptElementMatchesAt` | src/utils/security.ts:85 | an opening `<script…>` and a one-line body without `<` match up to and including the closer |
| `Scrub.EventHandlerMatchesWhole` | src/utils/security.ts:89 | `on<word>=` is matched whole |
| `Scrub.TagMatchesWhole` | src/utils/security.ts:90 | `<…>` is matched up to the first `>` |
| `Scrub.NoTagShapeIsNoMatch` | src/utils/security.ts:90 | the tag pattern matches nowhere exactly when no `<` is followed later by a `>` |
| `Scrub.ReplaceTagsLeavesNoTagShape` | src/utils/security.ts:90 | after the tag pass no `<` is followed later by a `>` |
| `SecurityExamples.InertAfterScripts` | src/utils/security.ts:86-90 | inert text goes through the last five replacements unchanged |
| `SecurityExamples.ScriptElementRemoved` | src/utils/security.ts:85 | a script element in front of inert text is removed with its body (`<script>alert(1)</script>hello` gives `hello`) |
| `SecurityExamples.EventHandlerTagRemoved` | src/utils/security.ts:89-90 | a tag with an event-handler attribute disappears entirely (`<img onerror=alert(1)>` gives `""`) |
| `SecurityExamples.JavascriptPrefixRemoved` | src/utils/security.ts:86 | a leading `javascript:` is removed |
| `SecurityExamples.NestedSchemeNameSurvives` | src/utils/security.ts:86 | `javajavascript:script:` followed by inert text comes out as `javascript:` followed by that text |
| `SecurityExamples.TagSplitSchemeNameSurvives` | src/utils/security.ts:86-90 | `java<b>script:` followed by inert text comes out as `javascript:` followed by that text |
| `SecurityExamples.SanitizeIsNotIdempotent` | src/utils/security.ts:84-92 | sanitising the output of the nested example again changes it |
| `SecurityExamples.HandlerNameSurvives` | src/utils/security.ts:89 | `o` + `on<name>=` + `n<name>=` comes out as `on<name>=`, a whole event-handler attribute (`oonx=nx=` gives `onx=`) |
| `SecurityExamples.ScriptOpenerSurvives` | src/utils/security.ts:85-90 | an opening `<script` with no `>` after it passes through unchanged (`<script` gives `<script`) |
| `RestoreData.RestoreSteps` | src/functions/useRestoreData.ts:10-25 | the try body fails at the parse exactly when `JSON.parse` throws, fails at the schema exactly when the parsed value is not a valid backup, and otherwise carries the restore tag and the sanitised records |
| `RestoreData.UseRestoreData` | src/functions/useRestoreData.ts:5-30 | the guard error is raised exactly for a falsy or non-string input; the only errors are the two messages; past the guard, a message is sent exactly when the try body succeeds |
| `RestoreData.MalformedJsonRejected` | src/functions/useRestoreData.ts:12-28 | text `JSON.parse` rejects gives the corrupted-backup error |
| `RestoreData.InvalidStructureRejected` | src/functions/useRestoreData.ts:15-28 | a parsed value that fails the schema check gives the corrupted-backup error, not its own message |
| `RestoreData.RestoreSucceeds` | src/functions/useRestoreData.ts:5-30 | a restore succeeds exactly when the input is a non-empty string, parses, passes the schema and every item sanitises; the message carries the restore tag and records that satisfy the record invariant |
| `RestoreData.NullDayRejected` | src/functions/useRestoreData.ts:20-28 | a schema-valid backup with a `null` day fails inside the try and gives the corrupted-backup error |
| `RestoreData.NegativeSummaryTimeRejected` | src/functions/useRestoreData.ts:15-17 | a record with a negative `summaryTime` makes the whole backup fail the schema check |
| `RestoreData.MessageValue` | src/functions/useRestoreData.ts:22-25 | the restore message as an object: `message` is the tag, there is no `type`, and `data` holds the records as objects |
| `RestoreData.DayValue` | src/functions/useRestoreData.ts:22-25 | a sanitised day as the object the message carries: its `date`, `summary` and `counter` read back as the day's fields |
| `RestoreData.RecordValue` | src/functions/useRestoreData.ts:22-25 | a sanitised record as an object: each field reads back as the record's field, and `days` holds one object per day, in order |
| `RestoreData.RestoreMessagePassesGate` | src/functions/useRestoreData.ts:22-25 | the message a restore sends passes the message gate exactly when the restore tag is non-empty |
| `RestoreData.CountIsNormal` | src/utils/security.ts:120-121 | a normalised count sanitises to itself |
| `RestoreData.FaviconIsStable` | src/utils/security.ts:45-73 | a safe favicon or the placeholder passes the favicon check unchanged |
| `RestoreData.ResanitizeDay` | src/utils/security.ts:130-136 | a sanitised day, sent as an object, sanitises again to itself with its date scrubbed once more |
| `RestoreData.ResanitizeRecord` | src/utils/security.ts:117-125 | a sanitised record, sent as an object and sanitised again, keeps its counts, its favicon, its number of days and each day's counts; its url and each day's date are scrubbed again and can change |
| `BlockPage.ParamOfKey` | src/utils/block-page.ts:3-9 | a name found among the parameters is that parameter's query name |
| `BlockPage.BlockParam.Key` | src/utils/block-page.ts:3-9 | every query name is non-empty and holds no character that form decoding treats specially |
| `BlockPage.KeysIdentifyParams` | src/utils/block-page.ts:3-9 | each parameter is identified by its query name, and `LimitTime` travels as `summaryTime` |
| `BlockPage.BuildBlockQuery` | src/utils/block-page.ts:11-19 | the query is non-empty and begins with `?` |
| `BlockPage.BlockQueryDecodes` | src/utils/block-page.ts:18 | for plain values and safe integers, the query without its `?` decodes to the five name/value pairs in order |
| `BlockPage.SearchGet` | src/utils/block-page.ts:23-31 | `searchParams.get` is null exactly when no pair has the name, and otherwise the value of the first pair that has it |
| `BlockPage.SearchGetAt` | src/utils/block-page.ts:23-25 | the first pair with a name is the one `get` reads |
| `BlockPage.GetValueFromQuery` | src/utils/block-page.ts:21-40 | fails exactly when the URL does not parse; domain and url are read as they are, the favicon goes through the favicon check, and each number is `Number` of its parameter (0 when absent) |
| `BlockPage.BlockPageFaviconIsSafe` | src/utils/block-page.ts:25-28 | the favicon the block page uses is the placeholder or a safe http(s) URL, and the placeholder when the parameter is absent |
| `BlockPage.BlockQueryRoundTrip` | src/utils/block-page.ts:11-40 | reading back a query written by `buildBlockQuery` recovers the domain, the url and both integer numbers, and gives the favicon through the favicon check |

## Left out

- `new URL`, `JSON.parse`, `Array.prototype.toString` and the number conversions are host parameters and are not defined. `Number(s)` is modelled only for decimal integer strings of magnitude at most 2^53, and Number::toString only for integers in that range. Other strings and numbers go to the host.
- `Browser.runtime.sendMessage` and `console.error` are I/O. The model returns the message that would be sent. It does not model a `sendMessage` that rejects; the code would report that as a corrupted backup too. The `async` scheduling is not modelled.
- The `NO_FAVICON` constant and `Messages.Restore` are defined outside the core. They are the host fields `noFavicon` and `restoreTag`.
- Doubles are modelled as exact reals. Rounding to 53 bits is not modelled, and neither is the difference between +0 and -0. After `Math.max(0, _)` no -0 remains.
- Strings are sequences of characters, and `substring(0, 1000)` counts characters, not UTF-16 code units.
- `toLowerCase` lower-cases ASCII letters only. No other character lowers to a letter that could complete one of the scheme names searched for, so the `includes` tests give the same answers.
- `SecurityExamples.ScriptElementRemoved`, `SecurityExamples.EventHandlerTagRemoved`, `SecurityExamples.NestedSchemeNameSurvives`, `SecurityExamples.TagSplitSchemeNameSurvives`, `SecurityExamples.SanitizeIsNotIdempotent`, `SecurityExamples.HandlerNameSurvives` and `SecurityExamples.ScriptOpenerSurvives` are stated for a family of inputs (a symbolic body, name, value or tail). The concrete strings in the table are instances of those families.
- BlockPage.BlockQueryRoundTrip: holds only for values with no `&`, `=`, `#`, `%`, `+` or white space, and for integer numbers of magnitude at most 2^53. It takes as a hypothesis that the host's URL parser splits the query as form decoding does; that parser is not modelled.
- BlockPage.BuildBlockQuery: its own contract states only the leading `?`. The layout of the query is stated by `BlockPage.BlockQueryDecodes` and `BlockPage.BlockQueryRoundTrip`.
- RestoreData.ResanitizeRecord: requires only the parts of the record invariant that it uses, and does not claim that the url and the dates come back unchanged, because scrubbing is not idempotent.
- Security.SanitizeUserInput: its contract states the safety properties of the result (length, no leading white space, no `<` followed by a `>`). It does not state that the three scheme names, the event-handler attributes or the script openers are gone, because the code does not guarantee that (see `SecurityExamples.NestedSchemeNameSurvives`, `SecurityExamples.HandlerNameSurvives` and `SecurityExamples.ScriptOpenerSurvives`).
- The doc comment of `isValidRedirectUrl` mentions an optional whitelist of hosts. The code has no whitelist, so the model has none either.
- The background script's dispatch of the restore message and its storage of the records are not part of this model. Its message gate and its second sanitising pass are the `isValidMessage` and `sanitizeBackupData` of this model (`RestoreData.RestoreMessagePassesGate`, `RestoreData.ResanitizeRecord`).
- RestoreData.ResanitizeRecord: assumes the message reaches the background script as a structured clone, which keeps +Infinity. If the transport serialised the message as JSON instead, +Infinity would arrive as `null` and would sanitise to 0.
