/**
 * Restoring a backup file (`useRestoreData`): an input guard, then inside
 * one `try` the JSON parse, the schema check and the record sanitiser; the
 * result is the single restore message the extension sends to its
 * background script. Every failure inside the `try` reaches the caller as
 * one and the same error message.
 */
module RestoreData {
  import opened Wrappers
  import opened JsNumber
  import opened Js
  import opened Security

  /** The error thrown by the input guard, outside the `try`. */
  const EmptyInputError: string := "Invalid backup data: empty or invalid input"

  /** The error every failure inside the `try` is replaced by. */
  const CorruptedBackupError: string := "Invalid or corrupted backup file"

  /** The message `{message: Messages.Restore, data}` handed to `sendMessage`. */
  datatype RestoreMessage = RestoreMessage(message: string, data: seq<ActivityRecord>)

  /**
   * What went wrong inside the `try`: `JSON.parse` threw, the schema check
   * failed ("Invalid backup data structure"), or the sanitiser threw. Only
   * the console sees the distinction.
   */
  datatype RestoreFailure = MalformedJson | InvalidStructure | SanitizerThrew

  /** The body of the `try`: parse, check, sanitise, and build the message. */
  function RestoreSteps(host: Host, json: string): (r: Result<RestoreMessage, RestoreFailure>)
    ensures r == Err(MalformedJson) <==> host.parseJson(json).None?
    ensures r == Err(InvalidStructure)
            <==> host.parseJson(json).Some? && !IsValidBackupData(host.parseJson(json).value)
    ensures r.Ok? ==> && host.parseJson(json).Some?
                      && IsValidBackupData(host.parseJson(json).value)
                      && SanitizeBackupData(host, host.parseJson(json).value.elems) == Some(r.value.data)
                      && r.value.message == host.restoreTag
  {
    match host.parseJson(json)
    case None => Err(MalformedJson)
    case Some(data) =>
      if !IsValidBackupData(data) then Err(InvalidStructure)
      else
        match SanitizeBackupData(host, data.elems)
        case None => Err(SanitizerThrew)
        case Some(sanitized) => Ok(RestoreMessage(host.restoreTag, sanitized))
  }

  /**
   * `useRestoreData(json)`: the restore message, or the error the caller
   * sees. The guard rejects a falsy or non-string argument with its own
   * message; any failure after it is reported as a corrupted backup.
   */
  function UseRestoreData(host: Host, json: JValue): (r: Result<RestoreMessage, string>)
    ensures r == Err(EmptyInputError) <==> !(json.JStr? && json.s != "")
    ensures r.Err? ==> r.error == EmptyInputError || r.error == CorruptedBackupError
    ensures json.JStr? && json.s != "" ==> (r.Ok? <==> RestoreSteps(host, json.s).Ok?)
    ensures r.Ok? ==> json.JStr? && RestoreSteps(host, json.s) == Ok(r.value)
  {
    if !Truthy(json) || TypeOf(json) != "string" then Err(EmptyInputError)
    else
      match RestoreSteps(host, json.s)
      case Ok(message) => Ok(message)
      case Err(_) => Err(CorruptedBackupError)
  }

  /** Text that `JSON.parse` rejects is reported as a corrupted backup. */
  lemma MalformedJsonRejected(host: Host, json: string)
    requires json != "" && host.parseJson(json).None?
    ensures UseRestoreData(host, JStr(json)) == Err(CorruptedBackupError)
  {
  }

  /**
   * JSON that fails the schema check (for example an object that is not an
   * array, as in `{"not":"a list"}`) is reported with the same message: the
   * structure error is swallowed.
   */
  lemma InvalidStructureRejected(host: Host, json: string)
    requires json != "" && host.parseJson(json).Some? && !IsValidBackupData(host.parseJson(json).value)
    ensures UseRestoreData(host, JStr(json)) == Err(CorruptedBackupError)
  {
  }

  /**
   * Fail-closed: a restore message is produced exactly when the input is a
   * non-empty string that parses to a schema-valid array and every item of
   * it sanitises; the message carries the restore tag and the sanitised
   * records, all of which satisfy the record invariant.
   */
  lemma RestoreSucceeds(host: Host, json: JValue)
    ensures UseRestoreData(host, json).Ok?
            <==> (&& json.JStr? && json.s != ""
                  && host.parseJson(json.s).Some?
                  && IsValidBackupData(host.parseJson(json.s).value)
                  && forall i :: 0 <= i < |host.parseJson(json.s).value.elems|
                       ==> SanitizeItem(host, host.parseJson(json.s).value.elems[i]).Some?)
    ensures UseRestoreData(host, json).Ok? ==>
              && UseRestoreData(host, json).value.message == host.restoreTag
              && Some(UseRestoreData(host, json).value.data)
                 == SanitizeBackupData(host, host.parseJson(json.s).value.elems)
              && forall rec :: rec in UseRestoreData(host, json).value.data ==> IsSanitizedRecord(host, rec)
  {
    if UseRestoreData(host, json).Ok? {
      SanitizedRecordsAreSafe(host, host.parseJson(json.s).value.elems);
    }
  }

  /**
   * A schema-valid backup one of whose records lists `null` among its days
   * still fails, with the corrupted-backup message: `sanitizeDayData` reads
   * a property of `null` and throws inside the `try`.
   */
  lemma NullDayRejected(host: Host, json: string, i: nat, k: nat)
    requires json != "" && host.parseJson(json).Some?
    requires IsValidBackupData(host.parseJson(json).value)
    requires i < |host.parseJson(json).value.elems|
    requires var days := Get(host.parseJson(json).value.elems[i], "days");
             days.JArr? && k < |days.elems| && days.elems[k] == JNull
    ensures RestoreSteps(host, json) == Err(SanitizerThrew)
    ensures UseRestoreData(host, JStr(json)) == Err(CorruptedBackupError)
  {
    var items := host.parseJson(json).value.elems;
    assert SanitizeDayData(host, JNull).None?;
    assert SanitizeDays(host, Get(items[i], "days")).None?;
    assert SanitizeItem(host, items[i]).None?;
  }

  /**
   * A backup with a record whose `summaryTime` is negative is rejected by
   * the schema check, whatever its other fields hold: sanitising would
   * clamp the value to 0, but the sanitiser is never reached.
   */
  lemma NegativeSummaryTimeRejected(host: Host, json: string, i: nat, t: real)
    requires json != "" && host.parseJson(json).Some? && host.parseJson(json).value.JArr?
    requires i < |host.parseJson(json).value.elems|
    requires var item := host.parseJson(json).value.elems[i];
             !Nullish(item) && Get(item, "summaryTime") == JNum(Finite(t)) && t < 0.0
    ensures RestoreSteps(host, json) == Err(InvalidStructure)
    ensures UseRestoreData(host, JStr(json)) == Err(CorruptedBackupError)
  {
    assert !IsValidBackupItem(host.parseJson(json).value.elems[i]);
  }

  // ---------------------------------------------------------------------
  // The outgoing message as the receiving gate sees it
  // ---------------------------------------------------------------------

  /** A sanitised day as the plain object the message carries. */
  function DayValue(d: DayRecord): (v: JValue)
    ensures v.JObj? && Get(v, "date") == JStr(d.date)
    ensures Get(v, "summary") == JNum(d.summary) && Get(v, "counter") == JNum(d.counter)
  {
    JObj(map["date" := JStr(d.date), "summary" := JNum(d.summary), "counter" := JNum(d.counter)])
  }

  /** A sanitised record as the plain object the message carries. */
  function RecordValue(rec: ActivityRecord): (v: JValue)
    ensures v.JObj? && Get(v, "url") == JStr(rec.url) && Get(v, "favicon") == JStr(rec.favicon)
    ensures Get(v, "summaryTime") == JNum(rec.summaryTime) && Get(v, "counter") == JNum(rec.counter)
    ensures Get(v, "days").JArr? && |Get(v, "days").elems| == |rec.days|
    ensures forall k :: 0 <= k < |rec.days| ==> Get(v, "days").elems[k] == DayValue(rec.days[k])
  {
    JObj(map["url" := JStr(rec.url), "summaryTime" := JNum(rec.summaryTime), "counter" := JNum(rec.counter),
             "favicon" := JStr(rec.favicon),
             "days" := JArr(seq(|rec.days|, k requires 0 <= k < |rec.days| => DayValue(rec.days[k])))])
  }

  /** The restore message as the object literal passed to `sendMessage`. */
  function MessageValue(m: RestoreMessage): (v: JValue)
    ensures v.JObj? && Get(v, "message") == JStr(m.message) && Get(v, "type") == JUndef
    ensures Get(v, "data").JArr? && |Get(v, "data").elems| == |m.data|
    ensures forall i :: 0 <= i < |m.data| ==> Get(v, "data").elems[i] == RecordValue(m.data[i])
  {
    JObj(map["message" := JStr(m.message),
             "data" := JArr(seq(|m.data|, i requires 0 <= i < |m.data| => RecordValue(m.data[i])))])
  }

  /**
   * The message a successful restore sends passes the message gate exactly
   * when the restore tag is a non-empty string.
   */
  lemma RestoreMessagePassesGate(host: Host, json: JValue)
    requires UseRestoreData(host, json).Ok?
    ensures Truthy(IsValidMessage(MessageValue(UseRestoreData(host, json).value))) <==> host.restoreTag != ""
  {
    var v := MessageValue(UseRestoreData(host, json).value);
    assert Truthy(IsValidMessage(v)) <==> IsWellShapedMessage(v);
  }

  /** A count is left as it is by the numeric normalisation. */
  lemma CountIsNormal(host: Host, n: Num)
    requires IsCount(n)
    ensures SanitizeCount(host, JNum(n)) == Some(n)
  {
  }

  /** A sanitised day, sent as a plain object, sanitises to itself with its date scrubbed again. */
  lemma ResanitizeDay(host: Host, d: DayRecord)
    requires IsSanitizedDay(d)
    ensures SanitizeDayData(host, DayValue(d)) == Some(DayRecord(SanitizeUserInput(JStr(d.date)), d.summary, d.counter))
  {
    CountIsNormal(host, d.summary);
    CountIsNormal(host, d.counter);
  }

  /** A record with its url and the dates of its days passed through the text scrubber once more. */
  function Rescrubbed(rec: ActivityRecord): ActivityRecord {
    rec.(url := SanitizeUserInput(JStr(rec.url)),
         days := seq(|rec.days|, k requires 0 <= k < |rec.days| => rec.days[k].(date := SanitizeUserInput(JStr(rec.days[k].date)))))
  }

  /** The days of a sanitised record, sent and sanitised once more, come back with their dates scrubbed again. */
  lemma ResanitizeDays(host: Host, rec: ActivityRecord)
    requires forall k :: 0 <= k < |rec.days| ==> IsSanitizedDay(rec.days[k])
    ensures SanitizeDays(host, Get(RecordValue(rec), "days")) == Some(Rescrubbed(rec).days)
  {
    var days := Get(RecordValue(rec), "days");
    var want := Rescrubbed(rec).days;
    forall k | 0 <= k < |rec.days| ensures SanitizeDayData(host, days.elems[k]) == Some(want[k]) {
      ResanitizeDay(host, rec.days[k]);
    }
    SanitizeEachDay(host, days.elems, want);
  }

  /** An array whose every day sanitises to the matching entry of `want` sanitises to `want`. */
  lemma SanitizeEachDay(host: Host, elems: seq<JValue>, want: seq<DayRecord>)
    requires |elems| == |want|
    requires forall k :: 0 <= k < |elems| ==> SanitizeDayData(host, elems[k]) == Some(want[k])
    ensures SanitizeDays(host, JArr(elems)) == Some(want)
  {
    var r := SanitizeDays(host, JArr(elems));
    assert r.Some? && |r.value| == |want|;
    forall k | 0 <= k < |want| ensures r.value[k] == want[k] {
      assert SanitizeDayData(host, elems[k]) == Some(r.value[k]);
    }
    assert r.value == want;
  }

  /** The favicon of a sanitised record passes the favicon check unchanged. */
  lemma FaviconIsStable(host: Host, favicon: string)
    requires favicon == host.noFavicon || SafeHttpUrl(host, favicon)
    ensures SanitizeFaviconUrl(host, JStr(favicon)) == favicon
  {
  }

  /**
   * A sanitised record (every part of the record invariant but the scrubbed
   * url is needed), sent as a plain object and sanitised once more, as the
   * receiver of the restore message does, keeps its counts, favicon and
   * days; only its url and its dates go through the text scrubber again,
   * which need not leave them as they are.
   */
  lemma ResanitizeRecord(host: Host, rec: ActivityRecord)
    requires IsCount(rec.summaryTime) && IsCount(rec.counter)
    requires rec.favicon == host.noFavicon || SafeHttpUrl(host, rec.favicon)
    requires forall k :: 0 <= k < |rec.days| ==> IsSanitizedDay(rec.days[k])
    ensures SanitizeItem(host, RecordValue(rec)) == Some(Rescrubbed(rec))
  {
    var v := RecordValue(rec);
    CountIsNormal(host, rec.summaryTime);
    CountIsNormal(host, rec.counter);
    ResanitizeDays(host, rec);
    FaviconIsStable(host, rec.favicon);
    var r := SanitizeItem(host, v);
    assert r.Some?;
    assert Or(Get(v, "url"), JStr("")) == JStr(rec.url);
    assert r.value == Rescrubbed(rec);
  }
}
