/**
 * The query string of the block page: `buildBlockQuery` writes the five
 * parameters the page needs, and `getValueFromQuery` reads them back from
 * the page's URL, passing the favicon through the favicon check again.
 *
 * URL parsing belongs to the host (`Host.parseUrl`). For the round trip the
 * model spells out how the query of a URL is split into name/value pairs
 * when it holds no character that form decoding or URL parsing treats
 * specially, and takes as a hypothesis that the host's parser gives those
 * pairs.
 */
module BlockPage {
  import opened Wrappers
  import opened JsNumber
  import opened Js
  import opened JsString
  import opened Security

  /** The parameters of the block page (`BlockParams`). */
  datatype BlockParam = Domain | SourceUrl | LimitTime | SummaryCounter | Favicon {
    /** The name under which the parameter appears in the query. */
    function Key(): (r: string)
      ensures r != [] && IsPlainValue(r)
    {
      match this
      case Domain => "domain"
      case SourceUrl => "url"
      case LimitTime => "summaryTime"
      case SummaryCounter => "summaryCounter"
      case Favicon => "favicon"
    }
  }

  /** The parameter with a given name, if there is one. */
  function ParamOfKey(key: string): (p: Option<BlockParam>)
    ensures p.Some? ==> p.value.Key() == key
  {
    if key == "domain" then Some(Domain)
    else if key == "url" then Some(SourceUrl)
    else if key == "summaryTime" then Some(LimitTime)
    else if key == "summaryCounter" then Some(SummaryCounter)
    else if key == "favicon" then Some(Favicon)
    else None
  }

  /**
   * Each parameter has its own name, and the names are exactly the five of
   * the closed set; `LimitTime` travels under the name `summaryTime`.
   */
  lemma KeysIdentifyParams(p: BlockParam)
    ensures ParamOfKey(p.Key()) == Some(p)
    ensures LimitTime.Key() == "summaryTime"
  {
  }

  /**
   * `buildBlockQuery(domain, url, limitTime, summaryCounter, favicon)`: the
   * five parameters in a fixed order, each value inserted as it is, the
   * numbers spelt by Number::toString.
   */
  function BuildBlockQuery(host: Host, domain: string, url: string, limitTime: Num, summaryCounter: Num,
                           favicon: string): (q: string)
    ensures |q| > 0 && q[0] == '?'
  {
    "?domain=" + domain + "&url=" + url + "&summaryTime=" + NumberToString(limitTime, host.numberToString)
    + "&summaryCounter=" + NumberToString(summaryCounter, host.numberToString) + "&favicon=" + favicon
  }

  // ---------------------------------------------------------------------
  // Reading the query
  // ---------------------------------------------------------------------

  /** `searchParams.get(name)`: the value of the first pair with that name, or null. */
  function SearchGet(params: seq<(string, string)>, name: string): (r: Option<string>)
    ensures r.None? <==> forall i :: 0 <= i < |params| ==> params[i].0 != name
    ensures r.Some? ==> exists i :: 0 <= i < |params| && params[i] == (name, r.value)
                                    && forall j :: 0 <= j < i ==> params[j].0 != name
  {
    if params == [] then None
    else if params[0].0 == name then Some(params[0].1)
    else SearchGet(params[1..], name)
  }

  /** A parameter value as a JavaScript value: the string, or `null` when absent. */
  function ParamValue(v: Option<string>): (r: JValue)
    ensures v.None? ==> r == JNull
    ensures v.Some? ==> r == JStr(v.value)
  {
    if v.Some? then JStr(v.value) else JNull
  }

  /** The object `getValueFromQuery` returns; `None` in a text field is `null`. */
  datatype BlockValues = BlockValues(
    domain: Option<string>, url: Option<string>, limitTime: Num, summaryCounter: Num, favicon: string)

  /**
   * `getValueFromQuery(url)`: None when `new URL` throws; otherwise the first
   * `domain` and `url` values as they are, the numbers converted with
   * `Number` (so an absent one is 0), and the favicon through the favicon
   * check (so an absent one is the placeholder).
   */
  function GetValueFromQuery(host: Host, href: string): (r: Option<BlockValues>)
    ensures r.None? <==> host.parseUrl(href).None?
    ensures r.Some? ==> var params := host.parseUrl(href).value.searchParams;
            && r.value.domain == SearchGet(params, Domain.Key())
            && r.value.url == SearchGet(params, SourceUrl.Key())
            && r.value.favicon == SanitizeFaviconUrl(host, ParamValue(SearchGet(params, Favicon.Key())))
            && (SearchGet(params, LimitTime.Key()).None? ==> r.value.limitTime == Finite(0.0))
            && (SearchGet(params, SummaryCounter.Key()).None? ==> r.value.summaryCounter == Finite(0.0))
    ensures r.Some? ==> var params := host.parseUrl(href).value.searchParams;
            && (SearchGet(params, LimitTime.Key()).Some?
                ==> r.value.limitTime == StringToNumber(SearchGet(params, LimitTime.Key()).value, host.stringToNumber))
            && (SearchGet(params, SummaryCounter.Key()).Some?
                ==> r.value.summaryCounter
                    == StringToNumber(SearchGet(params, SummaryCounter.Key()).value, host.stringToNumber))
  {
    match host.parseUrl(href)
    case None => None
    case Some(u) =>
      var params := u.searchParams;
      var domain := SearchGet(params, Domain.Key());
      var sourceUrl := SearchGet(params, SourceUrl.Key());
      var favicon := SanitizeFaviconUrl(host, ParamValue(SearchGet(params, Favicon.Key())));
      var limitTime := ToNumber(host, ParamValue(SearchGet(params, LimitTime.Key()))).value;
      var summaryCounter := ToNumber(host, ParamValue(SearchGet(params, SummaryCounter.Key()))).value;
      Some(BlockValues(domain, sourceUrl, limitTime, summaryCounter, favicon))
  }

  /**
   * The favicon the block page shows is the placeholder or a URL that
   * passed the favicon check; an absent `favicon` parameter gives the
   * placeholder.
   */
  lemma BlockPageFaviconIsSafe(host: Host, href: string)
    requires GetValueFromQuery(host, href).Some?
    ensures var fav := GetValueFromQuery(host, href).value.favicon;
            fav == host.noFavicon || SafeHttpUrl(host, fav)
    ensures SearchGet(host.parseUrl(href).value.searchParams, Favicon.Key()).None?
            ==> GetValueFromQuery(host, href).value.favicon == host.noFavicon
  {
    var params := host.parseUrl(href).value.searchParams;
    var raw := ParamValue(SearchGet(params, Favicon.Key()));
    assert GetValueFromQuery(host, href).value.favicon == SanitizeFaviconUrl(host, raw);
  }

  // ---------------------------------------------------------------------
  // Form decoding of a plain query
  // ---------------------------------------------------------------------

  /**
   * A value the query can carry through unchanged: no `&` or `=`, which
   * delimit pairs, no `#`, which ends the query, no `%` or `+`, which form
   * decoding rewrites, and no white space, which URL parsing may strip.
   */
  predicate IsPlainValue(s: string) {
    forall i :: 0 <= i < |s| ==>
      s[i] != '&' && s[i] != '=' && s[i] != '#' && s[i] != '%' && s[i] != '+' && !IsWhiteSpace(s[i])
  }

  /** The pieces of `s` between the occurrences of `sep`. */
  function SplitOn(s: string, sep: char): (pieces: seq<string>)
    ensures |pieces| > 0
    decreases |s|
  {
    var i := IndexOf(s, sep);
    if i == |s| then [s] else [s[..i]] + SplitOn(s[i + 1..], sep)
  }

  /** One piece of a query as a pair: the name before the first `=`, the value after it. */
  function FormPair(piece: string): (string, string) {
    var i := IndexOf(piece, '=');
    if i == |piece| then (piece, "") else (piece[..i], piece[i + 1..])
  }

  /** The pairs of the non-empty pieces, in order. */
  function FormPairs(pieces: seq<string>): seq<(string, string)> {
    if pieces == [] then []
    else if pieces[0] == "" then FormPairs(pieces[1..])
    else [FormPair(pieces[0])] + FormPairs(pieces[1..])
  }

  /**
   * The name/value pairs of a query (without its `?`), for a query with no
   * `%` or `+`, which form decoding would rewrite.
   */
  function FormDecode(query: string): seq<(string, string)> {
    FormPairs(SplitOn(query, '&'))
  }

  /** Splitting `a & b` where `a` has no `&`. */
  lemma SplitOnFirst(a: string, b: string)
    requires '&' !in a
    ensures SplitOn(a + "&" + b, '&') == [a] + SplitOn(b, '&')
  {
    var s := a + "&" + b;
    assert s[|a|] == '&';
    IndexOfIs(s, '&', |a|);
    assert s[..|a|] == a && s[|a| + 1..] == b;
  }

  /** A string without `&` is one piece. */
  lemma SplitOnNone(a: string)
    requires '&' !in a
    ensures SplitOn(a, '&') == [a]
  {
  }

  /** The piece `key=value` is the pair `(key, value)` when the key has no `=`. */
  lemma FormPairOf(key: string, value: string)
    requires '=' !in key
    ensures FormPair(key + "=" + value) == (key, value)
  {
    var s := key + "=" + value;
    assert s[|key|] == '=';
    IndexOfIs(s, '=', |key|);
    assert s[..|key|] == key && s[|key| + 1..] == value;
  }

  /** The piece `key=value` of a query. */
  function Piece(key: string, value: string): string {
    key + "=" + value
  }

  /** No `&` in a piece made of a plain key and a plain value. */
  lemma PlainPiece(key: string, value: string)
    requires key != [] && IsPlainValue(key) && IsPlainValue(value)
    ensures '&' !in Piece(key, value) && Piece(key, value) != ""
    ensures FormPair(Piece(key, value)) == (key, value)
  {
    assert forall i :: 0 <= i < |key| ==> Piece(key, value)[i] == key[i];
    assert forall i :: 0 <= i < |value| ==> Piece(key, value)[|key| + 1 + i] == value[i];
    FormPairOf(key, value);
  }

  /** Pieces joined with `&`. */
  function Join(pieces: seq<string>): string
    requires |pieces| > 0
  {
    if |pieces| == 1 then pieces[0] else pieces[0] + "&" + Join(pieces[1..])
  }

  /** Splitting pieces without `&` that were joined with `&` gives the pieces back. */
  lemma {:induction false} SplitJoin(pieces: seq<string>)
    requires |pieces| > 0 && forall i :: 0 <= i < |pieces| ==> '&' !in pieces[i]
    ensures SplitOn(Join(pieces), '&') == pieces
  {
    if |pieces| == 1 {
      SplitOnNone(pieces[0]);
    } else {
      SplitOnFirst(pieces[0], Join(pieces[1..]));
      SplitJoin(pieces[1..]);
    }
  }

  /** Non-empty pieces give one pair each, in order. */
  lemma {:induction false} FormPairsOfPieces(pieces: seq<string>)
    requires forall i :: 0 <= i < |pieces| ==> pieces[i] != ""
    ensures |FormPairs(pieces)| == |pieces|
    ensures forall i :: 0 <= i < |pieces| ==> FormPairs(pieces)[i] == FormPair(pieces[i])
  {
    if pieces != [] {
      FormPairsOfPieces(pieces[1..]);
    }
  }

  // ---------------------------------------------------------------------
  // Round trip
  // ---------------------------------------------------------------------

  /** The spelling of an integer number carries no character the query treats specially. */
  lemma IntegerSpellingIsPlain(host: Host, k: int)
    requires -MaxSafeMagnitude <= k <= MaxSafeMagnitude
    ensures IsPlainValue(NumberToString(Finite(k as real), host.numberToString))
  {
    var s := NumberToString(Finite(k as real), host.numberToString);
    assert IsInteger(k as real);
    assert IsDecimalIntegerLiteral(s);
    if !AllDigits(s) {
      assert forall i :: 1 <= i < |s| ==> s[1..][i - 1] == s[i];
    }
  }

  // Proof helpers: `SegmentIsPiece`, `Regroup` and `Regroup3` regroup
  // concatenations and model nothing in the program; they keep the proof of
  // the query layout small enough for the solver.

  /** A literal segment `&key=` followed by a value is `&` and the piece `key=value`. */
  lemma SegmentIsPiece(segment: string, key: string, value: string)
    requires segment == "&" + key + "="
    ensures segment + value == "&" + Piece(key, value)
  {
  }

  /**
   * A template of five segments `?k1=`, `&k2=`, ... , `&k5=` alternating with
   * five values is, after its `?`, the five pieces joined with `&`.
   */
  lemma TemplateIsJoin(s1: string, v1: string, s2: string, v2: string, s3: string, v3: string,
                       s4: string, v4: string, s5: string, v5: string,
                       k1: string, k2: string, k3: string, k4: string, k5: string)
    requires s1 == "?" + k1 + "=" && s2 == "&" + k2 + "=" && s3 == "&" + k3 + "="
    requires s4 == "&" + k4 + "=" && s5 == "&" + k5 + "="
    ensures (s1 + v1 + s2 + v2 + s3 + v3 + s4 + v4 + s5 + v5)[1..]
            == Join([Piece(k1, v1), Piece(k2, v2), Piece(k3, v3), Piece(k4, v4), Piece(k5, v5)])
  {
    var p1 := [Piece(k1, v1)];
    var l1 := s1 + v1;
    assert l1 == "?" + Join(p1);
    TemplateStep(l1, s2, v2, k2, p1);
    TemplateStep(l1 + s2 + v2, s3, v3, k3, p1 + [Piece(k2, v2)]);
    TemplateStep(l1 + s2 + v2 + s3 + v3, s4, v4, k4, p1 + [Piece(k2, v2)] + [Piece(k3, v3)]);
    TemplateStep(l1 + s2 + v2 + s3 + v3 + s4 + v4, s5, v5, k5,
                 p1 + [Piece(k2, v2)] + [Piece(k3, v3)] + [Piece(k4, v4)]);
    assert p1 + [Piece(k2, v2)] + [Piece(k3, v3)] + [Piece(k4, v4)] + [Piece(k5, v5)]
           == [Piece(k1, v1), Piece(k2, v2), Piece(k3, v3), Piece(k4, v4), Piece(k5, v5)];
  }

  /** Appending a segment `&key=` and a value to `?` and joined pieces appends one more piece. */
  lemma TemplateStep(front: string, segment: string, value: string, key: string, pieces: seq<string>)
    requires |pieces| > 0 && front == "?" + Join(pieces) && segment == "&" + key + "="
    ensures front + segment + value == "?" + Join(pieces + [Piece(key, value)])
    ensures (front + segment + value)[1..] == Join(pieces + [Piece(key, value)])
  {
    var joined := Join(pieces);
    var piece := Piece(key, value);
    JoinSnoc(pieces, piece);
    SegmentIsPiece(segment, key, value);
    Regroup("?", joined, segment, value);
    Regroup3(joined, "&", piece);
  }

  /** Concatenation regrouped to the right. */
  lemma Regroup(a: string, b: string, c: string, d: string)
    ensures a + b + c + d == a + (b + (c + d))
  {
  }

  /** Concatenation regrouped to the left. */
  lemma Regroup3(a: string, b: string, c: string)
    ensures a + (b + c) == a + b + c
  {
  }

  /** Joining one more piece puts it after an `&`. */
  lemma {:induction false} JoinSnoc(pieces: seq<string>, piece: string)
    requires |pieces| > 0
    ensures Join(pieces + [piece]) == Join(pieces) + "&" + piece
    decreases |pieces|
  {
    if |pieces| == 1 {
      assert (pieces + [piece])[1..] == [piece];
    } else {
      assert (pieces + [piece])[1..] == pieces[1..] + [piece];
      JoinSnoc(pieces[1..], piece);
    }
  }

  /** The query `buildBlockQuery` writes is `?` and its five pieces joined with `&`. */
  lemma QueryIsJoin(host: Host, domain: string, url: string, limitTime: Num, summaryCounter: Num, favicon: string)
    ensures var lt := NumberToString(limitTime, host.numberToString);
            var sc := NumberToString(summaryCounter, host.numberToString);
            BuildBlockQuery(host, domain, url, limitTime, summaryCounter, favicon)[1..]
            == Join([Piece(Domain.Key(), domain), Piece(SourceUrl.Key(), url), Piece(LimitTime.Key(), lt),
                     Piece(SummaryCounter.Key(), sc), Piece(Favicon.Key(), favicon)])
  {
    var lt := NumberToString(limitTime, host.numberToString);
    var sc := NumberToString(summaryCounter, host.numberToString);
    TemplateIsJoin("?domain=", domain, "&url=", url, "&summaryTime=", lt, "&summaryCounter=", sc, "&favicon=", favicon,
                   Domain.Key(), SourceUrl.Key(), LimitTime.Key(), SummaryCounter.Key(), Favicon.Key());
  }

  /**
   * Without its `?`, the query `buildBlockQuery` writes decodes to the five
   * pairs in order, provided the text values are plain and the numbers are
   * integers of magnitude at most 2^53.
   */
  lemma BlockQueryDecodes(host: Host, domain: string, url: string, limitTime: int, summaryCounter: int,
                          favicon: string)
    requires IsPlainValue(domain) && IsPlainValue(url) && IsPlainValue(favicon)
    requires -MaxSafeMagnitude <= limitTime <= MaxSafeMagnitude
    requires -MaxSafeMagnitude <= summaryCounter <= MaxSafeMagnitude
    ensures var lt := NumberToString(Finite(limitTime as real), host.numberToString);
            var sc := NumberToString(Finite(summaryCounter as real), host.numberToString);
            FormDecode(BuildBlockQuery(host, domain, url, Finite(limitTime as real), Finite(summaryCounter as real),
                                       favicon)[1..])
            == [(Domain.Key(), domain), (SourceUrl.Key(), url), (LimitTime.Key(), lt), (SummaryCounter.Key(), sc),
                (Favicon.Key(), favicon)]
  {
    var lt := NumberToString(Finite(limitTime as real), host.numberToString);
    var sc := NumberToString(Finite(summaryCounter as real), host.numberToString);
    var pieces := [Piece(Domain.Key(), domain), Piece(SourceUrl.Key(), url), Piece(LimitTime.Key(), lt),
                   Piece(SummaryCounter.Key(), sc), Piece(Favicon.Key(), favicon)];
    var pairs := [(Domain.Key(), domain), (SourceUrl.Key(), url), (LimitTime.Key(), lt),
                  (SummaryCounter.Key(), sc), (Favicon.Key(), favicon)];
    IntegerSpellingIsPlain(host, limitTime);
    IntegerSpellingIsPlain(host, summaryCounter);
    forall i | 0 <= i < 5 ensures '&' !in pieces[i] && pieces[i] != "" && FormPair(pieces[i]) == pairs[i] {
      PlainPiece(pairs[i].0, pairs[i].1);
    }
    QueryIsJoin(host, domain, url, Finite(limitTime as real), Finite(summaryCounter as real), favicon);
    SplitJoin(pieces);
    FormPairsOfPieces(pieces);
  }

  /** The first pair with a given name is the one `searchParams.get` reads. */
  lemma {:induction false} SearchGetAt(params: seq<(string, string)>, i: nat)
    requires i < |params| && forall j :: 0 <= j < i ==> params[j].0 != params[i].0
    ensures SearchGet(params, params[i].0) == Some(params[i].1)
    decreases i
  {
    if i > 0 {
      SearchGetAt(params[1..], i - 1);
    }
  }

  /** In five pairs with names of distinct lengths, each name finds its own value. */
  lemma SearchFive(k1: string, v1: string, k2: string, v2: string, k3: string, v3: string,
                   k4: string, v4: string, k5: string, v5: string)
    requires |k1| != |k2| && |k1| != |k3| && |k1| != |k4| && |k1| != |k5|
    requires |k2| != |k3| && |k2| != |k4| && |k2| != |k5|
    requires |k3| != |k4| && |k3| != |k5| && |k4| != |k5|
    ensures var pairs := [(k1, v1), (k2, v2), (k3, v3), (k4, v4), (k5, v5)];
            && SearchGet(pairs, k1) == Some(v1) && SearchGet(pairs, k2) == Some(v2)
            && SearchGet(pairs, k3) == Some(v3) && SearchGet(pairs, k4) == Some(v4)
            && SearchGet(pairs, k5) == Some(v5)
  {
    var p5 := [(k5, v5)];
    var p4 := [(k4, v4)] + p5;
    var p3 := [(k3, v3)] + p4;
    var p2 := [(k2, v2)] + p3;
    var p1 := [(k1, v1)] + p2;
    assert p1 == [(k1, v1), (k2, v2), (k3, v3), (k4, v4), (k5, v5)];
    SearchGetCons((k1, v1), p2, k1);
    SearchGetCons((k1, v1), p2, k2);
    SearchGetCons((k2, v2), p3, k2);
    SearchGetCons((k1, v1), p2, k3);
    SearchGetCons((k2, v2), p3, k3);
    SearchGetCons((k3, v3), p4, k3);
    SearchGetCons((k1, v1), p2, k4);
    SearchGetCons((k2, v2), p3, k4);
    SearchGetCons((k3, v3), p4, k4);
    SearchGetCons((k4, v4), p5, k4);
    SearchGetCons((k1, v1), p2, k5);
    SearchGetCons((k2, v2), p3, k5);
    SearchGetCons((k3, v3), p4, k5);
    SearchGetCons((k4, v4), p5, k5);
    SearchGetCons((k5, v5), [], k5);
  }

  /** `searchParams.get` reads the front pair when it has the name, and looks further otherwise. */
  lemma SearchGetCons(pair: (string, string), rest: seq<(string, string)>, name: string)
    ensures SearchGet([pair] + rest, name) == if pair.0 == name then Some(pair.1) else SearchGet(rest, name)
  {
    assert ([pair] + rest)[1..] == rest;
  }

  /**
   * The host's URL parser reads the query of `href` as form decoding does:
   * the pairs of `href` are those of `query` without its `?`.
   */
  predicate ParsesQueryAsForm(host: Host, href: string, query: string) {
    |query| > 0 && host.parseUrl(href).Some? && host.parseUrl(href).value.searchParams == FormDecode(query[1..])
  }

  /**
   * Reading back what `buildBlockQuery` wrote, from a page URL the host
   * parses with that query, recovers the domain, the url and both integer
   * numbers, and gives the favicon through the favicon check.
   */
  lemma BlockQueryRoundTrip(host: Host, href: string, domain: string, url: string, limitTime: int,
                            summaryCounter: int, favicon: string)
    requires IsPlainValue(domain) && IsPlainValue(url) && IsPlainValue(favicon)
    requires -MaxSafeMagnitude <= limitTime <= MaxSafeMagnitude
    requires -MaxSafeMagnitude <= summaryCounter <= MaxSafeMagnitude
    requires ParsesQueryAsForm(host, href, BuildBlockQuery(host, domain, url, Finite(limitTime as real),
                                                           Finite(summaryCounter as real), favicon))
    ensures GetValueFromQuery(host, href)
            == Some(BlockValues(Some(domain), Some(url), Finite(limitTime as real), Finite(summaryCounter as real),
                                SanitizeFaviconUrl(host, JStr(favicon))))
  {
    var lt := NumberToString(Finite(limitTime as real), host.numberToString);
    var sc := NumberToString(Finite(summaryCounter as real), host.numberToString);
    BlockQueryDecodes(host, domain, url, limitTime, summaryCounter, favicon);
    var params := host.parseUrl(href).value.searchParams;
    assert params == [(Domain.Key(), domain), (SourceUrl.Key(), url), (LimitTime.Key(), lt),
                      (SummaryCounter.Key(), sc), (Favicon.Key(), favicon)];
    SearchFive(Domain.Key(), domain, SourceUrl.Key(), url, LimitTime.Key(), lt, SummaryCounter.Key(), sc,
               Favicon.Key(), favicon);
    IntegerStringRoundTrip(limitTime, host.numberToString, host.stringToNumber);
    IntegerStringRoundTrip(summaryCounter, host.numberToString, host.stringToNumber);
    ReadBack(host, href, domain, url, lt, sc, favicon);
  }

  /** What `getValueFromQuery` returns when all five names are present. */
  lemma ReadBack(host: Host, href: string, domain: string, url: string, lt: string, sc: string, favicon: string)
    requires host.parseUrl(href).Some?
    requires var params := host.parseUrl(href).value.searchParams;
             && SearchGet(params, Domain.Key()) == Some(domain) && SearchGet(params, SourceUrl.Key()) == Some(url)
             && SearchGet(params, LimitTime.Key()) == Some(lt) && SearchGet(params, SummaryCounter.Key()) == Some(sc)
             && SearchGet(params, Favicon.Key()) == Some(favicon)
    ensures GetValueFromQuery(host, href)
            == Some(BlockValues(Some(domain), Some(url), StringToNumber(lt, host.stringToNumber),
                                StringToNumber(sc, host.stringToNumber), SanitizeFaviconUrl(host, JStr(favicon))))
  {
  }
}
