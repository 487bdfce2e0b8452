/**
 * The caption route (`POST /api/transcript`): validates `{ url, lang? }`,
 * fetches the caption items of the video, renders one line per item with an
 * optional `MM:SS` / `HH:MM:SS` prefix, and refuses transcripts shorter than
 * 50 characters as unavailable.
 */
module TranscriptRoute {
  import opened Wrappers
  import opened JsStrings
  import opened Decimal
  import opened Timecode
  import opened Http
  import opened Seqs

  /** `Math.max(0, s)` for whole seconds. */
  function Clamp(seconds: int): nat {
    if seconds < 0 then 0 else seconds
  }

  /**
   * The route's `hhmmss` on a whole number of seconds: clamp to 0, then
   * `MM:SS` when the hour count is 0 and `HH:MM:SS` otherwise, each field
   * left-padded with zeros to two digits.
   */
  function Hhmmss(seconds: int): string {
    var s := Clamp(seconds);
    var h := s / 3600;
    var m := (s % 3600) / 60;
    var sec := s % 60;
    if h > 0 then Field2(h) + ":" + Field2(m) + ":" + Field2(sec)
    else Field2(m) + ":" + Field2(sec)
  }

  /** One caption item: `offset` in milliseconds when it is a number, and its text. */
  datatype CaptionItem = CaptionItem(offset: Option<int>, text: Option<string>)

  /** An item's text with its white-space runs collapsed and its ends trimmed (a missing text is ""). */
  function ItemText(it: CaptionItem): string {
    Collapse(it.text.GetOr(""))
  }

  /** The line an item maps to: `"<hhmmss(offset / 1000)> <text>"`, or the bare text without an offset. */
  function CaptionLine(it: CaptionItem): string {
    match it.offset
    case Some(ms) => Hhmmss(ms / 1000) + " " + ItemText(it)
    case None => ItemText(it)
  }

  /** The items' lines in order, without the empty ones (`map` then `filter(Boolean)`). */
  function CaptionLines(items: seq<CaptionItem>): seq<string> {
    NonEmpty(MapSeq(CaptionLine, items))
  }

  /** The transcript the route returns: the lines joined with newlines. */
  function CaptionTranscript(items: seq<CaptionItem>): string {
    Join(CaptionLines(items), '\n')
  }

  /** The body the schema accepts: a URL and an optional language. */
  datatype FetchBody = FetchBody(url: string, lang: Option<string>)

  /** `BodySchema.parse`: `url` must be a string that is a URL, `lang` a string when present. */
  function ValidateBody(b: JsonBody, isValidUrl: string -> bool): Result<FetchBody, seq<Issue>> {
    match b
    case JNonObject => Failure([Issue("", InvalidType)])
    case JObject(f) =>
      var urlIssues :=
        if "url" in f && f["url"].JString? then (if isValidUrl(f["url"].s) then [] else [Issue("url", InvalidUrl)])
        else [Issue("url", InvalidType)];
      var langIssues := if "lang" in f && f["lang"].JOther? then [Issue("lang", InvalidType)] else [];
      if urlIssues + langIssues != [] then Failure(urlIssues + langIssues)
      else Success(FetchBody(f["url"].s, if "lang" in f then Some(f["lang"].s) else None))
  }

  /** The caption service call: video URL and language. */
  datatype CaptionRequest = CaptionRequest(url: string, lang: string)

  /** The success payload `{ transcript, count }`. */
  datatype FetchedTranscript = FetchedTranscript(transcript: string, count: nat)

  const UnavailableMessage: string := "Transcript was empty/unavailable for this video."
  const FetchFailedMessage: string := "Failed to fetch transcript. This video may not have captions or YouTube blocked the request."

  /**
   * The route handler. `body` is the outcome of reading the request as JSON,
   * `isValidUrl` the schema's URL check and `captions` the caption service.
   */
  function Handle(body: Result<JsonBody, Thrown>, isValidUrl: string -> bool,
                  captions: CaptionRequest -> Result<seq<CaptionItem>, Thrown>): (r: Exchange<FetchedTranscript, CaptionRequest>)
    ensures r.response.Err? ==> r.response.status == 400 || r.response.status == 404
    ensures r.response.Ok? ==> |r.response.payload.transcript| >= 50 && r.call.Some?
  {
    match body
    case Failure(e) => Exchange(Err(400, MessageOr(e, FetchFailedMessage)), None)
    case Success(json) =>
      match ValidateBody(json, isValidUrl)
      case Failure(issues) => Exchange(Err(400, SchemaIssues(issues)), None)
      case Success(req) =>
        var call := CaptionRequest(req.url, OrElse(req.lang, "en"));
        match captions(call)
        case Failure(e) => Exchange(Err(400, MessageOr(e, FetchFailedMessage)), Some(call))
        case Success(items) =>
          var t := CaptionTranscript(items);
          if t == "" || |t| < 50 then Exchange(Err(404, Text(UnavailableMessage)), Some(call))
          else Exchange(Ok(FetchedTranscript(t, |items|)), Some(call))
  }

  // ---------------------------------------------------------------------
  // The timestamp rule

  /** Every character of a caption timestamp is a digit or a colon. */
  lemma HhmmssChars(seconds: int)
    ensures forall k :: 0 <= k < |Hhmmss(seconds)| ==> IsDigit(Hhmmss(seconds)[k]) || Hhmmss(seconds)[k] == ':'
  {
    var s := Clamp(seconds);
    var a, b, c := Field2(s / 3600), Field2((s % 3600) / 60), Field2(s % 60);
    var t := Hhmmss(seconds);
    forall k | 0 <= k < |t|
      ensures IsDigit(t[k]) || t[k] == ':'
    {
      if s / 3600 > 0 {
        assert t == a + ":" + b + ":" + c;
        if k < |a| { assert t[k] == a[k]; }
        else if k == |a| { }
        else if k < |a| + 1 + |b| { assert t[k] == b[k - |a| - 1]; }
        else if k == |a| + 1 + |b| { }
        else { assert t[k] == c[k - |a| - |b| - 2]; }
      } else {
        assert t == b + ":" + c;
        if k < |b| { assert t[k] == b[k]; }
        else if k == |b| { }
        else { assert t[k] == c[k - |b| - 1]; }
      }
    }
  }

  /**
   * A caption timestamp reads back as the clamped number of seconds: the
   * minutes and seconds fields are below 60 and hours * 3600 + minutes * 60
   * + seconds is `max(0, seconds)`.
   */
  lemma HhmmssRoundTrip(seconds: int)
    ensures ParseTimestamp(Hhmmss(seconds)) == Some(Clamp(seconds))
  {
    var s := Clamp(seconds);
    HmsSplit(s);
    if s / 3600 > 0 {
      ParseThreeFields(s / 3600, (s % 3600) / 60, s % 60);
    } else {
      ParseTwoFields((s % 3600) / 60, s % 60);
    }
  }

  /** Division by 60 with remainder is unique. */
  lemma DivMod60(n: nat, q: nat, m: nat)
    requires n == q * 60 + m && m < 60
    ensures n / 60 == q && n % 60 == m
  {
  }

  /** Hours, minutes and seconds of a number of seconds, as the route computes them. */
  lemma HmsSplit(s: nat)
    ensures (s / 3600) * 3600 + ((s % 3600) / 60) * 60 + s % 60 == s
    ensures (s % 3600) / 60 < 60 && s % 60 < 60
    ensures s / 3600 == 0 <==> s < 3600
    ensures s < 3600 ==> (s % 3600) / 60 == s / 60
  {
    var q, r := s / 3600, s % 3600;
    var m, sec := r / 60, r % 60;
    assert r == m * 60 + sec;
    assert s == (q * 60 + m) * 60 + sec;
    DivMod60(s, q * 60 + m, sec);
  }

  /**
   * The shape of a caption timestamp: two fields below one hour and three
   * from one hour on; five characters below one hour, eight from one hour to
   * below 100 hours, and more from 100 hours on (the hour field is not cut to
   * two digits).
   */
  lemma HhmmssShape(seconds: int)
    ensures FieldCount(Hhmmss(seconds)) == if Clamp(seconds) < 3600 then 2 else 3
    ensures Clamp(seconds) < 3600 <==> |Hhmmss(seconds)| == 5
    ensures 3600 <= Clamp(seconds) < 360000 ==> |Hhmmss(seconds)| == 8
    ensures Clamp(seconds) >= 360000 ==> |Hhmmss(seconds)| > 8
  {
    var s := Clamp(seconds);
    HmsSplit(s);
    if s / 3600 > 0 {
      ParseThreeFields(s / 3600, (s % 3600) / 60, s % 60);
    } else {
      ParseTwoFields((s % 3600) / 60, s % 60);
    }
  }

  /** Negative input is clamped to 0, and 0 renders as `00:00`. */
  lemma HhmmssClampsNegative(seconds: int)
    requires seconds <= 0
    ensures Hhmmss(seconds) == "00:00"
  {
    assert NatToString(0) == "0";
  }

  /** One hour, one minute and one second render as `01:01:01`. */
  lemma HhmmssOverAnHour()
    ensures Hhmmss(3661) == "01:01:01"
  {
    assert Clamp(3661) / 3600 == 1 && (Clamp(3661) % 3600) / 60 == 1 && Clamp(3661) % 60 == 1;
    assert NatToString(1) == "1";
    assert Field2(1) == "01";
  }

  /** One hundred hours keep a three-digit hour field. */
  lemma HhmmssHundredHours()
    ensures Hhmmss(360000) == "100:00:00"
  {
    assert Clamp(360000) / 3600 == 100;
    assert (Clamp(360000) % 3600) / 60 == 0 && Clamp(360000) % 60 == 0;
    assert NatToString(0) == "0";
    assert Field2(0) == "00";
    assert NatToString(10) == "10";
    assert NatToString(100) == "100";
    assert Field2(100) == "100";
  }

  // ---------------------------------------------------------------------
  // The caption lines

  /** A caption timestamp holds neither a space nor a line break. */
  lemma HhmmssNoBreak(seconds: int)
    ensures ' ' !in Hhmmss(seconds) && '\n' !in Hhmmss(seconds)
  {
    HhmmssChars(seconds);
  }

  /** A caption line is a single line. */
  lemma CaptionLineOneLine(it: CaptionItem)
    ensures '\n' !in CaptionLine(it)
  {
    CollapseShape(it.text.GetOr(""));
    if it.offset.Some? {
      HhmmssNoBreak(it.offset.value / 1000);
      JoinedExcludes(Hhmmss(it.offset.value / 1000), ' ', Collapse(it.text.GetOr("")), '\n');
      assert CaptionLine(it) == Hhmmss(it.offset.value / 1000) + [' '] + Collapse(it.text.GetOr(""));
    }
  }

  /**
   * An item with an offset yields a line whose first space follows a
   * timestamp that reads back as the item's offset in whole seconds (clamped
   * at 0), and whose rest is the item's collapsed text; the line is kept even
   * when that text is blank. An item without an offset yields its collapsed
   * text alone.
   */
  lemma CaptionLineParts(it: CaptionItem)
    ensures it.offset.Some? ==>
      var line, k := CaptionLine(it), |Hhmmss(it.offset.value / 1000)|;
      && k < |line| && line[k] == ' ' && ' ' !in line[..k]
      && ParseTimestamp(line[..k]) == Some(Clamp(it.offset.value / 1000))
      && line[k + 1..] == ItemText(it)
    ensures it.offset.None? ==> CaptionLine(it) == ItemText(it)
  {
    if it.offset.Some? {
      var secs := it.offset.value / 1000;
      var ts := Hhmmss(secs);
      HhmmssNoBreak(secs);
      HhmmssRoundTrip(secs);
      assert CaptionLine(it) == ts + [' '] + ItemText(it);
      PrefixSpaceSuffix(CaptionLine(it), ts, ItemText(it));
    }
  }

  /** An item is dropped exactly when it has no offset and its text is blank. */
  lemma CaptionLineDropped(it: CaptionItem)
    ensures CaptionLines([it]) == [] <==> it.offset.None? && Collapse(it.text.GetOr("")) == ""
    ensures CaptionLines([it]) != [] ==> CaptionLines([it]) == [CaptionLine(it)]
  {
    assert MapSeq(CaptionLine, [it]) == [CaptionLine(it)];
    NonEmptySingleton(CaptionLine(it));
    if it.offset.Some? {
      TimedLineNonEmpty(it);
    }
  }

  /** A line that carries a timestamp is never empty. */
  lemma TimedLineNonEmpty(it: CaptionItem)
    requires it.offset.Some?
    ensures CaptionLine(it) != ""
  {
    var line := CaptionLine(it);
    assert |Hhmmss(it.offset.value / 1000)| >= 2;
    assert |line| >= 2;
  }

  /** Every kept line is the line of some item, and is a single non-empty line. */
  lemma CaptionLinesShape(items: seq<CaptionItem>)
    ensures |CaptionLines(items)| <= |items|
    ensures forall i :: 0 <= i < |CaptionLines(items)| ==> CaptionLines(items)[i] != "" && '\n' !in CaptionLines(items)[i]
  {
    var m := MapSeq(CaptionLine, items);
    forall i | 0 <= i < |CaptionLines(items)|
      ensures '\n' !in CaptionLines(items)[i]
    {
      var j :| 0 <= j < |m| && m[j] == CaptionLines(items)[i];
      CaptionLineOneLine(items[j]);
    }
  }

  /** The lines of a concatenation are the lines of its parts, in order. */
  lemma CaptionLinesAppend(a: seq<CaptionItem>, b: seq<CaptionItem>)
    ensures CaptionLines(a + b) == CaptionLines(a) + CaptionLines(b)
  {
    MapSeqAppend(CaptionLine, a, b);
    NonEmptyAppend(MapSeq(CaptionLine, a), MapSeq(CaptionLine, b));
  }

  /**
   * Splitting the transcript at newlines gives back the lines, one per kept
   * item, in order; the transcript is empty exactly when no line is kept.
   */
  lemma CaptionTranscriptLines(items: seq<CaptionItem>)
    ensures CaptionTranscript(items) == "" <==> CaptionLines(items) == []
    ensures CaptionLines(items) != [] ==> Split(CaptionTranscript(items), '\n') == CaptionLines(items)
  {
    var lines := CaptionLines(items);
    CaptionLinesShape(items);
    if lines != [] {
      SplitJoin(lines, '\n');
      assert Split("", '\n') == [""];
    }
  }

  // ---------------------------------------------------------------------
  // The handler

  /**
   * The route succeeds exactly when the body is a valid request, the caption
   * service returns items, and their transcript is at least 50 characters
   * long; it then returns that transcript and the number of items fetched,
   * dropped ones included. The service is asked once, with the request's URL
   * and its language or "en" when the language is absent or empty.
   */
  lemma HandleSucceeds(body: Result<JsonBody, Thrown>, isValidUrl: string -> bool,
                       captions: CaptionRequest -> Result<seq<CaptionItem>, Thrown>)
    ensures var r := Handle(body, isValidUrl, captions);
      r.response.Ok? <==>
        && body.Success? && ValidateBody(body.value, isValidUrl).Success?
        && (var req := ValidateBody(body.value, isValidUrl).value;
            var call := CaptionRequest(req.url, OrElse(req.lang, "en"));
            && r.call == Some(call)
            && captions(call).Success?
            && |CaptionTranscript(captions(call).value)| >= 50
            && r.response.payload == FetchedTranscript(CaptionTranscript(captions(call).value), |captions(call).value|))
  {
  }

  /**
   * Status 404 is returned exactly when the caption service answered but the
   * transcript is shorter than 50 characters; in particular an empty list
   * of items is never a success.
   */
  lemma HandleNotFound(body: Result<JsonBody, Thrown>, isValidUrl: string -> bool,
                       captions: CaptionRequest -> Result<seq<CaptionItem>, Thrown>)
    ensures var r := Handle(body, isValidUrl, captions);
      (r.response.Err? && r.response.status == 404) <==>
        (r.call.Some? && captions(r.call.value).Success? && |CaptionTranscript(captions(r.call.value).value)| < 50)
    ensures var r := Handle(body, isValidUrl, captions);
      r.call.Some? && captions(r.call.value) == Success([]) ==> r.response == Err(404, Text(UnavailableMessage))
  {
  }

  /**
   * A body that cannot be read, or that the schema refuses, is answered with
   * 400 before the caption service is called; so is a failure of the service.
   * The message is the thrown error's message, or a fixed fallback.
   */
  lemma HandleRejects(body: Result<JsonBody, Thrown>, isValidUrl: string -> bool,
                      captions: CaptionRequest -> Result<seq<CaptionItem>, Thrown>)
    ensures body.Failure? ==>
      Handle(body, isValidUrl, captions) == Exchange(Err(400, MessageOr(body.error, FetchFailedMessage)), None)
    ensures body.Success? && ValidateBody(body.value, isValidUrl).Failure? ==>
      Handle(body, isValidUrl, captions) == Exchange(Err(400, SchemaIssues(ValidateBody(body.value, isValidUrl).error)), None)
    ensures var r := Handle(body, isValidUrl, captions);
      r.call.Some? && captions(r.call.value).Failure? ==>
        r.response == Err(400, MessageOr(captions(r.call.value).error, FetchFailedMessage))
  {
  }

  /** The schema accepts a body exactly when `url` is a string passing the URL check and `lang`, if present, is a string. */
  lemma ValidateBodyAccepts(f: map<string, JsonValue>, isValidUrl: string -> bool)
    ensures ValidateBody(JObject(f), isValidUrl).Success? <==>
      "url" in f && f["url"].JString? && isValidUrl(f["url"].s) && !("lang" in f && f["lang"].JOther?)
    ensures ValidateBody(JObject(f), isValidUrl).Success? ==>
      ValidateBody(JObject(f), isValidUrl).value.url == f["url"].s
  {
  }
}
