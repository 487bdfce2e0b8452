/**
 * The content-pack route (`POST /api/generate`): checks the server key,
 * validates `{ url?, transcript }`, builds a fixed prompt around the
 * transcript, asks the language model for a JSON answer and returns that
 * answer parsed, or the error with status 400.
 */
module GenerateRoute {
  import opened Wrappers
  import opened JsStrings
  import opened Http

  /** The body the schema accepts: an optional URL (an empty one reads as absent) and the transcript. */
  datatype GenerateBody = GenerateBody(url: Option<string>, transcript: string)

  const MinTranscript: nat := 200
  const MaxTranscript: nat := 200000
  const TooShortMessage: string := "Transcript is too short."
  const UnknownErrorMessage: string := "Unknown error"

  /**
   * The `url` field: absent, or a string that is a URL, or the empty string
   * (read as absent). A non-empty string that is not a URL has the right type
   * for the first alternative of the union, so the union reports that
   * alternative's URL issue; a value that is not a string fails both
   * alternatives, and the union reports itself.
   */
  function ValidateUrl(f: map<string, JsonValue>, isValidUrl: string -> bool): (r: Result<Option<string>, Issue>)
    ensures r.Success? && r.value.Some? ==> "url" in f && f["url"] == JString(r.value.value)
    ensures r.Failure? ==> "url" in f && r.error == Issue("url", if f["url"].JOther? then InvalidUnion else InvalidUrl)
  {
    if "url" !in f then Success(None)
    else match f["url"]
      case JString(u) =>
        if isValidUrl(u) then Success(Some(u))
        else if u == "" then Success(None)
        else Failure(Issue("url", InvalidUrl))
      case JOther => Failure(Issue("url", InvalidUnion))
  }

  /** The `transcript` field: a string of 200 to 200000 characters. */
  function ValidateTranscript(f: map<string, JsonValue>): (r: Result<string, Issue>)
    ensures r.Success? ==> "transcript" in f && f["transcript"] == JString(r.value)
    ensures r.Success? ==> MinTranscript <= |r.value| <= MaxTranscript
  {
    if "transcript" !in f || f["transcript"].JOther? then Failure(Issue("transcript", InvalidType))
    else
      var t := f["transcript"].s;
      if |t| < MinTranscript then Failure(Issue("transcript", TooSmall(MinTranscript, TooShortMessage)))
      else if |t| > MaxTranscript then Failure(Issue("transcript", TooBig(MaxTranscript)))
      else Success(t)
  }

  /** `BodySchema.parse`: the issues of both fields, in field order, or the accepted body. */
  function ValidateBody(b: JsonBody, isValidUrl: string -> bool): Result<GenerateBody, seq<Issue>> {
    match b
    case JNonObject => Failure([Issue("", InvalidType)])
    case JObject(f) =>
      var u := ValidateUrl(f, isValidUrl);
      var t := ValidateTranscript(f);
      if u.Success? && t.Success? then Success(GenerateBody(u.value, t.value))
      else Failure((if u.Failure? then [u.error] else []) + (if t.Failure? then [t.error] else []))
  }

  const SystemMessage: string :=
    "You turn long-form video transcripts into a structured content pack. Be accurate; do not invent claims. Use only info present in the transcript."

  const PromptHead: string := "INPUT\nURL: "
  const PromptMid: string := "\n\nTRANSCRIPT:\n\"\"\"\n"
  /** The text after the transcript: the closing quotes, then the task, one line per literal. */
  const PromptTail: string :=
      "\n"
    + "\"\"\"\n"
    + "\n"
    + "TASK\n"
    + "Return a JSON object with:\n"
    + "- title: string (best guess from transcript, or empty)\n"
    + "- key_points: array of 10-20 bullets (short, specific)\n"
    + "- chapters: array of 6-12 items { time: \"MM:SS\" or \"HH:MM:SS\" (best effort), title: string }\n"
    + "- clips: array of 12-20 items { start: time string, end: time string, hook: string (1 line), caption: string (1-2 lines), why: string (short) }\n"
    + "- posts: { linkedin: string[5], x: string[10] }\n"
    + "\n"
    + "Rules:\n"
    + "- If transcript has no timestamps, set time/start/end to \"\".\n"
    + "- Hooks must be punchy but not clickbait.\n"
    + "- Keep LinkedIn posts < 1200 chars; X posts < 280 chars.\n"
    + "- Output MUST be valid JSON, no markdown."

  /** The URL as the prompt shows it: `url || "(none)"`. */
  function UrlText(url: Option<string>): string {
    OrElse(url, "(none)")
  }

  /** The user prompt: the URL line, then the transcript between `"""` lines, then the task. */
  function Prompt(urlText: string, transcript: string): string {
    PromptHead + urlText + PromptMid + transcript + PromptTail
  }

  /**
   * Reads `head + u + mid + t + tail` back into u and t: u runs from the
   * head to the first line break, t from the end of mid to the start of
   * tail. None when p does not have that shape.
   */
  function ParseFramed(p: string, head: string, mid: string, tail: string): Option<(string, string)> {
    if |p| < |head| || p[..|head|] != head then None else ParseBody(p[|head|..], mid, tail)
  }

  /** The part of `ParseFramed` after the head. */
  function ParseBody(rest: string, mid: string, tail: string): Option<(string, string)> {
    if '\n' !in rest then None
    else
      var i := IndexOf(rest, '\n');
      var after := rest[i..];
      if |after| < |mid| + |tail| || after[..|mid|] != mid || after[|after| - |tail|..] != tail then None
      else Some((rest[..i], after[|mid|..|after| - |tail|]))
  }

  /** Reads a prompt back into its URL text and its transcript. */
  function ParsePrompt(p: string): Option<(string, string)> {
    ParseFramed(p, PromptHead, PromptMid, PromptTail)
  }

  /** A chat message of the model call. */
  datatype ChatMessage = ChatMessage(role: string, content: string)

  /**
   * The model call: the model, the URL text and transcript the prompt is
   * made of, and the temperature in tenths.
   */
  datatype ResponsesRequest = ResponsesRequest(model: string, urlText: string, transcript: string, temperatureTenths: nat)

  /** The messages the call sends: the system message, then the prompt as the user's message. */
  function Messages(req: ResponsesRequest): seq<ChatMessage> {
    [ChatMessage("system", SystemMessage), ChatMessage("user", Prompt(req.urlText, req.transcript))]
  }

  /** The model call for an accepted body. */
  function RequestFor(env: Env, body: GenerateBody): ResponsesRequest {
    ResponsesRequest(OrElse(env.openaiModel, "gpt-4o-mini"), UrlText(body.url), body.transcript, 4)
  }

  /**
   * The route handler. `body` is the outcome of reading the request as JSON,
   * `isValidUrl` the schema's URL check, `respond` the model service (its
   * output text) and `parse` `JSON.parse` on that text; `J` is the type of
   * parsed JSON values.
   */
  function Handle<J>(env: Env, body: Result<JsonBody, Thrown>, isValidUrl: string -> bool,
                     respond: ResponsesRequest -> Result<string, Thrown>,
                     parse: string -> Result<J, Thrown>): (r: Exchange<J, ResponsesRequest>)
    ensures r.response.Err? ==> r.response.status == 500 || r.response.status == 400
    ensures r.response.Ok? ==> r.call.Some? && respond(r.call.value).Success?
  {
    if !Truthy(env.openaiKey) then Exchange(Err(500, Text(MissingKeyMessage)), None)
    else
      match body
      case Failure(e) => Exchange(Err(400, MessageOr(e, UnknownErrorMessage)), None)
      case Success(json) =>
        match ValidateBody(json, isValidUrl)
        case Failure(issues) => Exchange(Err(400, SchemaIssues(issues)), None)
        case Success(req) =>
          var call := RequestFor(env, req);
          match respond(call)
          case Failure(e) => Exchange(Err(400, MessageOr(e, UnknownErrorMessage)), Some(call))
          case Success(text) =>
            match parse(text)
            case Failure(e) => Exchange(Err(400, MessageOr(e, UnknownErrorMessage)), Some(call))
            case Success(data) => Exchange(Ok(data), Some(call))
  }

  // ---------------------------------------------------------------------
  // The schema

  /**
   * The transcript is accepted exactly when it is a string of 200 to 200000
   * characters; a shorter one is refused with the schema's own message.
   */
  lemma TranscriptBounds(f: map<string, JsonValue>, t: string)
    requires "transcript" in f && f["transcript"] == JString(t)
    ensures ValidateTranscript(f).Success? <==> 200 <= |t| <= 200000
    ensures |t| < 200 ==> ValidateTranscript(f) == Failure(Issue("transcript", TooSmall(200, "Transcript is too short.")))
    ensures |t| > 200000 ==> ValidateTranscript(f) == Failure(Issue("transcript", TooBig(200000)))
  {
  }

  /**
   * The URL field accepts an absent value, any string passing the URL check,
   * and the empty string, which reads as absent; other strings and
   * non-strings are refused.
   */
  lemma UrlCases(f: map<string, JsonValue>, isValidUrl: string -> bool)
    ensures "url" !in f ==> ValidateUrl(f, isValidUrl) == Success(None)
    ensures "url" in f && f["url"] == JString("") && !isValidUrl("") ==> ValidateUrl(f, isValidUrl) == Success(None)
    ensures "url" in f && f["url"].JString? && isValidUrl(f["url"].s) ==> ValidateUrl(f, isValidUrl) == Success(Some(f["url"].s))
    ensures ValidateUrl(f, isValidUrl).Failure? <==>
      "url" in f && (f["url"].JOther? || (f["url"].s != "" && !isValidUrl(f["url"].s)))
    ensures "url" in f && f["url"].JString? && f["url"].s != "" && !isValidUrl(f["url"].s) ==>
      ValidateUrl(f, isValidUrl) == Failure(Issue("url", InvalidUrl))
    ensures "url" in f && f["url"].JOther? ==> ValidateUrl(f, isValidUrl) == Failure(Issue("url", InvalidUnion))
  {
  }

  /** The schema accepts a body exactly when both fields are accepted, and then keeps the transcript verbatim. */
  lemma ValidateBodyAccepts(f: map<string, JsonValue>, isValidUrl: string -> bool)
    ensures ValidateBody(JObject(f), isValidUrl).Success? <==>
      ValidateUrl(f, isValidUrl).Success? && ValidateTranscript(f).Success?
    ensures ValidateBody(JObject(f), isValidUrl).Failure? ==>
      1 <= |ValidateBody(JObject(f), isValidUrl).error| <= 2
    ensures ValidateBody(JObject(f), isValidUrl).Success? ==>
      ValidateBody(JObject(f), isValidUrl).value.transcript == f["transcript"].s
  {
  }

  // ---------------------------------------------------------------------
  // The prompt

  /** The prompt shows a non-empty URL verbatim, and `(none)` for an empty or absent one. */
  lemma UrlTextCases(url: Option<string>)
    ensures url.Some? && url.value != "" ==> UrlText(url) == url.value
    ensures !(url.Some? && url.value != "") ==> UrlText(url) == "(none)"
  {
  }

  /** Any frame whose middle starts with a line break reads back its single-line first part and its second part. */
  lemma FramedRoundTrip(head: string, mid: string, tail: string, u: string, t: string)
    requires '\n' !in u && |mid| > 0 && mid[0] == '\n'
    ensures ParseFramed(head + u + mid + t + tail, head, mid, tail) == Some((u, t))
  {
    var rest := u + mid + t + tail;
    assert head + u + mid + t + tail == head + rest;
    assert (head + rest)[..|head|] == head;
    assert (head + rest)[|head|..] == rest;
    BodyRoundTrip(mid, tail, u, t);
  }

  lemma BodyRoundTrip(mid: string, tail: string, u: string, t: string)
    requires '\n' !in u && |mid| > 0 && mid[0] == '\n'
    ensures ParseBody(u + mid + t + tail, mid, tail) == Some((u, t))
  {
    var rest := u + mid + t + tail;
    var b := mid[1..] + t + tail;
    assert rest == u + ['\n'] + b;
    IndexOfJoined(u, '\n', b);
    assert rest[|u|..] == mid + t + tail;
    FrameEnds(mid, t, tail);
  }

  lemma FrameEnds(mid: string, t: string, tail: string)
    ensures var after := mid + t + tail;
      && after[..|mid|] == mid && after[|after| - |tail|..] == tail
      && after[|mid|..|after| - |tail|] == t
  {
  }

  /**
   * The prompt reads back as the URL text and the transcript it was built
   * from, provided the URL text is a single line; so the transcript reaches
   * the model verbatim, between the quote lines.
   */
  lemma PromptRoundTrip(urlText: string, transcript: string)
    requires '\n' !in urlText
    ensures ParsePrompt(Prompt(urlText, transcript)) == Some((urlText, transcript))
  {
    assert PromptMid[0] == '\n';
    FramedRoundTrip(PromptHead, PromptMid, PromptTail, urlText, transcript);
  }

  /**
   * Whatever the URL text, even one spanning several lines, the prompt starts
   * with the head and ends with the tail, and the transcript sits verbatim
   * between the middle and the tail.
   */
  lemma PromptTranscript(urlText: string, transcript: string)
    ensures var p, k := Prompt(urlText, transcript), |PromptHead| + |urlText| + |PromptMid|;
      && |p| == k + |transcript| + |PromptTail|
      && p[..|PromptHead|] == PromptHead
      && p[k - |PromptMid|..k] == PromptMid
      && p[k..k + |transcript|] == transcript
      && p[k + |transcript|..] == PromptTail
  {
    FrameSlices(PromptHead, urlText, PromptMid, transcript, PromptTail);
  }

  lemma FrameSlices(head: string, u: string, mid: string, t: string, tail: string)
    ensures var p, k := head + u + mid + t + tail, |head| + |u| + |mid|;
      && |p| == k + |t| + |tail|
      && p[..|head|] == head
      && p[k - |mid|..k] == mid
      && p[k..k + |t|] == t
      && p[k + |t|..] == tail
  {
  }

  // ---------------------------------------------------------------------
  // The handler

  /** Without a key the route answers 500 before reading the body or calling the model. */
  lemma HandleMissingKey<J>(env: Env, body: Result<JsonBody, Thrown>, isValidUrl: string -> bool,
                            respond: ResponsesRequest -> Result<string, Thrown>, parse: string -> Result<J, Thrown>)
    requires !Truthy(env.openaiKey)
    ensures Handle(env, body, isValidUrl, respond, parse) == Exchange(Err(500, Text(MissingKeyMessage)), None)
  {
  }

  /** With a key, a body that cannot be read or that the schema refuses is a 400, and the model is not called. */
  lemma HandleRejects<J>(env: Env, body: Result<JsonBody, Thrown>, isValidUrl: string -> bool,
                         respond: ResponsesRequest -> Result<string, Thrown>, parse: string -> Result<J, Thrown>)
    requires Truthy(env.openaiKey)
    ensures body.Failure? ==>
      Handle(env, body, isValidUrl, respond, parse) == Exchange(Err(400, MessageOr(body.error, UnknownErrorMessage)), None)
    ensures body.Success? && ValidateBody(body.value, isValidUrl).Failure? ==>
      Handle(env, body, isValidUrl, respond, parse)
        == Exchange(Err(400, SchemaIssues(ValidateBody(body.value, isValidUrl).error)), None)
  {
  }

  /**
   * The route succeeds exactly when the key is set, the body is valid, the
   * model answers and its text parses; it then returns the parsed value as
   * it is. The model is called once, with the configured model or
   * `gpt-4o-mini`, the system message, the prompt and temperature 0.4; a
   * failure of the model call, or a text that does not parse, is a 400 with
   * the thrown message or "Unknown error".
   */
  lemma HandleSucceeds<J>(env: Env, body: Result<JsonBody, Thrown>, isValidUrl: string -> bool,
                          respond: ResponsesRequest -> Result<string, Thrown>, parse: string -> Result<J, Thrown>)
    ensures var r := Handle(env, body, isValidUrl, respond, parse);
      r.response.Ok? <==>
        && Truthy(env.openaiKey) && body.Success? && ValidateBody(body.value, isValidUrl).Success?
        && (var call := RequestFor(env, ValidateBody(body.value, isValidUrl).value);
            && r.call == Some(call)
            && respond(call).Success? && parse(respond(call).value).Success?
            && r.response.payload == parse(respond(call).value).value)
    ensures var r := Handle(env, body, isValidUrl, respond, parse);
      r.call.Some? && respond(r.call.value).Failure? ==>
        r.response == Err(400, MessageOr(respond(r.call.value).error, UnknownErrorMessage))
    ensures var r := Handle(env, body, isValidUrl, respond, parse);
      r.call.Some? && respond(r.call.value).Success? && parse(respond(r.call.value).value).Failure? ==>
        r.response == Err(400, MessageOr(parse(respond(r.call.value).value).error, UnknownErrorMessage))
  {
  }

  /**
   * A body whose `url` is the empty string is handled exactly like the same
   * body without `url`, whatever the URL check says of the empty string.
   */
  lemma HandleEmptyUrl<J>(env: Env, f: map<string, JsonValue>, isValidUrl: string -> bool,
                          respond: ResponsesRequest -> Result<string, Thrown>, parse: string -> Result<J, Thrown>)
    ensures Handle(env, Success(JObject(f["url" := JString("")])), isValidUrl, respond, parse)
         == Handle(env, Success(JObject(f - {"url"})), isValidUrl, respond, parse)
  {
    var f1, f0 := f["url" := JString("")], f - {"url"};
    assert ValidateTranscript(f1) == ValidateTranscript(f0) by {
      assert "transcript" in f1 <==> "transcript" in f0;
      if "transcript" in f0 {
        assert f1["transcript"] == f0["transcript"];
      }
    }
    assert ValidateUrl(f0, isValidUrl) == Success(None);
    assert ValidateUrl(f1, isValidUrl) == Success(None) || ValidateUrl(f1, isValidUrl) == Success(Some(""));
    UrlTextCases(Some(""));
    UrlTextCases(None);
  }
}
