/**
 * The speech-to-text route (`POST /api/transcribe`): checks the server key,
 * takes the uploaded `file` (and an optional `lang`) from a multipart form,
 * refuses files over 25 MiB, asks the transcription service for a verbose
 * result and renders its segments as `MM:SS text` lines, falling back to the
 * flat text when there are no segments.
 */
module TranscribeRoute {
  import opened Wrappers
  import opened JsStrings
  import opened Decimal
  import opened Timecode
  import opened Http
  import opened Seqs
  import TranscriptRoute

  /** What `form.get(name)` returns: nothing, a text entry, or an uploaded file of `size` bytes. */
  datatype FormValue = Missing | TextEntry(s: string) | FileEntry(size: nat)

  /** The two form fields the route reads. */
  datatype Form = Form(file: FormValue, lang: FormValue)

  /** The upload limit: 25 MiB. */
  const MaxBytes: nat := 25 * 1024 * 1024

  /** The transcription call: the uploaded file (by size), the model, the language hint and the response format. */
  datatype TranscriptionRequest = TranscriptionRequest(fileSize: nat, model: string, language: Option<string>, responseFormat: string)

  /** One segment of a verbose transcription: its start in whole seconds when it is a number, and its text. */
  datatype Segment = Segment(start: Option<nat>, text: Option<string>)

  /** A verbose transcription result: the flat text and the segments, each possibly absent. */
  datatype Verbose = Verbose(text: Option<string>, segments: Option<seq<Segment>>)

  /** The success payload `{ transcript, meta: { model, bytes } }`. */
  datatype Transcribed = Transcribed(transcript: string, model: string, bytes: nat)

  const MissingFileMessage: string := "Missing file. Expected multipart/form-data with field 'file'."
  const TooLargeMessage: string := "File too large for direct transcription. Export audio (mp3/m4a) and keep it under ~25MB, or we can add chunking later."
  const TranscribeFailedMessage: string := "Failed to transcribe."

  /**
   * A segment timestamp: minutes and seconds, each padded to two digits. The
   * minutes are never folded into hours.
   */
  function MmSs(start: nat): string {
    Field2(start / 60) + ":" + Field2(start % 60)
  }

  /** A segment's text with its white-space runs collapsed and its ends trimmed (a missing text is ""). */
  function SegmentText(s: Segment): string {
    Collapse(s.text.GetOr(""))
  }

  /** The line a segment maps to: `"<MM:SS of start, 0 when absent> <text>"`. */
  function SegmentLine(s: Segment): string {
    MmSs(s.start.GetOr(0)) + " " + SegmentText(s)
  }

  /** The transcript: the segment lines joined with newlines when there are segments, otherwise the flat text. */
  function VerboseTranscript(v: Verbose): string {
    if v.segments.Some? && |v.segments.value| > 0 then Join(MapSeq(SegmentLine, v.segments.value), '\n')
    else v.text.GetOr("")
  }

  /** The language hint: the `lang` entry when it is a non-empty text, otherwise none. */
  function LanguageOf(lang: FormValue): Option<string> {
    if lang.TextEntry? && lang.s != "" then Some(lang.s) else None
  }

  /**
   * The route handler. `form` is the outcome of reading the multipart body
   * and `transcribe` the transcription service.
   */
  function Handle(env: Env, form: Result<Form, Thrown>,
                  transcribe: TranscriptionRequest -> Result<Verbose, Thrown>): (r: Exchange<Transcribed, TranscriptionRequest>)
    ensures r.response.Err? ==> r.response.status == 400 || r.response.status == 413 || r.response.status == 500
    ensures r.response.Ok? ==>
      && r.call.Some? && Truthy(env.openaiKey)
      && r.response.payload.bytes == r.call.value.fileSize <= MaxBytes
      && r.response.payload.model == r.call.value.model != ""
  {
    if !Truthy(env.openaiKey) then Exchange(Err(500, Text(MissingKeyMessage)), None)
    else
      match form
      case Failure(e) => Exchange(Err(400, MessageOr(e, TranscribeFailedMessage)), None)
      case Success(f) =>
        if !f.file.FileEntry? then Exchange(Err(400, Text(MissingFileMessage)), None)
        else if f.file.size > MaxBytes then Exchange(Err(413, Text(TooLargeMessage)), None)
        else
          var model := OrElse(env.transcribeModel, "whisper-1");
          var call := TranscriptionRequest(f.file.size, model, LanguageOf(f.lang), "verbose_json");
          match transcribe(call)
          case Failure(e) => Exchange(Err(400, MessageOr(e, TranscribeFailedMessage)), Some(call))
          case Success(v) => Exchange(Ok(Transcribed(VerboseTranscript(v), model, f.file.size)), Some(call))
  }

  // ---------------------------------------------------------------------
  // The segment timestamp

  /** A segment timestamp always has two fields and reads back as the segment's start. */
  lemma MmSsRoundTrip(start: nat)
    ensures FieldCount(MmSs(start)) == 2
    ensures ParseTimestamp(MmSs(start)) == Some(start)
  {
    var m, sec := start / 60, start % 60;
    assert m * 60 + sec == start;
    ParseTwoFields(m, sec);
    assert MmSs(start) == Field2(m) + ":" + Field2(sec);
  }

  /** A segment timestamp holds neither a space nor a line break, and is five characters below 100 minutes. */
  lemma MmSsShape(start: nat)
    ensures ' ' !in MmSs(start) && '\n' !in MmSs(start)
    ensures start < 6000 <==> |MmSs(start)| == 5
  {
    Field2Excludes(start / 60, ' ');
    Field2Excludes(start % 60, ' ');
    Field2Excludes(start / 60, '\n');
    Field2Excludes(start % 60, '\n');
  }

  /** An hour, a minute and a second render as 61 minutes and one second; a missing start renders as `00:00`. */
  lemma MmSsOverAnHour()
    ensures MmSs(3661) == "61:01"
    ensures MmSs(Segment(None, None).start.GetOr(0)) == "00:00"
  {
    assert NatToString(0) == "0";
    assert 3661 / 60 == 61 && 3661 % 60 == 1;
    assert NatToString(1) == "1";
    assert Field2(1) == "01";
    assert NatToString(6) == "6";
    assert NatToString(61) == "61";
  }

  /**
   * The two routes render the same timestamp below one hour, and different
   * ones from one hour on: the caption route adds an hour field, the
   * speech-to-text route does not.
   */
  lemma MmSsAgreesBelowAnHour(start: nat)
    ensures start < 3600 <==> MmSs(start) == TranscriptRoute.Hhmmss(start)
  {
    if start < 3600 {
      TranscriptRoute.HmsSplit(start);
      assert TranscriptRoute.Clamp(start) == start;
    } else {
      MmSsRoundTrip(start);
      TranscriptRoute.HhmmssShape(start);
    }
  }

  // ---------------------------------------------------------------------
  // The segment lines

  /**
   * A segment line is a single line; its first space follows a timestamp
   * that reads back as the segment's start (0 when absent), and the rest is
   * the segment's collapsed text, even when that is blank.
   */
  lemma SegmentLineParts(s: Segment)
    ensures '\n' !in SegmentLine(s)
    ensures var line, k := SegmentLine(s), |MmSs(s.start.GetOr(0))|;
      && k < |line| && line[k] == ' ' && ' ' !in line[..k]
      && ParseTimestamp(line[..k]) == Some(s.start.GetOr(0))
      && line[k + 1..] == SegmentText(s)
  {
    var ts := MmSs(s.start.GetOr(0));
    MmSsShape(s.start.GetOr(0));
    MmSsRoundTrip(s.start.GetOr(0));
    CollapseShape(s.text.GetOr(""));
    assert SegmentLine(s) == ts + [' '] + SegmentText(s);
    JoinedExcludes(ts, ' ', SegmentText(s), '\n');
    PrefixSpaceSuffix(SegmentLine(s), ts, SegmentText(s));
  }

  /**
   * With at least one segment the transcript has exactly one line per
   * segment, in order, and no segment is dropped; otherwise it is the flat
   * text, verbatim.
   */
  lemma VerboseTranscriptLines(v: Verbose)
    ensures v.segments.Some? && |v.segments.value| > 0 ==>
      Split(VerboseTranscript(v), '\n') == MapSeq(SegmentLine, v.segments.value)
      && |Split(VerboseTranscript(v), '\n')| == |v.segments.value|
    ensures !(v.segments.Some? && |v.segments.value| > 0) ==> VerboseTranscript(v) == v.text.GetOr("")
  {
    if v.segments.Some? && |v.segments.value| > 0 {
      var lines := MapSeq(SegmentLine, v.segments.value);
      forall i | 0 <= i < |lines|
        ensures '\n' !in lines[i]
      {
        SegmentLineParts(v.segments.value[i]);
      }
      SplitJoin(lines, '\n');
    }
  }

  // ---------------------------------------------------------------------
  // The handler

  /** Without a key the route answers 500 before reading the form or calling the service. */
  lemma HandleMissingKey(env: Env, form: Result<Form, Thrown>,
                         transcribe: TranscriptionRequest -> Result<Verbose, Thrown>)
    requires !Truthy(env.openaiKey)
    ensures Handle(env, form, transcribe) == Exchange(Err(500, Text(MissingKeyMessage)), None)
  {
  }

  /**
   * With a key, a form that cannot be read, a `file` field that is not a
   * file, and a file over the limit are each answered without calling the
   * service: 400, 400 and 413.
   */
  lemma HandleRejects(env: Env, form: Result<Form, Thrown>,
                      transcribe: TranscriptionRequest -> Result<Verbose, Thrown>)
    requires Truthy(env.openaiKey)
    ensures form.Failure? ==>
      Handle(env, form, transcribe) == Exchange(Err(400, MessageOr(form.error, TranscribeFailedMessage)), None)
    ensures form.Success? && !form.value.file.FileEntry? ==>
      Handle(env, form, transcribe) == Exchange(Err(400, Text(MissingFileMessage)), None)
    ensures form.Success? && form.value.file.FileEntry? ==>
      (Handle(env, form, transcribe).response.Err? && Handle(env, form, transcribe).response.status == 413
       <==> form.value.file.size > MaxBytes)
  {
  }

  /** The limit is inclusive: a file of exactly 25 MiB is sent, one byte more is refused. */
  lemma SizeBoundary(env: Env, lang: FormValue, transcribe: TranscriptionRequest -> Result<Verbose, Thrown>)
    requires Truthy(env.openaiKey)
    ensures Handle(env, Success(Form(FileEntry(26214400), lang)), transcribe).call.Some?
    ensures Handle(env, Success(Form(FileEntry(26214401), lang)), transcribe) == Exchange(Err(413, Text(TooLargeMessage)), None)
  {
  }

  /**
   * An accepted upload is sent once, with its size, the configured model or
   * `whisper-1`, the language hint and the verbose format; a service failure
   * is a 400 with its message or a fixed fallback, and a success returns the
   * rendered transcript, the model and the file's size.
   */
  lemma HandleSends(env: Env, size: nat, lang: FormValue,
                    transcribe: TranscriptionRequest -> Result<Verbose, Thrown>)
    requires Truthy(env.openaiKey) && size <= MaxBytes
    ensures var r := Handle(env, Success(Form(FileEntry(size), lang)), transcribe);
      var call := TranscriptionRequest(size, OrElse(env.transcribeModel, "whisper-1"), LanguageOf(lang), "verbose_json");
      && r.call == Some(call)
      && (transcribe(call).Failure? ==> r.response == Err(400, MessageOr(transcribe(call).error, TranscribeFailedMessage)))
      && (transcribe(call).Success? ==>
            r.response == Ok(Transcribed(VerboseTranscript(transcribe(call).value), call.model, size)))
  {
  }

  /**
   * For an accepted upload, the call carries a language exactly when the
   * `lang` entry is a non-empty text, and then that text verbatim; an empty
   * text, an uploaded file in `lang`, or no entry sends none.
   */
  lemma LanguageHint(env: Env, size: nat, lang: FormValue,
                     transcribe: TranscriptionRequest -> Result<Verbose, Thrown>)
    requires Truthy(env.openaiKey) && size <= MaxBytes
    ensures var c := Handle(env, Success(Form(FileEntry(size), lang)), transcribe).call;
      && c.Some?
      && (c.value.language.Some? <==> lang.TextEntry? && lang.s != "")
      && (c.value.language.Some? ==> c.value.language.value == lang.s)
  {
  }
}
