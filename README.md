# media-clipper: a verified model of the transcript and content-pack core

media-clipper is a one-page Next.js app. It turns a long video into a
"content pack": a title, key points, chapters, clip suggestions and social
posts. First it gets a transcript. It can fetch the video's YouTube captions
(`POST /api/transcript`) or send an uploaded audio or video file to a
speech-to-text service (`POST /api/transcribe`). Then it sends the transcript
to a language model with a fixed prompt (`POST /api/generate`). The page
works out the YouTube id of the typed URL, counts the transcript's
characters and words, decides when the two buttons are enabled, and names
the downloaded JSON file.

This project models the three route handlers and the page's pure helpers
as Dafny functions, and proves lemmas about them. The modules are:

- `Wrappers`: `Option` and `Result`.
- `Seqs`: `map` over sequences.
- `JsStrings`: the JavaScript string operations the code relies on: `trim`,
  `replace(/\s+/g, c)`, `split(/\s+/)`, `split(c)`, `join(c)`, `includes`
  and `replace(c, "")`, with `\s` spelled out as the ECMAScript white-space
  and line-terminator sets.
- `Decimal`: `String(n)` and `padStart(2, "0")`, with their inverse.
- `Timecode`: a parser from `H:MM:SS` / `M:SS` back to seconds. Neither
  route reads a timestamp back. The parser is the independent reference
  that both timestamp renderings are proved against.
- `Http`: the common currency of the handlers:
  - JSON request bodies, schema issues and thrown errors;
  - responses with status codes, and the environment variables.

  Each handler returns an `Exchange`: its response plus the one outbound
  call it made, if any. This is what makes "no call is made before
  validation" provable.
- `TranscriptRoute`, `TranscribeRoute`, `GenerateRoute` and `Page`: one
  module per core file.

The outside world enters as function parameters:
- the schema's URL check;
- the caption service, the transcription service and the model service;
- `JSON.parse`;
- the browser's URL parser.

The lemmas therefore hold for every behaviour of those services.

Some of these properties are consequences of the code that may surprise
its readers, stated as lemmas:

- A caption-service failure is answered with status 400, like every other
  thrown error. Only a transcript shorter than 50 characters gives 404
  (`TranscriptRoute.HandleNotFound`, `TranscriptRoute.HandleRejects`).
- A caption item with an offset is never dropped, even when its text is
  blank: its line is the timestamp and a space. Only items with no offset
  and blank text are filtered out (`TranscriptRoute.CaptionLineDropped`).
  Speech-to-text segments are never dropped at all
  (`TranscribeRoute.VerboseTranscriptLines`).
- The two routes render timestamps differently from one hour on. The
  caption route switches to `HH:MM:SS`, while segment timestamps stay
  `MM:SS` with the minutes unbounded (`TranscribeRoute.MmSsAgreesBelowAnHour`).
- The page enables "generate" on the trimmed length, but the route checks
  the raw length. The two disagree at both ends (`Page.GenerateGate`).

## Model

| member | source | states |
|---|---|---|
| JsStrings.TrimStart | src/app/page.tsx:46 | the result is a suffix of the input that starts with a visible character (or is empty), and everything cut off is white space |
| JsStrings.TrimEnd | src/app/page.tsx:46 | the result is a prefix of the input that ends with a visible character (or is empty), and everything cut off is white space |
| JsStrings.Trim | src/app/page.tsx:46 | the result is a slice of the input with no white space at either end |
| JsStrings.TrimBlank | src/app/page.tsx:46 | trimming gives the empty string exactly when the input is all white space |
| JsStrings.TrimNoop | src/app/page.tsx:9 | a string with no white space at either end is its own trim |
| JsStrings.TrimPadded | src/app/page.tsx:50 | surrounding a string with white space does not change its trim |
| JsStrings.VisibleTrim | src/app/page.tsx:46 | trimming removes white space only: the visible characters are kept, in order |
| JsStrings.ReplaceRuns | src/app/page.tsx:132 | replacing white-space runs keeps the result non-empty exactly when the input is; every character other than the replacement is visible; with a white-space replacement no two replacements are adjacent |
| JsStrings.ReplaceRunsNoSpace | src/app/page.tsx:132 | a string without white space is left unchanged |
| JsStrings.VisibleReplaceRuns | src/app/api/transcript/route.ts:36 | replacing runs by a white-space character keeps every visible character, in order |
| JsStrings.ReplaceRunsIsSplitJoin | src/app/page.tsx:132 | replacing each white-space run by c equals splitting at white-space runs and joining with c |
| JsStrings.CollapseShape | src/app/api/transcript/route.ts:36 | the normalised text is one line, has no white space except single interior spaces, and keeps every visible character of the input, in order |
| JsStrings.CollapseNoBreak | src/app/api/transcribe/route.ts:62 | the normalised text holds no line break |
| JsStrings.CollapseVisible | src/app/api/transcribe/route.ts:62 | the normalised text has the same visible characters as the input |
| JsStrings.CollapseOnlySpaces | src/app/api/transcript/route.ts:36 | the only white space left by normalisation is the plain space |
| JsStrings.CollapseNoDoubleSpace | src/app/api/transcript/route.ts:36 | normalisation never leaves two spaces in a row |
| JsStrings.SplitWs | src/app/page.tsx:46 | splitting at white-space runs gives at least one piece, no piece holds white space, and a text starting with a visible character starts its first piece with it |
| JsStrings.Split | src/app/page.tsx:16 | splitting at a separator gives at least one piece, and no piece holds the separator |
| JsStrings.JoinSplit | src/app/page.tsx:16 | joining the pieces of a split gives the string back |
| JsStrings.SplitJoin | src/app/api/transcript/route.ts:40 | splitting a join gives the pieces back when there is at least one piece and none holds the separator |
| JsStrings.NonEmpty | src/app/api/transcript/route.ts:39 | `filter(Boolean)` keeps only non-empty strings, each taken from the input, and never lengthens the list |
| JsStrings.NonEmptyAppend | src/app/api/transcript/route.ts:39 | filtering a concatenation filters each part, in order |
| JsStrings.NonEmptySingleton | src/app/api/transcript/route.ts:39 | filtering one string keeps it exactly when it is non-empty |
| JsStrings.RemoveFirst | src/app/page.tsx:9 | `replace("/", "")` removes the first slash only, and changes nothing when there is none |
| JsStrings.IndexOf | src/app/page.tsx:9 | the index found points at the first occurrence of the character |
| JsStrings.ContainsInfix | src/app/page.tsx:8 | `includes` holds for any string with the substring inside it |
| Seqs.MapSeq | src/app/api/transcript/route.ts:33-38 | `map` keeps the length and applies the function to each element in place |
| Seqs.MapSeqAppend | src/app/api/transcript/route.ts:33-38 | mapping a concatenation maps each part, in order |
| Decimal.NatToString | src/app/api/transcript/route.ts:18-19 | `String(n)` is a non-empty digit string denoting n, with no leading zero, of one digit below 10 and at most two below 100 |
| Decimal.PadStart2 | src/app/api/transcript/route.ts:18-19 | `padStart(2, "0")` leaves strings of two or more characters alone and left-fills shorter ones with zeros to length 2 |
| Decimal.Field2 | src/app/api/transcript/route.ts:18-19 | a padded field is a digit string of at least two characters denoting n, exactly two when n < 100 |
| Decimal.ParseField2 | src/app/api/transcript/route.ts:18-19 | a padded field parses back to its number |
| Decimal.Field2Excludes | src/app/api/transcribe/route.ts:61 | a padded field holds no non-digit character |
| Timecode.ParseTwoFields | src/app/api/transcribe/route.ts:59-61 | two padded fields joined by a colon form a two-field timestamp denoting m * 60 + s |
| Timecode.ParseThreeFields | src/app/api/transcript/route.ts:14-18 | three padded fields joined by colons form a three-field timestamp denoting h * 3600 + m * 60 + s |
| TranscriptRoute.HhmmssRoundTrip | src/app/api/transcript/route.ts:12-20 | a caption timestamp reads back as the number of seconds clamped at 0 |
| TranscriptRoute.HmsSplit | src/app/api/transcript/route.ts:13-16 | the hour, minute and second fields recombine to the seconds, minutes and seconds are below 60, and the hour field is 0 exactly below one hour |
| TranscriptRoute.HhmmssShape | src/app/api/transcript/route.ts:17-19 | two fields below one hour and three from one hour on; 5 characters below one hour, 8 below 100 hours, more from 100 hours (the hour field is not cut) |
| TranscriptRoute.HhmmssChars | src/app/api/transcript/route.ts:17-19 | a caption timestamp consists of digits and colons only |
| TranscriptRoute.HhmmssNoBreak | src/app/api/transcript/route.ts:17-19 | a caption timestamp holds no space and no line break |
| TranscriptRoute.HhmmssClampsNegative | src/app/api/transcript/route.ts:13 | any non-positive input renders as `00:00` |
| TranscriptRoute.HhmmssOverAnHour | src/app/api/transcript/route.ts:17-18 | 3661 seconds render as `01:01:01` |
| TranscriptRoute.HhmmssHundredHours | src/app/api/transcript/route.ts:18 | 360000 seconds render as `100:00:00` |
| TranscriptRoute.CaptionLineOneLine | src/app/api/transcript/route.ts:34-38 | every caption line is a single line |
| TranscriptRoute.CaptionLineParts | src/app/api/transcript/route.ts:35-37 | with an offset, the line's first space follows a timestamp that reads back as the offset in whole seconds clamped at 0, and the rest is the normalised text; without one, the line is the normalised text |
| TranscriptRoute.CaptionLineDropped | src/app/api/transcript/route.ts:37-39 | an item is filtered out exactly when it has no offset and blank text; otherwise its line is kept |
| TranscriptRoute.TimedLineNonEmpty | src/app/api/transcript/route.ts:37 | a line with a timestamp is never empty |
| TranscriptRoute.CaptionLinesShape | src/app/api/transcript/route.ts:33-39 | there are at most as many lines as items, and every line is non-empty and single-line |
| TranscriptRoute.CaptionLinesAppend | src/app/api/transcript/route.ts:33-39 | the lines of concatenated items are the lines of each part, in order |
| TranscriptRoute.CaptionTranscriptLines | src/app/api/transcript/route.ts:33-40 | splitting the transcript at newlines gives back its lines; the transcript is empty exactly when no line is kept |
| TranscriptRoute.Handle | src/app/api/transcript/route.ts:22-58 | every failure is 400 or 404; a success carries a transcript of at least 50 characters and follows a service call |
| TranscriptRoute.HandleSucceeds | src/app/api/transcript/route.ts:24-49 | success happens exactly when the body is valid, the service (asked once with the URL and the language or "en") returns items, and their transcript is at least 50 characters; the payload is that transcript and the number of items fetched |
| TranscriptRoute.HandleNotFound | src/app/api/transcript/route.ts:42-47 | 404 happens exactly when the service answered and the transcript is under 50 characters; an empty item list is always 404 |
| TranscriptRoute.HandleRejects | src/app/api/transcript/route.ts:24-25 | an unreadable or refused body is a 400 before any service call; a service failure is a 400 with its message or the fixed fallback |
| TranscriptRoute.ValidateBodyAccepts | src/app/api/transcript/route.ts:7-10 | the schema accepts exactly a string `url` that passes the URL check with `lang` absent or a string, and keeps the URL |
| TranscribeRoute.Handle | src/app/api/transcribe/route.ts:8-76 | every failure is 400, 413 or 500; a success follows a call with a key set, reports the byte count of the file sent (at most 25 MiB) and the non-empty model used |
| TranscribeRoute.MmSsRoundTrip | src/app/api/transcribe/route.ts:58-61 | a segment timestamp always has two fields and reads back as the segment's start |
| TranscribeRoute.MmSsShape | src/app/api/transcribe/route.ts:59-61 | a segment timestamp holds no space and no line break, and is 5 characters exactly below 100 minutes |
| TranscribeRoute.MmSsOverAnHour | src/app/api/transcribe/route.ts:58-61 | 3661 seconds render as `61:01`, and a missing start as `00:00` |
| TranscribeRoute.MmSsAgreesBelowAnHour | src/app/api/transcribe/route.ts:59-61 | the segment and caption timestamps agree exactly below one hour |
| TranscribeRoute.SegmentLineParts | src/app/api/transcribe/route.ts:57-64 | a segment line is one line whose first space follows a timestamp reading back as the start (0 when absent); the rest is the normalised text, even when blank |
| TranscribeRoute.VerboseTranscriptLines | src/app/api/transcribe/route.ts:54-66 | with at least one segment the transcript splits into exactly one line per segment, in order; otherwise it is the flat text verbatim |
| TranscribeRoute.HandleMissingKey | src/app/api/transcribe/route.ts:10-15 | without a key the answer is 500 and nothing is read or called |
| TranscribeRoute.HandleRejects | src/app/api/transcribe/route.ts:17-38 | an unreadable form is 400, a non-file `file` is 400, and a file is refused with 413 exactly when it is over the limit, all without a call |
| TranscribeRoute.SizeBoundary | src/app/api/transcribe/route.ts:29-30 | the limit is inclusive: 26214400 bytes are sent and 26214401 are refused with 413 |
| TranscribeRoute.HandleSends | src/app/api/transcribe/route.ts:40-68 | an accepted file is sent once with its size, the configured model or `whisper-1`, the language hint and the verbose format; a failure is a 400 with the message or fallback, a success is the rendered transcript, the model and the size |
| TranscribeRoute.LanguageHint | src/app/api/transcribe/route.ts:42-47 | for an accepted upload, the call carries a language exactly when the `lang` entry is a non-empty text, and then that text verbatim |
| GenerateRoute.ValidateUrl | src/app/api/generate/route.ts:8 | an accepted URL is the string given in the body; a refusal is at `url`, and is a union issue exactly when the value is not a string (a non-empty string failing the check gets the URL issue) |
| GenerateRoute.ValidateTranscript | src/app/api/generate/route.ts:9 | an accepted transcript is the string given in the body, of 200 to 200000 characters |
| GenerateRoute.TranscriptBounds | src/app/api/generate/route.ts:9 | the transcript is accepted exactly when it has 200 to 200000 characters; too short gives the schema's own message, too long the maximum |
| GenerateRoute.UrlCases | src/app/api/generate/route.ts:8 | an absent URL, the empty string and any string passing the URL check are accepted, the empty string as absent; the field is refused exactly when it is not a string (a union issue), or a non-empty string failing the check (a URL issue) |
| GenerateRoute.ValidateBodyAccepts | src/app/api/generate/route.ts:7-10 | the schema accepts a body exactly when both fields are accepted, reports one or two issues otherwise, and keeps the transcript verbatim |
| GenerateRoute.UrlTextCases | src/app/api/generate/route.ts:31 | the prompt shows a non-empty URL verbatim and `(none)` otherwise |
| GenerateRoute.FramedRoundTrip | src/app/api/generate/route.ts:31 | text framed by a head, a middle starting with a line break and a tail reads back as its single-line first part and its second part |
| GenerateRoute.BodyRoundTrip | src/app/api/generate/route.ts:31 | the part of the prompt after its head reads back as the URL text and the transcript |
| GenerateRoute.PromptRoundTrip | src/app/api/generate/route.ts:31 | the prompt reads back as its URL text and transcript, so the transcript reaches the model verbatim |
| GenerateRoute.PromptTranscript | src/app/api/generate/route.ts:31 | for any URL text, multi-line included, the prompt starts with the fixed head, ends with the fixed task, and holds the transcript verbatim right after the opening quote line |
| GenerateRoute.Handle | src/app/api/generate/route.ts:14-54 | every failure is 500 or 400; a success follows a call that the model answered |
| GenerateRoute.HandleMissingKey | src/app/api/generate/route.ts:16-21 | without a key the answer is 500 and nothing is read or called |
| GenerateRoute.HandleRejects | src/app/api/generate/route.ts:23-24 | an unreadable or refused body is a 400 before the model is called |
| GenerateRoute.HandleSucceeds | src/app/api/generate/route.ts:26-46 | success happens exactly when the key is set, the body is valid, the model (called once with the model or `gpt-4o-mini`, the prompt and temperature 0.4) answers and its text parses; the payload is the parsed value itself; a model failure, and a model text that does not parse, are each a 400 with the thrown message or "Unknown error" |
| GenerateRoute.HandleEmptyUrl | src/app/api/generate/route.ts:8 | a body whose `url` is the empty string is handled exactly like the same body without `url` |
| Page.FindMarker | src/app/page.tsx:17 | the index found is the first `shorts` or `embed` segment, and none is found when there is none |
| Page.YouTubeId | src/app/page.tsx:5-24 | an id, when found, is never empty |
| Page.ShortLink | src/app/page.tsx:8-11 | `youtu.be/<id>` gives the id when it has no white space at its ends; the `v` parameter is ignored; no id exactly when the path is blank after its first slash |
| Page.WatchLink | src/app/page.tsx:12-14 | on a `youtube.com` host a non-empty `v` parameter is the id, verbatim |
| Page.HostBySubstring | src/app/page.tsx:12 | any host name containing `youtube.com` counts as YouTube |
| Page.PathLink | src/app/page.tsx:15-18 | without `v`, `/shorts/<id>` and `/embed/<id>` give the id for any one-segment id |
| Page.PathSegments | src/app/page.tsx:16 | the non-empty segments of `/a/b` are a and b |
| Page.PathRule | src/app/page.tsx:15-20 | without `v`, an id is found exactly when some non-empty path segment other than the last is `shorts` or `embed`, and it is the segment after the first such one; otherwise none |
| Page.PathLinkFirstMarker | src/app/page.tsx:17-18 | the first marker decides: `/embed/shorts` gives `shorts` |
| Page.OtherHost | src/app/page.tsx:19-23 | other hosts, and URLs that do not parse, give no id |
| Page.TranscriptWords | src/app/page.tsx:44-48 | the character count is the raw length; the word count is 0 exactly on a blank transcript and equals an independent count of words |
| Page.CountSkipsSpace | src/app/page.tsx:46 | a leading white-space run counts no word |
| Page.CountIgnoresTrailing | src/app/page.tsx:46 | trailing white space counts no word |
| Page.CountTrim | src/app/page.tsx:46 | trimming does not change the word count |
| Page.SplitWsCount | src/app/page.tsx:46 | a text not ending in white space splits into one piece more than the words after its white-space runs |
| Page.GenerateGate | src/app/page.tsx:300 | an enabled button always sends at least 200 raw characters; 200 spaces pass the route while the button is disabled; 200001 characters enable it while the route refuses them |
| Page.FetchGate | src/app/page.tsx:215 | white space around the typed URL changes neither the id shown nor whether fetching is enabled; an enabled button always has a non-empty id |
| Page.SlugShape | src/app/page.tsx:132 | the title part of the file name has 1 to 40 characters and no white space |
| Page.SlugRuns | src/app/page.tsx:132 | the title part is the first 40 characters with each white-space run replaced by one `-` |
| Page.SlugVerbatim | src/app/page.tsx:132 | a title of at most 40 characters without white space is kept as it is, or "video" when empty |
| Page.SlugDefault | src/app/page.tsx:132 | a missing or empty title gives "video" |
| Page.DownloadFileNameParts | src/app/page.tsx:132 | the file name is `content-pack-`, the title part, then `.json` |

## Left out

- The page's React state, rendering and event handlers (fetching, uploading, generating, copying) are interactive code around `fetch`. Only the pure helpers they call are modelled.
- `downloadJson`'s Blob, object URL and anchor click are left out; only the file name it builds is modelled.
- The network is not modelled. The caption, transcription and model services are function parameters. So are `JSON.parse`, the schema's URL check and the browser's URL parser, each given as an oracle.
- The text of the error messages the schema library composes is not modelled character by character. A refused body carries the list of issues (`Http.SchemaIssues`).
- The environment, the multipart form and the uploaded `File` are reduced to what the handlers read. These are three optional strings, a form entry that is missing, a text or a file of a given size, and the `lang` entry.
- Floating point is not modelled. Caption offsets are whole milliseconds, and `offset / 1000` is floored as `Math.floor` would do. Segment starts are whole non-negative seconds. The temperature 0.4 is carried as 4 tenths.
- TranscribeRoute.MmSs: negative segment starts are not modelled. A negative `start` would give a negative minute field, and the model takes starts as natural numbers.
- String lengths count Unicode scalar values, not UTF-16 code units. So the 50-character, 200-character and 40-character rules can differ from JavaScript on text outside the Basic Multilingual Plane. The same goes for `slice(0, 40)` cutting a surrogate pair.
- The model has no concurrency (in-flight flags are parameters) and no logging.
- The content pack the model returns is not checked against its intended shape. The route returns whatever text parses, unmodified, and these functions do the same.
- GenerateRoute.PromptRoundTrip: the full read-back needs a single-line URL text. A URL with a line break can pass the URL check, and then only the position of the transcript is proved (`GenerateRoute.PromptTranscript`), not the read-back of the URL text.
