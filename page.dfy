/**
 * The pure helpers of the single page: recognising a YouTube video id in a
 * URL, the transcript's character and word counts, when the two action
 * buttons are enabled, and the file name of the downloaded content pack.
 */
module Page {
  import opened Wrappers
  import opened JsStrings
  import opened Http
  import GenerateRoute

  // ---------------------------------------------------------------------
  // The YouTube id

  /** The parts of a parsed URL the id rule reads: host name, path, and the first `v` query value. */
  datatype ParsedUrl = ParsedUrl(hostname: string, pathname: string, v: Option<string>)

  /** The path segments after which an id follows. */
  predicate IsMarker(p: string) {
    p == "shorts" || p == "embed"
  }

  /** `parts.findIndex(p => p === "shorts" || p === "embed")`, None for -1. */
  function FindMarker(parts: seq<string>): (r: Option<nat>)
    ensures r.Some? ==> r.value < |parts| && IsMarker(parts[r.value])
    ensures forall j :: 0 <= j < |parts| && (r.None? || j < r.value) ==> !IsMarker(parts[j])
  {
    if |parts| == 0 then None
    else if IsMarker(parts[0]) then Some(0)
    else match FindMarker(parts[1..])
      case None => None
      case Some(i) => Some(i + 1)
  }

  /**
   * `getYouTubeId` on the outcome of parsing the URL: a `youtu.be` host
   * yields its path without the first slash, trimmed; a `youtube.com` host
   * yields a non-empty `v` parameter, or else the segment after the first
   * `shorts` or `embed` segment; anything else, and a URL that does not
   * parse, yields none.
   */
  function YouTubeId(u: Option<ParsedUrl>): (r: Option<string>)
    ensures r.Some? ==> r.value != ""
  {
    match u
    case None => None
    case Some(u) =>
      if Contains(u.hostname, "youtu.be") then
        var id := Trim(RemoveFirst(u.pathname, '/'));
        if id == "" then None else Some(id)
      else if Contains(u.hostname, "youtube.com") then
        if Truthy(u.v) then Some(u.v.value)
        else
          var parts := NonEmpty(Split(u.pathname, '/'));
          match FindMarker(parts)
          case Some(i) => if i + 1 < |parts| && parts[i + 1] != "" then Some(parts[i + 1]) else None
          case None => None
      else None
  }

  /** The id the page shows for the URL field: the rule on the trimmed text, parsed by `parseUrl`. */
  function PageYouTubeId(url: string, parseUrl: string -> Option<ParsedUrl>): Option<string> {
    YouTubeId(parseUrl(Trim(url)))
  }

  /**
   * A short link `youtu.be/<id>` yields its id, slashes included, when the
   * id is non-empty and has no white space at its ends; the path decides
   * alone, the `v` parameter is ignored, and a path that is blank after its
   * first slash yields none.
   */
  lemma ShortLink(host: string, path: string, id: string, v: Option<string>, w: Option<string>)
    requires Contains(host, "youtu.be")
    ensures id != "" && !IsSpace(id[0]) && !IsSpace(id[|id| - 1]) ==>
      YouTubeId(Some(ParsedUrl(host, "/" + id, v))) == Some(id)
    ensures YouTubeId(Some(ParsedUrl(host, path, v))) == YouTubeId(Some(ParsedUrl(host, path, w)))
    ensures YouTubeId(Some(ParsedUrl(host, path, v))).None? <==> AllSpace(RemoveFirst(path, '/'))
  {
    TrimBlank(RemoveFirst(path, '/'));
    if id != "" && !IsSpace(id[0]) && !IsSpace(id[|id| - 1]) {
      var p := "/" + id;
      assert p[0] == '/';
      assert RemoveFirst(p, '/') == id;
      TrimNoop(id);
    }
  }

  /** On a `youtube.com` host that is not a short-link host, a non-empty `v` parameter is the id, verbatim. */
  lemma WatchLink(host: string, path: string, id: string)
    requires !Contains(host, "youtu.be") && Contains(host, "youtube.com") && id != ""
    ensures YouTubeId(Some(ParsedUrl(host, path, Some(id)))) == Some(id)
  {
  }

  /**
   * The host test is a substring test: any host name with `youtube.com`
   * inside it, such as `youtube.com.example.org`, is treated as YouTube.
   */
  lemma HostBySubstring(before: string, after: string, path: string, id: string)
    requires !Contains(before + "youtube.com" + after, "youtu.be") && id != ""
    ensures YouTubeId(Some(ParsedUrl(before + "youtube.com" + after, path, Some(id)))) == Some(id)
  {
    ContainsInfix(before, "youtube.com", after);
  }

  /**
   * On a `youtube.com` host without a `v` parameter, `/shorts/<id>` and
   * `/embed/<id>` yield the id, for any id that is one non-empty segment.
   */
  lemma PathLink(host: string, marker: string, id: string, v: Option<string>)
    requires !Contains(host, "youtu.be") && Contains(host, "youtube.com") && !Truthy(v)
    requires IsMarker(marker) && id != "" && '/' !in id
    ensures YouTubeId(Some(ParsedUrl(host, "/" + marker + "/" + id, v))) == Some(id)
  {
    assert '/' !in marker;
    PathSegments(marker, id);
  }

  /** The non-empty segments of `/a/b`, for one-segment a and b, are a and b. */
  lemma PathSegments(a: string, b: string)
    requires a != "" && b != "" && '/' !in a && '/' !in b
    ensures NonEmpty(Split("/" + a + "/" + b, '/')) == [a, b]
  {
    var segs := ["", a, b];
    JoinThree(a, b);
    SplitJoin(segs, '/');
    assert segs[1..] == [a, b] && [a, b][1..] == [b];
    NonEmptySingleton(b);
    assert NonEmpty([a, b]) == [a] + NonEmpty([b]);
  }

  lemma JoinThree(a: string, b: string)
    ensures Join(["", a, b], '/') == "/" + a + "/" + b
  {
    var segs := ["", a, b];
    assert segs[1..] == [a, b] && segs[1..][1..] == [b];
    assert Join([b], '/') == b;
    assert Join([a, b], '/') == a + "/" + b;
    assert "" + ['/'] + (a + "/" + b) == "/" + a + "/" + b;
  }

  /** The first marker decides: `/embed/shorts` yields `shorts`. */
  lemma {:induction false} PathLinkFirstMarker(host: string, v: Option<string>)
    requires !Contains(host, "youtu.be") && Contains(host, "youtube.com") && !Truthy(v)
    ensures YouTubeId(Some(ParsedUrl(host, "/embed/shorts", v))) == Some("shorts")
  {
    assert "/embed/shorts" == "/" + "embed" + "/" + "shorts";
    PathLink(host, "embed", "shorts", v);
  }

  /**
   * The path rule in general: on a `youtube.com` host without a `v`
   * parameter, an id is found exactly when some non-empty path segment other
   * than the last is `shorts` or `embed`, and it is the segment after the
   * first such one. So `/watch`, `/shorts`, `/embed/` and `/x/y` yield none.
   */
  lemma PathRule(host: string, path: string, v: Option<string>)
    requires !Contains(host, "youtu.be") && Contains(host, "youtube.com") && !Truthy(v)
    ensures YouTubeId(Some(ParsedUrl(host, path, v))).Some? <==> HasIdAfterMarker(NonEmpty(Split(path, '/')))
    ensures YouTubeId(Some(ParsedUrl(host, path, v))).Some? ==>
      exists i :: FirstMarkerAt(NonEmpty(Split(path, '/')), i)
        && YouTubeId(Some(ParsedUrl(host, path, v))).value == NonEmpty(Split(path, '/'))[i + 1]
  {
    var parts := NonEmpty(Split(path, '/'));
    var m := FindMarker(parts);
    if m.Some? && m.value + 1 < |parts| {
      assert parts[m.value + 1] != "";
      assert FirstMarkerAt(parts, m.value);
    }
  }

  /** Some segment other than the last is a marker. */
  predicate HasIdAfterMarker(parts: seq<string>) {
    exists i :: 0 <= i < |parts| - 1 && IsMarker(parts[i])
  }

  /** Segment i is the first marker, and a segment follows it. */
  predicate FirstMarkerAt(parts: seq<string>, i: int) {
    0 <= i < |parts| - 1 && IsMarker(parts[i]) && forall j :: 0 <= j < i ==> !IsMarker(parts[j])
  }

  /** Other hosts, and URLs that do not parse, yield no id. */
  lemma OtherHost(u: Option<ParsedUrl>)
    requires u.Some? ==> !Contains(u.value.hostname, "youtu.be") && !Contains(u.value.hostname, "youtube.com")
    ensures YouTubeId(u) == None
  {
  }

  // ---------------------------------------------------------------------
  // The transcript counts

  /** The characters and words shown under the transcript. */
  datatype Stats = Stats(chars: nat, words: nat)

  /** `transcriptStats`: the raw length, and the number of pieces of the trimmed text split at white space (0 when blank). */
  function TranscriptStats(t: string): Stats {
    Stats(|t|, if Trim(t) != "" then |SplitWs(Trim(t))| else 0)
  }

  /**
   * An independent count of the words of s: the visible characters that
   * start s or follow white space (`afterSpace` says whether the text before
   * s ended in white space or is empty).
   */
  function CountWords(s: string, afterSpace: bool): nat
    decreases |s|
  {
    if |s| == 0 then 0
    else if IsSpace(s[0]) then CountWords(s[1..], true)
    else (if afterSpace then 1 else 0) + CountWords(s[1..], false)
  }

  /** A leading white-space run counts no word and ends like the start of the text. */
  lemma {:induction false} CountSkipsSpace(s: string, b: bool)
    requires |s| > 0 && IsSpace(s[0])
    ensures CountWords(s, b) == CountWords(TrimStart(s), true)
    decreases |s|
  {
    if |s| > 1 && IsSpace(s[1]) {
      CountSkipsSpace(s[1..], true);
    } else {
      assert TrimStart(s[1..]) == s[1..];
    }
  }

  /** Trailing white space counts no word. */
  lemma {:induction false} CountIgnoresTrailing(x: string, sp: string, b: bool)
    requires AllSpace(sp)
    ensures CountWords(x + sp, b) == CountWords(x, b)
    decreases |x| + |sp|
  {
    if |x| > 0 {
      assert (x + sp)[1..] == x[1..] + sp;
      CountIgnoresTrailing(x[1..], sp, IsSpace(x[0]));
    } else if |sp| > 0 {
      assert x + sp == sp && x + sp[1..] == sp[1..];
      CountIgnoresTrailing(x, sp[1..], true);
    }
  }

  /** Trimming counts the same words. */
  lemma CountTrim(t: string)
    ensures CountWords(t, true) == CountWords(Trim(t), true)
  {
    var s := TrimStart(t);
    if |t| > 0 && IsSpace(t[0]) {
      CountSkipsSpace(t, true);
    } else {
      assert s == t;
    }
    var r := TrimEnd(s);
    assert s == r + s[|r|..];
    CountIgnoresTrailing(r, s[|r|..], true);
  }

  /**
   * Split at white space, a text that does not end in white space has one
   * piece more than the words that follow a white-space run.
   */
  lemma {:induction false} SplitWsCount(s: string)
    requires s == [] || !IsSpace(s[|s| - 1])
    ensures |SplitWs(s)| == 1 + CountWords(s, false)
    decreases |s|
  {
    if |s| > 0 {
      if IsSpace(s[0]) {
        var u := TrimStart(s);
        assert u != [] && u[|u| - 1] == s[|s| - 1];
        SplitWsCount(u);
        CountSkipsSpace(s, false);
        assert CountWords(u, true) == 1 + CountWords(u[1..], false);
      } else {
        SplitWsCount(s[1..]);
      }
    }
  }

  /**
   * The character count is the raw length; the word count is 0 exactly on a
   * blank transcript and is otherwise the number of visible characters that
   * start the text or follow white space.
   */
  lemma TranscriptWords(t: string)
    ensures TranscriptStats(t).chars == |t|
    ensures TranscriptStats(t).words == 0 <==> AllSpace(t)
    ensures TranscriptStats(t).words == CountWords(t, true)
  {
    var s := Trim(t);
    TrimBlank(t);
    CountTrim(t);
    if s != "" {
      SplitWsCount(s);
      assert CountWords(s, true) == 1 + CountWords(s[1..], false);
    }
  }

  // ---------------------------------------------------------------------
  // The buttons

  /** The generate button is enabled when nothing is loading and the trimmed transcript has at least 200 characters. */
  predicate CanGenerate(loading: bool, transcript: string) {
    !loading && |Trim(transcript)| >= 200
  }

  /** The fetch button is enabled when the URL field yields an id and no fetch is in progress. */
  predicate CanFetch(url: string, parseUrl: string -> Option<ParsedUrl>, fetching: bool) {
    PageYouTubeId(url, parseUrl).Some? && !fetching
  }

  /**
   * The page and the route disagree at both ends: an enabled button always
   * sends at least 200 raw characters, but 200 spaces pass the route's
   * minimum while the button stays disabled, and a transcript over 200000
   * characters enables the button while the route refuses it.
   */
  lemma GenerateGate(t: string)
    ensures CanGenerate(false, t) ==> |t| >= GenerateRoute.MinTranscript
    ensures var blank := seq(200, i => ' ');
      !CanGenerate(false, blank)
      && GenerateRoute.ValidateTranscript(map["transcript" := JString(blank)]).Success?
    ensures var long := seq(200001, i => 'a');
      CanGenerate(false, long)
      && GenerateRoute.ValidateTranscript(map["transcript" := JString(long)]).Failure?
  {
    var blank := seq(200, i => ' ');
    assert AllSpace(blank);
    TrimBlank(blank);
    var long := seq(200001, i => 'a');
    TrimNoop(long);
  }

  /**
   * White space typed around the URL never changes whether fetching is
   * enabled, nor the id the page shows; an enabled button always has a
   * non-empty id behind it.
   */
  lemma FetchGate(url: string, a: string, b: string, parseUrl: string -> Option<ParsedUrl>, fetching: bool)
    requires AllSpace(a) && AllSpace(b)
    ensures PageYouTubeId(a + url + b, parseUrl) == PageYouTubeId(url, parseUrl)
    ensures CanFetch(a + url + b, parseUrl, fetching) == CanFetch(url, parseUrl, fetching)
    ensures CanFetch(url, parseUrl, fetching) ==> !fetching && PageYouTubeId(url, parseUrl).value != ""
  {
    TrimPadded(a, url, b);
  }

  // ---------------------------------------------------------------------
  // The downloaded file

  /** `s.slice(0, 40)`. */
  function First40(s: string): string {
    s[..if |s| < 40 then |s| else 40]
  }

  /** The title part of the file name: the first 40 characters of the title or "video", white-space runs as `-`. */
  function Slug(title: Option<string>): string {
    ReplaceRuns(First40(OrElse(title, "video")), '-')
  }

  /** `downloadJson`'s file name. */
  function DownloadFileName(title: Option<string>): string {
    "content-pack-" + Slug(title) + ".json"
  }

  /** The slug is 1 to 40 characters long and holds no white space. */
  lemma SlugShape(title: Option<string>)
    ensures 1 <= |Slug(title)| <= 40 && NoSpace(Slug(title))
  {
    var head := First40(OrElse(title, "video"));
    assert |head| >= 1;
    assert !IsSpace('-');
  }

  /** The slug is the title's first 40 characters with each white-space run replaced by one `-`. */
  lemma SlugRuns(title: Option<string>)
    ensures Slug(title) == Join(SplitWs(First40(OrElse(title, "video"))), '-')
  {
    ReplaceRunsIsSplitJoin(First40(OrElse(title, "video")), '-');
  }

  /** A title of at most 40 characters without white space is kept verbatim. */
  lemma SlugVerbatim(title: string)
    requires |title| <= 40 && NoSpace(title)
    ensures Slug(Some(title)) == OrElse(Some(title), "video")
  {
    if title != "" {
      assert First40(title) == title;
      ReplaceRunsNoSpace(title, '-');
    } else {
      SlugDefault(Some(title));
    }
  }

  /** A missing or empty title reads as "video". */
  lemma SlugDefault(title: Option<string>)
    requires !Truthy(title)
    ensures Slug(title) == "video"
  {
    var t := "video";
    assert First40(t) == t;
    assert NoSpace(t) by {
      assert t[0] == 'v' && t[1] == 'i' && t[2] == 'd' && t[3] == 'e' && t[4] == 'o';
    }
    ReplaceRunsNoSpace(t, '-');
  }

  /** The file name is the slug between the fixed prefix and the `.json` extension. */
  lemma DownloadFileNameParts(title: Option<string>)
    ensures var n := DownloadFileName(title);
      && |n| == 13 + |Slug(title)| + 5
      && n[..13] == "content-pack-" && n[|n| - 5..] == ".json"
      && n[13..|n| - 5] == Slug(title)
  {
  }
}
