/** The two-stage check of a YouTube link and the extraction of its 11-character video ID.
    Each regular expression is a hand-written recogniser, and each recogniser is proved
    equal to a reference reading of its pattern: a choice of each optional group and each
    alternative, at split points of the string. */
module UrlValidator {
  import opened Common
  import opened Strings

  /** The exception the validator raises, with its message. */
  datatype InvalidYoutubeUrl = InvalidYoutubeUrl(message: string)

  /** `[a-zA-Z0-9_-]`. */
  predicate IdChar(c: char) {
    'a' <= c <= 'z' || 'A' <= c <= 'Z' || '0' <= c <= '9' || c == '_' || c == '-'
  }

  predicate IdChars(s: string) {
    forall k :: 0 <= k < |s| ==> IdChar(s[k])
  }

  /** What `.*` matches: any characters except line terminators. */
  predicate NoTerminators(s: string) {
    forall k :: 0 <= k < |s| ==> !LineTerminator(s[k])
  }

  const Http := "http://"
  const Https := "https://"
  const Www := "www."
  const LongHost := "youtube.com/"
  const ShortHost := "youtu.be/"
  const WatchHost := "youtube.com/watch?v="

  // ---------------------------------------------------------------------------------
  // The patterns read literally.

  /** `(https?://)?` */
  predicate OptScheme(s: string) {
    s == "" || s == Http || s == Https
  }

  /** `https?://` */
  predicate HttpScheme(s: string) {
    s == Http || s == Https
  }

  /** `(www\.)?` */
  predicate OptWww(s: string) {
    s == "" || s == Www
  }

  /** `(youtube\.com|youtu\.be)/` */
  predicate Host(s: string) {
    s == LongHost || s == ShortHost
  }

  /** `(?:youtube\.com/watch\?v=|youtu\.be/)` */
  predicate IdHost(s: string) {
    s == WatchHost || s == ShortHost
  }

  /** The whole of `url` matches `^(https?://)?(www\.)?(youtube\.com|youtu\.be)/.*`. */
  ghost predicate UrlPatternRef(url: string) {
    exists i, j, h :: UrlMatchAt(url, i, j, h)
  }

  /** The match that takes the scheme from url[..i], "www." from url[i..j] and the host
      with its slash from url[j..h]. */
  predicate UrlMatchAt(url: string, i: int, j: int, h: int) {
    0 <= i <= j <= h <= |url| &&
    OptScheme(url[..i]) && OptWww(url[i..j]) && Host(url[j..h]) && NoTerminators(url[h..])
  }

  /** `^https?://(?:www\.)?(?:youtube\.com/watch\?v=|youtu\.be/)([a-zA-Z0-9_-]{11})` matches
      a prefix of `url` with `id` as its group. */
  ghost predicate IdMatchRef(url: string, id: string) {
    exists i, j, k :: IdMatchAt(url, id, i, j, k)
  }

  /** The match that takes the scheme from url[..i], "www." from url[i..j], the host and
      path from url[j..k] and the group from the 11 characters at k. */
  predicate IdMatchAt(url: string, id: string, i: int, j: int, k: int) {
    0 <= i <= j <= k && k + 11 <= |url| &&
    HttpScheme(url[..i]) && OptWww(url[i..j]) && IdHost(url[j..k]) && id == url[k..k + 11] && IdChars(id)
  }

  // ---------------------------------------------------------------------------------
  // The recognisers.

  /** Where the scheme ends: after "https://" or "http://" when the URL starts with one. */
  function SchemeEnd(url: string): (i: nat)
    ensures i <= |url| && OptScheme(url[..i])
  {
    if StartsWith(url, Https) then 8 else if StartsWith(url, Http) then 7 else 0
  }

  /** Where the optional "www." that starts at i ends. */
  function WwwEnd(url: string, i: nat): (j: nat)
    requires i <= |url|
    ensures i <= j <= |url| && OptWww(url[i..j])
  {
    if InfixAt(url, Www, i) then i + 4 else i
  }

  /** `YOUTUBE_URL_PATTERN.matcher(url).matches()`. */
  predicate MatchesUrlPattern(url: string) {
    var j := WwwEnd(url, SchemeEnd(url));
    (InfixAt(url, LongHost, j) && NoTerminators(url[j + 12..])) ||
    (InfixAt(url, ShortHost, j) && NoTerminators(url[j + 9..]))
  }

  /** Where the video ID starts when the anchored ID pattern can reach it. */
  function IdStart(url: string): (r: Option<nat>)
    ensures r.Some? ==> r.value <= |url|
  {
    if !StartsWith(url, Http) && !StartsWith(url, Https) then None
    else
      var j := WwwEnd(url, SchemeEnd(url));
      if InfixAt(url, WatchHost, j) then Some(j + 20)
      else if InfixAt(url, ShortHost, j) then Some(j + 9)
      else None
  }

  /** `VIDEO_ID_PATTERN.matcher(url).find()` and its group 1. The pattern starts with `^`,
      so the only position `find` can match at is 0. */
  function VideoIdMatch(url: string): (r: Option<string>)
    ensures r.Some? ==> |r.value| == 11 && IdChars(r.value)
  {
    match IdStart(url)
    case Some(k) => if k + 11 <= |url| && IdChars(url[k..k + 11]) then Some(url[k..k + 11]) else None
    case None => None
  }

  const InvalidUrlMessage := "Invalid URL: "
  const NoIdMessage := "Video ID not found in URL: "

  /** `validateAndExtractVideoId`: the first pattern must match the whole URL, then the ID
      is the group of the second. */
  function ValidateAndExtractVideoId(url: string): (r: Result<string, InvalidYoutubeUrl>)
    ensures r.Ok? ==> |r.value| == 11 && IdChars(r.value)
    ensures r.Ok? ==> UrlPatternRef(url) && IdMatchRef(url, r.value)
    ensures !UrlPatternRef(url) ==> r == Err(InvalidYoutubeUrl(InvalidUrlMessage + url))
    ensures UrlPatternRef(url) && r.Err? ==>
              r == Err(InvalidYoutubeUrl(NoIdMessage + url)) && forall id :: !IdMatchRef(url, id)
  {
    UrlPatternSpec(url);
    VideoIdMatchSpec(url);
    if !MatchesUrlPattern(url) then Err(InvalidYoutubeUrl(InvalidUrlMessage + url))
    else
      match VideoIdMatch(url)
      case Some(id) => Ok(id)
      case None => Err(InvalidYoutubeUrl(NoIdMessage + url))
  }

  // ---------------------------------------------------------------------------------
  // The recognisers agree with the patterns.

  /** The scheme a match chose is the one SchemeEnd finds: a host or "www." never starts
      with 'h', and "http://" differs from "https://" at index 4. */
  lemma SchemeIsDetermined(url: string, i: nat, j: nat)
    requires i <= j <= |url| && OptScheme(url[..i]) && OptWww(url[i..j])
    requires j < |url| && url[j] == 'y'
    ensures i == SchemeEnd(url)
  {
    StartsWithChar(url, Https, 0);
    StartsWithChar(url, Https, 4);
    StartsWithChar(url, Http, 0);
    if url[..i] == Http {
      assert url[4] == url[..i][4];
      assert StartsWith(url, Http);
    } else if url[..i] == "" {
      if i < j {
        assert url[i] == url[i..j][0];
      }
    }
  }

  /** Likewise the choice of `(www\.)?`: no host starts with 'w'. */
  lemma WwwIsDetermined(url: string, i: nat, j: nat)
    requires i <= j <= |url| && OptWww(url[i..j])
    requires j < |url| && url[j] == 'y'
    ensures j == WwwEnd(url, i)
  {
    InfixAtChar(url, Www, i, 0);
  }

  /** Where a match of either pattern puts its host is where the recognisers look. */
  lemma HostIsDetermined(url: string, i: nat, j: nat)
    requires i <= j < |url| && OptScheme(url[..i]) && OptWww(url[i..j]) && url[j] == 'y'
    ensures i == SchemeEnd(url) && j == WwwEnd(url, SchemeEnd(url))
  {
    SchemeIsDetermined(url, i, j);
    WwwIsDetermined(url, i, j);
  }

  lemma UrlPatternSpec(url: string)
    ensures MatchesUrlPattern(url) <==> UrlPatternRef(url)
  {
    if MatchesUrlPattern(url) {
      var j := WwwEnd(url, SchemeEnd(url));
      if InfixAt(url, LongHost, j) && NoTerminators(url[j + 12..]) {
        assert UrlMatchAt(url, SchemeEnd(url), j, j + 12);
      } else {
        assert UrlMatchAt(url, SchemeEnd(url), j, j + 9);
      }
    }
    if UrlPatternRef(url) {
      var i, j, h :| UrlMatchAt(url, i, j, h);
      RefMatchesUrlPattern(url, i, j, h);
    }
  }

  lemma RefMatchesUrlPattern(url: string, i: nat, j: nat, h: nat)
    requires UrlMatchAt(url, i, j, h)
    ensures MatchesUrlPattern(url)
  {
    assert url[j] == url[j..h][0];
    HostIsDetermined(url, i, j);
    assert InfixAt(url, url[j..h], j);
  }

  /** The anchored ID pattern reaches position k exactly when IdStart says so. */
  lemma IdStartOfMatch(url: string, i: nat, j: nat, k: nat)
    requires i <= j <= k <= |url|
    requires HttpScheme(url[..i]) && OptWww(url[i..j]) && IdHost(url[j..k])
    ensures IdStart(url) == Some(k)
  {
    assert url[j] == url[j..k][0];
    HostIsDetermined(url, i, j);
    assert StartsWith(url, url[..i]);
    assert InfixAt(url, url[j..k], j);
    InfixAtChar(url, WatchHost, j, 5);
    if url[j..k] == ShortHost {
      assert url[j + 5] == url[j..k][5];
    }
  }

  lemma MatchOfIdStart(url: string) returns (i: nat, j: nat)
    requires IdStart(url).Some?
    ensures i <= j <= IdStart(url).value
    ensures HttpScheme(url[..i]) && OptWww(url[i..j]) && IdHost(url[j..IdStart(url).value])
  {
    i := SchemeEnd(url);
    j := WwwEnd(url, i);
  }

  lemma VideoIdMatchSpec(url: string)
    ensures forall id :: VideoIdMatch(url) == Some(id) <==> IdMatchRef(url, id)
  {
    forall id
      ensures VideoIdMatch(url) == Some(id) <==> IdMatchRef(url, id)
    {
      if IdMatchRef(url, id) {
        RefIsVideoIdMatch(url, id);
      }
      if VideoIdMatch(url) == Some(id) {
        VideoIdMatchIsRef(url);
      }
    }
  }

  lemma RefIsVideoIdMatch(url: string, id: string)
    requires IdMatchRef(url, id)
    ensures VideoIdMatch(url) == Some(id)
  {
    var i, j, k :| IdMatchAt(url, id, i, j, k);
    IdStartOfMatch(url, i, j, k);
  }

  lemma VideoIdMatchIsRef(url: string)
    requires VideoIdMatch(url).Some?
    ensures IdMatchRef(url, VideoIdMatch(url).value)
  {
    var i, j := MatchOfIdStart(url);
    var k := IdStart(url).value;
    assert IdMatchAt(url, url[k..k + 11], i, j, k);
  }

  // ---------------------------------------------------------------------------------
  // What the validator accepts and rejects.

  /** A URL without a scheme can pass the first check, but the ID pattern demands
      "http://" or "https://", so it always ends in "Video ID not found". */
  lemma NoSchemeFails(url: string)
    requires UrlPatternRef(url)
    requires !StartsWith(url, Http) && !StartsWith(url, Https)
    ensures ValidateAndExtractVideoId(url) == Err(InvalidYoutubeUrl(NoIdMessage + url))
  {
    UrlPatternSpec(url);
  }

  /** A youtube.com URL whose path does not start with "watch?v=" (such as "/shorts/...")
      passes the first check and fails the second. */
  lemma OtherPathFails(scheme: string, www: string, path: string)
    requires OptScheme(scheme) && OptWww(www) && NoTerminators(path)
    requires !StartsWith(path, "watch?v=")
    ensures var url := scheme + www + LongHost + path;
            ValidateAndExtractVideoId(url) == Err(InvalidYoutubeUrl(NoIdMessage + url))
  {
    var url := scheme + www + LongHost + path;
    var i, j := |scheme|, |scheme| + |www|;
    assert url[..i] == scheme && url[i..j] == www && url[j..j + 12] == LongHost && url[j + 12..] == path;
    assert UrlMatchAt(url, i, j, j + 12);
    RefMatchesUrlPattern(url, i, j, j + 12);
    assert url[j] == url[j..j + 12][0];
    HostIsDetermined(url, i, j);
    NotWatchHost(url, j, path);
    InfixAtChar(url, ShortHost, j, 5);
    assert url[j + 5] == url[j..j + 12][5];
    assert IdStart(url).None?;
  }

  lemma NotWatchHost(url: string, j: nat, path: string)
    requires j + 12 <= |url| && url[j + 12..] == path && !StartsWith(path, "watch?v=")
    ensures !InfixAt(url, WatchHost, j)
  {
    if j + 20 <= |url| {
      assert path[..8] == url[j + 12..j + 20];
      assert url[j + 12..j + 20] != WatchHost[12..];
    }
  }

  /** For instance a link to a short. */
  lemma ShortsFails(id: string)
    requires NoTerminators(id)
    ensures var url := Https + Www + LongHost + "shorts/" + id;
            ValidateAndExtractVideoId(url) == Err(InvalidYoutubeUrl(NoIdMessage + url))
  {
    var path := "shorts/" + id;
    assert path[0] == 's';
    assert Https + Www + LongHost + "shorts/" + id == Https + Www + LongHost + path;
    OtherPathFails(Https, Www, path);
  }

  /** The ID pattern is anchored only at the start: text after the ID changes nothing, so
      of a longer run of ID characters the first 11 are returned. */
  lemma TrailingTextIgnored(url: string, id: string, rest: string)
    requires ValidateAndExtractVideoId(url) == Ok(id)
    requires NoTerminators(rest)
    ensures ValidateAndExtractVideoId(url + rest) == Ok(id)
  {
    var i, j, h :| UrlMatchAt(url, i, j, h);
    UrlMatchExtends(url, rest, i, j, h);
    RefMatchesUrlPattern(url + rest, i, j, h);
    var i', j', k :| IdMatchAt(url, id, i', j', k);
    IdMatchExtends(url, rest, id, i', j', k);
    RefIsVideoIdMatch(url + rest, id);
  }

  lemma UrlMatchExtends(url: string, rest: string, i: int, j: int, h: int)
    requires UrlMatchAt(url, i, j, h) && NoTerminators(rest)
    ensures UrlMatchAt(url + rest, i, j, h)
  {
    var u := url + rest;
    assert u[..i] == url[..i] && u[i..j] == url[i..j] && u[j..h] == url[j..h];
    assert u[h..] == url[h..] + rest;
  }

  lemma IdMatchExtends(url: string, rest: string, id: string, i: int, j: int, k: int)
    requires IdMatchAt(url, id, i, j, k)
    ensures IdMatchAt(url + rest, id, i, j, k)
  {
    var u := url + rest;
    assert u[..i] == url[..i] && u[i..j] == url[i..j] && u[j..k] == url[j..k] && u[k..k + 11] == url[k..k + 11];
  }
}
