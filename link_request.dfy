/** The constraint on the `url` field of a download request:
    `^https?://(www\.)?(youtube\.com/watch\?v=|youtu\.be/)[a-zA-Z0-9_-]{11}$`, matched against
    the whole field. It is the validator's ID pattern with the ID as the end of the string. */
module LinkRequest {
  import opened Common
  import opened Strings
  import opened UrlValidator

  /** The reference reading: a match of the ID pattern whose 11 characters end the URL. */
  ghost predicate RequestUrlRef(url: string) {
    exists i, j, k :: RequestMatchAt(url, i, j, k)
  }

  ghost predicate RequestMatchAt(url: string, i: int, j: int, k: int) {
    0 <= k && k + 11 == |url| && IdMatchAt(url, url[k..], i, j, k)
  }

  /** The recogniser: the ID the scheme, "www." and host lead to is the rest of the URL. */
  predicate IsValidRequestUrl(url: string) {
    match IdStart(url)
    case Some(k) => k + 11 == |url| && IdChars(url[k..])
    case None => false
  }

  lemma RequestUrlSpec(url: string)
    ensures IsValidRequestUrl(url) <==> RequestUrlRef(url)
  {
    if IsValidRequestUrl(url) {
      var i, j := MatchOfIdStart(url);
      var k := IdStart(url).value;
      assert RequestMatchAt(url, i, j, k);
    }
    if RequestUrlRef(url) {
      var i, j, k :| RequestMatchAt(url, i, j, k);
      IdStartOfMatch(url, i, j, k);
    }
  }

  /** The scheme is exactly "http://" or "https://", and the URL ends in 11 ID characters. */
  lemma RequestUrlShape(url: string)
    requires IsValidRequestUrl(url)
    ensures StartsWith(url, Http) || StartsWith(url, Https)
    ensures |url| >= 11 && IdChars(url[|url| - 11..])
  {
  }

  /** Every URL the request accepts passes both checks of the validator, which returns its
      last 11 characters. */
  lemma RequestUrlAccepted(url: string)
    requires IsValidRequestUrl(url)
    ensures ValidateAndExtractVideoId(url) == Ok(url[|url| - 11..])
  {
    var i := SchemeEnd(url);
    var j := WwwEnd(url, i);
    var k := IdStart(url).value;
    assert url[|url| - 11..] == url[k..k + 11];
    if InfixAt(url, WatchHost, j) {
      WatchHostParts(url, j);
      TailHasNoTerminators(url, j + 12, k);
    } else {
      assert InfixAt(url, ShortHost, j);
      TailHasNoTerminators(url, j + 9, k);
    }
  }

  /** "youtube.com/watch?v=" is "youtube.com/" followed by "watch?v=". */
  lemma WatchHostParts(url: string, j: nat)
    requires InfixAt(url, WatchHost, j)
    ensures InfixAt(url, LongHost, j)
    ensures forall t :: j + 12 <= t < j + 20 ==> url[t] in "watch?v="
  {
    assert url[j..j + 12] == url[j..j + 20][..12];
    forall t | j + 12 <= t < j + 20
      ensures url[t] in "watch?v="
    {
      assert url[t] == url[j..j + 20][t - j] == WatchHost[t - j];
    }
  }

  /** From the end of the host on, a request URL holds the rest of the host and path and
      the ID: none of them a line terminator. */
  lemma TailHasNoTerminators(url: string, h: nat, k: nat)
    requires h <= k <= |url| && IdChars(url[k..])
    requires forall t :: h <= t < k ==> url[t] in "watch?v="
    ensures NoTerminators(url[h..])
  {
    forall t | 0 <= t < |url[h..]|
      ensures !LineTerminator(url[h..][t])
    {
      if h + t >= k {
        assert url[h..][t] == url[k..][h + t - k];
      }
    }
  }

  /** The example link of the request's documentation is valid. */
  lemma ExampleIsValid()
    ensures IsValidRequestUrl(Https + Www + WatchHost + "dQw4w9WgXcQ")
  {
    var url := Https + Www + WatchHost + "dQw4w9WgXcQ";
    assert url[..8] == Https && url[8..12] == Www && url[12..32] == WatchHost && url[32..] == "dQw4w9WgXcQ";
    assert IdMatchAt(url, url[32..], 8, 12, 32);
    IdStartOfMatch(url, 8, 12, 32);
  }
}
