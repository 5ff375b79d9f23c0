/** The registry of download states, keyed by URL: the last write for a URL wins, and a URL
    never written reads as NOT_FOUND with an empty message. */
module StatusManager {
  import opened Common
  import opened Domain

  type Write = (string, DownloadStatus)

  /** What `getStatus` answers for a URL that has no entry. */
  const Unknown := DownloadStatus(NotFound, "")

  /** The status last written for `url` in a sequence of writes, oldest first. */
  ghost function LastWrite(writes: seq<Write>, url: string): (r: Option<DownloadStatus>)
    ensures r.None? <==> forall k :: 0 <= k < |writes| ==> writes[k].0 != url
    ensures r.Some? ==> exists k :: 0 <= k < |writes| && writes[k] == (url, r.value) &&
                                    forall k' :: k < k' < |writes| ==> writes[k'].0 != url
  {
    if |writes| == 0 then None
    else if writes[|writes| - 1].0 == url then Some(writes[|writes| - 1].1)
    else
      var init := writes[..|writes| - 1];
      var r := LastWrite(init, url);
      assert forall k :: 0 <= k < |init| ==> writes[k] == init[k];
      if r.None? then r
      else
        var k :| 0 <= k < |init| && init[k] == (url, r.value) &&
                 forall k' :: k < k' < |init| ==> init[k'].0 != url;
        assert writes[k] == (url, r.value);
        r
  }

  /** The map a sequence of `put`s builds, starting from an empty one. */
  function Replay(writes: seq<Write>): map<string, DownloadStatus>
  {
    if |writes| == 0 then map[]
    else Replay(writes[..|writes| - 1])[writes[|writes| - 1].0 := writes[|writes| - 1].1]
  }

  /** The map built by the writes holds, for each URL, the last status written for it. */
  lemma {:induction false} ReplayIsLastWrite(writes: seq<Write>, url: string)
    ensures url in Replay(writes) <==> LastWrite(writes, url).Some?
    ensures url in Replay(writes) ==> Replay(writes)[url] == LastWrite(writes, url).value
  {
    if |writes| > 0 && writes[|writes| - 1].0 != url {
      ReplayIsLastWrite(writes[..|writes| - 1], url);
    }
  }

  /** A write decides what is read back for its URL and nothing else. */
  lemma LastWriteWins(writes: seq<Write>, url: string, status: DownloadStatus, other: string)
    ensures LastWrite(writes + [(url, status)], url) == Some(status)
    ensures other != url ==> LastWrite(writes + [(url, status)], other) == LastWrite(writes, other)
  {
    assert (writes + [(url, status)])[..|writes|] == writes;
  }

  class DownloadStatusManager {
    var statusMap: map<string, DownloadStatus>
    /** Every write made so far, oldest first. */
    ghost var history: seq<Write>

    /** The map is what the writes made so far build. */
    ghost predicate Valid()
      reads this
    {
      statusMap == Replay(history)
    }

    constructor()
      ensures Valid() && statusMap == map[] && history == []
    {
      statusMap := map[];
      history := [];
    }

    /** `getStatus`: the status last written for the URL, or NOT_FOUND with an empty message
        when none was; reading changes nothing. */
    function GetStatus(url: string): (r: DownloadStatus)
      requires Valid()
      reads this
      ensures LastWrite(history, url).Some? ==> r == LastWrite(history, url).value
      ensures LastWrite(history, url).None? ==> r == Unknown
    {
      ReplayIsLastWrite(history, url);
      if url in statusMap then statusMap[url] else Unknown
    }

    /** `updateStatus(url, status, message)`. */
    method UpdateStatus(url: string, status: Status, message: string)
      requires Valid()
      modifies this
      ensures Valid()
      ensures statusMap == old(statusMap)[url := DownloadStatus(status, message)]
      ensures history == old(history) + [(url, DownloadStatus(status, message))]
      ensures GetStatus(url) == DownloadStatus(status, message)
      ensures forall other :: other != url ==> GetStatus(other) == old(GetStatus(other))
    {
      Record(url, DownloadStatus(status, message));
    }

    /** `updateStatus(url, status)`: the same with an empty message. */
    method UpdateStatusNoMessage(url: string, status: Status)
      requires Valid()
      modifies this
      ensures Valid()
      ensures statusMap == old(statusMap)[url := DownloadStatus(status, "")]
      ensures history == old(history) + [(url, DownloadStatus(status, ""))]
      ensures GetStatus(url) == DownloadStatus(status, "")
      ensures forall other :: other != url ==> GetStatus(other) == old(GetStatus(other))
    {
      Record(url, DownloadStatus(status, ""));
    }

    /** The `put` both overloads perform. */
    method Record(url: string, entry: DownloadStatus)
      requires Valid()
      modifies this
      ensures Valid()
      ensures statusMap == old(statusMap)[url := entry]
      ensures history == old(history) + [(url, entry)]
    {
      assert (history + [(url, entry)])[..|history|] == history;
      statusMap := statusMap[url := entry];
      history := history + [(url, entry)];
    }
  }
}
