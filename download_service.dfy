/** The download service: the table of tracked files with its cleanup, the file endpoint
    with its traversal guard, and the script of one download. The file system is given as
    inputs: the directory listing after the download, the set of paths that exist, the set of
    paths that can be read, and the outcome of deleting a path. */
module DownloadService {
  import opened Common
  import opened Strings
  import opened Paths
  import opened Domain
  import opened ProcessManager
  import opened StatusManager
  import opened Metadata

  /** The name of a file in a directory listing. */
  type EntryName = s: string | s != "" && '/' !in s witness "a"

  /** A file of the download directory as a listing shows it, with its last-modified time. */
  datatype DirEntry = DirEntry(name: EntryName, mtime: int)

  /** What deleting a file did: it was already gone, it was deleted, or deleting it failed. */
  datatype DeleteOutcome = Missing | Deleted | DeleteFailed

  /** What the file endpoint answers: the file, or the status of the exception it throws. */
  datatype FileResponse = Resource(path: string) | Forbidden | FileNotFound

  /** How long, in seconds, a released file is kept. */
  const StaleSeconds := 120

  const StartingMessage := "Download starting"
  const ProgressMessage := "Download in progress"
  const CompletedMessage := "Download completed successfully"
  const DownloadError := "Download error"
  const NoMp3Message := "MP3 file not found after download"

  // ---------------------------------------------------------------------------------
  // Cleanup.

  /** A file the cleanup selects: released, and last touched strictly more than 120 seconds
      before `now`. */
  predicate Stale(st: FileState, now: int) {
    !st.inUse && st.lastUpdated < now - StaleSeconds
  }

  /** The table after a cleanup: a selected file is dropped unless deleting it failed, and
      nothing else changes. */
  function AfterCleanup(files: map<string, FileState>, now: int, outcome: string -> DeleteOutcome)
    : (r: map<string, FileState>)
    ensures forall k :: k in r ==> k in files && r[k] == files[k]
    ensures forall k :: k in files && !Stale(files[k], now) ==> k in r
    ensures forall k :: k in files && Stale(files[k], now) ==> (k in r <==> outcome(k) == DeleteFailed)
  {
    map k | k in files && (!Stale(files[k], now) || outcome(k) == DeleteFailed) :: files[k]
  }

  /** A second cleanup at the same time with the same outcomes removes nothing more. */
  lemma CleanupIdempotent(files: map<string, FileState>, now: int, outcome: string -> DeleteOutcome)
    ensures AfterCleanup(AfterCleanup(files, now, outcome), now, outcome) == AfterCleanup(files, now, outcome)
  {
    var once := AfterCleanup(files, now, outcome);
    var twice := AfterCleanup(once, now, outcome);
    assert forall k :: k in twice <==> k in once;
  }

  /** A file in use survives every cleanup, however old its stamp. */
  lemma InUseSurvives(files: map<string, FileState>, now: int, outcome: string -> DeleteOutcome, k: string)
    requires k in files && files[k].inUse
    ensures k in AfterCleanup(files, now, outcome) && AfterCleanup(files, now, outcome)[k] == files[k]
  {
  }

  // ---------------------------------------------------------------------------------
  // The newest mp3 of a listing.

  predicate IsMp3(e: DirEntry) {
    EndsWith(e.name, Mp3)
  }

  /** `filter(endsWith(".mp3")).max(by last-modified time)`: the reduction keeps the entry it
      has unless a later one is strictly newer, so of several newest files the first listed
      is chosen. */
  function LatestMp3(entries: seq<DirEntry>): (r: Option<DirEntry>)
    ensures r.None? <==> forall k :: 0 <= k < |entries| ==> !IsMp3(entries[k])
    ensures r.Some? ==> exists k :: 0 <= k < |entries| && entries[k] == r.value && IsMp3(r.value) &&
                                    (forall j :: 0 <= j < k && IsMp3(entries[j]) ==> entries[j].mtime < r.value.mtime)
    ensures r.Some? ==> forall j :: 0 <= j < |entries| && IsMp3(entries[j]) ==> entries[j].mtime <= r.value.mtime
  {
    if |entries| == 0 then None
    else
      var front := entries[..|entries| - 1];
      var e := entries[|entries| - 1];
      var best := LatestMp3(front);
      assert forall j :: 0 <= j < |front| ==> entries[j] == front[j];
      if !IsMp3(e) then best
      else if best.Some? && best.value.mtime >= e.mtime then best
      else Some(e)
  }

  // ---------------------------------------------------------------------------------
  // The script of one download.

  /** What one download does: the status writes in order, the paths it tracks (all of them
      released at the end), and its result. */
  datatype Plan = Plan(writes: seq<Write>, tracked: seq<string>, result: Result<YoutubeResponse, Failure>)

  /** The table with the tracked paths present and flagged `inUse`, stamped with `now`;
      every other entry as it was. During a download they are in use, after it released. */
  function Stamped(files: map<string, FileState>, tracked: seq<string>, inUse: bool, now: int)
    : (r: map<string, FileState>)
    ensures forall k :: k in r <==> k in files || k in tracked
    ensures forall k :: k in tracked ==> r[k] == FileState(inUse, now)
    ensures forall k :: k in files && k !in tracked ==> r[k] == files[k]
  {
    var keys := files.Keys + (set t | t in tracked);
    map k | k in keys :: if k in tracked then FileState(inUse, now) else files[k]
  }

  /** The part of a download after the dry run, for the outcome of the real run: the status
      written at the end (if any), the mp3 path tracked (if any), and the result. An I/O
      failure becomes "Download error", a failed download keeps its own message. */
  function PlanTransfer(dir: Segs, url: string, outcome: Result<ProcessResult, Failure>,
                        listing: Option<seq<DirEntry>>, present: set<string>, now: int): (r: Plan)
    ensures r.writes == [] || r.writes == [(url, DownloadStatus(Completed, CompletedMessage))]
    ensures r.writes == [] <==> r.result.Err?
    ensures r.result.Err? ==> r.result.error.DownloadFailed?
    ensures outcome.Err? ==>
              r.tracked == [] &&
              r.result == Err(if outcome.error.IOFailure? then DownloadFailed(DownloadError) else outcome.error)
    ensures |r.tracked| <= 1
    ensures r.result.Ok? ==>
              outcome.Ok? && outcome.value.exitCode == 0 &&
              r.tracked == [r.result.value.filePath] && r.result.value.filePath in present
  {
    match outcome
    case Err(IOFailure(_)) => Plan([], [], Err(DownloadFailed(DownloadError)))
    case Err(DownloadFailed(m)) => Plan([], [], Err(DownloadFailed(m)))
    case Ok(run) =>
      if listing.None? then Plan([], [], Err(DownloadFailed(DownloadError)))
      else
        match LatestMp3(listing.value)
        case None => Plan([], [], Err(DownloadFailed(NoMp3Message)))
        case Some(e) =>
          var mp3 := PathString(Child(dir, e.name));
          if run.exitCode != 0 || mp3 !in present then
            Plan([], [mp3], Err(DownloadFailed(ExitCodeMessage + IntToString(run.exitCode))))
          else
            Plan([(url, DownloadStatus(Completed, CompletedMessage))], [mp3],
                 Ok(YoutubeResponse(CompletedMessage, mp3, Completed, now)))
  }

  /** `downloadAudio` as a function of what its two runs of the tool produced (`dry`, the
      file name the dry run reports, and `run`, the result of the real run) and of the
      directory: STARTING is written, the dry run names the file tracked first, IN_PROGRESS
      is written, and the real run, the listing and the existence check decide the rest. */
  function PlanDownload(dir: Segs, url: string, dry: Result<string, Failure>, run: Result<ProcessResult, Failure>,
                        listing: Option<seq<DirEntry>>, present: set<string>, now: int): Plan
  {
    var starting := (url, DownloadStatus(Starting, StartingMessage));
    match dry
    case Err(_) => Plan([starting], [], Err(DownloadFailed(DownloadError)))
    case Ok(expected) =>
      var webm := PathString(Child(dir, BaseName(expected)));
      var rest := PlanTransfer(dir, url, run, listing, present, now);
      Plan([starting, (url, DownloadStatus(InProgress, ProgressMessage))] + rest.writes, [webm] + rest.tracked,
           rest.result)
  }

  class YoutubeDownloadService {
    /** The download directory, absolute and normal. */
    const downloadsDir: Segs
    const ytDlpPath: string
    const statusManager: DownloadStatusManager
    /** The table of tracked files: each path with the state of its `FileMetadata`. */
    var fileAccessMap: map<string, FileState>

    ghost predicate Valid()
      reads this, statusManager
    {
      IsNormal(downloadsDir) && statusManager.Valid()
    }

    constructor(downloadsDir: Segs, ytDlpPath: string)
      requires IsNormal(downloadsDir)
      ensures Valid() && fileAccessMap == map[] && statusManager.history == []
      ensures this.downloadsDir == downloadsDir && this.ytDlpPath == ytDlpPath
    {
      this.downloadsDir := downloadsDir;
      this.ytDlpPath := ytDlpPath;
      statusManager := new DownloadStatusManager();
      fileAccessMap := map[];
    }

    /** `statusManager.updateStatus(url, status, message)`, seen from the service: one write
        appended, the table of files untouched. */
    method Announce(url: string, status: Status, message: string)
      requires Valid()
      modifies statusManager
      ensures Valid() && fileAccessMap == old(fileAccessMap)
      ensures statusManager.history == old(statusManager.history) + [(url, DownloadStatus(status, message))]
    {
      statusManager.UpdateStatus(url, status, message);
    }

    /** `fileAccessMap.put(key, new FileMetadata(true))`. */
    method Track(key: string, now: int)
      requires Valid()
      modifies this
      ensures Valid() && unchanged(statusManager)
      ensures fileAccessMap == old(fileAccessMap)[key := FileState(true, now)]
    {
      var metadata := new FileMetadata(true, now);
      fileAccessMap := fileAccessMap[key := metadata.State()];
    }

    /** The `finally` step for one path, and the first step of `getFile`: release the path's
        entry if it has one, never create one. The entry's state is loaded into its
        `FileMetadata`, `setInUse(false)` is applied to it, and the result is stored back. */
    method Release(key: string, now: int)
      requires Valid()
      modifies this
      ensures Valid() && unchanged(statusManager)
      ensures fileAccessMap == if key in old(fileAccessMap) then old(fileAccessMap)[key := FileState(false, now)]
                               else old(fileAccessMap)
    {
      if key in fileAccessMap {
        var st := fileAccessMap[key];
        var metadata := new FileMetadata(st.inUse, st.lastUpdated);
        metadata.SetInUse(false, now);
        fileAccessMap := fileAccessMap[key := metadata.State()];
      }
    }

    /** `scheduledCleanup`: collect the stale entries, then try to delete each one and drop
        its entry unless the deletion failed. */
    method ScheduledCleanup(now: int, outcome: string -> DeleteOutcome)
      requires Valid()
      modifies this
      ensures Valid() && unchanged(statusManager)
      ensures fileAccessMap == AfterCleanup(old(fileAccessMap), now, outcome)
    {
      var filesToRemove: set<string> := {};
      var pending := fileAccessMap.Keys;
      while pending != {}
        invariant pending <= fileAccessMap.Keys
        invariant filesToRemove == set k | k in fileAccessMap.Keys - pending && Stale(fileAccessMap[k], now)
        decreases pending
      {
        var path :| path in pending;
        var metadata := fileAccessMap[path];
        if !metadata.inUse && metadata.lastUpdated < now - StaleSeconds {
          filesToRemove := filesToRemove + {path};
        }
        pending := pending - {path};
      }
      ghost var start := fileAccessMap;
      var todo := filesToRemove;
      while todo != {}
        invariant todo <= filesToRemove <= start.Keys
        invariant fileAccessMap.Keys <= start.Keys
        invariant forall k :: k in fileAccessMap ==> fileAccessMap[k] == start[k]
        invariant forall k :: k in start ==>
                    (k in fileAccessMap <==> k !in filesToRemove || k in todo || outcome(k) == DeleteFailed)
        decreases todo
      {
        var path :| path in todo;
        if outcome(path) != DeleteFailed {
          fileAccessMap := fileAccessMap - {path};
        }
        todo := todo - {path};
      }
    }

    /** `getFile`: refuse a name that leaves the directory before anything else; release the
        file's entry if it has one (never create one); then answer with the file, or NOT_FOUND
        when it does not exist or cannot be read. */
    method GetFile(filename: string, now: int, readable: set<string>) returns (r: FileResponse)
      requires Valid()
      modifies this
      ensures Valid() && unchanged(statusManager)
      ensures !Allowed(downloadsDir, filename) ==> r == Forbidden && fileAccessMap == old(fileAccessMap)
      ensures Allowed(downloadsDir, filename) ==>
                var key := PathString(Target(downloadsDir, filename));
                r == (if key in readable then Resource(key) else FileNotFound) &&
                fileAccessMap == if key in old(fileAccessMap) then old(fileAccessMap)[key := FileState(false, now)]
                                 else old(fileAccessMap)
    {
      var filePath := Target(downloadsDir, filename);
      if !StartsWithPath(filePath, downloadsDir) {
        return Forbidden;
      }
      var key := PathString(filePath);
      Release(key, now);
      if key !in readable {
        return FileNotFound;
      }
      r := Resource(key);
    }

    /** The `try` block of `downloadAudio` after the real run, given its `result`: the
        newest mp3, its entry in the table, the existence check and COMPLETED. */
    method Transfer(url: string, result: Result<ProcessResult, Failure>, listing: Option<seq<DirEntry>>,
                    present: set<string>, now: int)
      returns (r: Result<YoutubeResponse, Failure>, mp3: Option<string>)
      requires Valid()
      modifies this, statusManager
      ensures Valid()
      ensures var plan := PlanTransfer(downloadsDir, url, result, listing, present, now);
              r == plan.result &&
              statusManager.history == old(statusManager.history) + plan.writes &&
              plan.tracked == (if mp3.None? then [] else [mp3.value]) &&
              fileAccessMap == Stamped(old(fileAccessMap), plan.tracked, true, now)
    {
      ghost var files := fileAccessMap;
      mp3 := None;
      if result.Err? {
        StampedNone(files, true, now);
        return (if result.error.IOFailure? then Err(DownloadFailed(DownloadError)) else Err(result.error)), mp3;
      }
      if listing.None? {
        StampedNone(files, true, now);
        return Err(DownloadFailed(DownloadError)), mp3;
      }
      var latest := LatestMp3(listing.value);
      if latest.None? {
        StampedNone(files, true, now);
        return Err(DownloadFailed(NoMp3Message)), mp3;
      }
      var mp3Path := PathString(Child(downloadsDir, latest.value.name));
      mp3 := Some(mp3Path);
      Track(mp3Path, now);
      StampedOne(files, mp3Path, now);
      if result.value.exitCode != 0 || mp3Path !in present {
        return Err(DownloadFailed(ExitCodeMessage + IntToString(result.value.exitCode))), mp3;
      }
      Announce(url, Completed, CompletedMessage);
      r := Ok(YoutubeResponse(CompletedMessage, mp3Path, Completed, now));
    }

    /** The `try` block of `downloadAudio`: it returns the paths it put in the table, the
        ones the `finally` block releases. */
    method Attempt(url: string, tool: seq<string> -> ToolRun, listing: Option<seq<DirEntry>>,
                   present: set<string>, now: int)
      returns (r: Result<YoutubeResponse, Failure>, webm: Option<string>, mp3: Option<string>)
      requires Valid()
      modifies this, statusManager
      ensures Valid()
      ensures var plan := PlanDownload(downloadsDir, url, ExpectedFileName(tool(DryRunCommand(ytDlpPath, url))),
                                       ProcessOutcome(tool(CreateCommand(ytDlpPath, url))), listing, present, now);
              r == plan.result &&
              statusManager.history == old(statusManager.history) + plan.writes &&
              plan.tracked == (if webm.None? then [] else [webm.value]) + (if mp3.None? then [] else [mp3.value]) &&
              fileAccessMap == Stamped(old(fileAccessMap), plan.tracked, true, now)
      ensures mp3.Some? ==> webm.Some?
    {
      ghost var files := fileAccessMap;
      ghost var h0 := statusManager.history;
      var starting := (url, DownloadStatus(Starting, StartingMessage));
      var progress := (url, DownloadStatus(InProgress, ProgressMessage));
      webm, mp3 := None, None;
      Announce(url, Starting, StartingMessage);
      var expected := GetExpectedFileName(ytDlpPath, url, tool);
      if expected.Err? {
        StampedNone(files, true, now);
        return Err(DownloadFailed(DownloadError)), webm, mp3;
      }
      var webmPath := PathString(Child(downloadsDir, BaseName(expected.value)));
      webm := Some(webmPath);
      Track(webmPath, now);
      Announce(url, InProgress, ProgressMessage);
      AppendWrite(h0, starting, progress);
      ghost var h1 := statusManager.history;
      assert h1 == h0 + [starting, progress];
      var result := ExecuteDownload(ytDlpPath, url, tool);
      r, mp3 := Transfer(url, result, listing, present, now);
      ghost var rest := PlanTransfer(downloadsDir, url, result, listing, present, now);
      assert statusManager.history == h1 + rest.writes;
      AppendWrites(h0, [starting, progress], rest.writes);
      assert statusManager.history == h0 + ([starting, progress] + rest.writes);
      StampedCons(files, webmPath, rest.tracked, now);
    }

    /** `downloadAudio`: the `try` block, then the `finally` block, which releases each path
        the attempt put in the table. */
    method DownloadAudio(url: string, tool: seq<string> -> ToolRun, listing: Option<seq<DirEntry>>,
                         present: set<string>, now: int)
      returns (r: Result<YoutubeResponse, Failure>)
      requires Valid()
      modifies this, statusManager
      ensures Valid()
      ensures var plan := PlanDownload(downloadsDir, url, ExpectedFileName(tool(DryRunCommand(ytDlpPath, url))),
                                       ProcessOutcome(tool(CreateCommand(ytDlpPath, url))), listing, present, now);
              r == plan.result &&
              statusManager.history == old(statusManager.history) + plan.writes &&
              fileAccessMap == Stamped(old(fileAccessMap), plan.tracked, false, now)
    {
      ghost var files := fileAccessMap;
      ghost var tracked := PlanDownload(downloadsDir, url, ExpectedFileName(tool(DryRunCommand(ytDlpPath, url))),
                                        ProcessOutcome(tool(CreateCommand(ytDlpPath, url))), listing, present, now).tracked;
      var webm, mp3;
      r, webm, mp3 := Attempt(url, tool, listing, present, now);
      ghost var during := fileAccessMap;
      assert during == Stamped(files, tracked, true, now);
      if webm.None? {
        assert tracked == [];
        StampedNone(files, true, now);
        StampedNone(files, false, now);
        return;
      }
      assert webm.value in fileAccessMap;
      Release(webm.value, now);
      assert fileAccessMap == during[webm.value := FileState(false, now)];
      if mp3.None? {
        ReleasedOne(files, tracked, webm.value, now);
        return;
      }
      assert tracked == [webm.value] + [mp3.value];
      assert mp3.value in fileAccessMap;
      Release(mp3.value, now);
      assert fileAccessMap == during[webm.value := FileState(false, now)][mp3.value := FileState(false, now)];
      ReleasedTwo(files, tracked, webm.value, mp3.value, now);
    }

    /** `getStatus`: the status last written for `url`, `(NOT_FOUND, "")` when none was. */
    function GetStatus(url: string): (r: DownloadStatus)
      requires Valid()
      reads this, statusManager
      ensures LastWrite(statusManager.history, url).Some? ==> r == LastWrite(statusManager.history, url).value
      ensures LastWrite(statusManager.history, url).None? ==> r == Unknown
    {
      statusManager.GetStatus(url)
    }
  }

  // ---------------------------------------------------------------------------------
  // Properties of a download, for every outcome of the two runs of the tool.

  /** The writes of a download, in order: STARTING; then IN_PROGRESS once the dry run has
      named a file; then COMPLETED exactly when the download succeeds. NOT_FOUND and
      ALREADY_EXISTS are never written, and every failure is a failed download. */
  lemma PlanWrites(dir: Segs, url: string, dry: Result<string, Failure>, run: Result<ProcessResult, Failure>,
                   listing: Option<seq<DirEntry>>, present: set<string>, now: int)
    ensures var plan := PlanDownload(dir, url, dry, run, listing, present, now);
            var starting := (url, DownloadStatus(Starting, StartingMessage));
            var progress := (url, DownloadStatus(InProgress, ProgressMessage));
            var completed := (url, DownloadStatus(Completed, CompletedMessage));
            (plan.writes == [starting] <==> dry.Err?) &&
            (plan.writes == [starting, progress, completed] <==> plan.result.Ok?) &&
            (plan.writes == [starting] || plan.writes == [starting, progress] ||
             plan.writes == [starting, progress, completed]) &&
            (plan.result.Err? ==> plan.result.error.DownloadFailed?)
  {
  }

  /** A download succeeds exactly when the dry run names a file, the real run produces a
      result that exits with 0, the listing can be read and holds an mp3, and the newest
      mp3 exists. */
  lemma DownloadSucceedsIff(dir: Segs, url: string, dry: Result<string, Failure>,
                            run: Result<ProcessResult, Failure>, listing: Option<seq<DirEntry>>,
                            present: set<string>, now: int)
    ensures PlanDownload(dir, url, dry, run, listing, present, now).result.Ok? <==>
              dry.Ok? && run.Ok? && run.value.exitCode == 0 &&
              listing.Some? && LatestMp3(listing.value).Some? &&
              PathString(Child(dir, LatestMp3(listing.value).value.name)) in present
  {
  }

  /** The paths a download puts in the table: the dry run's file once it is named, then the
      newest mp3 once one is found; a successful download has tracked both. */
  lemma PlanTracked(dir: Segs, url: string, dry: Result<string, Failure>, run: Result<ProcessResult, Failure>,
                    listing: Option<seq<DirEntry>>, present: set<string>, now: int)
    ensures var plan := PlanDownload(dir, url, dry, run, listing, present, now);
            (|plan.tracked| == 0 <==> dry.Err?) &&
            (dry.Ok? ==> plan.tracked[0] == PathString(Child(dir, BaseName(dry.value)))) &&
            |plan.tracked| <= 2 &&
            (plan.result.Ok? ==> |plan.tracked| == 2 && plan.tracked[1] == plan.result.value.filePath)
  {
  }

  /** A name that ends with ".mp3" and has no slash is a plain segment. */
  lemma Mp3NamePlain(e: DirEntry)
    requires IsMp3(e)
    ensures PlainSegment(e.name)
  {
    assert |e.name| >= |Mp3|;
  }

  /** The response of a successful download: COMPLETED, stamped with the clock, naming the
      newest mp3 of the directory, which exists, ends with ".mp3", and is the very file the
      file endpoint serves for the mp3's name. */
  lemma CompletedResponse(dir: Segs, url: string, dry: Result<string, Failure>,
                          run: Result<ProcessResult, Failure>, listing: Option<seq<DirEntry>>,
                          present: set<string>, now: int)
    requires IsNormal(dir)
    ensures var plan := PlanDownload(dir, url, dry, run, listing, present, now);
            plan.result.Ok? ==>
              var resp := plan.result.value;
              var e := LatestMp3(listing.value).value;
              resp == YoutubeResponse(CompletedMessage, resp.filePath, Completed, now) &&
              resp.filePath in present && EndsWith(resp.filePath, Mp3) &&
              Allowed(dir, e.name) && PathString(Target(dir, e.name)) == resp.filePath
  {
    if dry.Ok? {
      TransferResponse(dir, url, run, listing, present, now);
    }
  }

  /** The same, for the part after the dry run. */
  lemma TransferResponse(dir: Segs, url: string, run: Result<ProcessResult, Failure>,
                         listing: Option<seq<DirEntry>>, present: set<string>, now: int)
    requires IsNormal(dir)
    ensures var rest := PlanTransfer(dir, url, run, listing, present, now);
            rest.result.Ok? ==>
              var resp := rest.result.value;
              var e := LatestMp3(listing.value).value;
              resp == YoutubeResponse(CompletedMessage, resp.filePath, Completed, now) &&
              resp.filePath in present && EndsWith(resp.filePath, Mp3) &&
              Allowed(dir, e.name) && PathString(Target(dir, e.name)) == resp.filePath
  {
    if PlanTransfer(dir, url, run, listing, present, now).result.Ok? {
      var e := LatestMp3(listing.value).value;
      Mp3NamePlain(e);
      PlainNameAllowed(dir, e.name);
      PathStringEndsWithLast(dir + [e.name]);
      EndsWithTransitive(PathString(dir + [e.name]), e.name, Mp3);
    }
  }

  lemma EndsWithTransitive(s: string, t: string, u: string)
    requires EndsWith(s, t) && EndsWith(t, u)
    ensures EndsWith(s, u)
  {
    assert s[|s| - |u|..] == t[|t| - |u|..] by {
      assert s[|s| - |t|..] == t;
    }
  }

  /** What the status endpoint reports once a download has returned: COMPLETED when it
      succeeded; otherwise the last state written before the failure, IN_PROGRESS or
      STARTING. Whatever was written before for the URL no longer matters. */
  lemma {:induction false} FinalStatus(h: seq<Write>, dir: Segs, url: string, dry: Result<string, Failure>,
                                       run: Result<ProcessResult, Failure>, listing: Option<seq<DirEntry>>,
                                       present: set<string>, now: int)
    ensures var plan := PlanDownload(dir, url, dry, run, listing, present, now);
            LastWrite(h + plan.writes, url) ==
              Some(if plan.result.Ok? then DownloadStatus(Completed, CompletedMessage)
                   else if dry.Ok? then DownloadStatus(InProgress, ProgressMessage)
                   else DownloadStatus(Starting, StartingMessage))
  {
    var plan := PlanDownload(dir, url, dry, run, listing, present, now);
    PlanWrites(dir, url, dry, run, listing, present, now);
    var all := h + plan.writes;
    assert all[|all| - 1] == plan.writes[|plan.writes| - 1];
  }

  /** The paths a download has released survive every cleanup for 120 seconds; after that
      a cleanup drops each of them unless deleting it fails. */
  lemma ReleasedKeptFor(files: map<string, FileState>, tracked: seq<string>, now: int, later: int,
                        outcome: string -> DeleteOutcome, k: string)
    requires k in tracked
    ensures var after := AfterCleanup(Stamped(files, tracked, false, now), later, outcome);
            k in after <==> later <= now + StaleSeconds || outcome(k) == DeleteFailed
  {
  }

  /** Two writes appended one after the other, or together. */
  lemma AppendWrite(h: seq<Write>, a: Write, b: Write)
    ensures h + [a] + [b] == h + [a, b]
  {
  }

  /** Writes appended in two steps, or together. */
  lemma AppendWrites(h: seq<Write>, done: seq<Write>, more: seq<Write>)
    ensures h + done + more == h + (done + more)
  {
  }

  /** Stamping no path changes nothing. */
  lemma StampedNone(files: map<string, FileState>, inUse: bool, now: int)
    ensures Stamped(files, [], inUse, now) == files
  {
  }

  /** Tracking one path is stamping it. */
  lemma StampedOne(files: map<string, FileState>, a: string, now: int)
    ensures files[a := FileState(true, now)] == Stamped(files, [a], true, now)
  {
  }

  /** Tracking one path, then the ones after it. */
  lemma StampedCons(files: map<string, FileState>, a: string, rest: seq<string>, now: int)
    ensures Stamped(files[a := FileState(true, now)], rest, true, now) == Stamped(files, [a] + rest, true, now)
  {
  }

  /** Releasing the one tracked path leaves it released. */
  lemma ReleasedOne(files: map<string, FileState>, tracked: seq<string>, a: string, now: int)
    requires tracked == [a] + []
    ensures Stamped(files, tracked, true, now)[a := FileState(false, now)] == Stamped(files, tracked, false, now)
  {
  }

  /** Releasing the two tracked paths, one after the other, leaves both released. */
  lemma ReleasedTwo(files: map<string, FileState>, tracked: seq<string>, a: string, b: string, now: int)
    requires tracked == [a] + [b]
    ensures Stamped(files, tracked, true, now)[a := FileState(false, now)][b := FileState(false, now)]
            == Stamped(files, tracked, false, now)
  {
  }
}
