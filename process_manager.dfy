/** The wrapper around the yt-dlp command-line tool: the command lines it builds and what
    it reads out of the tool's captured output. The child process itself is a parameter
    `tool` that maps a command line to what the process did. */
module ProcessManager {
  import opened Common
  import opened Strings
  import opened Domain

  /** The flags that ask for audio-only mp3 extraction at best quality, a title-based
      output name made filesystem-safe, overwriting, and no kept video. */
  const ExtractionFlags: seq<string> :=
    ["-x", "--audio-format", "mp3", "--audio-quality", "0", "-o", "%(title)s.%(ext)s",
     "--restrict-filenames", "--force-overwrites", "--no-keep-video"]

  /** The flags the dry run adds: simulate, but print where the file would end up. */
  const DryRunFlags: seq<string> := ["--simulate", "--print", "after_move:filepath", "--no-simulate"]

  const Marker := "[ExtractAudio] Destination: "
  const Mp3 := ".mp3"

  /** The command of a real download: the tool, the fixed flags, then the URL. */
  function CreateCommand(ytDlpPath: string, url: string): (cmd: seq<string>)
    ensures |cmd| == 12 && cmd[0] == ytDlpPath && cmd[11] == url
    ensures cmd[1..11] == ExtractionFlags
  {
    [ytDlpPath, "-x", "--audio-format", "mp3", "--audio-quality", "0", "-o", "%(title)s.%(ext)s",
     "--restrict-filenames", "--force-overwrites", "--no-keep-video", url]
  }

  /** The command of the dry run: the real command with the four simulate flags after it. */
  function DryRunCommand(ytDlpPath: string, url: string): (cmd: seq<string>)
    ensures |cmd| == 16 && cmd[..12] == CreateCommand(ytDlpPath, url)
    ensures cmd[12..] == DryRunFlags
  {
    CreateCommand(ytDlpPath, url) + ["--simulate", "--print", "after_move:filepath", "--no-simulate"]
  }

  // ---------------------------------------------------------------------------------
  // The pattern `\[ExtractAudio] Destination: (.+\.mp3)` searched with `Matcher.find`.

  /** Every character of s[j..e] can be matched by the regular-expression `.`. */
  predicate Dots(s: string, j: int, e: int)
    requires 0 <= j && e <= |s|
  {
    forall k :: j <= k < e ==> !LineTerminator(s[k])
  }

  predicate Mp3EndsAt(s: string, e: int) {
    4 <= e <= |s| && s[e - 4..e] == Mp3
  }

  /** `(.+\.mp3)` can match s[j..e]: one or more characters other than line terminators,
      then ".mp3". */
  predicate CaptureEnd(s: string, j: nat, e: int) {
    j + 5 <= e <= |s| && Mp3EndsAt(s, e) && Dots(s, j, e - 4)
  }

  /** The whole pattern matches `line` from i to e. */
  predicate MatchAt(line: string, i: nat, e: int) {
    InfixAt(line, Marker, i) && CaptureEnd(line, i + |Marker|, e)
  }

  /** Where the run of characters that `.` matches, starting at j, ends. */
  function RunEnd(s: string, j: nat): (t: nat)
    requires j <= |s|
    ensures j <= t <= |s| && Dots(s, j, t)
    ensures t < |s| ==> LineTerminator(s[t])
    decreases |s| - j
  {
    if j == |s| || LineTerminator(s[j]) then j else RunEnd(s, j + 1)
  }

  /** Backtracking of the greedy `.+`: the largest end at most e where ".mp3" ends with at
      least one character before it. */
  function LastMp3End(s: string, j: nat, e: nat): (r: Option<nat>)
    requires j <= e <= |s|
    ensures r.Some? ==> j + 5 <= r.value <= e && Mp3EndsAt(s, r.value)
    ensures forall e' :: (if r.Some? then r.value else j) < e' <= e ==> !(j + 5 <= e' && Mp3EndsAt(s, e'))
    decreases e
  {
    if e < j + 5 then None
    else if s[e - 4..e] == Mp3 then Some(e)
    else LastMp3End(s, j, e - 1)
  }

  lemma DotsUpToRunEnd(s: string, j: nat, e: int)
    requires j <= |s| && j + 5 <= e <= |s| && Mp3EndsAt(s, e)
    ensures Dots(s, j, e - 4) <==> e <= RunEnd(s, j)
  {
  }

  /** The captures after j are the ends of ".mp3" within the run of `.`-characters. */
  lemma CaptureEndInRun(s: string, j: nat)
    requires j <= |s|
    ensures forall e :: CaptureEnd(s, j, e) <==> j + 5 <= e <= RunEnd(s, j) && Mp3EndsAt(s, e)
  {
    forall e | j + 5 <= e <= |s| && Mp3EndsAt(s, e) {
      DotsUpToRunEnd(s, j, e);
    }
  }

  /** What `(.+\.mp3)` can capture ends in ".mp3", has at least five characters and holds
      no line terminator. */
  lemma CaptureShape(s: string, j: nat, e: int)
    requires CaptureEnd(s, j, e)
    ensures EndsWith(s[j..e], Mp3) && |s[j..e]| >= 5
    ensures forall k :: 0 <= k < |s[j..e]| ==> !LineTerminator(s[j..e][k])
  {
    var g := s[j..e];
    assert g[|g| - 4..] == s[e - 4..e];
    forall k | 0 <= k < |g|
      ensures !LineTerminator(g[k])
    {
      if k >= |g| - 4 {
        assert g[k] == Mp3[k - (|g| - 4)];
      } else {
        assert g[k] == s[j + k];
      }
    }
  }

  /** The group of `(.+\.mp3)` matched right after position j: the longest possible one. */
  function CaptureFrom(s: string, j: nat): (r: Option<string>)
    requires j <= |s|
    ensures r.Some? <==> exists e :: CaptureEnd(s, j, e)
    ensures r.Some? ==> exists e :: CaptureEnd(s, j, e) && r.value == s[j..e] &&
                                    forall e' :: CaptureEnd(s, j, e') ==> e' <= e
    ensures r.Some? ==> EndsWith(r.value, Mp3) && |r.value| >= 5
    ensures r.Some? ==> forall k :: 0 <= k < |r.value| ==> !LineTerminator(r.value[k])
  {
    CaptureEndInRun(s, j);
    match LastMp3End(s, j, RunEnd(s, j))
    case Some(e) => CaptureShape(s, j, e); Some(s[j..e])
    case None => None
  }

  /** The marker starts at p and a group can be captured after it. */
  predicate MatchesAt(line: string, p: nat) {
    InfixAt(line, Marker, p) && CaptureFrom(line, p + |Marker|).Some?
  }

  /** `Matcher.find` from position i onwards: the first position where the marker starts
      and a group can be captured after it. */
  function FindMarkerFrom(line: string, i: nat): (r: Option<nat>)
    requires i <= |line|
    ensures r.Some? ==> i <= r.value <= |line| && MatchesAt(line, r.value)
    ensures forall q: nat :: i <= q && (r.None? || q < r.value) ==> !MatchesAt(line, q)
    decreases |line| - i
  {
    if MatchesAt(line, i) then Some(i)
    else if i == |line| then None
    else FindMarkerFrom(line, i + 1)
  }

  /** Group 1 of the first match of the destination pattern in `line`, if any. */
  function MarkerCapture(line: string): (r: Option<string>)
    ensures r.Some? ==> EndsWith(r.value, Mp3) && |r.value| >= 5
    ensures r.Some? ==> forall k :: 0 <= k < |r.value| ==> !LineTerminator(r.value[k])
  {
    match FindMarkerFrom(line, 0)
    case Some(p) => CaptureFrom(line, p + |Marker|)
    case None => None
  }

  /** A match of the whole pattern from p to e means a group can be captured at p. */
  lemma MatchAtMatches(line: string, p: nat, e: int)
    requires MatchAt(line, p, e)
    ensures MatchesAt(line, p)
  {
  }

  /** The group is that of the leftmost match, and the longest one there (the `+` is
      greedy); there is none exactly when the pattern matches nowhere in the line. */
  lemma MarkerCaptureSpec(line: string)
    ensures var r := MarkerCapture(line);
            r.Some? ==> exists p: nat, e :: MatchAt(line, p, e) && r.value == line[p + |Marker|..e] &&
                                            (forall q: nat, e' :: q < p ==> !MatchAt(line, q, e')) &&
                                            (forall e' :: MatchAt(line, p, e') ==> e' <= e)
    ensures MarkerCapture(line).None? <==> forall p: nat, e :: !MatchAt(line, p, e)
  {
    NoMatchBeforeFound(line);
    var found := FindMarkerFrom(line, 0);
    if found.Some? {
      var p := found.value;
      var e := LongestAtFound(line, p);
      assert MarkerCapture(line).value == line[p + |Marker|..e];
      assert forall q: nat, e' :: q < p ==> !MatchAt(line, q, e');
    }
  }

  lemma NoMatchBeforeFound(line: string)
    ensures forall q: nat, e' :: MatchAt(line, q, e') ==>
              FindMarkerFrom(line, 0).Some? && FindMarkerFrom(line, 0).value <= q
  {
    forall q: nat, e' | MatchAt(line, q, e')
      ensures FindMarkerFrom(line, 0).Some? && FindMarkerFrom(line, 0).value <= q
    {
      MatchAtMatches(line, q, e');
    }
  }

  lemma LongestAtFound(line: string, p: nat) returns (e: int)
    requires p <= |line| && MatchesAt(line, p)
    ensures MatchAt(line, p, e) && CaptureFrom(line, p + |Marker|).value == line[p + |Marker|..e]
    ensures forall e' :: MatchAt(line, p, e') ==> e' <= e
  {
    var j := p + |Marker|;
    e :| CaptureEnd(line, j, e) && CaptureFrom(line, j).value == line[j..e] &&
         forall e' :: CaptureEnd(line, j, e') ==> e' <= e;
  }

  predicate HasMarker(line: string) {
    MarkerCapture(line).Some?
  }

  predicate TrimmedEndsInMp3(line: string) {
    EndsWith(Trim(line), Mp3)
  }

  // ---------------------------------------------------------------------------------
  // Where the downloaded file is, read from the captured output.

  const PathNotFound := "File path not found in output: "

  /** The path the output names: the group of the first line with the destination marker;
      failing that, the first line that ends in ".mp3" once trimmed, trimmed; failing that, a
      failed download. */
  function ExtractedPath(output: string): (r: Result<string, Failure>)
    ensures r.Ok? ==> EndsWith(r.value, Mp3)
    ensures r.Err? ==> r.error == DownloadFailed(PathNotFound + output)
    ensures r.Err? <==> forall k :: 0 <= k < |Split(output)| ==>
                          !HasMarker(Split(output)[k]) && !TrimmedEndsInMp3(Split(output)[k])
  {
    var lines := Split(output);
    match FindFirst(lines, HasMarker)
    case Some(line) => Ok(MarkerCapture(line).value)
    case None =>
      match FindFirst(lines, TrimmedEndsInMp3)
      case Some(line) => Ok(Trim(line))
      case None => Err(DownloadFailed(PathNotFound + output))
  }

  /** `extractFilePath`: the loop over the split lines with an early return, then the
      stream fallback. */
  method ExtractFilePath(output: string) returns (r: Result<string, Failure>)
    ensures r == ExtractedPath(output)
  {
    var lines := Split(output);
    for i := 0 to |lines|
      invariant forall k :: 0 <= k < i ==> !HasMarker(lines[k])
    {
      var group := MarkerCapture(lines[i]);
      if group.Some? {
        FindFirstAt(lines, HasMarker, i);
        return Ok(group.value);
      }
    }
    match FindFirst(lines, TrimmedEndsInMp3)
    case Some(line) => r := Ok(Trim(line));
    case None => r := Err(DownloadFailed(PathNotFound + output));
  }

  /** The empty line names no file. */
  lemma EmptyLineNoPath()
    ensures !HasMarker("") && !TrimmedEndsInMp3("")
  {
    MarkerCaptureSpec("");
    assert !MatchAt("", 0, 0);
  }

  /** Splitting the captured text gives a prefix of the captured lines (the trailing blank
      ones dropped), or the single empty line when nothing was captured. */
  lemma SplitIsPrefix(lines: seq<Line>)
    ensures var split := Split(JoinLines(lines));
            if |lines| == 0 then split == [""]
            else |split| <= |lines| && split == lines[..|split|] &&
                 forall i :: |split| <= i < |lines| ==> lines[i] == ""
  {
    SplitJoinLines(lines);
  }

  /** A line with the destination marker wins, even over earlier lines that already end in
      ".mp3": the path is the group of the first captured line that has the marker. */
  lemma MarkerLineWins(lines: seq<Line>, k: nat)
    requires k < |lines| && HasMarker(lines[k])
    requires forall i :: 0 <= i < k ==> !HasMarker(lines[i])
    ensures ExtractedPath(JoinLines(lines)) == Ok(MarkerCapture(lines[k]).value)
  {
    var output := JoinLines(lines);
    SplitIsPrefix(lines);
    EmptyLineNoPath();
    var split := Split(output);
    FindFirstInPrefix(split, lines, HasMarker, k);
  }

  /** With no marker line, the path is the first captured line that ends in ".mp3" once
      trimmed, trimmed. */
  lemma FallbackLine(lines: seq<Line>, k: nat)
    requires forall i :: 0 <= i < |lines| ==> !HasMarker(lines[i])
    requires k < |lines| && TrimmedEndsInMp3(lines[k])
    requires forall i :: 0 <= i < k ==> !TrimmedEndsInMp3(lines[i])
    ensures ExtractedPath(JoinLines(lines)) == Ok(Trim(lines[k]))
  {
    var output := JoinLines(lines);
    SplitIsPrefix(lines);
    EmptyLineNoPath();
    var split := Split(output);
    FindNoneInPrefix(split, lines, HasMarker);
    FindFirstInPrefix(split, lines, TrimmedEndsInMp3, k);
  }

  /** With neither a marker line nor a line ending in ".mp3", the download fails. */
  lemma NoPathFails(lines: seq<Line>)
    requires forall i :: 0 <= i < |lines| ==> !HasMarker(lines[i]) && !TrimmedEndsInMp3(lines[i])
    ensures ExtractedPath(JoinLines(lines)) == Err(DownloadFailed(PathNotFound + JoinLines(lines)))
  {
    var output := JoinLines(lines);
    SplitIsPrefix(lines);
    NoPathInSplit(Split(output), lines);
    NoPathInOutput(output);
  }

  lemma NoPathInOutput(output: string)
    requires forall k :: 0 <= k < |Split(output)| ==> !HasMarker(Split(output)[k]) && !TrimmedEndsInMp3(Split(output)[k])
    ensures ExtractedPath(output) == Err(DownloadFailed(PathNotFound + output))
  {
  }

  lemma NoPathInSplit(split: seq<string>, lines: seq<Line>)
    requires forall i :: 0 <= i < |lines| ==> !HasMarker(lines[i]) && !TrimmedEndsInMp3(lines[i])
    requires if |lines| == 0 then split == [""] else |split| <= |lines| && split == lines[..|split|]
    ensures forall k :: 0 <= k < |split| ==> !HasMarker(split[k]) && !TrimmedEndsInMp3(split[k])
  {
    EmptyLineNoPath();
    if |lines| > 0 {
      assert forall k :: 0 <= k < |split| ==> split[k] == lines[k];
    }
  }

  // ---------------------------------------------------------------------------------
  // executeDownload and getExpectedFileName.

  /** The StringBuilder loop of both readers. */
  method ReadOutput(lines: seq<Line>) returns (output: string)
    ensures output == JoinLines(lines)
  {
    output := "";
    for i := 0 to |lines|
      invariant output == JoinLines(lines[..i])
    {
      JoinLinesAppend(lines[..i], lines[i]);
      assert lines[..i + 1] == lines[..i] + [lines[i]];
      output := output + lines[i] + "\n";
    }
    assert lines[..|lines|] == lines;
  }

  const ExitCodeMessage := "Download failed. Exit code: "

  /** The result of a real run that printed `output` and exited with `code`: the path is
      parsed before the exit code is looked at, so output without a path fails even when the
      tool failed; otherwise the result carries the exit code, the path, the captured text,
      and an error text exactly when the exit code is not zero. */
  function DownloadResult(code: int, output: string): (r: Result<ProcessResult, Failure>)
    ensures r.Ok? <==> ExtractedPath(output).Ok?
    ensures r.Err? ==> r.error == ExtractedPath(output).error
    ensures r.Ok? ==> r.value.exitCode == code && r.value.output == output &&
                      r.value.filepath == ExtractedPath(output).value &&
                      EndsWith(r.value.filepath, Mp3)
    ensures r.Ok? ==> (r.value.error == "" <==> code == 0)
    ensures r.Ok? && code != 0 ==> r.value.error == ExitCodeMessage + IntToString(code) + "\n" + output
  {
    match ExtractedPath(output)
    case Err(e) => Err(e)
    case Ok(path) =>
      Ok(ProcessResult(code, path, if code != 0 then ExitCodeMessage + IntToString(code) + "\n" + output else "", output))
  }

  /** What `executeDownload` returns for a run of the tool: an I/O failure exactly when the
      process could not be started or waited for; otherwise a failed download when the lines
      read hold no path, whatever the exit code, and else the result for those lines. A
      reader thread that fails only logs, so its run counts as exited with the lines read
      before the failure. */
  function ProcessOutcome(run: ToolRun): (r: Result<ProcessResult, Failure>)
    ensures (r.Err? && r.error.IOFailure?) <==> run.Aborted?
    ensures run.Exited? ==> (r.Ok? <==> ExtractedPath(JoinLines(run.lines)).Ok?)
    ensures run.Exited? && r.Err? ==> r.error == DownloadFailed(PathNotFound + JoinLines(run.lines))
    ensures r.Ok? ==> run.Exited? && r.value.exitCode == run.exitCode &&
                      r.value.output == JoinLines(run.lines) &&
                      r.value.filepath == ExtractedPath(JoinLines(run.lines)).value &&
                      (r.value.error == "" <==> run.exitCode == 0)
  {
    match run
    case Aborted(reason) => Err(IOFailure(reason))
    case Exited(code, lines) => DownloadResult(code, JoinLines(lines))
  }

  /** `executeDownload`: run the download command and assemble the result. */
  method ExecuteDownload(ytDlpPath: string, url: string, tool: seq<string> -> ToolRun)
    returns (r: Result<ProcessResult, Failure>)
    ensures r == ProcessOutcome(tool(CreateCommand(ytDlpPath, url)))
  {
    var command := CreateCommand(ytDlpPath, url);
    var run := tool(command);
    match run
    case Aborted(reason) =>
      r := Err(IOFailure(reason));
    case Exited(exitCode, lines) =>
      var fullOutput := ReadOutput(lines);
      var filePath := ExtractFilePath(fullOutput);
      if filePath.Err? {
        return Err(filePath.error);
      }
      var errorBuffer := "";
      if exitCode != 0 {
        errorBuffer := errorBuffer + ExitCodeMessage + IntToString(exitCode) + "\n";
        errorBuffer := errorBuffer + fullOutput;
        AppendFour(ExitCodeMessage, IntToString(exitCode), "\n", fullOutput);
      }
      r := Ok(ProcessResult(exitCode, filePath.value, errorBuffer, fullOutput));
      assert r == DownloadResult(exitCode, fullOutput);
  }

  predicate ContainsMp3(line: string) {
    Contains(line, Mp3)
  }

  const FileNameMessage := "Failed to retrieve file name. Exit code: "

  /** The file name in the trimmed output of a successful dry run: the first of its lines
      that contains ".mp3", trimmed; a failure when there is none. */
  function FileNameIn(output: string): (r: Result<string, Failure>)
    ensures r.Err? ==> r == Err(IOFailure(PathNotFound + output))
    ensures r.Ok? ==> Contains(r.value, Mp3)
    ensures r.Ok? <==> exists k :: 0 <= k < |Split(output)| && ContainsMp3(Split(output)[k])
  {
    match FindFirst(Split(output), ContainsMp3)
    case Some(line) => TrimKeepsInfix(line, Mp3); Ok(Trim(line))
    case None => Err(IOFailure(PathNotFound + output))
  }

  /** The dry run returns the first line that contains ".mp3", trimmed. */
  lemma FileNameIsFirst(output: string, k: nat)
    requires k < |Split(output)| && ContainsMp3(Split(output)[k])
    requires forall i :: 0 <= i < k ==> !ContainsMp3(Split(output)[i])
    ensures FileNameIn(output) == Ok(Trim(Split(output)[k]))
  {
    FindFirstAt(Split(output), ContainsMp3, k);
  }

  /** What `getExpectedFileName` returns for a run of the dry-run command: an I/O failure
      when the process could not be run or read, one carrying the exit code and the trimmed
      output when the tool failed, and otherwise the file name found in the trimmed output. */
  function ExpectedFileName(run: ToolRun): (r: Result<string, Failure>)
    ensures r.Err? ==> r.error.IOFailure?
    ensures run.Aborted? ==> r == Err(IOFailure(run.reason))
    ensures run.Exited? && run.exitCode != 0 ==>
              r == Err(IOFailure(FileNameMessage + IntToString(run.exitCode) + "\nOutput: " + Trim(JoinLines(run.lines))))
    ensures run.Exited? && run.exitCode == 0 ==> r == FileNameIn(Trim(JoinLines(run.lines)))
  {
    match run
    case Aborted(reason) => Err(IOFailure(reason))
    case Exited(code, lines) =>
      var output := Trim(JoinLines(lines));
      if code != 0 then Err(IOFailure(FileNameMessage + IntToString(code) + "\nOutput: " + output))
      else FileNameIn(output)
  }

  /** `getExpectedFileName`: run the dry-run command, read all of its output, then parse. */
  method GetExpectedFileName(ytDlpPath: string, url: string, tool: seq<string> -> ToolRun)
    returns (r: Result<string, Failure>)
    ensures r == ExpectedFileName(tool(DryRunCommand(ytDlpPath, url)))
  {
    var command := CreateCommand(ytDlpPath, url);
    command := command + ["--simulate"];
    command := command + ["--print"];
    command := command + ["after_move:filepath"];
    command := command + ["--no-simulate"];
    assert command == DryRunCommand(ytDlpPath, url);
    match tool(command)
    case Aborted(reason) =>
      r := Err(IOFailure(reason));
    case Exited(exitCode, lines) =>
      var buffer := ReadOutput(lines);
      var output := Trim(buffer);
      if exitCode != 0 {
        return Err(IOFailure(FileNameMessage + IntToString(exitCode) + "\nOutput: " + output));
      }
      var fileLine := FindFirst(Split(output), ContainsMp3);
      if fileLine.Some? {
        TrimKeepsInfix(fileLine.value, Mp3);
        return Ok(Trim(fileLine.value));
      }
      r := Err(IOFailure(PathNotFound + output));
  }
}
