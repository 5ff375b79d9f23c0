# download-link in Dafny

A model of the core of download-link, a Spring service that downloads the audio of a YouTube
video as an mp3 by running yt-dlp. The model covers four pieces:

- **Tool output and commands** (`ProcessManager`, over `Strings` and `Common`):
  - the argument lists passed to yt-dlp, for the download and for the dry run;
  - how the captured output becomes a `ProcessResult`;
  - the `[ExtractAudio] Destination:` marker and its trimmed-line fallback;
  - the dry run's file name.
- **URL validation** (`UrlValidator`, `LinkRequest`):
  - the two regular expressions of the validator and the request's `@Pattern`, as
    hand-written recognisers;
  - for the validator's URL pattern, the video-ID pattern and the request pattern, a
    reference definition by split points, proved equivalent to the recogniser.
- **Status registry** (`StatusManager`): the last-write-wins map from URL to status, with
  `(NOT_FOUND, "")` for a URL never written.
- **File tracking and the download script** (`Metadata`, `DownloadService`, over `Paths`
  and `Domain`):
  - the table of tracked files and its scheduled cleanup;
  - the path-traversal guard of the file endpoint;
  - the order of status writes and table updates in `downloadAudio`.

Modelling choices:

- **The two runs of yt-dlp** are one function `tool` from a command to a `ToolRun`. A run
  either exits with a code and the lines read from its output, or is aborted by an I/O
  failure or an interruption.
  - Starting the process or waiting for it can abort either run.
  - Reading the output aborts only the dry run, which reads on the calling thread.
  - The real run reads on a thread of its own, which only logs a failure. A failed read
    there is an exit with the lines read until then, so it ends as a result or as "File
    path not found", never as "Download error".
- **The file system** is a set of inputs:
  - the directory listing after the download, as names with modification times (`None`
    when the listing fails);
  - the set of paths that exist;
  - the set of paths that can be read;
  - the outcome of deleting a path.
- **The clock** is an integer number of seconds, `now`. One `now` serves a whole call.
- **Paths** are sequences of segments. `resolve`, `normalize` and `startsWith` follow
  Unix paths segment by segment, so `normalize` drops `..` at the root.
- **Errors:**
  - `IOFailure` stands for an `IOException`;
  - `DownloadFailed` stands for a `DownloadFailedException`;
  - `InvalidYoutubeUrl` stands for an `InvalidYoutubeUrlException`;
  - each carries only its message.
- **How `downloadAudio` fails:** an I/O failure anywhere in it ends as "Download error". A
  `DownloadFailedException` raised inside it, for example by `extractFilePath`, escapes with
  its own message, because the `catch` only handles `IOException` and
  `InterruptedException`.

How the downloads are specified:

- `DownloadService.PlanDownload` is the script of one download, computed from:
  - the dry run's result;
  - the real run's result;
  - the listing.
- The script gives the status writes, the tracked paths and the result.
- `YoutubeDownloadService.DownloadAudio` is proved to perform that script. Its `try` block is
  split into `Attempt` and `Transfer` to keep each proof small; the source has one method.
- The lemmas about the script hold for every outcome of the two runs.

How the status registry is specified:

- Its class keeps a ghost history of the writes beside the map.
- The invariant is that the map is the replay of that history.
- This makes the order of status writes provable.

The status of a failed download:

- The status left by a failed download is IN_PROGRESS when the dry run named a file.
- When the dry run itself failed, it is STARTING: the failure comes before IN_PROGRESS is
  written (`FinalStatus`).
- FAILED does not exist, and ALREADY_EXISTS and NOT_FOUND are never written.

## Model

| member | source | states |
|---|---|---|
| Common.FindFirst | src/main/java/com/abreu/download_link/service/YoutubeProcessManager.java:148-150 | `filter(p).findFirst()`: None exactly when no element satisfies `p`; otherwise an element satisfying `p` with none before it |
| Strings.Trim | src/main/java/com/abreu/download_link/service/YoutubeProcessManager.java:149 | `String.trim`: the result neither starts nor ends with a character up to U+0020 |
| Strings.TrimIsInfix | src/main/java/com/abreu/download_link/service/YoutubeProcessManager.java:151 | the trimmed text is the infix of the line between a leading and a trailing run of characters up to U+0020 |
| Strings.TrimKeepsInfix | src/main/java/com/abreu/download_link/service/YoutubeProcessManager.java:177 | trimming the dry-run output never cuts into a part that starts and ends with a character above U+0020, so every ".mp3" survives it |
| Strings.Split | src/main/java/com/abreu/download_link/service/YoutubeProcessManager.java:141 | `split("\n")`: no piece holds a line feed; text without a line feed splits into itself |
| Strings.SplitJoinLines | src/main/java/com/abreu/download_link/service/YoutubeProcessManager.java:108-141 | splitting the captured output gives back the lines read, without trailing empty ones; no lines at all split into one empty line |
| Strings.JoinLinesAppend | src/main/java/com/abreu/download_link/service/YoutubeProcessManager.java:109 | appending a line and "\n" to the buffer extends the captured text by that line |
| Strings.IntToString | src/main/java/com/abreu/download_link/service/YoutubeProcessManager.java:127 | the decimal rendering of the exit code is non-empty and starts with '-' exactly for a negative code |
| ProcessManager.CreateCommand | src/main/java/com/abreu/download_link/service/YoutubeProcessManager.java:201-213 | 12 elements: the yt-dlp path, the ten fixed flags in order, the URL last |
| ProcessManager.DryRunCommand | src/main/java/com/abreu/download_link/service/YoutubeProcessManager.java:156-160 | 16 elements: the download command followed by `--simulate`, `--print`, `after_move:filepath`, `--no-simulate` |
| ProcessManager.CaptureFrom | src/main/java/com/abreu/download_link/service/YoutubeProcessManager.java:140 | the greedy group `(.+\.mp3)` at a position: it exists exactly when some end position fits; it is the longest fit, ends with ".mp3", has at least 5 characters and no line terminator |
| ProcessManager.FindMarkerFrom | src/main/java/com/abreu/download_link/service/YoutubeProcessManager.java:143 | `Matcher.find` from a position onwards: the first position where the marker starts and a group can be captured after it; None when there is none |
| ProcessManager.MarkerCapture | src/main/java/com/abreu/download_link/service/YoutubeProcessManager.java:142-144 | the captured group ends with ".mp3", has at least 5 characters and no line terminator |
| ProcessManager.MarkerCaptureSpec | src/main/java/com/abreu/download_link/service/YoutubeProcessManager.java:140-144 | the group comes from the leftmost position where the pattern matches and is the longest match there; there is none exactly when the pattern matches nowhere |
| ProcessManager.ExtractedPath | src/main/java/com/abreu/download_link/service/YoutubeProcessManager.java:139-153 | a found path ends with ".mp3"; the search fails exactly when no line has the marker pattern and no trimmed line ends with ".mp3", and then fails with "File path not found in output: " + output |
| ProcessManager.ExtractFilePath | src/main/java/com/abreu/download_link/service/YoutubeProcessManager.java:139-153 | the loop with early return over the split lines, then the stream fallback, computes ExtractedPath |
| ProcessManager.SplitIsPrefix | src/main/java/com/abreu/download_link/service/YoutubeProcessManager.java:141 | the split of the captured output is a prefix of the lines read (one empty line when none were read) |
| ProcessManager.MarkerLineWins | src/main/java/com/abreu/download_link/service/YoutubeProcessManager.java:141-152 | the first line with the marker pattern gives the path, even when an earlier line ends with ".mp3" |
| ProcessManager.FallbackLine | src/main/java/com/abreu/download_link/service/YoutubeProcessManager.java:148-151 | with no marker line, the path is the trimmed first line whose trim ends with ".mp3" |
| ProcessManager.NoPathFails | src/main/java/com/abreu/download_link/service/YoutubeProcessManager.java:148-152 | with neither kind of line, the result is the DownloadFailed error carrying the whole output |
| ProcessManager.ReadOutput | src/main/java/com/abreu/download_link/service/YoutubeProcessManager.java:102-109 | the reader loop's buffer is every line read followed by "\n" |
| ProcessManager.DownloadResult | src/main/java/com/abreu/download_link/service/YoutubeProcessManager.java:122-136 | a result exists exactly when a path is found, whatever the exit code; otherwise the path error escapes; the result holds the code, the path and the output; its error is empty exactly when the code is 0, and otherwise "Download failed. Exit code: " + code + "\n" + output |
| ProcessManager.ProcessOutcome | src/main/java/com/abreu/download_link/service/YoutubeProcessManager.java:95-137 | an I/O failure exactly when the run was aborted (start or wait failed); for a run that exited, whatever its code: a failed download "File path not found in output: " + the captured text when no line yields a path, and otherwise a result with the exit code, the captured text, the path found, and an error text empty exactly when the code is 0 |
| ProcessManager.ExecuteDownload | src/main/java/com/abreu/download_link/service/YoutubeProcessManager.java:95-137 | runs the tool on CreateCommand and returns ProcessOutcome of that run |
| ProcessManager.FileNameIn | src/main/java/com/abreu/download_link/service/YoutubeProcessManager.java:188-198 | a name is found exactly when some line of the output contains ".mp3", and it contains ".mp3"; otherwise the I/O error "File path not found in output: " + output |
| ProcessManager.FileNameIsFirst | src/main/java/com/abreu/download_link/service/YoutubeProcessManager.java:188-195 | the name is the trimmed first line that contains ".mp3" |
| ProcessManager.ExpectedFileName | src/main/java/com/abreu/download_link/service/YoutubeProcessManager.java:155-199 | every failure is an I/O failure; a non-zero exit fails with "Failed to retrieve file name. Exit code: " + code + "\nOutput: " + trimmed output; exit 0 searches the trimmed output |
| ProcessManager.GetExpectedFileName | src/main/java/com/abreu/download_link/service/YoutubeProcessManager.java:155-199 | builds the dry-run command by appends, reads the output, and returns ExpectedFileName of the run |
| UrlValidator.VideoIdMatch | src/main/java/com/abreu/download_link/service/YoutubeUrlValidator.java:16-18 | a found ID has 11 characters from `[A-Za-z0-9_-]` |
| UrlValidator.MatchesUrlPattern | src/main/java/com/abreu/download_link/service/YoutubeUrlValidator.java:13-15 | `matches` of the URL pattern over the whole URL; UrlPatternSpec states that it accepts exactly an optional scheme, an optional "www.", youtube.com or youtu.be, "/" and a rest without line terminators |
| UrlValidator.UrlPatternSpec | src/main/java/com/abreu/download_link/service/YoutubeUrlValidator.java:13-15 | the recogniser accepts exactly the URLs that split into an optional scheme, an optional "www.", a host and a rest without line terminators |
| UrlValidator.VideoIdMatchSpec | src/main/java/com/abreu/download_link/service/YoutubeUrlValidator.java:16-18 | the recogniser finds an ID exactly when the URL starts with an http(s) scheme, an optional "www.", a watch or short host and that ID |
| UrlValidator.ValidateAndExtractVideoId | src/main/java/com/abreu/download_link/service/YoutubeUrlValidator.java:20-31 | a returned ID has 11 ID characters and both patterns match it; a URL that fails the first pattern gets "Invalid URL: " + url; one that passes it but has no ID gets "Video ID not found in URL: " + url |
| UrlValidator.NoSchemeFails | src/main/java/com/abreu/download_link/service/YoutubeUrlValidator.java:14-30 | a URL without a scheme passes the first check and always fails the second |
| UrlValidator.OtherPathFails | src/main/java/com/abreu/download_link/service/YoutubeUrlValidator.java:17-30 | a youtube.com URL whose path does not start with "watch?v=" passes the first check and fails the second |
| UrlValidator.ShortsFails | src/main/java/com/abreu/download_link/service/YoutubeUrlValidator.java:25-30 | a youtube.com/shorts URL fails with "Video ID not found in URL: " |
| UrlValidator.TrailingTextIgnored | src/main/java/com/abreu/download_link/service/YoutubeUrlValidator.java:26-27 | text without line terminators appended after an accepted URL does not change the ID returned |
| LinkRequest.IsValidRequestUrl | src/main/java/com/abreu/download_link/domain/YoutubeLinkRequest.java:11-14 | the request's `@Pattern` over the whole URL; RequestUrlSpec, RequestUrlShape and RequestUrlAccepted state what it accepts and that the validator accepts it too |
| LinkRequest.RequestUrlSpec | src/main/java/com/abreu/download_link/domain/YoutubeLinkRequest.java:12 | the recogniser accepts exactly the URLs that split into an http(s) scheme, an optional "www.", a watch or short host and 11 ID characters at the end |
| LinkRequest.RequestUrlShape | src/main/java/com/abreu/download_link/domain/YoutubeLinkRequest.java:12 | an accepted URL starts with "http://" or "https://" and ends with 11 ID characters |
| LinkRequest.RequestUrlAccepted | src/main/java/com/abreu/download_link/domain/YoutubeLinkRequest.java:12 | every URL the request pattern accepts passes the validator, which returns its last 11 characters |
| LinkRequest.ExampleIsValid | src/main/java/com/abreu/download_link/domain/YoutubeLinkRequest.java:12-17 | the documented example URL satisfies the request pattern |
| StatusManager.LastWrite | src/main/java/com/abreu/download_link/service/DownloadStatusManager.java:14 | the status last written for a URL: None exactly when none was written, otherwise a write for that URL with no later one |
| StatusManager.ReplayIsLastWrite | src/main/java/com/abreu/download_link/service/DownloadStatusManager.java:14-22 | the map built by the puts holds, for each URL, exactly its last write |
| StatusManager.LastWriteWins | src/main/java/com/abreu/download_link/service/DownloadStatusManager.java:16-22 | after a write for `u` the last write for `u` is that one; the last write of every other URL is unchanged |
| StatusManager.DownloadStatusManager.constructor | src/main/java/com/abreu/download_link/service/DownloadStatusManager.java:14 | the map starts empty |
| StatusManager.DownloadStatusManager.GetStatus | src/main/java/com/abreu/download_link/service/DownloadStatusManager.java:24-26 | the last status written for the URL, `(NOT_FOUND, "")` when there is none; a read of the map only |
| StatusManager.DownloadStatusManager.UpdateStatus | src/main/java/com/abreu/download_link/service/DownloadStatusManager.java:20-22 | puts `(status, message)`; GetStatus of the URL then answers it and every other URL answers as before |
| StatusManager.DownloadStatusManager.UpdateStatusNoMessage | src/main/java/com/abreu/download_link/service/DownloadStatusManager.java:16-18 | puts `(status, "")`, with the same guarantees |
| Metadata.FileMetadata.constructor | src/main/java/com/abreu/download_link/domain/FileMetadata.java:14-17 | `inUse` is the argument and `lastUpdated` the clock |
| Metadata.FileMetadata.SetInUse | src/main/java/com/abreu/download_link/domain/FileMetadata.java:19-22 | sets the flag and refreshes `lastUpdated` to the clock, even when the flag is unchanged; no other field exists to change |
| DownloadService.Stale | src/main/java/com/abreu/download_link/service/YoutubeDownloadService.java:206 | the cleanup's test: not in use and updated strictly before now - 120; AfterCleanup, InUseSurvives and ReleasedKeptFor state what cleanup then keeps |
| DownloadService.AfterCleanup | src/main/java/com/abreu/download_link/service/YoutubeDownloadService.java:203-222 | cleanup keeps every entry that is in use or updated at or after now - 120, unchanged; a stale entry stays exactly when deleting its file failed; nothing is added |
| DownloadService.CleanupIdempotent | src/main/java/com/abreu/download_link/service/YoutubeDownloadService.java:198-223 | a second cleanup at the same time with the same deletion outcomes changes nothing |
| DownloadService.InUseSurvives | src/main/java/com/abreu/download_link/service/YoutubeDownloadService.java:206 | an entry in use survives cleanup, unchanged, whatever its age |
| DownloadService.YoutubeDownloadService.ScheduledCleanup | src/main/java/com/abreu/download_link/service/YoutubeDownloadService.java:198-223 | the two loops (selection, then deletion) leave exactly AfterCleanup of the table; the status registry is untouched |
| DownloadService.YoutubeDownloadService.GetFile | src/main/java/com/abreu/download_link/service/YoutubeDownloadService.java:173-196 | a name resolving outside the directory gets FORBIDDEN with the table untouched; otherwise an existing entry for the path is released at the clock, none is created, and the answer is the file if it can be read, NOT_FOUND if not |
| Paths.Normalize | src/main/java/com/abreu/download_link/service/YoutubeDownloadService.java:175 | `normalize` yields a path with no "." or ".." segment |
| Paths.Resolve | src/main/java/com/abreu/download_link/service/YoutubeDownloadService.java:175 | `resolve` yields non-empty segments without slashes; ResolveAbsolute states that an absolute name replaces the directory, and NoParentAllowed and PlainNameAllowed what a relative name gives |
| Paths.Target | src/main/java/com/abreu/download_link/service/YoutubeDownloadService.java:175 | the resolved and normalized path is normal |
| Paths.NormalizeIdempotent | src/main/java/com/abreu/download_link/service/YoutubeDownloadService.java:175 | normalizing twice is normalizing once |
| Paths.NormalizeUnder | src/main/java/com/abreu/download_link/service/YoutubeDownloadService.java:175 | normalizing a normal directory followed by segments without ".." normalizes only the tail |
| Paths.Allowed | src/main/java/com/abreu/download_link/service/YoutubeDownloadService.java:175-178 | the guard of `getFile`: the resolved and normalized name starts with the directory, segment by segment; NoParentAllowed, PlainNameAllowed and ParentForbidden state which names pass |
| Paths.NoParentAllowed | src/main/java/com/abreu/download_link/service/YoutubeDownloadService.java:175-178 | a relative name with no ".." segment passes the guard |
| Paths.PlainNameAllowed | src/main/java/com/abreu/download_link/service/YoutubeDownloadService.java:175-178 | a plain file name resolves to the directory plus that name and passes the guard |
| Paths.ParentForbidden | src/main/java/com/abreu/download_link/service/YoutubeDownloadService.java:175-178 | "../" followed by a name other than the directory's own is refused |
| Paths.ResolveAbsolute | src/main/java/com/abreu/download_link/service/YoutubeDownloadService.java:175 | resolving the string of a path against any directory gives that path: the directory is ignored |
| Paths.AbsoluteOutsideForbidden | src/main/java/com/abreu/download_link/service/YoutubeDownloadService.java:175-178 | an absolute normal name that does not start with the directory is refused |
| Paths.EtcPasswdForbidden | src/main/java/com/abreu/download_link/service/YoutubeDownloadService.java:175-178 | "/etc/passwd" is refused for the directory "/tmp/yt-downloads" |
| Paths.BaseName | src/main/java/com/abreu/download_link/service/YoutubeDownloadService.java:88 | `File.getName`: no slash in the result, which is empty exactly when the name has no segment; BaseNameAfterSlash states that it is the text after the last slash |
| Paths.Child | src/main/java/com/abreu/download_link/service/YoutubeDownloadService.java:88 | `Paths.get(dir, name)` for a name without a slash: the directory plus that name, or the directory itself for an empty name |
| Paths.BaseNameAfterSlash | src/main/java/com/abreu/download_link/service/YoutubeDownloadService.java:88 | the name of any text ending in "/" and a non-empty name without slashes is that name |
| Paths.BaseNameOfPathString | src/main/java/com/abreu/download_link/service/YoutubeDownloadService.java:88 | the name of the string of a non-empty path is its last segment |
| Paths.BaseNameExample | src/main/java/com/abreu/download_link/service/YoutubeDownloadService.java:88 | the name of "/tmp/yt-downloads/Title.webm" is "Title.webm" |
| Paths.PathString | src/main/java/com/abreu/download_link/service/YoutubeDownloadService.java:89 | the string of an absolute path starts with "/"; SegmentsOfPathString states that it is the segments joined by "/" |
| Paths.SegmentsOfPathString | src/main/java/com/abreu/download_link/service/YoutubeDownloadService.java:89 | parsing the string of a path with non-empty segments without slashes gives the path back |
| Paths.PathStringInjective | src/main/java/com/abreu/download_link/service/YoutubeDownloadService.java:89 | two such paths with the same string are equal, so distinct files get distinct table keys |
| Paths.PathStringEndsWithLast | src/main/java/com/abreu/download_link/service/YoutubeDownloadService.java:118 | the string of a path ends with its last segment, so a path whose file name ends with ".mp3" ends with ".mp3" |
| DownloadService.LatestMp3 | src/main/java/com/abreu/download_link/service/YoutubeDownloadService.java:116-126 | None exactly when the listing has no ".mp3" entry; otherwise an ".mp3" entry whose time no ".mp3" entry exceeds, the first of those with that time |
| DownloadService.Stamped | src/main/java/com/abreu/download_link/service/YoutubeDownloadService.java:89-169 | the table with each tracked path present with the given flag and the clock, every other entry as it was |
| DownloadService.PlanTransfer | src/main/java/com/abreu/download_link/service/YoutubeDownloadService.java:113-162 | the part after the dry run: COMPLETED is written, and nothing else, exactly when it succeeds; every failure is a DownloadFailed; a failed real run tracks nothing and fails with "Download error" for an I/O failure and with its own message otherwise; at most the mp3 is tracked; a success came from exit code 0 and tracks its path, which exists |
| DownloadService.PlanDownload | src/main/java/com/abreu/download_link/service/YoutubeDownloadService.java:79-171 | `downloadAudio` as a value of its inputs: its status writes, its tracked paths and its result; PlanWrites, PlanTracked, DownloadSucceedsIff, CompletedResponse and FinalStatus state what these are |
| DownloadService.PlanWrites | src/main/java/com/abreu/download_link/service/YoutubeDownloadService.java:86-154 | the writes are STARTING, then IN_PROGRESS, then COMPLETED, in that order and as a prefix; STARTING alone exactly when the dry run fails; all three exactly when the download succeeds |
| DownloadService.DownloadSucceedsIff | src/main/java/com/abreu/download_link/service/YoutubeDownloadService.java:87-154 | a download succeeds exactly when the dry run names a file, the real run yields a result with exit code 0, the listing holds an mp3 and the newest one exists |
| DownloadService.PlanTracked | src/main/java/com/abreu/download_link/service/YoutubeDownloadService.java:87-148 | nothing is tracked exactly when the dry run fails; the dry run's file is tracked first, the mp3 second; a success has tracked both, the second being the returned path |
| DownloadService.CompletedResponse | src/main/java/com/abreu/download_link/service/YoutubeDownloadService.java:154-158 | a success answers "Download completed successfully", COMPLETED and the clock, with the path of the newest mp3, which exists, ends with ".mp3", passes the file endpoint's guard and is the path it serves |
| DownloadService.FinalStatus | src/main/java/com/abreu/download_link/service/YoutubeDownloadService.java:86-162 | after a download, the registry answers COMPLETED on success, IN_PROGRESS when a later step failed, and STARTING when the dry run failed, whatever came before |
| DownloadService.ReleasedKeptFor | src/main/java/com/abreu/download_link/service/YoutubeDownloadService.java:163-209 | a path a download released survives every cleanup up to 120 seconds later; after that a cleanup drops it unless deleting it fails |
| DownloadService.YoutubeDownloadService.constructor | src/main/java/com/abreu/download_link/service/YoutubeDownloadService.java:39 | the table and the registry start empty |
| DownloadService.YoutubeDownloadService.Announce | src/main/java/com/abreu/download_link/service/YoutubeDownloadService.java:86 | one status write appended, the table untouched |
| DownloadService.YoutubeDownloadService.Track | src/main/java/com/abreu/download_link/service/YoutubeDownloadService.java:89 | puts a fresh entry for the path, in use and stamped with the clock; the registry is untouched |
| DownloadService.YoutubeDownloadService.Release | src/main/java/com/abreu/download_link/service/YoutubeDownloadService.java:164-169 | an existing entry is set not in use and stamped with the clock, through `setInUse` on its metadata; a missing one is not created |
| DownloadService.YoutubeDownloadService.Transfer | src/main/java/com/abreu/download_link/service/YoutubeDownloadService.java:116-158 | given the real run's result, performs PlanTransfer: its result, its status write, and the mp3 entry put in use |
| DownloadService.YoutubeDownloadService.Attempt | src/main/java/com/abreu/download_link/service/YoutubeDownloadService.java:85-162 | performs the `try` block of PlanDownload, running the tool for the dry run and then for the download: its result, its status writes in order, and its tracked paths put in use; an mp3 is tracked only after the dry run's file |
| DownloadService.YoutubeDownloadService.DownloadAudio | src/main/java/com/abreu/download_link/service/YoutubeDownloadService.java:79-171 | performs PlanDownload for the tool's two runs: its result, its status writes appended to the registry, and every path it tracked left released and stamped with the clock, whether it returns or fails |
| DownloadService.YoutubeDownloadService.GetStatus | src/main/java/com/abreu/download_link/service/YoutubeDownloadService.java:226-228 | the status last written for the URL, `(NOT_FOUND, "")` when none was |

## Left out

- Process spawning, `waitFor`, the reader thread and `checkYtDlpInstallation` are not modelled. Each run of yt-dlp is an input: its exit code and printed lines, or an I/O failure.
- The file system is not modelled, and its results are inputs. This covers `Files.list`, `Files.exists`, `Files.delete`, `UrlResource`, `init`, the temporary directory and the permission helpers.
- The `MalformedURLException` and `IOException` branches of `getFile` are not modelled. A path built from segments always forms a valid URL, and existence and readability are inputs.
- `InvalidPathException` is not modelled. A name containing a NUL character, for example, raises it in `resolve`.
- The listing and deletion of files are not modelled as operations that can fail per file. A per-file `getLastModifiedTime` failure inside the comparator is not modelled either (the comparator then answers 0). Entries carry their time, and only the listing as a whole can fail.
- Concurrency is not modelled: `@Async`, `ConcurrentHashMap`, the `parallelStream` of the cleanup, and `Thread.interrupt`. Every operation runs sequentially, and `InterruptedException` is subsumed in `IOFailure`.
- The logging-only mp3 listings around the real run are not modelled, because they change no state.
- The controller, the global exception handler and the application class are not modelled. Forbidden and not-found answers are values of `FileResponse`, not exceptions.
- DownloadService.YoutubeDownloadService.Track: the table holds the state of each entry's `FileMetadata`, not a reference to the object. `setInUse` on an entry loads its state into a fresh `FileMetadata`, applies `Metadata.FileMetadata.SetInUse` to it and stores the resulting state back. Every `put` in the source stores a freshly created object, so no entry is shared. What the model does not capture is a reference to an entry held outside the table.
- The wall clock is not modelled. It is one integer `now` per call, counted in seconds, so a call in which the clock advances between two steps is not modelled.
- UTF-16 is not modelled: characters are Unicode scalar values, where Java strings hold UTF-16 units. The patterns involved use only ASCII, except for the line terminators that `.` refuses.
- Strings.IntToString: it states the sign and that the text is non-empty, but not its full decimal value.
