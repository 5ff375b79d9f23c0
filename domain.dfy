/** The records and enums that the services exchange. */
module Domain {

  /** The states a download can be reported in. There is no failed state: a failed
      download keeps the last state written before the failure. */
  datatype Status = Starting | InProgress | Completed | NotFound | AlreadyExists

  /** What the status endpoint reports for a URL. */
  datatype DownloadStatus = DownloadStatus(status: Status, message: string)

  /** What one run of the extraction tool produced. */
  datatype ProcessResult = ProcessResult(exitCode: int, filepath: string, error: string, output: string)

  /** The answer to a completed download; `timestamp` is the clock reading at creation. */
  datatype YoutubeResponse = YoutubeResponse(message: string, filePath: string, status: Status, timestamp: int)

  /** The exceptions the core raises, each with its message only: an I/O failure (also
      used for an interrupted wait) and a failed download. */
  datatype Failure = IOFailure(message: string) | DownloadFailed(message: string)

  /** A line as `BufferedReader.readLine` returns it: without line feed or carriage return. */
  type Line = s: string | '\n' !in s && '\r' !in s

  /** What the child process did when started with a given command: it exited with a code,
      and these are the lines read from its output (standard error merged in); or an I/O
      failure or an interruption stopped the caller: starting the process, waiting for it,
      or, in the dry run, which reads on the calling thread, reading its output. The real
      run reads on a thread of its own that only logs a failure, so for it a failed read
      is an exit with the lines read until then. */
  datatype ToolRun = Exited(exitCode: int, lines: seq<Line>) | Aborted(reason: string)

  /** The two fields of a tracked file's metadata, with the clock as an integer. */
  datatype FileState = FileState(inUse: bool, lastUpdated: int)
}
