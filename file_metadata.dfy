/** The metadata kept for a file in the download directory. The clock is an integer that
    the caller passes in. */
module Metadata {
  import opened Domain

  class FileMetadata {
    var inUse: bool
    var lastUpdated: int

    /** A new entry with the given flag, stamped with the current time. */
    constructor(inUse: bool, now: int)
      ensures this.inUse == inUse && lastUpdated == now
    {
      this.inUse := inUse;
      lastUpdated := now;
    }

    /** `setInUse`: set the flag and refresh the stamp, even when the flag does not change.
        The service's table holds the state of each entry rather than the object; its
        release applies this method to the entry's state. */
    method SetInUse(inUse: bool, now: int)
      modifies this
      ensures this.inUse == inUse && lastUpdated == now
    {
      this.inUse := inUse;
      lastUpdated := now;
    }

    function State(): FileState
      reads this
    {
      FileState(inUse, lastUpdated)
    }
  }
}
