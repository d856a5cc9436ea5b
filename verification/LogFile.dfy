/** What the log file holds, told by its number of records. */
module LogFile {

  /** The record with that LSN is among the first `n`; a page LSN of 0 names no page change. */
  predicate Covered(lsn: int, n: nat) { lsn <= 0 || lsn < n }
}
