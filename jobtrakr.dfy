/** The status vocabulary every repository operation returns. */
module JobTrakr {

  /** `type DBStatus = "Success" | "Error" | "NoChanges"`: a closed set of three values. */
  datatype DBStatus = Success | Error | NoChanges

  /**
   * The status an UPDATE or DELETE that did not throw reports from the
   * engine's affected-row count: `changes > 0` is a success, anything else
   * means nothing happened. It is never `Error`.
   */
  function ChangesStatus(changes: nat): (s: DBStatus)
    ensures s == Success <==> changes > 0
    ensures s == NoChanges <==> changes == 0
  {
    if changes > 0 then Success else NoChanges
  }
}
