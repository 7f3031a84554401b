/**
 * The call record the history table works on, reduced to the fields the
 * table's search, sort, badges and audio buttons read.
 */
module CallRecords {
  import opened Wrappers

  /**
   * One row of the table.  `cost` is a whole number of the smallest
   * currency unit; `grade` is `None` where the source has `null`.
   */
  datatype CallRecord = CallRecord(
    customerName: string,
    customerEmail: string,
    customerNumber: string,
    summary: string,
    date: string,
    duration: string,
    cost: int,
    status: string,
    grade: Option<bool>,
    recordingUrl: string
  )
}
