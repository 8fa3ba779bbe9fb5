/** The batch handed to the sheet: a `data` object with one key, the sheet's
    next free row, whose value is the whole list of rows. */
module Sheet {
  import opened Jobs
  import opened Export

  /** What `sheet.add` receives: row offsets mapped to the rows written there. */
  type Placement = map<int, seq<Row>>

  /** Builds `data` from an empty object by one key assignment. */
  method PlaceBatch(nextRow: int, rowsToAdd: seq<Row>) returns (data: Placement)
    ensures data.Keys == {nextRow}
    ensures data[nextRow] == rowsToAdd
  {
    data := map[];
    data := data[nextRow := rowsToAdd];
  }

  /** The export callback, from the fetched jobs and the next free row the
      sheet reports to the `data` object handed to the sheet. */
  method ExportToSheet(jobs: array<Job>, nextRow: int) returns (data: Placement)
    ensures data.Keys == {nextRow}
    ensures data[nextRow] == ExportRows(jobs[..])
    ensures (forall i :: 0 <= i < jobs.Length ==> !IsComplete(jobs[i])) ==> data[nextRow] == []
  {
    var rowsToAdd := CollectRows(jobs);
    data := PlaceBatch(nextRow, rowsToAdd);
    NoRowsIffNoneComplete(jobs[..]);
  }
}
