/** The loop of the export callback: keep the complete jobs, in order, and
    project each one to a row. */
module Export {
  import opened Jobs

  /** The rows the loop has pushed once it has looked at every job in `jobs`. */
  function ExportRows(jobs: seq<Job>): seq<Row>
  {
    if |jobs| == 0 then []
    else
      var last := jobs[|jobs| - 1];
      ExportRows(jobs[..|jobs| - 1]) + (if IsComplete(last) then [Project(last)] else [])
  }

  /** The positions in `jobs` of the complete jobs, in increasing order. */
  function CompleteIndices(jobs: seq<Job>): (idx: seq<nat>)
    ensures forall k :: 0 <= k < |idx| ==> idx[k] < |jobs| && IsComplete(jobs[idx[k]])
    ensures forall k, l :: 0 <= k < l < |idx| ==> idx[k] < idx[l]
    ensures forall i :: 0 <= i < |jobs| && IsComplete(jobs[i]) ==> i in idx
  {
    if |jobs| == 0 then []
    else
      var n := |jobs| - 1;
      CompleteIndices(jobs[..n]) + (if IsComplete(jobs[n]) then [n] else [])
  }

  /** Row `k` is the projection of the `k`-th complete job: every row comes
      from a complete job, each complete job gives exactly one row, and the
      rows keep the order of their jobs. */
  lemma {:induction false} ExportRowsAreProjections(jobs: seq<Job>)
    ensures |ExportRows(jobs)| == |CompleteIndices(jobs)|
    ensures forall k :: 0 <= k < |ExportRows(jobs)| ==>
      ExportRows(jobs)[k] == Project(jobs[CompleteIndices(jobs)[k]])
  {
    if |jobs| > 0 {
      var n := |jobs| - 1;
      var prefix := jobs[..n];
      ExportRowsAreProjections(prefix);
      forall k | 0 <= k < |CompleteIndices(prefix)|
        ensures jobs[CompleteIndices(prefix)[k]] == prefix[CompleteIndices(prefix)[k]]
      {
      }
    }
  }

  /** A row is exported exactly when it is the projection of some complete job. */
  lemma {:induction false} RowsFromCompleteJobs(jobs: seq<Job>, row: Row)
    ensures row in ExportRows(jobs) <==> exists j :: j in jobs && IsComplete(j) && Project(j) == row
  {
    ExportRowsAreProjections(jobs);
    var rows, idx := ExportRows(jobs), CompleteIndices(jobs);
    if row in rows {
      var k :| 0 <= k < |rows| && rows[k] == row;
      assert jobs[idx[k]] in jobs;
    }
    if exists j :: j in jobs && IsComplete(j) && Project(j) == row {
      var j :| j in jobs && IsComplete(j) && Project(j) == row;
      var i :| 0 <= i < |jobs| && jobs[i] == j;
      var k :| 0 <= k < |idx| && idx[k] == i;
      assert rows[k] == row;
    }
  }

  /** Exporting two lists of jobs one after the other gives the rows of each,
      in the same order. */
  lemma {:induction false} ExportRowsAppend(a: seq<Job>, b: seq<Job>)
    ensures ExportRows(a + b) == ExportRows(a) + ExportRows(b)
  {
    if |b| == 0 {
      assert a + b == a;
    } else {
      var n := |b| - 1;
      assert (a + b)[..|a + b| - 1] == a + b[..n];
      ExportRowsAppend(a, b[..n]);
    }
  }

  /** A job whose status is not exactly "complete" contributes nothing,
      wherever it stands in the list. */
  lemma IncompleteJobIgnored(a: seq<Job>, job: Job, b: seq<Job>)
    requires !IsComplete(job)
    ensures ExportRows(a + [job] + b) == ExportRows(a + b)
  {
    ExportRowsAppend(a + [job], b);
    ExportRowsAppend(a, b);
    assert (a + [job])[..|a + [job]| - 1] == a;
  }

  /** The batch is empty exactly when no job is complete. */
  lemma {:induction false} NoRowsIffNoneComplete(jobs: seq<Job>)
    ensures ExportRows(jobs) == [] <==> forall i :: 0 <= i < |jobs| ==> !IsComplete(jobs[i])
  {
    ExportRowsAreProjections(jobs);
    if ExportRows(jobs) == [] {
      forall i | 0 <= i < |jobs| ensures !IsComplete(jobs[i]) {
        assert i !in CompleteIndices(jobs);
      }
    } else {
      var i := CompleteIndices(jobs)[0];
      assert IsComplete(jobs[i]);
    }
  }

  /** The positions of the complete jobs among `jobs`. */
  ghost function CompletePositions(jobs: seq<Job>): set<nat>
  {
    set i | 0 <= i < |jobs| && IsComplete(jobs[i])
  }

  /** The number of rows is the number of jobs whose status is "complete". */
  lemma {:induction false} RowCount(jobs: seq<Job>)
    ensures |ExportRows(jobs)| == |CompletePositions(jobs)|
  {
    if |jobs| > 0 {
      var n := |jobs| - 1;
      var prefix := jobs[..n];
      RowCount(prefix);
      var before := CompletePositions(prefix);
      assert n !in before;
      if IsComplete(jobs[n]) {
        assert CompletePositions(jobs) == before + {n};
      } else {
        assert CompletePositions(jobs) == before;
      }
    }
  }

  /** The loop over `jobs` (which it only reads), pushing one row per complete
      job onto `rowsToAdd`, which starts empty. */
  method CollectRows(jobs: array<Job>) returns (rowsToAdd: seq<Row>)
    ensures rowsToAdd == ExportRows(jobs[..])
  {
    rowsToAdd := [];
    var job: Job;
    var i := 0;
    while i < jobs.Length
      invariant 0 <= i <= jobs.Length
      invariant rowsToAdd == ExportRows(jobs[..i])
    {
      job := jobs[i];
      if job.status == CompleteStatus {
        rowsToAdd := rowsToAdd + [Project(job)];
      }
      assert jobs[..i + 1][..i] == jobs[..i];
      i := i + 1;
    }
    assert jobs[..jobs.Length] == jobs[..];
  }
}
