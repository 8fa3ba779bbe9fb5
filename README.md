# scratchingpost export, modelled in Dafny

scratchingpost's command-line tool fetches today's delivery jobs from the
delivery service and appends them to a Google spreadsheet. Its one piece of
logic is the export callback in `cli.js`:

- a loop over the fetched `jobs` that keeps the jobs whose `status` is exactly
  `'complete'` and pushes, for each, a 9-cell row
  `[created, id, ownerId, clientId, deliverTo, orderTotal, tip, deliveryFee, paymentMethod]`
  onto `rowsToAdd`, which starts as the empty array;
- a `data` object, built after the sheet reports its next free row, whose only
  key is that row number and whose value is the whole `rowsToAdd` batch.

The model:

- `jobs.dfy` (module `Jobs`): the job record (`Job`), cells and rows (`Cell`,
  `Row`), field lookup by name (`Field`), the sheet's column order (`Columns`),
  the status test (`IsComplete`) and the row projection (`Project`). Currency
  amounts are an abstract type `Amount`: they are copied, never computed on.
- `export.dfy` (module `Export`): `ExportRows`, the function giving the rows
  the loop has pushed after reading a list of jobs; `CompleteIndices`, the
  positions of the complete jobs; the lemmas relating them; and `CollectRows`,
  the loop itself, over the `jobs` array, proved against `ExportRows`.
- `sheet.dfy` (module `Sheet`): `PlaceBatch`, the construction of `data`, and
  `ExportToSheet`, the callback from the jobs and the next free row to `data`.

The `jobs` array is an `array<Job>` that `CollectRows` and `ExportToSheet`
read and, having no `modifies` clause, cannot change. `rowsToAdd` is a
sequence the loop extends by one row per push.

The code has no deduplication of already exported jobs, no commit of exported
ids, and no skipping of an empty batch: the batch is placed at the next free
row even when it is empty. The model follows the code in all three.

## Model

| member | source | states |
|---|---|---|
| `Jobs.Project` | cli.js:41-51 | a row has 9 cells and cell `c` is the job's field named by column `c` (created, id, ownerId, clientId, deliverTo, orderTotal, tip, deliveryFee, paymentMethod), copied unchanged |
| `Jobs.ProjectSameRow` | cli.js:41-51 | two jobs give the same row exactly when they agree on the nine exported fields; status, deliverAfter and orderDate play no part |
| `Export.CompleteIndices` | cli.js:38-40 | the positions it lists are in range, strictly increasing, all of jobs with status exactly "complete", and include every such job |
| `Export.ExportRowsAreProjections` | cli.js:38-53 | row `k` of the batch is the projection of the `k`-th complete job: one row per complete job, in the jobs' order |
| `Export.RowsFromCompleteJobs` | cli.js:38-53 | a row is in the batch if and only if it is the projection of some complete job in the input |
| `Export.RowCount` | cli.js:38-53 | the number of rows equals the number of jobs whose status is "complete" |
| `Export.ExportRowsAppend` | cli.js:38-53 | the rows for `a + b` are the rows for `a` followed by the rows for `b` |
| `Export.IncompleteJobIgnored` | cli.js:40 | inserting a job whose status is not exactly "complete" anywhere in the input leaves the batch unchanged |
| `Export.NoRowsIffNoneComplete` | cli.js:20-53 | the batch stays the empty array it started as if and only if no job is complete |
| `Export.CollectRows` | cli.js:20-53 | the loop, reading `jobs` without changing it, leaves `rowsToAdd` equal to the rows of the complete jobs in order (loop invariant: after `i` jobs, the rows of the complete jobs among the first `i`) |
| `Sheet.PlaceBatch` | cli.js:64-65 | `data` has exactly one key, the next free row, and it maps to the whole batch, whatever its length |
| `Sheet.ExportToSheet` | cli.js:19-66 | the object handed to the sheet maps only the next free row, to the rows of the complete jobs in order; with no complete job that batch is empty and is still placed |

## Left out

- Command-line option parsing (`commander`, the `--debug` flag): argument plumbing.
- The delivery-service client (`biplane`), its base URL and credentials from the environment: network I/O through a foreign library; the fetched jobs are an input array.
- Creating the spreadsheet connection, `sheet.receive`, `sheet.add`, `sheet.send` and `autoSize`: network I/O through a library whose behaviour is not part of this model; the next free row is an input, and only the construction of `data` is modelled.
- `if (err) throw err`: exception plumbing around that I/O.
- Callback ordering and asynchrony: the model is one sequential step from jobs to rows to `data`.
- Fields missing from a job record (JavaScript `undefined`) and a non-string `status`: every job has all its fields, and `status` is a string compared with `"complete"` as `===` compares strings.
- Object keys: JavaScript turns `info.nextRow` into a string key; the model keys `data` by the integer row number.
