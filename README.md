# APCWatch: a verified model of the APC enumeration

APCWatch is a Volatility 3 plugin that lists, from a Windows kernel memory
image, the Asynchronous Procedure Calls queued on every thread of every
process. Its logic is one generator, `_apc_generator`. The generator walks
processes, then each process's threads, then the list heads in the
thread's `Tcb.ApcState.ApcListHead`, then the `_KAPC` entries of each list.
It yields one flat 11-column row at depth 0 per entry. A `try` around each
thread's body keeps the rows already yielded for that thread, reports the
thread, and goes on with the next one.

This project models that generator in Dafny and proves what it yields.

- `image.dfy` (`MemoryImage`): the memory image as a read-only accessor.
  Each field read returns `Ok(v)` or `Fail`. Each list walk (`to_list`)
  returns a finite sequence of entries in link order. The routine columns
  are the field locations the accessor reports (`vol.offset`), not
  dereferenced pointers. BOOLEAN and UCHAR fields are `bv8`.
- `rows.dfy` (`ApcRows`): the column schema, the row, the mode label, the
  two bit tests on `InProgressFlags`, and `RowOf`. `RowOf` builds the row
  for one visited entry and fails if any of its reads fails.
- `scan.dfy` (`ApcScan`): the specification as pure functions.
  - `ThreadVisits` lists the entries a thread's body reaches, in order.
  - `Emit` keeps the row reads up to the first failure.
  - `ThreadBody` is the `try` body.
  - `ThreadRun` adds the `except` handler.
  - `Scan` is the whole generator over the process list.
  - `ScanVisits` is the reference enumeration: process, then thread, then
    list index, then link order.
- `generator.dfy` (`ApcGenerator`): the generator as imperative code.
  `ScanThread` is the `try` body. It runs the loop over list heads and the
  loop over entries, and returns early on the first failed read. `Generate`
  runs the loop over processes and the loop over threads and contains the
  handler. Both append to the output stream one item at a time. Each is
  proved equal to its specification function.
- `properties.dfy` (`ApcProperties`): the lemmas listed below.

The per-thread `try` (apcwatch.py:88-112) is meant to keep one unreadable
thread from stopping the scan. But the `except` handler builds its debug
message from `thread.Cid.UniqueThread` (line 112), which is one more read. If that read fails, the new exception leaves the
generator and the scan ends. The model follows the code: `Run.aborted`
records this, `FailureIsolation` proves isolation whenever that read
succeeds, and `UnreadableTidEndsScan` shows an image where it fails.

## Model

| member | source | states |
|---|---|---|
| `ApcRows.Cells` | APCWatch/apcwatch.py:44-56 | A row is exactly 11 positional cells, in schema order. Each cell has the type its column declares and holds the row field that column names: the cell under "PID" is the PID, the cell under "TID" the TID, and so on for every column. |
| `ApcRows.ModeLabel` | APCWatch/apcwatch.py:103 | The label is "Kernel" exactly when the mode is 0. Any other mode gives "User". |
| `ApcRows.InProgressBits` | APCWatch/apcwatch.py:105-106 | The KernelAPC test (`& 0x1`) is arithmetic bit 0 of InProgressFlags. The SpecialAPC test (`& 0x2`) is bit 1. |
| `ApcRows.InProgressBitsIndependent` | APCWatch/apcwatch.py:105-106 | Toggling bit 0 toggles only KernelAPC. Toggling bit 1 toggles only SpecialAPC. |
| `ApcRows.RowOf` | APCWatch/apcwatch.py:97-109 | A row exists exactly when all its field reads succeed. The name comes from the owning process. PID and TID come from the thread's own Cid. The routine columns are the entry's field locations. The mode comes from the entry's ApcMode alone, not from the list index. Inserted and both pending columns are the truth of their fields. The in-progress columns are bits 0 and 1 of the thread's InProgressFlags. |
| `ApcScan.ThreadsRunSplit` | APCWatch/apcwatch.py:84-112 | Running threads `a + b` is running `a`, then `b`. Nothing runs after an abort. |
| `ApcScan.ScanSplit` | APCWatch/apcwatch.py:78-112 | Scanning processes `a + b` is scanning `a`, then `b`. A process's items do not depend on which other processes are listed. |
| `ApcScan.EmitStopsAfterFailure` | APCWatch/apcwatch.py:88-112 | Once a thread's body has failed, no later read changes what it yielded. |
| `ApcGenerator.ScanThread` | APCWatch/apcwatch.py:88-109 | The method appends exactly the rows of `ThreadBody` to the stream. It reports failure exactly when the body fails. |
| `ApcGenerator.AfterFailedRow` | APCWatch/apcwatch.py:92-109 | When the k-th entry's row fails, the body keeps exactly the rows yielded before it and ends as failed. |
| `ApcGenerator.Generate` | APCWatch/apcwatch.py:68-112 | The nested loops yield exactly `Scan(img, procs)`: its items, its skipped-thread reports and its abort flag. |
| `ApcGenerator.AbortEndsScan` | APCWatch/apcwatch.py:111-112 | After a failed handler read in thread j of process i, the scan yields nothing more. |
| `ApcProperties.EmitStopsAtFirstFailure` | APCWatch/apcwatch.py:88-112 | A body fails exactly when some read fails. Its rows are exactly the successful reads before the first failure. |
| `ApcProperties.ReadableThreadYieldsEveryEntry` | APCWatch/apcwatch.py:92-109 | If all of a thread's reads succeed, it yields one depth-0 item per entry, in visiting order. It is not reported. |
| `ApcProperties.FaultFreeScanYieldsEveryEntry` | APCWatch/apcwatch.py:78-109 | With no failed read, item k is the row of the k-th visit of `ScanVisits`, at depth 0. So there is one item per entry, ordered by process, then thread, then list index 0 before 1, then link order. No thread is reported and the scan does not abort. |
| `ApcProperties.PartialRowsSurvive` | APCWatch/apcwatch.py:88-112 | A failure on the n-th entry keeps the n rows already yielded for that thread, and the body ends as failed. |
| `ApcProperties.ApcStateFailureYieldsNoRow` | APCWatch/apcwatch.py:88-90 | If the `Tcb.ApcState` read fails, the body fails with no row. |
| `ApcProperties.EmptyQueuesYieldNothing` | APCWatch/apcwatch.py:92-108 | A thread whose lists are all empty yields no row, no placeholder and no report, even if its flag fields are unreadable. |
| `ApcProperties.FailureIsolation` | APCWatch/apcwatch.py:84-112 | Take a failed thread whose TID can be read. It keeps its rows and is reported once. The later threads and processes then run exactly as they would without the failure. |
| `ApcProperties.ScanVisitsAreTraversed` | APCWatch/apcwatch.py:78-96 | Every visit belongs to a listed process and to one of its listed threads. Its entry is in one of that thread's lists, reached through that thread's own APC state. |
| `ApcProperties.EveryItemIsTraced` | APCWatch/apcwatch.py:97-100 | Even with failures, every item is at depth 0 and is the row of a visit the scan reached. No row is made up for a thread that was not walked. |
| `ApcProperties.FilteredScanIsSubsequence` | APCWatch/apcwatch.py:41 | When the unfiltered scan does not abort, scanning the processes a PID filter keeps does not abort either and yields a subsequence of the unfiltered items. The per-thread body applies no filter. |
| `ApcProperties.UnreadableTidEndsScan` | APCWatch/apcwatch.py:111-112 | In a concrete image, the first thread's APC state and TID cannot be read. The handler's re-read of the TID ends the scan, so the second thread's readable APC is never yielded. |

## Left out

- `pslist.PsList.list_processes` and `create_pid_filter`: their bodies are not part of this model. The generator takes the process list the enumerator returns, and a filter is modelled as a `keep` predicate over that list.
- `to_list`: its body is not part of this model. Each walk is a finite sequence supplied by the accessor. The model has no cycle guard and no node cap.
- Failures raised by the walks and the process enumeration are not modelled; these collaborators always return a sequence. In the code, a failure of the thread walk or of the process enumeration would leave the generator.
- Volatility internals are not modelled: `context.modules`, layers, symbol tables and offsets. The `ImageFileName` string decoding (`max_length=256`, `errors="replace"`) is not modelled either. The accessor returns the decoded name or fails.
- The plugin reads `InProgressFlags` once for each bit column. The image is read-only, so the model reads it once per row.
- `TreeGrid` rendering and `format_hints.Hex` display are output only. The `vollog.debug` message text is not modelled; a report keeps only the TID the handler read.
- Laziness is not modelled, including a consumer that stops pulling early. The model gives the complete yielded sequence. Because it is a function of the image, two runs over the same image yield the same sequence.
- `get_requirements`, plugin versioning and configuration plumbing are framework glue.
