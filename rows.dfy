/** One output row per queued APC: the column schema of the plugin's table and
    the construction of a row from the fields of one visited _KAPC entry. */
module ApcRows {
  import opened MemoryImage

  /** The eleven columns, in schema order. The routine columns hold field
      locations, rendered in hexadecimal by the table. */
  datatype Row = Row(
    processName: string,
    pid: int,
    tid: int,
    kernelRoutine: nat,
    normalRoutine: nat,
    apcMode: string,
    inserted: bool,
    kernelApc: bool,
    specialApc: bool,
    kernelApcPending: bool,
    userApcPending: bool)

  /** A yielded item: a nesting depth and a row. */
  datatype Item = Item(depth: nat, row: Row)

  datatype ColumnType = StrColumn | IntColumn | HexColumn | BoolColumn

  /** The table's column schema: names and declared types, in order. */
  const Columns: seq<(string, ColumnType)> := [
    ("Process Name", StrColumn),
    ("PID", IntColumn),
    ("TID", IntColumn),
    ("KernelRoutine", HexColumn),
    ("NormalRoutine", HexColumn),
    ("APCMode", StrColumn),
    ("Inserted", BoolColumn),
    ("KernelAPC", BoolColumn),
    ("SpecialAPC", BoolColumn),
    ("KernelAPCPending", BoolColumn),
    ("UserAPCPending", BoolColumn)
  ]

  /** A positional cell of a table row. */
  datatype Value = StrValue(s: string) | IntValue(i: int) | HexValue(h: nat) | BoolValue(b: bool)

  predicate Conforms(v: Value, c: ColumnType) {
    match c
    case StrColumn => v.StrValue?
    case IntColumn => v.IntValue?
    case HexColumn => v.HexValue?
    case BoolColumn => v.BoolValue?
  }

  /** The cell a column holds, looked up by the column's name. */
  function CellNamed(r: Row, name: string): Value
    requires exists i :: 0 <= i < |Columns| && Columns[i].0 == name
  {
    if name == "Process Name" then StrValue(r.processName)
    else if name == "PID" then IntValue(r.pid)
    else if name == "TID" then IntValue(r.tid)
    else if name == "KernelRoutine" then HexValue(r.kernelRoutine)
    else if name == "NormalRoutine" then HexValue(r.normalRoutine)
    else if name == "APCMode" then StrValue(r.apcMode)
    else if name == "Inserted" then BoolValue(r.inserted)
    else if name == "KernelAPC" then BoolValue(r.kernelApc)
    else if name == "SpecialAPC" then BoolValue(r.specialApc)
    else if name == "KernelAPCPending" then BoolValue(r.kernelApcPending)
    else BoolValue(r.userApcPending)
  }

  /** The row as the positional tuple handed to the table: one cell per
      column, each of the column's declared type and holding the field that
      column names. */
  function Cells(r: Row): (cells: seq<Value>)
    ensures |cells| == |Columns| == 11
    ensures forall i :: 0 <= i < |cells| ==> Conforms(cells[i], Columns[i].1)
    ensures forall i :: 0 <= i < |cells| ==> cells[i] == CellNamed(r, Columns[i].0)
  {
    [StrValue(r.processName), IntValue(r.pid), IntValue(r.tid),
     HexValue(r.kernelRoutine), HexValue(r.normalRoutine), StrValue(r.apcMode),
     BoolValue(r.inserted), BoolValue(r.kernelApc), BoolValue(r.specialApc),
     BoolValue(r.kernelApcPending), BoolValue(r.userApcPending)]
  }

  /** The APC mode label: "Kernel" for mode 0 and "User" for every other mode. */
  function ModeLabel(mode: int): (text: string)
    ensures text == "Kernel" || text == "User"
    ensures text == "Kernel" <==> mode == 0
  {
    if mode == 0 then "Kernel" else "User"
  }

  function Pow2(k: nat): (r: nat)
    ensures r >= 1
  {
    if k == 0 then 1 else 2 * Pow2(k - 1)
  }

  /** Bit k of an unsigned byte, by arithmetic. */
  predicate BitSet(b: Byte, k: nat) {
    ((b as int) / Pow2(k)) % 2 == 1
  }

  /** The two in-progress bit tests of the source, on the UCHAR InProgressFlags. */
  predicate KernelApcInProgress(flags: Byte) {
    flags & 0x1 != 0
  }

  predicate SpecialApcInProgress(flags: Byte) {
    flags & 0x2 != 0
  }

  /** KernelAPC is bit 0 and SpecialAPC is bit 1 of InProgressFlags. */
  lemma InProgressBits(flags: Byte)
    ensures KernelApcInProgress(flags) <==> BitSet(flags, 0)
    ensures SpecialApcInProgress(flags) <==> BitSet(flags, 1)
  {
    assert Pow2(1) == 2;
  }

  /** The two bit tests are independent: toggling one bit of InProgressFlags
      toggles its own column and leaves the other unchanged. */
  lemma InProgressBitsIndependent(flags: Byte)
    ensures KernelApcInProgress(flags ^ 0x1) == !KernelApcInProgress(flags)
    ensures SpecialApcInProgress(flags ^ 0x1) == SpecialApcInProgress(flags)
    ensures KernelApcInProgress(flags ^ 0x2) == KernelApcInProgress(flags)
    ensures SpecialApcInProgress(flags ^ 0x2) == !SpecialApcInProgress(flags)
  {
  }

  /** Python's `bool` of a BOOLEAN/UCHAR field. */
  predicate Truthy(b: Byte) {
    b != 0
  }

  /** One visited APC entry: the owning process, the thread, the thread's
      APC state and the _KAPC entry found in one of its lists. The list index
      is not recorded: nothing in a row depends on it. */
  datatype Visit = Visit(process: Process, thread: Thread, state: ApcState, entry: Kapc)

  /** Every field read the row for `v` performs succeeds. */
  predicate RowReadable(img: Image, v: Visit) {
    && img.imageFileName(v.process).Ok?
    && img.uniqueProcess(v.thread).Ok?
    && img.uniqueThread(v.thread).Ok?
    && img.kernelRoutine(v.entry).Ok?
    && img.normalRoutine(v.entry).Ok?
    && img.apcMode(v.entry).Ok?
    && img.inserted(v.entry).Ok?
    && img.inProgressFlags(v.state).Ok?
    && img.kernelApcPending(v.state).Ok?
    && img.userApcPending(v.state).Ok?
  }

  /** What each column of `row` means for the visit `v`: the name comes from
      the owning process, PID and TID from the thread's own Cid, the routine,
      mode and inserted columns from the entry, and the four flag columns
      from the thread's APC state. */
  predicate Describes(img: Image, v: Visit, row: Row)
    requires RowReadable(img, v)
  {
    && row.processName == img.imageFileName(v.process).value
    && row.pid == img.uniqueProcess(v.thread).value
    && row.tid == img.uniqueThread(v.thread).value
    && row.kernelRoutine == img.kernelRoutine(v.entry).value
    && row.normalRoutine == img.normalRoutine(v.entry).value
    && (row.apcMode == "Kernel" <==> img.apcMode(v.entry).value == 0)
    && (row.apcMode == "User" <==> img.apcMode(v.entry).value != 0)
    && (row.inserted <==> img.inserted(v.entry).value != 0)
    && (row.kernelApc <==> BitSet(img.inProgressFlags(v.state).value, 0))
    && (row.specialApc <==> BitSet(img.inProgressFlags(v.state).value, 1))
    && (row.kernelApcPending <==> img.kernelApcPending(v.state).value != 0)
    && (row.userApcPending <==> img.userApcPending(v.state).value != 0)
  }

  /** The row for one visited entry, read column by column in tuple order;
      any failed read fails the whole row. The plugin reads InProgressFlags
      once per bit column; the image is read-only, so one read stands for
      both. */
  function RowOf(img: Image, v: Visit): (r: Read<Row>)
    ensures r.Ok? <==> RowReadable(img, v)
    ensures r.Ok? ==> Describes(img, v, r.value)
  {
    var name :- img.imageFileName(v.process);
    var pid :- img.uniqueProcess(v.thread);
    var tid :- img.uniqueThread(v.thread);
    var kernelRoutine :- img.kernelRoutine(v.entry);
    var normalRoutine :- img.normalRoutine(v.entry);
    var mode :- img.apcMode(v.entry);
    var inserted :- img.inserted(v.entry);
    var flags :- img.inProgressFlags(v.state);
    var kernelPending :- img.kernelApcPending(v.state);
    var userPending :- img.userApcPending(v.state);
    InProgressBits(flags);
    Ok(Row(name, pid, tid, kernelRoutine, normalRoutine, ModeLabel(mode), Truthy(inserted),
           KernelApcInProgress(flags), SpecialApcInProgress(flags),
           Truthy(kernelPending), Truthy(userPending)))
  }
}
