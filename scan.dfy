/** The specification of the generator: which entries it visits, in which
    order, and what it yields for them, as pure functions of the image and of
    the process list handed over by the process enumerator. */
module ApcScan {
  import opened MemoryImage
  import opened ApcRows

  /** The entries reached by walking the given list heads in index order,
      each list in link order. */
  function Walks(img: Image, heads: seq<ListHead>): seq<Kapc>
  {
    if heads == [] then [] else Walks(img, heads[..|heads| - 1]) + img.apcList(heads[|heads| - 1])
  }

  /** The thread's APC state and its list heads: the two reads the thread's
      body makes before it walks anything. */
  function Queues(img: Image, t: Thread): Read<(ApcState, seq<ListHead>)>
  {
    var state :- img.tcbApcState(t);
    var heads :- img.apcListHead(state);
    Ok((state, heads))
  }

  function VisitsOf(p: Process, t: Thread, state: ApcState, entries: seq<Kapc>): seq<Visit>
  {
    seq(|entries|, i requires 0 <= i < |entries| => Visit(p, t, state, entries[i]))
  }

  /** The entries the body of thread `t` (of process `p`) reaches, in order;
      none when its APC state or list heads cannot be read. */
  function ThreadVisits(img: Image, p: Process, t: Thread): seq<Visit>
  {
    match Queues(img, t)
    case Fail => []
    case Ok((state, heads)) => VisitsOf(p, t, state, Walks(img, heads))
  }

  function RowReads(img: Image, visits: seq<Visit>): seq<Read<Row>>
  {
    seq(|visits|, i requires 0 <= i < |visits| => RowOf(img, visits[i]))
  }

  /** What one thread's body leaves behind: the rows it yielded, and whether
      it ended on a failed read. */
  datatype Body = Body(rows: seq<Row>, failed: bool)

  /** Row reads performed in order, stopping at the first failure; the rows
      read before it are kept. */
  function Emit(outcomes: seq<Read<Row>>): (b: Body)
    ensures |b.rows| <= |outcomes|
  {
    if outcomes == [] then Body([], false)
    else
      var prior := Emit(outcomes[..|outcomes| - 1]);
      if prior.failed then prior
      else match outcomes[|outcomes| - 1]
        case Ok(row) => Body(prior.rows + [row], false)
        case Fail => Body(prior.rows, true)
  }

  /** The body of the per-thread `try`. */
  function ThreadBody(img: Image, p: Process, t: Thread): Body
  {
    if Queues(img, t).Fail? then Body([], true)
    else Emit(RowReads(img, ThreadVisits(img, p, t)))
  }

  function Items(rows: seq<Row>): seq<Item>
  {
    seq(|rows|, i requires 0 <= i < |rows| => Item(0, rows[i]))
  }

  /** The generator's observable behaviour: the items yielded, the TIDs of
      the threads reported as skipped, and whether an exception escaped the
      generator (which ends it). */
  datatype Run = Run(items: seq<Item>, skipped: seq<int>, aborted: bool)

  const NoRun := Run([], [], false)

  /** `a` followed by `b`; nothing follows a run that aborted. */
  function Then(a: Run, b: Run): Run
  {
    if a.aborted then a else Run(a.items + b.items, a.skipped + b.skipped, b.aborted)
  }

  /** One thread: its body's rows stay yielded whatever happens. A failed
      body is reported with the thread's TID, which the handler reads again;
      when that read fails too, the exception escapes the generator. */
  function ThreadRun(img: Image, p: Process, t: Thread): Run
  {
    var body := ThreadBody(img, p, t);
    if !body.failed then Run(Items(body.rows), [], false)
    else match img.uniqueThread(t)
      case Ok(tid) => Run(Items(body.rows), [tid], false)
      case Fail => Run(Items(body.rows), [], true)
  }

  function ThreadsRun(img: Image, p: Process, threads: seq<Thread>): Run
  {
    if threads == [] then NoRun
    else Then(ThreadsRun(img, p, threads[..|threads| - 1]), ThreadRun(img, p, threads[|threads| - 1]))
  }

  /** One process: its threads in ThreadListEntry order. */
  function ProcessRun(img: Image, p: Process): Run
  {
    ThreadsRun(img, p, img.threadList(p))
  }

  /** The whole generator over the processes the enumerator lists (after its
      PID filter), in that order. */
  function Scan(img: Image, procs: seq<Process>): Run
  {
    if procs == [] then NoRun
    else Then(Scan(img, procs[..|procs| - 1]), ProcessRun(img, procs[|procs| - 1]))
  }

  /** Reference enumeration of every entry the generator reaches: processes in
      order, then threads, then list heads, then entries. */
  function ThreadsVisits(img: Image, p: Process, threads: seq<Thread>): seq<Visit>
  {
    if threads == [] then []
    else ThreadsVisits(img, p, threads[..|threads| - 1]) + ThreadVisits(img, p, threads[|threads| - 1])
  }

  function ScanVisits(img: Image, procs: seq<Process>): seq<Visit>
  {
    if procs == [] then []
    else ScanVisits(img, procs[..|procs| - 1]) + ThreadsVisits(img, procs[|procs| - 1], img.threadList(procs[|procs| - 1]))
  }

  // ---- algebra of runs, row reads and walks ----

  lemma ThenAssociative(a: Run, b: Run, c: Run)
    ensures Then(Then(a, b), c) == Then(a, Then(b, c))
  {
  }

  lemma {:induction false} ThreadsRunSplit(img: Image, p: Process, a: seq<Thread>, b: seq<Thread>)
    ensures ThreadsRun(img, p, a + b) == Then(ThreadsRun(img, p, a), ThreadsRun(img, p, b))
    decreases |b|
  {
    if b == [] {
      assert a + b == a;
    } else {
      var last := |b| - 1;
      assert (a + b)[..|a + b| - 1] == a + b[..last];
      ThreadsRunSplit(img, p, a, b[..last]);
      ThenAssociative(ThreadsRun(img, p, a), ThreadsRun(img, p, b[..last]), ThreadRun(img, p, b[last]));
    }
  }

  lemma {:induction false} ScanSplit(img: Image, a: seq<Process>, b: seq<Process>)
    ensures Scan(img, a + b) == Then(Scan(img, a), Scan(img, b))
    decreases |b|
  {
    if b == [] {
      assert a + b == a;
    } else {
      var last := |b| - 1;
      assert (a + b)[..|a + b| - 1] == a + b[..last];
      ScanSplit(img, a, b[..last]);
      ThenAssociative(Scan(img, a), Scan(img, b[..last]), ProcessRun(img, b[last]));
    }
  }

  lemma {:induction false} EmitStopsAfterFailure(outcomes: seq<Read<Row>>, more: seq<Read<Row>>)
    requires Emit(outcomes).failed
    ensures Emit(outcomes + more) == Emit(outcomes)
    decreases |more|
  {
    if more == [] {
      assert outcomes + more == outcomes;
    } else {
      assert (outcomes + more)[..|outcomes + more| - 1] == outcomes + more[..|more| - 1];
      EmitStopsAfterFailure(outcomes, more[..|more| - 1]);
    }
  }

  lemma {:induction false} WalksSplit(img: Image, a: seq<ListHead>, b: seq<ListHead>)
    ensures Walks(img, a + b) == Walks(img, a) + Walks(img, b)
    decreases |b|
  {
    if b == [] {
      assert a + b == a;
    } else {
      assert (a + b)[..|a + b| - 1] == a + b[..|b| - 1];
      WalksSplit(img, a, b[..|b| - 1]);
    }
  }

  lemma VisitsOfAppend(p: Process, t: Thread, state: ApcState, a: seq<Kapc>, b: seq<Kapc>)
    ensures VisitsOf(p, t, state, a + b) == VisitsOf(p, t, state, a) + VisitsOf(p, t, state, b)
  {
  }

  lemma RowReadsAppend(img: Image, a: seq<Visit>, b: seq<Visit>)
    ensures RowReads(img, a + b) == RowReads(img, a) + RowReads(img, b)
  {
  }

  lemma ItemsAppend(a: seq<Row>, b: seq<Row>)
    ensures Items(a + b) == Items(a) + Items(b)
  {
  }
}
