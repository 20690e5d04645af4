/** What the generator promises, stated on its specification. */
module ApcProperties {
  import opened MemoryImage
  import opened ApcRows
  import opened ApcScan

  /** A thread's body keeps exactly the rows read before the first failed
      read, and fails exactly when some read fails. */
  lemma {:induction false} EmitStopsAtFirstFailure(outcomes: seq<Read<Row>>)
    ensures var b := Emit(outcomes);
      && (b.failed <==> exists i :: 0 <= i < |outcomes| && outcomes[i].Fail?)
      && (forall i :: 0 <= i < |b.rows| ==> outcomes[i] == Ok(b.rows[i]))
      && (b.failed ==> outcomes[|b.rows|].Fail?)
      && (!b.failed ==> |b.rows| == |outcomes|)
    decreases |outcomes|
  {
    if outcomes != [] {
      var prior := outcomes[..|outcomes| - 1];
      EmitStopsAtFirstFailure(prior);
      assert forall i :: 0 <= i < |prior| ==> prior[i] == outcomes[i];
    }
  }

  /** Each item is the row of the visit at the same position, at depth 0. */
  ghost predicate Yields(img: Image, items: seq<Item>, visits: seq<Visit>) {
    && |items| == |visits|
    && forall k :: 0 <= k < |items| ==> items[k].depth == 0 && RowOf(img, visits[k]) == Ok(items[k].row)
  }

  lemma YieldsAppend(img: Image, a: seq<Item>, va: seq<Visit>, b: seq<Item>, vb: seq<Visit>)
    requires Yields(img, a, va) && Yields(img, b, vb)
    ensures Yields(img, a + b, va + vb)
  {
  }

  /** Every read the thread's body makes succeeds. */
  predicate ThreadReadable(img: Image, p: Process, t: Thread) {
    && Queues(img, t).Ok?
    && forall v :: v in ThreadVisits(img, p, t) ==> RowReadable(img, v)
  }

  /** A thread whose reads all succeed yields one row per entry of its lists,
      in visiting order, and is not reported as skipped. */
  lemma ReadableThreadYieldsEveryEntry(img: Image, p: Process, t: Thread)
    requires ThreadReadable(img, p, t)
    ensures !ThreadRun(img, p, t).aborted && ThreadRun(img, p, t).skipped == []
    ensures Yields(img, ThreadRun(img, p, t).items, ThreadVisits(img, p, t))
  {
    var visits := ThreadVisits(img, p, t);
    var outcomes := RowReads(img, visits);
    EmitStopsAtFirstFailure(outcomes);
    assert forall i :: 0 <= i < |outcomes| ==> outcomes[i].Ok? by {
      forall i | 0 <= i < |outcomes| ensures outcomes[i].Ok? {
        assert visits[i] in visits;
      }
    }
  }

  /** No read fails anywhere in the scan. */
  predicate ScanReadable(img: Image, procs: seq<Process>) {
    forall p, t :: p in procs && t in img.threadList(p) ==> ThreadReadable(img, p, t)
  }

  lemma {:induction false} ReadableThreadsYieldEveryEntry(img: Image, p: Process, threads: seq<Thread>)
    requires forall t :: t in threads ==> ThreadReadable(img, p, t)
    ensures !ThreadsRun(img, p, threads).aborted && ThreadsRun(img, p, threads).skipped == []
    ensures Yields(img, ThreadsRun(img, p, threads).items, ThreadsVisits(img, p, threads))
    decreases |threads|
  {
    if threads != [] {
      var last := threads[|threads| - 1];
      ReadableThreadsYieldEveryEntry(img, p, threads[..|threads| - 1]);
      ReadableThreadYieldsEveryEntry(img, p, last);
      YieldsAppend(img, ThreadsRun(img, p, threads[..|threads| - 1]).items, ThreadsVisits(img, p, threads[..|threads| - 1]),
                   ThreadRun(img, p, last).items, ThreadVisits(img, p, last));
    }
  }

  /** With no failed read, the generator yields exactly one item per visited
      entry: in process order, then thread order, then list index order, then
      link order (the order of `ScanVisits`), each at depth 0 and carrying
      that entry's row; no thread is reported and nothing aborts. A thread
      whose lists are empty contributes no visit and so no item. */
  lemma {:induction false} FaultFreeScanYieldsEveryEntry(img: Image, procs: seq<Process>)
    requires ScanReadable(img, procs)
    ensures !Scan(img, procs).aborted && Scan(img, procs).skipped == []
    ensures Yields(img, Scan(img, procs).items, ScanVisits(img, procs))
    decreases |procs|
  {
    if procs != [] {
      var last := procs[|procs| - 1];
      var prior := procs[..|procs| - 1];
      assert ScanReadable(img, prior);
      FaultFreeScanYieldsEveryEntry(img, prior);
      ReadableThreadsYieldEveryEntry(img, last, img.threadList(last));
      YieldsAppend(img, Scan(img, prior).items, ScanVisits(img, prior),
                   ProcessRun(img, last).items, ThreadsVisits(img, last, img.threadList(last)));
    }
  }

  /** A failure on the n-th entry of a thread keeps the n rows already
      yielded for it and ends that thread's body. */
  lemma PartialRowsSurvive(img: Image, p: Process, t: Thread, n: nat)
    requires Queues(img, t).Ok?
    requires n < |ThreadVisits(img, p, t)|
    requires forall i :: 0 <= i < n ==> RowOf(img, ThreadVisits(img, p, t)[i]).Ok?
    requires RowOf(img, ThreadVisits(img, p, t)[n]).Fail?
    ensures ThreadBody(img, p, t).failed
    ensures Yields(img, ThreadRun(img, p, t).items, ThreadVisits(img, p, t)[..n])
  {
    var visits := ThreadVisits(img, p, t);
    var outcomes := RowReads(img, visits);
    EmitStopsAtFirstFailure(outcomes);
    var b := Emit(outcomes);
    assert outcomes[n].Fail?;
    assert ThreadBody(img, p, t) == b;
  }

  /** A failure reading Tcb.ApcState yields no row for the thread. */
  lemma ApcStateFailureYieldsNoRow(img: Image, p: Process, t: Thread)
    requires img.tcbApcState(t).Fail?
    ensures ThreadBody(img, p, t) == Body([], true)
    ensures ThreadRun(img, p, t).items == []
  {
  }

  lemma {:induction false} WalksOfEmptyLists(img: Image, heads: seq<ListHead>)
    requires forall h :: h in heads ==> img.apcList(h) == []
    ensures Walks(img, heads) == []
    decreases |heads|
  {
    if heads != [] {
      WalksOfEmptyLists(img, heads[..|heads| - 1]);
    }
  }

  /** A thread whose lists are all empty yields no row, no placeholder and no
      report; it never reads the flag fields, so it cannot fail on them. */
  lemma EmptyQueuesYieldNothing(img: Image, p: Process, t: Thread)
    requires Queues(img, t).Ok?
    requires forall h :: h in Queues(img, t).value.1 ==> img.apcList(h) == []
    ensures ThreadRun(img, p, t) == NoRun
  {
    WalksOfEmptyLists(img, Queues(img, t).value.1);
  }

  /** A thread whose body fails and whose TID is readable ends only itself:
      its rows so far stay, it is reported once, and the remaining threads
      and processes run exactly as they would otherwise. */
  lemma FailureIsolation(img: Image, procs: seq<Process>, i: nat, j: nat)
    requires i < |procs| && j < |img.threadList(procs[i])|
    requires ThreadBody(img, procs[i], img.threadList(procs[i])[j]).failed
    requires img.uniqueThread(img.threadList(procs[i])[j]).Ok?
    ensures var p := procs[i];
      var threads := img.threadList(p);
      var t := threads[j];
      && ThreadRun(img, p, t) ==
         Run(Items(ThreadBody(img, p, t).rows), [img.uniqueThread(t).value], false)
      && Scan(img, procs) ==
         Then(Then(Then(Scan(img, procs[..i]), ThreadsRun(img, p, threads[..j])), ThreadRun(img, p, t)),
              Then(ThreadsRun(img, p, threads[j + 1..]), Scan(img, procs[i + 1..])))
  {
    var p := procs[i];
    var threads := img.threadList(p);
    var t := threads[j];
    assert threads == threads[..j] + [t] + threads[j + 1..];
    ThreadsRunSplit(img, p, threads[..j] + [t], threads[j + 1..]);
    ThreadsRunSplit(img, p, threads[..j], [t]);
    assert [t][..0] == [];
    assert ThreadsRun(img, p, [t]) == ThreadRun(img, p, t);
    assert procs == (procs[..i] + [p]) + procs[i + 1..];
    ScanSplit(img, procs[..i] + [p], procs[i + 1..]);
    ScanSplit(img, procs[..i], [p]);
    assert [p][..0] == [];
    assert Scan(img, [p]) == ProcessRun(img, p);
    var a, b, c, d, e := Scan(img, procs[..i]), ThreadsRun(img, p, threads[..j]), ThreadRun(img, p, t),
                         ThreadsRun(img, p, threads[j + 1..]), Scan(img, procs[i + 1..]);
    ThenAssociative(a, Then(Then(b, c), d), e);
    ThenAssociative(Then(b, c), d, e);
    ThenAssociative(a, Then(b, c), Then(d, e));
    ThenAssociative(a, b, c);
  }

  /** The entry `v` sits in one of its thread's lists, read through that
      thread's own APC state. */
  ghost predicate Reaches(img: Image, v: Visit) {
    && Queues(img, v.thread).Ok?
    && Queues(img, v.thread).value.0 == v.state
    && exists h :: h in Queues(img, v.thread).value.1 && v.entry in img.apcList(h)
  }

  lemma {:induction false} WalksMembership(img: Image, heads: seq<ListHead>, a: Kapc)
    requires a in Walks(img, heads)
    ensures exists h :: h in heads && a in img.apcList(h)
    decreases |heads|
  {
    var last := heads[|heads| - 1];
    if a !in img.apcList(last) {
      WalksMembership(img, heads[..|heads| - 1], a);
      var h :| h in heads[..|heads| - 1] && a in img.apcList(h);
      assert h in heads;
    }
  }

  lemma ThreadVisitsReach(img: Image, p: Process, t: Thread)
    ensures forall v :: v in ThreadVisits(img, p, t) ==> v.process == p && v.thread == t && Reaches(img, v)
  {
    forall v | v in ThreadVisits(img, p, t)
      ensures v.process == p && v.thread == t && Reaches(img, v)
    {
      var heads := Queues(img, t).value.1;
      var k :| 0 <= k < |ThreadVisits(img, p, t)| && ThreadVisits(img, p, t)[k] == v;
      assert Walks(img, heads)[k] in Walks(img, heads);
      WalksMembership(img, heads, v.entry);
    }
  }

  lemma {:induction false} ThreadsVisitsReach(img: Image, p: Process, threads: seq<Thread>)
    ensures forall v :: v in ThreadsVisits(img, p, threads) ==> v.process == p && v.thread in threads && Reaches(img, v)
    decreases |threads|
  {
    if threads != [] {
      ThreadsVisitsReach(img, p, threads[..|threads| - 1]);
      ThreadVisitsReach(img, p, threads[|threads| - 1]);
    }
  }

  /** Every visit belongs to a listed process, to one of that process's
      listed threads, and to an entry of one of that thread's lists. */
  lemma {:induction false} ScanVisitsAreTraversed(img: Image, procs: seq<Process>)
    ensures forall v :: v in ScanVisits(img, procs) ==>
      v.process in procs && v.thread in img.threadList(v.process) && Reaches(img, v)
    decreases |procs|
  {
    if procs != [] {
      var last := procs[|procs| - 1];
      ScanVisitsAreTraversed(img, procs[..|procs| - 1]);
      ThreadsVisitsReach(img, last, img.threadList(last));
    }
  }

  /** Each item is at depth 0 and is the row of some visit among `visits`. */
  ghost predicate Traced(img: Image, items: seq<Item>, visits: seq<Visit>) {
    forall k :: 0 <= k < |items| ==>
      items[k].depth == 0 && exists i :: 0 <= i < |visits| && RowOf(img, visits[i]) == Ok(items[k].row)
  }

  lemma TracedAppend(img: Image, a: seq<Item>, va: seq<Visit>, b: seq<Item>, vb: seq<Visit>)
    requires Traced(img, a, va) && Traced(img, b, vb)
    ensures Traced(img, a + b, va + vb)
  {
    forall k | 0 <= k < |a + b|
      ensures (a + b)[k].depth == 0 && exists i :: 0 <= i < |va + vb| && RowOf(img, (va + vb)[i]) == Ok((a + b)[k].row)
    {
      if k < |a| {
        var i :| 0 <= i < |va| && RowOf(img, va[i]) == Ok(a[k].row);
        assert (va + vb)[i] == va[i];
      } else {
        var i :| 0 <= i < |vb| && RowOf(img, vb[i]) == Ok(b[k - |a|].row);
        assert (va + vb)[|va| + i] == vb[i];
      }
    }
  }

  lemma TracedExtend(img: Image, a: seq<Item>, va: seq<Visit>, vb: seq<Visit>)
    requires Traced(img, a, va)
    ensures Traced(img, a, va + vb)
  {
    forall k | 0 <= k < |a|
      ensures a[k].depth == 0 && exists i :: 0 <= i < |va + vb| && RowOf(img, (va + vb)[i]) == Ok(a[k].row)
    {
      var i :| 0 <= i < |va| && RowOf(img, va[i]) == Ok(a[k].row);
      assert (va + vb)[i] == va[i];
    }
  }

  lemma ThreadRunTraced(img: Image, p: Process, t: Thread)
    ensures Traced(img, ThreadRun(img, p, t).items, ThreadVisits(img, p, t))
  {
    var outcomes := RowReads(img, ThreadVisits(img, p, t));
    EmitStopsAtFirstFailure(outcomes);
  }

  lemma {:induction false} ThreadsRunTraced(img: Image, p: Process, threads: seq<Thread>)
    ensures Traced(img, ThreadsRun(img, p, threads).items, ThreadsVisits(img, p, threads))
    decreases |threads|
  {
    if threads != [] {
      var prior := threads[..|threads| - 1];
      var last := threads[|threads| - 1];
      ThreadsRunTraced(img, p, prior);
      ThreadRunTraced(img, p, last);
      if !ThreadsRun(img, p, prior).aborted {
        TracedAppend(img, ThreadsRun(img, p, prior).items, ThreadsVisits(img, p, prior),
                     ThreadRun(img, p, last).items, ThreadVisits(img, p, last));
      } else {
        TracedExtend(img, ThreadsRun(img, p, prior).items, ThreadsVisits(img, p, prior), ThreadVisits(img, p, last));
      }
    }
  }

  /** Whatever fails, every item is at depth 0 and is the row of an entry the
      scan actually reached: its PID and TID were read from that entry's
      thread's Cid and its name from the owning process (see `RowOf`). */
  lemma {:induction false} EveryItemIsTraced(img: Image, procs: seq<Process>)
    ensures Traced(img, Scan(img, procs).items, ScanVisits(img, procs))
    decreases |procs|
  {
    if procs != [] {
      var prior := procs[..|procs| - 1];
      var last := procs[|procs| - 1];
      EveryItemIsTraced(img, prior);
      ThreadsRunTraced(img, last, img.threadList(last));
      var lastVisits := ThreadsVisits(img, last, img.threadList(last));
      if !Scan(img, prior).aborted {
        TracedAppend(img, Scan(img, prior).items, ScanVisits(img, prior), ProcessRun(img, last).items, lastVisits);
      } else {
        TracedExtend(img, Scan(img, prior).items, ScanVisits(img, prior), lastVisits);
      }
    }
  }

  /** The processes the enumerator keeps, in order. */
  function Filter(procs: seq<Process>, keep: Process -> bool): seq<Process>
  {
    if procs == [] then []
    else
      var prior := Filter(procs[..|procs| - 1], keep);
      if keep(procs[|procs| - 1]) then prior + [procs[|procs| - 1]] else prior
  }

  /** `a` can be obtained from `b` by deleting elements. */
  predicate IsSubsequence<T(==)>(a: seq<T>, b: seq<T>)
    decreases |b|
  {
    if a == [] then true
    else if b == [] then false
    else (a[|a| - 1] == b[|b| - 1] && IsSubsequence(a[..|a| - 1], b[..|b| - 1]))
         || IsSubsequence(a, b[..|b| - 1])
  }

  lemma {:induction false} SubsequenceExtendRight<T>(a: seq<T>, b: seq<T>, c: seq<T>)
    requires IsSubsequence(a, b)
    ensures IsSubsequence(a, b + c)
    decreases |c|
  {
    if c == [] {
      assert b + c == b;
    } else {
      assert (b + c)[..|b + c| - 1] == b + c[..|c| - 1];
      SubsequenceExtendRight(a, b, c[..|c| - 1]);
    }
  }

  lemma {:induction false} SubsequenceExtendBoth<T>(a: seq<T>, b: seq<T>, c: seq<T>)
    requires IsSubsequence(a, b)
    ensures IsSubsequence(a + c, b + c)
    decreases |c|
  {
    if c == [] {
      assert a + c == a && b + c == b;
    } else {
      assert (a + c)[..|a + c| - 1] == a + c[..|c| - 1];
      assert (b + c)[..|b + c| - 1] == b + c[..|c| - 1];
      SubsequenceExtendBoth(a, b, c[..|c| - 1]);
    }
  }

  /** The PID filter acts only on the process list: scanning the processes
      a filter keeps yields, when the unfiltered scan does not abort, a
      subsequence of the unfiltered items, and aborts no more. */
  lemma {:induction false} FilteredScanIsSubsequence(img: Image, procs: seq<Process>, keep: Process -> bool)
    requires !Scan(img, procs).aborted
    ensures !Scan(img, Filter(procs, keep)).aborted
    ensures IsSubsequence(Scan(img, Filter(procs, keep)).items, Scan(img, procs).items)
    decreases |procs|
  {
    if procs != [] {
      var prior, last := procs[..|procs| - 1], procs[|procs| - 1];
      FilteredScanIsSubsequence(img, prior, keep);
      var kept := Filter(prior, keep);
      var run := ProcessRun(img, last);
      if keep(last) {
        assert (kept + [last])[..|kept|] == kept;
        SubsequenceExtendBoth(Scan(img, kept).items, Scan(img, prior).items, run.items);
      } else {
        SubsequenceExtendRight(Scan(img, kept).items, Scan(img, prior).items, run.items);
      }
    }
  }

  /** An image with one process and two threads: the first has an
      unreadable APC state and an unreadable Cid, the second one readable
      kernel-mode APC in list 0. */
  function UnreadableFirstThread(): Image
  {
    Image(
      p => [Thread(1), Thread(2)],
      p => Ok("victim.exe"),
      t => if t == Thread(1) then Fail else Ok(ApcState(20)),
      t => if t == Thread(1) then Fail else Ok(4),
      t => if t == Thread(1) then Fail else Ok(8),
      s => Ok([ListHead(30), ListHead(31)]),
      s => Ok(0),
      s => Ok(0),
      s => Ok(0),
      h => if h == ListHead(30) then [Kapc(40)] else [],
      a => Ok(0x1000),
      a => Ok(0x2000),
      a => Ok(0),
      a => Ok(1))
  }

  lemma UnreadableFirstThreadAborts()
    ensures ProcessRun(UnreadableFirstThread(), Process(1)) == Run([], [], true)
  {
    var img, p := UnreadableFirstThread(), Process(1);
    var threads := [Thread(1), Thread(2)];
    assert img.threadList(p) == threads;
    assert threads[..1] == [Thread(1)] && threads[..1][..0] == [];
    assert Queues(img, Thread(1)) == Fail;
    assert img.uniqueThread(Thread(1)) == Fail;
    assert ThreadRun(img, p, Thread(1)) == Run([], [], true);
    assert ThreadsRun(img, p, [Thread(1)]) == Run([], [], true);
  }

  lemma SecondThreadVisits()
    ensures ThreadVisits(UnreadableFirstThread(), Process(1), Thread(2))
         == [Visit(Process(1), Thread(2), ApcState(20), Kapc(40))]
  {
    var img := UnreadableFirstThread();
    var heads := [ListHead(30), ListHead(31)];
    assert Queues(img, Thread(2)) == Ok((ApcState(20), heads));
    assert heads[..1] == [ListHead(30)] && heads[..1][..0] == [];
    assert img.apcList(ListHead(30)) == [Kapc(40)] && img.apcList(ListHead(31)) == [];
    assert Walks(img, heads) == [Kapc(40)];
  }

  /** The handler reads Cid.UniqueThread again to report the failed thread;
      when that read fails too, the exception leaves the generator: the scan
      aborts and the second thread's APC, which is readable, is never
      yielded. */
  lemma UnreadableTidEndsScan()
    ensures var img, procs := UnreadableFirstThread(), [Process(1)];
      && Scan(img, procs).aborted
      && Scan(img, procs).items == []
      && |ThreadRun(img, Process(1), Thread(2)).items| == 1
  {
    var img, p := UnreadableFirstThread(), Process(1);
    UnreadableFirstThreadAborts();
    assert [p][..0] == [];
    SecondThreadVisits();
    var v := Visit(p, Thread(2), ApcState(20), Kapc(40));
    assert RowOf(img, v).Ok?;
    assert RowReads(img, [v]) == [RowOf(img, v)];
    assert [RowOf(img, v)][..0] == [];
  }
}
