/** The generator itself: four nested loops that append one item per visited
    APC entry to the output stream, with the per-thread `try` as a method that
    returns early on the first failed read. */
module ApcGenerator {
  import opened MemoryImage
  import opened ApcRows
  import opened ApcScan

  /** The body of the per-thread `try`: appends the thread's rows to `stream`
      one at a time and stops at the first failed read, keeping what it has
      appended so far. */
  method ScanThread(img: Image, p: Process, t: Thread, stream: seq<Item>) returns (items: seq<Item>, failed: bool)
    ensures items == stream + Items(ThreadBody(img, p, t).rows)
    ensures failed == ThreadBody(img, p, t).failed
  {
    items := stream;
    var state := img.tcbApcState(t);
    if state.Fail? {
      return items, true;
    }
    var s := state.value;
    var listHeads := img.apcListHead(s);
    if listHeads.Fail? {
      return items, true;
    }
    var heads := listHeads.value;
    assert Queues(img, t) == Ok((s, heads));
    ghost var visits: seq<Visit> := [];
    ghost var rows: seq<Row> := [];
    for index := 0 to |heads|
      invariant visits == VisitsOf(p, t, s, Walks(img, heads[..index]))
      invariant Emit(RowReads(img, visits)) == Body(rows, false)
      invariant items == stream + Items(rows)
    {
      var entries := img.apcList(heads[index]);
      assert heads[..index + 1][..index] == heads[..index];
      ghost var walked := Walks(img, heads[..index]);
      for k := 0 to |entries|
        invariant visits == VisitsOf(p, t, s, walked + entries[..k])
        invariant Emit(RowReads(img, visits)) == Body(rows, false)
        invariant items == stream + Items(rows)
      {
        var v := Visit(p, t, s, entries[k]);
        var row := RowOf(img, v);
        assert entries[..k + 1] == entries[..k] + [entries[k]];
        VisitsOfAppend(p, t, s, walked + entries[..k], [entries[k]]);
        RowReadsAppend(img, visits, [v]);
        if row.Fail? {
          AfterFailedRow(img, p, t, s, heads, index, k, visits, rows);
          return items, true;
        }
        ItemsAppend(rows, [row.value]);
        items := items + [Item(0, row.value)];
        visits := visits + [v];
        rows := rows + [row.value];
      }
      assert entries[..|entries|] == entries;
    }
    assert heads[..|heads|] == heads;
    failed := false;
  }

  /** The walk of all list heads, cut around the k-th entry of list `index`. */
  lemma WalksAround(img: Image, heads: seq<ListHead>, index: nat, k: nat)
    requires index < |heads| && k < |img.apcList(heads[index])|
    ensures Walks(img, heads) ==
            (Walks(img, heads[..index]) + img.apcList(heads[index])[..k]) + [img.apcList(heads[index])[k]]
            + (img.apcList(heads[index])[k + 1..] + Walks(img, heads[index + 1..]))
  {
    var before, h, after := heads[..index], heads[index], heads[index + 1..];
    var entries := img.apcList(h);
    assert heads == (before + [h]) + after;
    WalksSplit(img, before + [h], after);
    assert (before + [h])[..|before + [h]| - 1] == before;
    assert Walks(img, before + [h]) == Walks(img, before) + entries;
    var w, e1, e, e2, w2 := Walks(img, before), entries[..k], entries[k], entries[k + 1..], Walks(img, after);
    assert entries == e1 + [e] + e2;
    assert Walks(img, heads) == w + (e1 + [e] + e2) + w2;
    assert w + (e1 + [e] + e2) + w2 == (w + e1) + [e] + (e2 + w2);
  }

  /** A failed read after reads that all succeeded ends the body with the
      rows read so far, whatever comes after it. */
  lemma EmitFailsAt(done: seq<Read<Row>>, more: seq<Read<Row>>, rows: seq<Row>)
    requires Emit(done) == Body(rows, false)
    ensures Emit(done + [Fail] + more) == Body(rows, true)
  {
    var failedPrefix := done + [Fail];
    assert failedPrefix[..|failedPrefix| - 1] == done;
    EmitStopsAfterFailure(failedPrefix, more);
  }

  /** When the row for the k-th entry of list `index` fails, the thread's
      body has yielded exactly the rows before it and has failed. */
  lemma AfterFailedRow(img: Image, p: Process, t: Thread, s: ApcState, heads: seq<ListHead>,
                       index: nat, k: nat, visits: seq<Visit>, rows: seq<Row>)
    requires Queues(img, t) == Ok((s, heads))
    requires index < |heads| && k < |img.apcList(heads[index])|
    requires visits == VisitsOf(p, t, s, Walks(img, heads[..index]) + img.apcList(heads[index])[..k])
    requires Emit(RowReads(img, visits)) == Body(rows, false)
    requires RowOf(img, Visit(p, t, s, img.apcList(heads[index])[k])).Fail?
    ensures ThreadBody(img, p, t) == Body(rows, true)
  {
    var entries := img.apcList(heads[index]);
    var v := Visit(p, t, s, entries[k]);
    var walked := Walks(img, heads[..index]) + entries[..k];
    var rest := entries[k + 1..] + Walks(img, heads[index + 1..]);
    WalksAround(img, heads, index, k);
    VisitsOfAppend(p, t, s, walked, [entries[k]]);
    VisitsOfAppend(p, t, s, walked + [entries[k]], rest);
    assert VisitsOf(p, t, s, [entries[k]]) == [v];
    var later := VisitsOf(p, t, s, rest);
    assert ThreadVisits(img, p, t) == visits + [v] + later;
    RowReadsAppend(img, visits, [v]);
    RowReadsAppend(img, visits + [v], later);
    assert RowReads(img, [v]) == [Fail];
    EmitFailsAt(RowReads(img, visits), RowReads(img, later), rows);
  }

  /** The generator: for every listed process, for every thread of it, run
      the thread's body; on failure report the thread's TID, and stop
      altogether when that report's own read fails. */
  method Generate(img: Image, procs: seq<Process>) returns (items: seq<Item>, skipped: seq<int>, aborted: bool)
    ensures Run(items, skipped, aborted) == Scan(img, procs)
  {
    items, skipped, aborted := [], [], false;
    for i := 0 to |procs|
      invariant Run(items, skipped, false) == Scan(img, procs[..i])
    {
      var p := procs[i];
      var threads := img.threadList(p);
      assert procs[..i + 1][..i] == procs[..i];
      for j := 0 to |threads|
        invariant Run(items, skipped, false) == Then(Scan(img, procs[..i]), ThreadsRun(img, p, threads[..j]))
      {
        var t := threads[j];
        assert threads[..j + 1][..j] == threads[..j];
        ThenAssociative(Scan(img, procs[..i]), ThreadsRun(img, p, threads[..j]), ThreadRun(img, p, t));
        var failed;
        items, failed := ScanThread(img, p, t, items);
        ItemsAppend([], []);
        if failed {
          var tid := img.uniqueThread(t);
          if tid.Fail? {
            aborted := true;
            AbortEndsScan(img, procs, i, j);
            return;
          }
          skipped := skipped + [tid.value];
        }
      }
      assert threads[..|threads|] == threads;
    }
    assert procs[..|procs|] == procs;
  }

  /** A run that aborts in thread j of process i is the whole scan. */
  lemma AbortEndsScan(img: Image, procs: seq<Process>, i: nat, j: nat)
    requires i < |procs| && j < |img.threadList(procs[i])|
    requires Then(Scan(img, procs[..i]), ThreadsRun(img, procs[i], img.threadList(procs[i])[..j + 1])).aborted
    ensures Scan(img, procs) ==
            Then(Scan(img, procs[..i]), ThreadsRun(img, procs[i], img.threadList(procs[i])[..j + 1]))
  {
    var p := procs[i];
    var threads := img.threadList(p);
    assert threads == threads[..j + 1] + threads[j + 1..];
    ThreadsRunSplit(img, p, threads[..j + 1], threads[j + 1..]);
    assert procs == procs[..i + 1] + procs[i + 1..];
    ScanSplit(img, procs[..i + 1], procs[i + 1..]);
    assert procs[..i + 1][..i] == procs[..i];
    ThenAssociative(Scan(img, procs[..i]), ThreadsRun(img, p, threads[..j + 1]), ThreadsRun(img, p, threads[j + 1..]));
  }
}
