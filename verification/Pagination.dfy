/**
 * The notice service's view of the thread list (`src/plugin.ts`, `listWatchable`): pages of a
 * filtered list, read through pages of the unfiltered one.
 */
module Pagination {
  import opened Prelude

  const SOURCE_PAGE_SIZE: nat := 100

  datatype Thread = Thread(
    id: string, archived: bool, deleted: bool, title: Option<string>, titleFallback: Option<string>, visible: bool,
    status: string, parentThreadId: Option<string>, hasPendingInteraction: bool)

  datatype Watchable = Watchable(
    id: string, title: string, status: string, parentThreadId: Option<string>, hasPendingInteraction: bool)

  function TitleOf(t: Thread): string {
    if t.title.Some? then t.title.value else if t.titleFallback.Some? then t.titleFallback.value else "Untitled thread"
  }

  /** Neither archived nor deleted, and visible unless its title names a pipeline worker. */
  predicate IsWatchable(t: Thread, isWorkerTitle: string -> bool) {
    !t.archived && !t.deleted && (t.visible || isWorkerTitle(TitleOf(t)))
  }

  function Row(t: Thread): Watchable {
    Watchable(t.id, TitleOf(t), t.status, t.parentThreadId, t.hasPendingInteraction)
  }

  /** The filtered list, whole. */
  function WatchableRows(threads: seq<Thread>, isWorkerTitle: string -> bool): seq<Watchable> {
    if threads == [] then []
    else if IsWatchable(threads[0], isWorkerTitle) then [Row(threads[0])] + WatchableRows(threads[1..], isWorkerTitle)
    else WatchableRows(threads[1..], isWorkerTitle)
  }

  /** The row shows the thread, column by column. */
  predicate Shows(row: Watchable, t: Thread) {
    && row.id == t.id && row.status == t.status && row.parentThreadId == t.parentThreadId
    && row.hasPendingInteraction == t.hasPendingInteraction
    && match (t.title, t.titleFallback)
       case (Some(title), _) => row.title == title
       case (None, Some(fallback)) => row.title == fallback
       case (None, None) => row.title == "Untitled thread"
  }

  /** A thread that is still there, and either visible or titled like a pipeline worker's. */
  predicate Belongs(t: Thread, row: Watchable, isWorkerTitle: string -> bool) {
    Shows(row, t) && !(t.archived || t.deleted || (!t.visible && !isWorkerTitle(row.title)))
  }

  predicate Placed(threads: seq<Thread>, picks: seq<nat>, rows: seq<Watchable>, isWorkerTitle: string -> bool) {
    && |picks| == |rows|
    && forall i :: 0 <= i < |rows| ==> picks[i] < |threads| && Belongs(threads[picks[i]], rows[i], isWorkerTitle)
  }

  predicate Rising(picks: seq<nat>) {
    forall i, j :: 0 <= i < j < |picks| ==> picks[i] < picks[j]
  }

  /** Every thread from `from` on that belongs is picked. */
  ghost predicate Complete(threads: seq<Thread>, from: nat, picks: seq<nat>, isWorkerTitle: string -> bool) {
    forall k, row :: from <= k < |threads| && Belongs(threads[k], row, isWorkerTitle) ==> k in picks
  }

  /** The rows are those of some threads, in their order, and no thread that belongs is passed over. */
  ghost predicate Lists(threads: seq<Thread>, picks: seq<nat>, rows: seq<Watchable>, isWorkerTitle: string -> bool) {
    Placed(threads, picks, rows, isWorkerTitle) && Rising(picks) && Complete(threads, 0, picks, isWorkerTitle)
  }

  /** The filtered list has a row for exactly the threads that belong to it, in order, each with its own columns. */
  lemma {:induction false} RowsAreListed(threads: seq<Thread>, isWorkerTitle: string -> bool) returns (picks: seq<nat>)
    ensures Lists(threads, picks, WatchableRows(threads, isWorkerTitle), isWorkerTitle)
  {
    hide Placed, Rising, Complete, IsWatchable, Row;
    if threads == [] {
      picks := [];
      NothingListed(isWorkerTitle);
    } else {
      var later := RowsAreListed(threads[1..], isWorkerTitle);
      var rows := WatchableRows(threads[1..], isWorkerTitle);
      picks := Shifted(later);
      ShiftedStaysPlaced(threads, later, rows, isWorkerTitle);
      ShiftedStaysComplete(threads, later, isWorkerTitle);
      FirstBelongs(threads[0], isWorkerTitle);
      if IsWatchable(threads[0], isWorkerTitle) {
        FirstIsPlaced(threads, picks, rows, isWorkerTitle);
        FirstCompletes(threads, picks, isWorkerTitle);
        picks := [0] + picks;
      } else {
        NobodyFirst(threads, picks, isWorkerTitle);
      }
    }
  }

  function Shifted(picks: seq<nat>): seq<nat> { seq(|picks|, i requires 0 <= i < |picks| => picks[i] + 1) }

  lemma NothingListed(isWorkerTitle: string -> bool)
    ensures Lists([], [], [], isWorkerTitle)
  {
  }

  lemma ShiftedStaysPlaced(threads: seq<Thread>, later: seq<nat>, rows: seq<Watchable>, isWorkerTitle: string -> bool)
    requires threads != [] && Placed(threads[1..], later, rows, isWorkerTitle) && Rising(later)
    ensures Placed(threads, Shifted(later), rows, isWorkerTitle) && Rising(Shifted(later))
  {
    hide Belongs;
  }

  lemma ShiftedStaysComplete(threads: seq<Thread>, later: seq<nat>, isWorkerTitle: string -> bool)
    requires threads != [] && Complete(threads[1..], 0, later, isWorkerTitle)
    ensures Complete(threads, 1, Shifted(later), isWorkerTitle)
  {
    hide Belongs;
    forall k, row | 1 <= k < |threads| && Belongs(threads[k], row, isWorkerTitle) ensures k in Shifted(later) {
      assert threads[k] == threads[1..][k - 1] && k - 1 in later;
      var i :| 0 <= i < |later| && later[i] == k - 1;
      assert Shifted(later)[i] == k;
    }
  }

  lemma FirstIsPlaced(threads: seq<Thread>, later: seq<nat>, rows: seq<Watchable>, isWorkerTitle: string -> bool)
    requires threads != [] && Belongs(threads[0], Row(threads[0]), isWorkerTitle)
    requires Placed(threads, later, rows, isWorkerTitle) && Rising(later)
    requires forall i :: 0 <= i < |later| ==> later[i] > 0
    ensures Placed(threads, [0] + later, [Row(threads[0])] + rows, isWorkerTitle) && Rising([0] + later)
  {
    hide Belongs, Row;
  }

  lemma FirstCompletes(threads: seq<Thread>, later: seq<nat>, isWorkerTitle: string -> bool)
    requires Complete(threads, 1, later, isWorkerTitle)
    ensures Complete(threads, 0, [0] + later, isWorkerTitle)
  {
    hide Belongs;
  }

  lemma NobodyFirst(threads: seq<Thread>, later: seq<nat>, isWorkerTitle: string -> bool)
    requires threads != [] && Complete(threads, 1, later, isWorkerTitle)
    requires forall row :: !Belongs(threads[0], row, isWorkerTitle)
    ensures Complete(threads, 0, later, isWorkerTitle)
  {
    hide Belongs;
  }

  lemma FirstBelongs(t: Thread, isWorkerTitle: string -> bool)
    ensures IsWatchable(t, isWorkerTitle) ==> Belongs(t, Row(t), isWorkerTitle)
    ensures forall row :: Belongs(t, row, isWorkerTitle) ==> IsWatchable(t, isWorkerTitle)
  {
    forall row | Belongs(t, row, isWorkerTitle) ensures IsWatchable(t, isWorkerTitle) {
      assert row.title == TitleOf(t);
    }
  }

  /** `slice(from, to)` */
  function Slice<T>(s: seq<T>, from: nat, to: nat): seq<T>
    requires from <= to
  {
    if from >= |s| then [] else if to >= |s| then s[from..] else s[from..to]
  }

  /** One page of the complete list. */
  function SourcePage(threads: seq<Thread>, offset: nat): seq<Thread> {
    Slice(threads, offset, offset + SOURCE_PAGE_SIZE)
  }

  lemma {:induction false} RowsOfConcatenation(a: seq<Thread>, b: seq<Thread>, isWorkerTitle: string -> bool)
    ensures WatchableRows(a + b, isWorkerTitle) == WatchableRows(a, isWorkerTitle) + WatchableRows(b, isWorkerTitle)
  {
    hide IsWatchable;
    if a == [] {
      assert a + b == b;
    } else {
      assert (a + b)[1..] == a[1..] + b;
      RowsOfConcatenation(a[1..], b, isWorkerTitle);
    }
  }

  /** The inner loop over one source page. */
  method AppendPage(watchable: seq<Watchable>, page: seq<Thread>, isWorkerTitle: string -> bool)
    returns (extended: seq<Watchable>)
    ensures extended == watchable + WatchableRows(page, isWorkerTitle)
  {
    extended := watchable;
    for i := 0 to |page|
      invariant extended + WatchableRows(page[i..], isWorkerTitle) == watchable + WatchableRows(page, isWorkerTitle)
    {
      assert page[i..][1..] == page[i + 1..];
      var thread := page[i];
      if thread.archived || thread.deleted {
        continue;
      }
      var title := TitleOf(thread);
      var isPipelineWorker := isWorkerTitle(title);
      if !thread.visible && !isPipelineWorker {
        continue;
      }
      extended := extended
          + [Watchable(thread.id, title, thread.status, thread.parentThreadId, thread.hasPendingInteraction)];
    }
  }

  /** Ends for every list, and is exactly the requested slice of the filtered list. */
  method ListWatchable(threads: seq<Thread>, isWorkerTitle: string -> bool, offset: nat, limit: nat)
    returns (page: seq<Watchable>)
    ensures page == Slice(WatchableRows(threads, isWorkerTitle), offset, offset + limit)
  {
    hide WatchableRows;
    var watchable: seq<Watchable> := [];
    var sourceOffset := 0;
    NothingRead(threads, isWorkerTitle);
    while |watchable| < offset + limit
      invariant sourceOffset <= |threads|
      invariant watchable == WatchableRows(threads[..sourceOffset], isWorkerTitle)
      decreases |threads| - sourceOffset
    {
      var source := SourcePage(threads, sourceOffset);
      assert threads[..sourceOffset] + source == threads[..sourceOffset + |source|];
      RowsOfConcatenation(threads[..sourceOffset], source, isWorkerTitle);
      watchable := AppendPage(watchable, source, isWorkerTitle);
      sourceOffset := sourceOffset + |source|;
      if |source| < SOURCE_PAGE_SIZE {
        assert threads[..sourceOffset] == threads;
        return Slice(watchable, offset, offset + limit);
      }
    }
    assert threads == threads[..sourceOffset] + threads[sourceOffset..];
    RowsOfConcatenation(threads[..sourceOffset], threads[sourceOffset..], isWorkerTitle);
    SliceOfPrefix(watchable, WatchableRows(threads[sourceOffset..], isWorkerTitle), offset, offset + limit);
    return Slice(watchable, offset, offset + limit);
  }

  lemma NothingRead(threads: seq<Thread>, isWorkerTitle: string -> bool)
    ensures WatchableRows(threads[..0], isWorkerTitle) == []
  {
  }

  lemma SliceOfPrefix<T>(a: seq<T>, b: seq<T>, from: nat, to: nat)
    requires from <= to <= |a|
    ensures Slice(a + b, from, to) == Slice(a, from, to)
  {
    if from < |a| {
      assert (a + b)[from..to] == a[from..to];
    } else {
      assert from == to;
    }
  }

  /** The first `n` pages of `limit` rows, one after the other. */
  function Pages<T>(rows: seq<T>, limit: nat, n: nat): seq<T> {
    if n == 0 then [] else Pages(rows, limit, n - 1) + Slice(rows, (n - 1) * limit, (n - 1) * limit + limit)
  }

  /** Consecutive pages tile the filtered list: nothing is lost and nothing comes twice. */
  lemma {:induction false} PagesTile<T>(rows: seq<T>, limit: nat, n: nat)
    ensures Pages(rows, limit, n) == Slice(rows, 0, n * limit)
  {
    hide Slice;
    if n == 0 {
      assert Slice(rows, 0, 0) == [] by { EmptySlice(rows); }
    } else {
      PagesTile(rows, limit, n - 1);
      OneMoreTimes(n, limit);
      SlicesMeet(rows, (n - 1) * limit, limit);
    }
  }

  lemma EmptySlice<T>(rows: seq<T>)
    ensures Slice(rows, 0, 0) == []
  {
  }

  lemma OneMoreTimes(n: nat, limit: nat)
    requires n > 0
    ensures (n - 1) * limit + limit == n * limit && (n - 1) * limit >= 0
  {
  }

  lemma SlicesMeet<T>(rows: seq<T>, from: nat, limit: nat)
    ensures Slice(rows, 0, from) + Slice(rows, from, from + limit) == Slice(rows, 0, from + limit)
  {
    if from < |rows| {
      var to := if from + limit >= |rows| then |rows| else from + limit;
      assert rows[..to] == rows[..from] + rows[from..to];
    }
  }

  /** So enough pages are the whole filtered list. */
  lemma EnoughPagesAreAll(threads: seq<Thread>, isWorkerTitle: string -> bool, limit: nat, n: nat)
    requires n * limit >= |WatchableRows(threads, isWorkerTitle)|
    ensures Pages(WatchableRows(threads, isWorkerTitle), limit, n) == WatchableRows(threads, isWorkerTitle)
  {
    PagesTile(WatchableRows(threads, isWorkerTitle), limit, n);
  }
}
