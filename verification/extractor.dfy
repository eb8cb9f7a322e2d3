/** calculate_windowed_features (onchain_anomaly_detector.py, lines 9-117):
    one row of features per window of the walk over the period's
    transactions. */
module Extractor {
  import opened Common
  import opened Transactions
  import opened WindowWalk
  import opened Features

  /** One output row: the window bounds, the address as given by the caller,
      and the window's features. */
  datatype WindowRow = WindowRow(start: int, end: int, address: string, features: WindowFeatures)

  /** Lines 58-61: the transactions of the period inside [start, end). */
  function WindowTransactions(txs: seq<Tx>, start: int, end: int): (w: seq<Tx>)
    ensures |w| <= |txs|
  {
    Filter(txs, During(Some(start), Some(end)))
  }

  /** A window holds exactly the period's transactions whose timestamp lies in
      it. */
  lemma WindowTransactionsExact(txs: seq<Tx>, start: int, end: int, tx: Tx)
    ensures tx in WindowTransactions(txs, start, end) <==> tx in txs && start <= tx.timeStamp < end
  {
    FilterMembers(txs, During(Some(start), Some(end)));
    if tx in txs && start <= tx.timeStamp < end {
      FilterCompleteAt(txs, During(Some(start), Some(end)), tx);
    }
  }

  /** Every transaction of a window drawn from the period involves the address. */
  lemma WindowInvolves(txs: seq<Tx>, addr: string, start: int, end: int)
    requires forall i :: 0 <= i < |txs| ==> Involves(txs[i], addr)
    ensures var w := WindowTransactions(txs, start, end);
            forall i :: 0 <= i < |w| ==> Involves(w[i], addr)
  {
    var w := WindowTransactions(txs, start, end);
    FilterMembers(txs, During(Some(start), Some(end)));
    forall i | 0 <= i < |w|
      ensures Involves(w[i], addr)
    {
      var j :| 0 <= j < |txs| && txs[j] == w[i];
    }
  }

  /** The row for the window that starts at `start`. */
  function Row(txs: seq<Tx>, addr: string, start: int, window: int): (row: WindowRow)
    requires forall i :: 0 <= i < |txs| ==> Involves(txs[i], addr)
    ensures row.start == start && row.end == start + window && row.address == addr
    ensures row.features.totalTransactions == |WindowTransactions(txs, start, start + window)|
  {
    WindowInvolves(txs, addr, start, start + window);
    WindowRow(start, start + window, addr, ComputeFeatures(WindowTransactions(txs, start, start + window), addr))
  }

  /** Every row is the row of the window it starts. */
  predicate RowsOfWindows(rows: seq<WindowRow>, txs: seq<Tx>, addr: string, window: int)
    requires forall i :: 0 <= i < |txs| ==> Involves(txs[i], addr)
  {
    forall i :: 0 <= i < |rows| ==> rows[i] == Row(txs, addr, rows[i].start, window)
  }

  lemma RowsOfWindowsAppend(rows: seq<WindowRow>, txs: seq<Tx>, addr: string, window: int, start: int)
    requires forall i :: 0 <= i < |txs| ==> Involves(txs[i], addr)
    requires RowsOfWindows(rows, txs, addr, window)
    ensures RowsOfWindows(rows + [Row(txs, addr, start, window)], txs, addr, window)
  {
    var row := Row(txs, addr, start, window);
    var more := rows + [row];
    forall i | 0 <= i < |more|
      ensures more[i] == Row(txs, addr, more[i].start, window)
    {
      if i < |rows| {
        assert more[i] == rows[i];
      }
    }
  }

  /** The start of every row. */
  function Starts(rows: seq<WindowRow>): (r: seq<int>)
    ensures |r| == |rows|
    ensures forall i :: 0 <= i < |rows| ==> r[i] == rows[i].start
  {
    seq(|rows|, i requires 0 <= i < |rows| => rows[i].start)
  }

  lemma StartsAppend(rows: seq<WindowRow>, row: WindowRow)
    ensures Starts(rows + [row]) == Starts(rows) + [row.start]
  {
  }

  /** Lines 58-113: one pass of the loop adds the row of the window at `start`. */
  method AppendRow(rows: seq<WindowRow>, txs: seq<Tx>, addr: string, start: int, window: int)
    returns (more: seq<WindowRow>)
    requires forall i :: 0 <= i < |txs| ==> Involves(txs[i], addr)
    requires RowsOfWindows(rows, txs, addr, window)
    ensures Starts(more) == Starts(rows) + [start]
    ensures RowsOfWindows(more, txs, addr, window)
  {
    var row := Row(txs, addr, start, window);
    StartsAppend(rows, row);
    RowsOfWindowsAppend(rows, txs, addr, window, start);
    more := rows + [row];
  }

  /** Lines 46-115: the loop over the windows of a non-empty period whose
      transactions are in time order. */
  method WalkWindows(txs: seq<Tx>, addr: string, window: int, step: int) returns (rows: seq<WindowRow>)
    requires |txs| > 0 && step > 0
    requires forall i :: 0 <= i < |txs| ==> Involves(txs[i], addr)
    ensures Starts(rows) == WindowStarts(txs[0].timeStamp, txs[0].timeStamp, txs[|txs| - 1].timeStamp, window, step)
    ensures RowsOfWindows(rows, txs, addr, window)
  {
    var tmin, tmax := txs[0].timeStamp, txs[|txs| - 1].timeStamp;
    ghost var walk := WindowStarts(tmin, tmin, tmax, window, step);
    rows := [];
    var cur := tmin;
    while cur <= tmax
      invariant tmin <= cur
      invariant Starts(rows) + WindowStarts(cur, tmin, tmax, window, step) == walk
      invariant RowsOfWindows(rows, txs, addr, window)
      decreases tmax - cur
    {
      ghost var done := Starts(rows);
      rows := AppendRow(rows, txs, addr, cur, window);
      WalkStep(done, walk, cur, tmin, tmax, window, step);
      match Advance(cur, tmin, tmax, window, step) {
        case None =>
          break;
        case Some(next) =>
          cur := next;
      }
    }
  }

  /** Lines 9-117. The period's transactions are those of `PeriodTransactions`;
      an empty period gives no rows; otherwise one row per start of the walk
      from the earliest to the latest timestamp, each the features of the
      transactions inside its window. Durations are given in hours, as in the
      source, and a step of at least one hour is required because the loop
      never exits otherwise. */
  method CalculateWindowedFeatures(all: seq<Tx>, addr: string, windowHours: int, stepHours: int,
                                   periodStart: Option<int>, periodEnd: Option<int>)
    returns (rows: seq<WindowRow>)
    requires stepHours >= 1
    ensures var txs := PeriodTransactions(all, addr, periodStart, periodEnd);
            && (|txs| == 0 <==> rows == [])
            && (|txs| > 0 ==>
                  Starts(rows) == WindowStarts(txs[0].timeStamp, txs[0].timeStamp, txs[|txs| - 1].timeStamp,
                                               windowHours * SecondsPerHour, stepHours * SecondsPerHour))
            && RowsOfWindows(rows, txs, addr, windowHours * SecondsPerHour)
  {
    var txs := PeriodTransactions(all, addr, periodStart, periodEnd);
    if |txs| == 0 {
      return [];
    }
    rows := WalkWindows(txs, addr, windowHours * SecondsPerHour, stepHours * SecondsPerHour);
  }
}
