/** detect_anomalies_with_historical_baseline (onchain_anomaly_detector.py,
    lines 119-178): every current window is scored, feature by feature,
    against the historical mean and standard deviation of that feature. */
module Detector {
  import opened Common
  import opened Transactions
  import opened Features
  import opened Extractor

  /** The column names of lines 95-101. */
  function ColumnName(c: Column): string
  {
    match c
    case TotalTransactions => "total_transactions_in_window"
    case IncomingTxCount => "incoming_tx_count"
    case OutgoingTxCount => "outgoing_tx_count"
    case TotalVolumeIn => "total_eth_volume_in"
    case TotalVolumeOut => "total_eth_volume_out"
    case AvgValueIn => "avg_eth_tx_value_in"
    case AvgValueOut => "avg_eth_tx_value_out"
    case MaxValueIn => "max_eth_tx_value_in"
    case MaxValueOut => "max_eth_tx_value_out"
    case UniqueCounterpartiesIn => "unique_counterparties_in"
    case UniqueCounterpartiesOut => "unique_counterparties_out"
    case TotalGasFeeSpent => "total_gas_fee_eth_spent_by_address"
    case AvgGasFeeSpent => "avg_gas_fee_eth_spent_by_address"
    case AvgTimeBetweenTx => "avg_time_between_tx_sec"
    case StdTimeBetweenTx => "std_time_between_tx_sec"
    case VolumeRatio => "incoming_to_outgoing_volume_ratio"
    case CountRatio => "incoming_to_outgoing_count_ratio"
  }

  /** The baseline keys of lines 140-141. */
  function MeanKey(c: Column): string
  {
    ColumnName(c) + "_mean"
  }

  function StdKey(c: Column): string
  {
    ColumnName(c) + "_std"
  }

  /** The historical baseline: a dictionary from key to number. */
  type Baselines = map<string, real>

  /** The eight features scored, in the order of lines 129-133. */
  const CheckedColumns: seq<Column> :=
    [TotalTransactions, IncomingTxCount, OutgoingTxCount, TotalVolumeIn, TotalVolumeOut,
     MaxValueIn, MaxValueOut, TotalGasFeeSpent]

  /** The threshold of the two fallback rules (lines 163 and 165). */
  const FallbackLimit: real := 50.0

  /** What can be reported about a window. `NothingDetected` is the sentinel
      of line 169. */
  datatype Anomaly =
    | High(column: Column)
    | Low(column: Column)
    | ConstantDeviation(column: Column)
    | HighTransactionCount
    | LargeOutgoing
    | NothingDetected

  /** The historical mean and standard deviation of one feature. */
  datatype Stats = Stats(mean: real, std: real)

  /** Lines 144-147: both statistics, when the dictionary holds both. */
  function StatsOf(b: Baselines, c: Column): (s: Option<Stats>)
    ensures s.Some? <==> MeanKey(c) in b && StdKey(c) in b
    ensures s.Some? ==> s.value == Stats(b[MeanKey(c)], b[StdKey(c)])
  {
    if MeanKey(c) in b && StdKey(c) in b then Some(Stats(b[MeanKey(c)], b[StdKey(c)])) else None
  }

  /** Low anomalies are never raised for the two maxima (line 156). */
  predicate LowChecked(c: Column)
  {
    c != MaxValueIn && c != MaxValueOut
  }

  /** Lines 143-166: the anomalies column `c` raises when its value is `v`
      and its historical statistics are `stats`. */
  function RuleFlags(c: Column, v: real, stats: Option<Stats>, k: real): (r: seq<Anomaly>)
    ensures |r| <= 2
  {
    match stats
    case Some(s) =>
      if s.std > Epsilon then
        var upper := s.mean + k * s.std;
        var lower := s.mean - k * s.std;
        (if v > upper then [High(c)] else [])
        + (if LowChecked(c) && v < lower && v < s.mean && s.mean > Epsilon then [Low(c)] else [])
      else if v > s.mean then [ConstantDeviation(c)]
      else []
    case None =>
      (if c == TotalTransactions && v > FallbackLimit then [HighTransactionCount] else [])
      + (if c == MaxValueOut && v > FallbackLimit then [LargeOutgoing] else [])
  }

  /** Where a column sits among the checked ones; past the end for any
      other column. */
  function Position(c: Column): (r: nat)
    ensures r <= |CheckedColumns|
    ensures r < |CheckedColumns| ==> CheckedColumns[r] == c
    ensures c in CheckedColumns ==> r < |CheckedColumns|
  {
    match c
    case TotalTransactions => 0
    case IncomingTxCount => 1
    case OutgoingTxCount => 2
    case TotalVolumeIn => 3
    case TotalVolumeOut => 4
    case MaxValueIn => 5
    case MaxValueOut => 6
    case TotalGasFeeSpent => 7
    case _ => 8
  }

  /** The order in which lines 129-166 report anomalies: column by column,
      and within a column a high value before a low one. */
  function AnomalyRank(a: Anomaly): nat
  {
    match a
    case High(c) => 2 * Position(c)
    case Low(c) => 2 * Position(c) + 1
    case ConstantDeviation(c) => 2 * Position(c)
    case HighTransactionCount => 2 * Position(TotalTransactions)
    case LargeOutgoing => 2 * Position(MaxValueOut)
    case NothingDetected => 2 * |CheckedColumns| + 2
  }

  /** Anomalies listed in strictly increasing rank. */
  predicate Ascending(r: seq<Anomaly>)
  {
    forall i, j :: 0 <= i < j < |r| ==> AnomalyRank(r[i]) < AnomalyRank(r[j])
  }

  /** Every anomaly of `r` ranks at least `low`. */
  predicate RanksFrom(r: seq<Anomaly>, low: nat)
  {
    forall i :: 0 <= i < |r| ==> low <= AnomalyRank(r[i])
  }

  /** One column's anomalies followed by those of the later columns stay in
      rank order. */
  lemma AscendingAppend(head: seq<Anomaly>, tail: seq<Anomaly>, n: nat)
    requires Ascending(head) && forall i :: 0 <= i < |head| ==> 2 * n <= AnomalyRank(head[i]) <= 2 * n + 1
    requires Ascending(tail) && RanksFrom(tail, 2 * n + 2)
    ensures Ascending(head + tail) && RanksFrom(head + tail, 2 * n)
  {
  }

  /** Columns that sit, one after the other, from place `n` on. */
  predicate PlacedFrom(cols: seq<Column>, n: nat)
  {
    forall i :: 0 <= i < |cols| ==> cols[i] != StdTimeBetweenTx && Position(cols[i]) == n + i
  }

  /** The anomalies of columns placed from `n` on come in rank order, each
      ranked at or after `2 * n`. */
  lemma {:induction false} FlagsOverAscending(f: WindowFeatures, b: Baselines, k: real, cols: seq<Column>, n: nat)
    requires PlacedFrom(cols, n)
    ensures Ascending(FlagsOver(f, b, k, cols))
    ensures RanksFrom(FlagsOver(f, b, k, cols), 2 * n)
  {
    if |cols| > 0 {
      var c := cols[0];
      assert PlacedFrom(cols[1..], n + 1) by {
        assert forall i :: 0 <= i < |cols| - 1 ==> cols[1..][i] == cols[i + 1];
      }
      FlagsOverAscending(f, b, k, cols[1..], n + 1);
      RuleFlagsAscending(c, Value(f, c), StatsOf(b, c), k);
      AscendingAppend(ColumnFlags(f, b, k, c), FlagsOver(f, b, k, cols[1..]), n);
    }
  }

  lemma CheckedPlaced()
    ensures PlacedFrom(CheckedColumns, 0)
  {
  }

  /** Lines 148-166 report a column's high anomaly before its low one, so a
      column's anomalies are in order and rank among its own two places. */
  lemma RuleFlagsAscending(c: Column, v: real, stats: Option<Stats>, k: real)
    ensures Ascending(RuleFlags(c, v, stats, k))
    ensures forall i :: 0 <= i < |RuleFlags(c, v, stats, k)| ==>
              2 * Position(c) <= AnomalyRank(RuleFlags(c, v, stats, k)[i]) <= 2 * Position(c) + 1
  {
  }

  /** Lines 139-166: the anomalies one feature raises. */
  function ColumnFlags(f: WindowFeatures, b: Baselines, k: real, c: Column): (r: seq<Anomaly>)
    requires c != StdTimeBetweenTx
    ensures |r| <= 2
  {
    RuleFlags(c, Value(f, c), StatsOf(b, c), k)
  }

  /** The anomalies of the columns `cols`, column by column. */
  function FlagsOver(f: WindowFeatures, b: Baselines, k: real, cols: seq<Column>): seq<Anomaly>
    requires forall i :: 0 <= i < |cols| ==> cols[i] != StdTimeBetweenTx
  {
    if |cols| == 0 then [] else ColumnFlags(f, b, k, cols[0]) + FlagsOver(f, b, k, cols[1..])
  }

  /** Lines 136-166: every anomaly the window raises, before the sentinel. */
  function WindowFlags(f: WindowFeatures, b: Baselines, k: real): seq<Anomaly>
  {
    FlagsOver(f, b, k, CheckedColumns)
  }

  /** The rule table of lines 143-166, stated anomaly by anomaly: when the
      value `v` of the anomaly's column, with statistics `stats`, raises it. */
  predicate RuleFires(a: Anomaly, v: real, stats: Option<Stats>, k: real)
  {
    match a
    case High(c) =>
      stats.Some? && stats.value.std > Epsilon && v > stats.value.mean + k * stats.value.std
    case Low(c) =>
      && LowChecked(c) && stats.Some? && stats.value.std > Epsilon
      && v < stats.value.mean - k * stats.value.std && v < stats.value.mean && stats.value.mean > Epsilon
    case ConstantDeviation(c) =>
      stats.Some? && stats.value.std <= Epsilon && v > stats.value.mean
    case HighTransactionCount =>
      stats.None? && v > FallbackLimit
    case LargeOutgoing =>
      stats.None? && v > FallbackLimit
    case NothingDetected => false
  }

  /** When a scored feature of window `f` raises `a`. */
  predicate Fires(a: Anomaly, f: WindowFeatures, b: Baselines, k: real)
  {
    match ColumnOf(a)
    case None => false
    case Some(c) => c != StdTimeBetweenTx && RuleFires(a, Value(f, c), StatsOf(b, c), k)
  }

  /** The rules of one column raise exactly the anomalies about that column
      that the rule table fires. */
  lemma RuleFlagsFire(c: Column, v: real, stats: Option<Stats>, k: real, a: Anomaly)
    ensures a in RuleFlags(c, v, stats, k) <==> RuleFires(a, v, stats, k) && ColumnOf(a) == Some(c)
  {
    match stats
    case Some(s) =>
      if s.std > Epsilon {
        var high := if v > s.mean + k * s.std then [High(c)] else [];
        var low := if LowChecked(c) && v < s.mean - k * s.std && v < s.mean && s.mean > Epsilon then [Low(c)] else [];
        assert RuleFlags(c, v, stats, k) == high + low;
        assert a in high + low <==> a in high || a in low;
      }
    case None =>
      var count := if c == TotalTransactions && v > FallbackLimit then [HighTransactionCount] else [];
      var outgoing := if c == MaxValueOut && v > FallbackLimit then [LargeOutgoing] else [];
      assert RuleFlags(c, v, stats, k) == count + outgoing;
      assert a in count + outgoing <==> a in count || a in outgoing;
  }

  /** What one column contributes, checked against the rule table. */
  lemma ColumnFlagsFire(f: WindowFeatures, b: Baselines, k: real, c: Column, a: Anomaly)
    requires c != StdTimeBetweenTx
    ensures a in ColumnFlags(f, b, k, c) <==> Fires(a, f, b, k) && ColumnOf(a) == Some(c)
  {
    RuleFlagsFire(c, Value(f, c), StatsOf(b, c), k, a);
  }

  /** The column an anomaly is about; the fallbacks belong to the column they
      test. */
  function ColumnOf(a: Anomaly): Option<Column>
  {
    match a
    case High(c) => Some(c)
    case Low(c) => Some(c)
    case ConstantDeviation(c) => Some(c)
    case HighTransactionCount => Some(TotalTransactions)
    case LargeOutgoing => Some(MaxValueOut)
    case NothingDetected => None
  }

  lemma {:induction false} FlagsOverFire(f: WindowFeatures, b: Baselines, k: real, cols: seq<Column>, a: Anomaly)
    requires forall i :: 0 <= i < |cols| ==> cols[i] != StdTimeBetweenTx
    ensures a in FlagsOver(f, b, k, cols) <==> Fires(a, f, b, k) && ColumnOf(a).Some? && ColumnOf(a).value in cols
  {
    if |cols| > 0 {
      var head, tail := ColumnFlags(f, b, k, cols[0]), FlagsOver(f, b, k, cols[1..]);
      ColumnFlagsFire(f, b, k, cols[0], a);
      FlagsOverFire(f, b, k, cols[1..], a);
      assert a in head + tail <==> a in head || a in tail;
      assert forall c :: c in cols <==> c == cols[0] || c in cols[1..];
    }
  }

  /** An anomaly about one of the eight scored features. */
  predicate Scored(a: Anomaly)
  {
    ColumnOf(a).Some? && ColumnOf(a).value in CheckedColumns
  }

  /** The window raises exactly the anomalies about scored features that the
      rule table fires. */
  lemma WindowFlagsMatchRules(f: WindowFeatures, b: Baselines, k: real, a: Anomaly)
    ensures a in WindowFlags(f, b, k) <==> Scored(a) && Fires(a, f, b, k)
  {
    FlagsOverFire(f, b, k, CheckedColumns, a);
  }

  /** The two fallbacks need a missing statistic, so neither can fire once the
      dictionary holds the mean and std of every checked feature. */
  lemma FallbacksNeedMissingStats(f: WindowFeatures, b: Baselines, k: real)
    requires forall c :: c in CheckedColumns ==> MeanKey(c) in b && StdKey(c) in b
    ensures HighTransactionCount !in WindowFlags(f, b, k)
    ensures LargeOutgoing !in WindowFlags(f, b, k)
  {
    WindowFlagsMatchRules(f, b, k, HighTransactionCount);
    WindowFlagsMatchRules(f, b, k, LargeOutgoing);
  }

  /** With a non-negative multiplier a feature is never both high and low. */
  lemma HighLowExclusive(f: WindowFeatures, b: Baselines, k: real, c: Column)
    requires k >= 0.0
    ensures !(High(c) in WindowFlags(f, b, k) && Low(c) in WindowFlags(f, b, k))
  {
    WindowFlagsMatchRules(f, b, k, High(c));
    WindowFlagsMatchRules(f, b, k, Low(c));
    HighLowNeverBothFire(f, b, k, c);
  }

  lemma HighLowNeverBothFire(f: WindowFeatures, b: Baselines, k: real, c: Column)
    requires k >= 0.0
    ensures !(Fires(High(c), f, b, k) && Fires(Low(c), f, b, k))
  {
    if c != StdTimeBetweenTx {
      HighLowRules(c, Value(f, c), StatsOf(b, c), k);
    }
  }

  lemma HighLowRules(c: Column, v: real, stats: Option<Stats>, k: real)
    requires k >= 0.0
    ensures !(RuleFires(High(c), v, stats, k) && RuleFires(Low(c), v, stats, k))
  {
    if stats.Some? && stats.value.std > Epsilon {
      NonNegativeProduct(k, stats.value.std);
    }
  }

  lemma NonNegativeProduct(x: real, y: real)
    requires x >= 0.0 && y >= 0.0
    ensures x * y >= 0.0
  {
  }

  /** With any negative multiplier the bands cross and both may fire: with
      mean 10 and std 1, an incoming volume of 10 + k/2 lies above the upper
      bound 10 + k and below both the lower bound 10 - k and the mean. */
  lemma NegativeMultiplierMayRaiseBoth(k: real)
    requires k < 0.0
    ensures var b := map[MeanKey(TotalVolumeIn) := 10.0, StdKey(TotalVolumeIn) := 1.0];
            var f := ZeroFeatures.(volumeIn := 10.0 + k / 2.0);
            High(TotalVolumeIn) in WindowFlags(f, b, k) && Low(TotalVolumeIn) in WindowFlags(f, b, k)
  {
    var mean, std := MeanKey(TotalVolumeIn), StdKey(TotalVolumeIn);
    assert mean != std by {
      assert mean[|mean| - 1] != std[|std| - 1];
    }
    var b := map[mean := 10.0, std := 1.0];
    var f := ZeroFeatures.(volumeIn := 10.0 + k / 2.0);
    assert StatsOf(b, TotalVolumeIn) == Some(Stats(10.0, 1.0));
    assert TotalVolumeIn in CheckedColumns;
    WindowFlagsMatchRules(f, b, k, High(TotalVolumeIn));
    WindowFlagsMatchRules(f, b, k, Low(TotalVolumeIn));
  }

  lemma ScaleMonotone(k: real, k': real, std: real)
    requires k <= k' && std >= 0.0
    ensures k * std <= k' * std
  {
    NonNegativeProduct(k' - k, std);
  }

  /** Raising the multiplier never raises a new anomaly. */
  lemma RaisingMultiplierNeverAdds(f: WindowFeatures, b: Baselines, k: real, k': real, a: Anomaly)
    requires k <= k'
    ensures a in WindowFlags(f, b, k') ==> a in WindowFlags(f, b, k)
  {
    WindowFlagsMatchRules(f, b, k, a);
    WindowFlagsMatchRules(f, b, k', a);
    FiresMonotone(f, b, k, k', a);
  }

  /** Every rule that fires under the larger multiplier fires under the
      smaller one. */
  lemma FiresMonotone(f: WindowFeatures, b: Baselines, k: real, k': real, a: Anomaly)
    requires k <= k'
    ensures Fires(a, f, b, k') ==> Fires(a, f, b, k)
  {
    match ColumnOf(a)
    case None =>
    case Some(c) =>
      if c != StdTimeBetweenTx {
        RuleFiresMonotone(a, Value(f, c), StatsOf(b, c), k, k');
      }
  }

  lemma RuleFiresMonotone(a: Anomaly, v: real, stats: Option<Stats>, k: real, k': real)
    requires k <= k'
    ensures RuleFires(a, v, stats, k') ==> RuleFires(a, v, stats, k)
  {
    if stats.Some? && stats.value.std > Epsilon {
      ScaleMonotone(k, k', stats.value.std);
    }
  }

  /** Per column, raising the multiplier leaves no more anomalies. */
  lemma ColumnFlagsShrink(f: WindowFeatures, b: Baselines, k: real, k': real, c: Column)
    requires k <= k' && c != StdTimeBetweenTx
    ensures |ColumnFlags(f, b, k', c)| <= |ColumnFlags(f, b, k, c)|
  {
    RuleFlagsShrink(c, Value(f, c), StatsOf(b, c), k, k');
  }

  lemma RuleFlagsShrink(c: Column, v: real, stats: Option<Stats>, k: real, k': real)
    requires k <= k'
    ensures |RuleFlags(c, v, stats, k')| <= |RuleFlags(c, v, stats, k)|
  {
    if stats.Some? && stats.value.std > Epsilon {
      ScaleMonotone(k, k', stats.value.std);
    }
  }

  /** Raising the multiplier never makes the list of anomalies longer. */
  lemma {:induction false} RaisingMultiplierNeverLengthens(f: WindowFeatures, b: Baselines, k: real, k': real, cols: seq<Column>)
    requires k <= k'
    requires forall i :: 0 <= i < |cols| ==> cols[i] != StdTimeBetweenTx
    ensures |FlagsOver(f, b, k', cols)| <= |FlagsOver(f, b, k, cols)|
  {
    if |cols| > 0 {
      ColumnFlagsShrink(f, b, k, k', cols[0]);
      RaisingMultiplierNeverLengthens(f, b, k, k', cols[1..]);
    }
  }

  /** One entry of the report: the two sentinels of lines 124-127, or the
      analysis of a window. */
  datatype ReportEntry =
    | NoCurrentWindows
    | NoBaselines
    | Analysed(row: WindowRow, anomalies: seq<Anomaly>)

  /** A window's anomalies come in report order, each at most once. */
  lemma WindowFlagsAscending(f: WindowFeatures, b: Baselines, k: real)
    ensures Ascending(WindowFlags(f, b, k)) && NoDuplicates(WindowFlags(f, b, k))
  {
    CheckedPlaced();
    FlagsOverAscending(f, b, k, CheckedColumns, 0);
    var r := WindowFlags(f, b, k);
    forall i, j | 0 <= i < j < |r|
      ensures r[i] != r[j]
    {
      assert AnomalyRank(r[i]) < AnomalyRank(r[j]);
    }
  }

  /** Lines 168-169: the anomalies, or the sentinel when none fired. */
  function Anomalies(f: WindowFeatures, b: Baselines, k: real): (r: seq<Anomaly>)
    ensures |r| > 0
    ensures r == [NothingDetected] <==> forall a :: !(Scored(a) && Fires(a, f, b, k))
    ensures forall a :: a != NothingDetected ==> (a in r <==> Scored(a) && Fires(a, f, b, k))
    ensures Ascending(r) && NoDuplicates(r)
  {
    var flags := WindowFlags(f, b, k);
    WindowFlagsAscending(f, b, k);
    forall a
      ensures a in flags <==> Scored(a) && Fires(a, f, b, k)
    {
      WindowFlagsMatchRules(f, b, k, a);
    }
    if |flags| == 0 then [NothingDetected]
    else
      assert flags[0] in flags;
      flags
  }

  /** Lines 119-178: the report over the current windows. */
  function Detect(rows: seq<WindowRow>, b: Baselines, k: real): (report: seq<ReportEntry>)
    ensures |rows| == 0 ==> report == [NoCurrentWindows]
    ensures |rows| > 0 && |b| == 0 ==> report == [NoBaselines]
    ensures |rows| > 0 && |b| > 0 ==>
              && |report| == |rows|
              && forall i :: 0 <= i < |rows| ==>
                   && report[i].Analysed?
                   && report[i].row == rows[i]
                   && report[i].anomalies == Anomalies(rows[i].features, b, k)
  {
    if |rows| == 0 then [NoCurrentWindows]
    else if |b| == 0 then [NoBaselines]
    else seq(|rows|, i requires 0 <= i < |rows| => Analysed(rows[i], Anomalies(rows[i].features, b, k)))
  }
}
