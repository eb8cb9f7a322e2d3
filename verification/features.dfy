/** The fixed feature vector computed for one window
    (onchain_anomaly_detector.py, lines 58-103), and the names of its columns
    used as keys of the historical baseline. */
module Features {
  import opened Common
  import opened Transactions

  /** The `1e-9` added to both ratio denominators (lines 92-93). */
  const Epsilon: real := 0.000000001

  /** The features of one window. The sample standard deviation of the gaps
      between transactions is not part of this record. */
  datatype WindowFeatures = WindowFeatures(
    totalTransactions: nat,
    incomingCount: nat,
    outgoingCount: nat,
    volumeIn: real,
    volumeOut: real,
    avgValueIn: real,
    avgValueOut: real,
    maxValueIn: real,
    maxValueOut: real,
    uniqueCounterpartiesIn: nat,
    uniqueCounterpartiesOut: nat,
    gasFeeSpent: real,
    avgGasFeeSpent: real,
    avgTimeBetweenTx: real,
    volumeRatio: real,
    countRatio: real)

  /** The zero fill of lines 94-103. */
  const ZeroFeatures: WindowFeatures :=
    WindowFeatures(0, 0, 0, 0.0, 0.0, 0.0, 0.0, 0.0, 0.0, 0, 0, 0.0, 0.0, 0.0, 0.0, 0.0)

  /** The feature columns by name (the keys listed at lines 95-101). */
  datatype Column =
    | TotalTransactions | IncomingTxCount | OutgoingTxCount
    | TotalVolumeIn | TotalVolumeOut | AvgValueIn | AvgValueOut | MaxValueIn | MaxValueOut
    | UniqueCounterpartiesIn | UniqueCounterpartiesOut
    | TotalGasFeeSpent | AvgGasFeeSpent
    | AvgTimeBetweenTx | StdTimeBetweenTx
    | VolumeRatio | CountRatio

  /** The value a window holds for a column. */
  function Value(f: WindowFeatures, c: Column): real
    requires c != StdTimeBetweenTx
  {
    match c
    case TotalTransactions => f.totalTransactions as real
    case IncomingTxCount => f.incomingCount as real
    case OutgoingTxCount => f.outgoingCount as real
    case TotalVolumeIn => f.volumeIn
    case TotalVolumeOut => f.volumeOut
    case AvgValueIn => f.avgValueIn
    case AvgValueOut => f.avgValueOut
    case MaxValueIn => f.maxValueIn
    case MaxValueOut => f.maxValueOut
    case UniqueCounterpartiesIn => f.uniqueCounterpartiesIn as real
    case UniqueCounterpartiesOut => f.uniqueCounterpartiesOut as real
    case TotalGasFeeSpent => f.gasFeeSpent
    case AvgGasFeeSpent => f.avgGasFeeSpent
    case AvgTimeBetweenTx => f.avgTimeBetweenTx
    case VolumeRatio => f.volumeRatio
    case CountRatio => f.countRatio
  }

  /** The per-transaction amounts of a column of transactions. */
  function Amounts(txs: seq<Tx>, amount: Tx -> real): (r: seq<real>)
    ensures |r| == |txs|
    ensures forall i :: 0 <= i < |txs| ==> r[i] == amount(txs[i])
  {
    seq(|txs|, i requires 0 <= i < |txs| => amount(txs[i]))
  }

  predicate NonNegative(xs: seq<real>)
  {
    forall i :: 0 <= i < |xs| ==> xs[i] >= 0.0
  }

  lemma AmountsNonNegative(txs: seq<Tx>)
    ensures NonNegative(Amounts(txs, ValueEth))
    ensures NonNegative(Amounts(txs, GasFeeEth))
  {
  }

  /** pandas' `mean()` guarded by "0 if the subset is empty". */
  function Mean(xs: seq<real>): real
  {
    if |xs| == 0 then 0.0 else Sum(xs) / |xs| as real
  }

  /** The largest element. */
  function Max(xs: seq<real>): (m: real)
    requires |xs| > 0
    ensures forall i :: 0 <= i < |xs| ==> xs[i] <= m
    ensures exists i :: 0 <= i < |xs| && m == xs[i]
  {
    if |xs| == 1 then xs[0]
    else
      var m := Max(xs[..|xs| - 1]);
      if xs[|xs| - 1] > m then xs[|xs| - 1] else m
  }

  /** pandas' `max()` guarded by "0 if the subset is empty". */
  function MaxOrZero(xs: seq<real>): real
  {
    if |xs| == 0 then 0.0 else Max(xs)
  }

  /** A sum of values none larger than `m` is at most `|xs| * m`. */
  lemma {:induction false} SumAtMostCountTimesMax(xs: seq<real>, m: real)
    requires forall i :: 0 <= i < |xs| ==> xs[i] <= m
    ensures Sum(xs) <= |xs| as real * m
  {
    if |xs| > 0 {
      SumAtMostCountTimesMax(xs[..|xs| - 1], m);
    }
  }

  /** A single non-negative value is at most the sum it belongs to. */
  lemma {:induction false} ElementAtMostSum(xs: seq<real>, k: nat)
    requires NonNegative(xs) && k < |xs|
    ensures xs[k] <= Sum(xs)
  {
    var init := xs[..|xs| - 1];
    SumNonNegative(init);
    if k < |xs| - 1 {
      ElementAtMostSum(init, k);
    }
  }

  lemma QuotientBound(total: real, n: real, m: real)
    requires n > 0.0 && total <= n * m
    ensures total / n <= m
  {
    assert (total / n) * n == total;
  }

  lemma QuotientNonNegative(total: real, n: real)
    requires n > 0.0 && total >= 0.0
    ensures total / n >= 0.0
  {
  }

  /** For non-negative amounts: 0 <= mean <= max <= sum. */
  lemma MeanMaxSumOrdered(xs: seq<real>)
    requires NonNegative(xs)
    ensures 0.0 <= Mean(xs) <= MaxOrZero(xs) <= Sum(xs)
  {
    if |xs| > 0 {
      MeanAtMostMax(xs);
      MaxAtMostSum(xs);
    }
  }

  lemma MeanAtMostMax(xs: seq<real>)
    requires NonNegative(xs) && |xs| > 0
    ensures 0.0 <= Mean(xs) <= Max(xs)
  {
    MeanAtMostBound(xs, Max(xs));
    SumNonNegative(xs);
    QuotientNonNegative(Sum(xs), |xs| as real);
  }

  /** A mean is at most any bound on the elements. */
  lemma MeanAtMostBound(xs: seq<real>, m: real)
    requires |xs| > 0 && forall i :: 0 <= i < |xs| ==> xs[i] <= m
    ensures Mean(xs) <= m
  {
    SumAtMostCountTimesMax(xs, m);
    QuotientBound(Sum(xs), |xs| as real, m);
  }

  lemma MaxAtMostSum(xs: seq<real>)
    requires NonNegative(xs) && |xs| > 0
    ensures Max(xs) <= Sum(xs)
  {
    var k :| 0 <= k < |xs| && Max(xs) == xs[k];
    ElementAtMostSum(xs, k);
  }

  /** For non-negative amounts the mean is at most the sum. */
  lemma MeanAtMostSum(xs: seq<real>)
    requires NonNegative(xs)
    ensures 0.0 <= Mean(xs) <= Sum(xs)
  {
    MeanMaxSumOrdered(xs);
  }

  /** Lines 92-93: a quotient whose non-negative denominator is shifted by
      epsilon, so that it is defined when the denominator is zero. */
  function Ratio(numerator: real, denominator: real): (q: real)
    requires denominator >= 0.0
    ensures q * (denominator + Epsilon) == numerator
    ensures denominator == 0.0 ==> q == numerator * 1000000000.0
  {
    numerator / (denominator + Epsilon)
  }

  /** The number of distinct strings, pandas' `nunique()`. */
  function DistinctCount(xs: seq<string>): nat
  {
    |set x | x in xs|
  }

  lemma {:induction false} DistinctAtMostLength(xs: seq<string>)
    ensures DistinctCount(xs) <= |xs|
  {
    if |xs| > 0 {
      var init := xs[..|xs| - 1];
      DistinctAtMostLength(init);
      assert xs == init + [xs[|xs| - 1]];
      assert (set x | x in xs) == (set x | x in init) + {xs[|xs| - 1]};
    }
  }

  function Senders(txs: seq<Tx>): (r: seq<string>)
    ensures |r| == |txs|
    ensures forall i :: 0 <= i < |txs| ==> r[i] == txs[i].from
  {
    seq(|txs|, i requires 0 <= i < |txs| => txs[i].from)
  }

  function Recipients(txs: seq<Tx>): (r: seq<string>)
    ensures |r| == |txs|
    ensures forall i :: 0 <= i < |txs| ==> r[i] == txs[i].to
  {
    seq(|txs|, i requires 0 <= i < |txs| => txs[i].to)
  }

  function Times(txs: seq<Tx>): (r: seq<int>)
    ensures |r| == |txs|
    ensures forall i :: 0 <= i < |txs| ==> r[i] == txs[i].timeStamp
  {
    seq(|txs|, i requires 0 <= i < |txs| => txs[i].timeStamp)
  }

  /** The sum of the differences between consecutive timestamps (`diff()`
      with the leading NaN dropped). */
  function GapSum(ts: seq<int>): int
  {
    if |ts| < 2 then 0 else GapSum(ts[..|ts| - 1]) + (ts[|ts| - 1] - ts[|ts| - 2])
  }

  /** The consecutive differences telescope to last minus first. */
  lemma {:induction false} GapSumTelescopes(ts: seq<int>)
    requires |ts| >= 1
    ensures GapSum(ts) == ts[|ts| - 1] - ts[0]
  {
    if |ts| >= 2 {
      GapSumTelescopes(ts[..|ts| - 1]);
    }
  }

  /** Lines 85-91: the mean gap between consecutive transactions, 0 for
      fewer than two. */
  function AvgGap(w: seq<Tx>): real
  {
    if |w| > 1 then GapSum(Times(w)) as real / (|w| - 1) as real else 0.0
  }

  /** Lines 68-93: the features of a non-empty window, where incoming takes
      priority over outgoing and the gas fee is summed over outgoing
      transactions only. */
  function FormulaFeatures(w: seq<Tx>, addr: string): WindowFeatures
  {
    var incoming := Filter(w, Incoming(addr));
    var outgoing := Filter(w, Outgoing(addr));
    var valuesIn := Amounts(incoming, ValueEth);
    var valuesOut := Amounts(outgoing, ValueEth);
    var fees := Amounts(outgoing, GasFeeEth);
    AmountsNonNegative(outgoing);
    SumNonNegative(valuesOut);
    WindowFeatures(
      totalTransactions := |w|,
      incomingCount := |incoming|,
      outgoingCount := |outgoing|,
      volumeIn := Sum(valuesIn),
      volumeOut := Sum(valuesOut),
      avgValueIn := Mean(valuesIn),
      avgValueOut := Mean(valuesOut),
      maxValueIn := MaxOrZero(valuesIn),
      maxValueOut := MaxOrZero(valuesOut),
      uniqueCounterpartiesIn := DistinctCount(Senders(incoming)),
      uniqueCounterpartiesOut := DistinctCount(Recipients(outgoing)),
      gasFeeSpent := Sum(fees),
      avgGasFeeSpent := Mean(fees),
      avgTimeBetweenTx := AvgGap(w),
      volumeRatio := Ratio(Sum(valuesIn), Sum(valuesOut)),
      countRatio := Ratio(|incoming| as real, |outgoing| as real))
  }

  /** Applied to an empty window, the formulas of lines 68-93 already give
      the zero fill of lines 94-103. */
  lemma ZeroFillMatchesFormulas(addr: string)
    ensures FormulaFeatures([], addr) == ZeroFeatures
  {
    assert Filter([], Incoming(addr)) == [];
    assert Filter([], Outgoing(addr)) == [];
    assert Senders([]) == [] && Recipients([]) == [];
    assert (set x: string | x in []) == {};
  }

  /** Every transaction of the window goes to exactly one of the two subsets. */
  lemma ClassifyAll(w: seq<Tx>, addr: string)
    requires forall i :: 0 <= i < |w| ==> Involves(w[i], addr)
    ensures forall i :: 0 <= i < |w| ==> (Incoming(addr)(w[i]) <==> !Outgoing(addr)(w[i]))
  {
    forall i | 0 <= i < |w|
      ensures Incoming(addr)(w[i]) <==> !Outgoing(addr)(w[i])
    {
      ClassifiedExactlyOnce(w[i], addr);
    }
  }

  /** The counts of the formulas: every transaction is incoming or outgoing,
      and there are never more distinct counterparties than transactions. */
  lemma FormulaCounts(w: seq<Tx>, addr: string)
    requires forall i :: 0 <= i < |w| ==> Involves(w[i], addr)
    ensures var f := FormulaFeatures(w, addr);
            && f.incomingCount + f.outgoingCount == f.totalTransactions
            && f.uniqueCounterpartiesIn <= f.incomingCount
            && f.uniqueCounterpartiesOut <= f.outgoingCount
  {
    ClassifyAll(w, addr);
    FilterSplit(w, Incoming(addr), Outgoing(addr));
    DistinctAtMostLength(Senders(Filter(w, Incoming(addr))));
    DistinctAtMostLength(Recipients(Filter(w, Outgoing(addr))));
  }

  /** The amounts of the formulas are ordered mean <= max <= total, and vanish
      when their subset is empty. */
  lemma FormulaAmounts(w: seq<Tx>, addr: string)
    ensures var f := FormulaFeatures(w, addr);
            && 0.0 <= f.avgValueIn <= f.maxValueIn <= f.volumeIn
            && 0.0 <= f.avgValueOut <= f.maxValueOut <= f.volumeOut
            && 0.0 <= f.avgGasFeeSpent <= f.gasFeeSpent
            && (f.incomingCount == 0 ==> f.volumeIn == 0.0 && f.maxValueIn == 0.0)
            && (f.outgoingCount == 0 ==> f.volumeOut == 0.0 && f.maxValueOut == 0.0 && f.gasFeeSpent == 0.0)
  {
    var incoming := Filter(w, Incoming(addr));
    var outgoing := Filter(w, Outgoing(addr));
    AmountsNonNegative(incoming);
    AmountsNonNegative(outgoing);
    MeanMaxSumOrdered(Amounts(incoming, ValueEth));
    MeanMaxSumOrdered(Amounts(outgoing, ValueEth));
    MeanAtMostSum(Amounts(outgoing, GasFeeEth));
  }

  /** The total of `amount` over the transactions of `w` that satisfy `p`,
      accumulated position by position. */
  function SumWhere(w: seq<Tx>, p: Tx -> bool, amount: Tx -> real): real
  {
    if |w| == 0 then 0.0
    else SumWhere(w[..|w| - 1], p, amount) + if p(w[|w| - 1]) then amount(w[|w| - 1]) else 0.0
  }

  /** Summing the amounts of the filtered subset is summing over the
      positions that satisfy the predicate. */
  lemma {:induction false} FilteredSum(w: seq<Tx>, p: Tx -> bool, amount: Tx -> real)
    ensures Sum(Amounts(Filter(w, p), amount)) == SumWhere(w, p, amount)
  {
    if |w| > 0 {
      var init, last := w[..|w| - 1], w[|w| - 1];
      FilteredSum(init, p, amount);
      FilterStep(w, p);
      if p(last) {
        var a := Amounts(Filter(w, p), amount);
        assert a[..|a| - 1] == Amounts(Filter(init, p), amount);
      }
    }
  }

  /** The distinct senders of the transactions of `w` that satisfy `p`. */
  function SendersWhere(w: seq<Tx>, p: Tx -> bool): set<string>
  {
    set tx | tx in w && p(tx) :: tx.from
  }

  /** The distinct recipients of the transactions of `w` that satisfy `p`. */
  function RecipientsWhere(w: seq<Tx>, p: Tx -> bool): set<string>
  {
    set tx | tx in w && p(tx) :: tx.to
  }

  lemma FilteredSenders(w: seq<Tx>, p: Tx -> bool)
    ensures (set x | x in Senders(Filter(w, p))) == SendersWhere(w, p)
  {
    var f := Filter(w, p);
    FilterIn(w, p);
    forall x | x in Senders(f)
      ensures x in SendersWhere(w, p)
    {
      var j :| 0 <= j < |f| && Senders(f)[j] == x;
      assert f[j] in f;
    }
    forall x | x in SendersWhere(w, p)
      ensures x in Senders(f)
    {
      var tx :| tx in w && p(tx) && x == tx.from;
      var j :| 0 <= j < |f| && f[j] == tx;
      assert Senders(f)[j] == x;
    }
  }

  lemma FilteredRecipients(w: seq<Tx>, p: Tx -> bool)
    ensures (set x | x in Recipients(Filter(w, p))) == RecipientsWhere(w, p)
  {
    var f := Filter(w, p);
    FilterIn(w, p);
    forall x | x in Recipients(f)
      ensures x in RecipientsWhere(w, p)
    {
      var j :| 0 <= j < |f| && Recipients(f)[j] == x;
      assert f[j] in f;
    }
    forall x | x in RecipientsWhere(w, p)
      ensures x in Recipients(f)
    {
      var tx :| tx in w && p(tx) && x == tx.to;
      var j :| 0 <= j < |f| && f[j] == tx;
      assert Recipients(f)[j] == x;
    }
  }

  /** The largest value of the filtered subset is the value of one of its
      transactions and bounds the value of every one of them. */
  lemma FilteredMax(w: seq<Tx>, p: Tx -> bool)
    ensures forall tx :: tx in w && p(tx) ==> ValueEth(tx) <= MaxOrZero(Amounts(Filter(w, p), ValueEth))
    ensures |Filter(w, p)| > 0 ==>
              exists tx :: tx in w && p(tx) && MaxOrZero(Amounts(Filter(w, p), ValueEth)) == ValueEth(tx)
  {
    var f := Filter(w, p);
    var a := Amounts(f, ValueEth);
    FilterIn(w, p);
    forall tx | tx in w && p(tx)
      ensures ValueEth(tx) <= MaxOrZero(a)
    {
      var j :| 0 <= j < |f| && f[j] == tx;
      assert a[j] == ValueEth(tx);
    }
    if |f| > 0 {
      var j :| 0 <= j < |a| && Max(a) == a[j];
      assert f[j] in f;
    }
  }

  /** A mean times the size of its non-empty subset is the subset's total. */
  lemma MeanOfCount(xs: seq<real>, n: nat, mean: real, total: real)
    requires |xs| == n > 0 && mean == Mean(xs) && total == Sum(xs)
    ensures mean == total / n as real
  {
  }

  /** The incoming features of the formulas are computed over the incoming
      transactions. */
  lemma FormulaIncoming(w: seq<Tx>, addr: string)
    ensures IncomingSide(w, addr, FormulaFeatures(w, addr))
  {
    var f := FormulaFeatures(w, addr);
    var values := Amounts(Filter(w, Incoming(addr)), ValueEth);
    assert f.incomingCount == |Filter(w, Incoming(addr))|;
    assert f.volumeIn == Sum(values) && f.avgValueIn == Mean(values) && f.maxValueIn == MaxOrZero(values);
    assert f.uniqueCounterpartiesIn == DistinctCount(Senders(Filter(w, Incoming(addr))));
    IncomingFromFilter(w, addr, f);
  }

  lemma IncomingFromFilter(w: seq<Tx>, addr: string, f: WindowFeatures)
    requires f.incomingCount == |Filter(w, Incoming(addr))|
    requires var values := Amounts(Filter(w, Incoming(addr)), ValueEth);
             f.volumeIn == Sum(values) && f.avgValueIn == Mean(values) && f.maxValueIn == MaxOrZero(values)
    requires f.uniqueCounterpartiesIn == DistinctCount(Senders(Filter(w, Incoming(addr))))
    ensures IncomingSide(w, addr, f)
  {
    var incoming := Filter(w, Incoming(addr));
    FilterCount(w, Incoming(addr));
    FilteredSum(w, Incoming(addr), ValueEth);
    FilteredSenders(w, Incoming(addr));
    FilteredMax(w, Incoming(addr));
    if |incoming| > 0 {
      MeanOfCount(Amounts(incoming, ValueEth), f.incomingCount, f.avgValueIn, f.volumeIn);
    }
  }

  /** The outgoing features and the gas fee of the formulas are computed over
      the outgoing transactions. */
  lemma FormulaOutgoing(w: seq<Tx>, addr: string)
    ensures OutgoingSide(w, addr, FormulaFeatures(w, addr))
  {
    var f := FormulaFeatures(w, addr);
    var values := Amounts(Filter(w, Outgoing(addr)), ValueEth);
    var fees := Amounts(Filter(w, Outgoing(addr)), GasFeeEth);
    assert f.outgoingCount == |Filter(w, Outgoing(addr))|;
    assert f.volumeOut == Sum(values) && f.avgValueOut == Mean(values) && f.maxValueOut == MaxOrZero(values);
    assert f.gasFeeSpent == Sum(fees) && f.avgGasFeeSpent == Mean(fees);
    assert f.uniqueCounterpartiesOut == DistinctCount(Recipients(Filter(w, Outgoing(addr))));
    OutgoingFromFilter(w, addr, f);
  }

  lemma OutgoingFromFilter(w: seq<Tx>, addr: string, f: WindowFeatures)
    requires f.outgoingCount == |Filter(w, Outgoing(addr))|
    requires var values := Amounts(Filter(w, Outgoing(addr)), ValueEth);
             f.volumeOut == Sum(values) && f.avgValueOut == Mean(values) && f.maxValueOut == MaxOrZero(values)
    requires var fees := Amounts(Filter(w, Outgoing(addr)), GasFeeEth);
             f.gasFeeSpent == Sum(fees) && f.avgGasFeeSpent == Mean(fees)
    requires f.uniqueCounterpartiesOut == DistinctCount(Recipients(Filter(w, Outgoing(addr))))
    ensures OutgoingSide(w, addr, f)
  {
    var outgoing := Filter(w, Outgoing(addr));
    FilterCount(w, Outgoing(addr));
    FilteredSum(w, Outgoing(addr), ValueEth);
    FilteredSum(w, Outgoing(addr), GasFeeEth);
    FilteredRecipients(w, Outgoing(addr));
    FilteredMax(w, Outgoing(addr));
    if |outgoing| > 0 {
      MeanOfCount(Amounts(outgoing, ValueEth), f.outgoingCount, f.avgValueOut, f.volumeOut);
      MeanOfCount(Amounts(outgoing, GasFeeEth), f.outgoingCount, f.avgGasFeeSpent, f.gasFeeSpent);
    }
  }

  /** The `_in` features of `f` describe the incoming transactions of `w`:
      their number, total value, largest value (one of theirs, and bounding
      all of theirs), distinct senders, and the mean as total over number. */
  predicate IncomingSide(w: seq<Tx>, addr: string, f: WindowFeatures)
  {
    && f.incomingCount == |Positions(w, Incoming(addr))|
    && f.volumeIn == SumWhere(w, Incoming(addr), ValueEth)
    && f.uniqueCounterpartiesIn == |SendersWhere(w, Incoming(addr))|
    && (forall tx :: tx in w && IsIncoming(tx, addr) ==> ValueEth(tx) <= f.maxValueIn)
    && (f.incomingCount > 0 ==> exists tx :: tx in w && IsIncoming(tx, addr) && f.maxValueIn == ValueEth(tx))
    && (f.incomingCount > 0 ==> f.avgValueIn == f.volumeIn / f.incomingCount as real)
  }

  /** The `_out` features and the gas fee of `f` describe the outgoing
      transactions of `w` in the same way, the recipients being their
      counterparties. */
  predicate OutgoingSide(w: seq<Tx>, addr: string, f: WindowFeatures)
  {
    && f.outgoingCount == |Positions(w, Outgoing(addr))|
    && f.volumeOut == SumWhere(w, Outgoing(addr), ValueEth)
    && f.gasFeeSpent == SumWhere(w, Outgoing(addr), GasFeeEth)
    && f.uniqueCounterpartiesOut == |RecipientsWhere(w, Outgoing(addr))|
    && (forall tx :: tx in w && IsOutgoing(tx, addr) ==> ValueEth(tx) <= f.maxValueOut)
    && (f.outgoingCount > 0 ==> exists tx :: tx in w && IsOutgoing(tx, addr) && f.maxValueOut == ValueEth(tx))
    && (f.outgoingCount > 0 ==> f.avgValueOut == f.volumeOut / f.outgoingCount as real)
    && (f.outgoingCount > 0 ==> f.avgGasFeeSpent == f.gasFeeSpent / f.outgoingCount as real)
  }

  /** The mean gap of a time-ordered window is the time it spans divided by
      the number of gaps. */
  lemma FormulaGap(w: seq<Tx>, addr: string)
    ensures FormulaFeatures(w, addr).avgTimeBetweenTx ==
            if |w| >= 2 then (w[|w| - 1].timeStamp - w[0].timeStamp) as real / (|w| - 1) as real else 0.0
  {
    if |w| >= 2 {
      GapSumTelescopes(Times(w));
    }
  }

  /** Lines 67-103: the features of the window holding the transactions `w`
      (all of which involve `addr`), zero-filled when it is empty. */
  function ComputeFeatures(w: seq<Tx>, addr: string): (f: WindowFeatures)
    requires forall i :: 0 <= i < |w| ==> Involves(w[i], addr)
    ensures |w| == 0 ==> f == ZeroFeatures
    ensures f.totalTransactions == |w|
    ensures f.incomingCount + f.outgoingCount == f.totalTransactions
    ensures f.uniqueCounterpartiesIn <= f.incomingCount
    ensures f.uniqueCounterpartiesOut <= f.outgoingCount
    ensures 0.0 <= f.avgValueIn <= f.maxValueIn <= f.volumeIn
    ensures 0.0 <= f.avgValueOut <= f.maxValueOut <= f.volumeOut
    ensures 0.0 <= f.avgGasFeeSpent <= f.gasFeeSpent
    ensures f.incomingCount == 0 ==> f.volumeIn == 0.0 && f.maxValueIn == 0.0
    ensures f.outgoingCount == 0 ==> f.volumeOut == 0.0 && f.maxValueOut == 0.0 && f.gasFeeSpent == 0.0
    ensures f.volumeRatio == Ratio(f.volumeIn, f.volumeOut)
    ensures f.countRatio == Ratio(f.incomingCount as real, f.outgoingCount as real)
    ensures f.avgTimeBetweenTx == if |w| >= 2 then (w[|w| - 1].timeStamp - w[0].timeStamp) as real / (|w| - 1) as real else 0.0
    ensures IncomingSide(w, addr, f) && OutgoingSide(w, addr, f)
  {
    if |w| == 0 then
      ZeroFillMatchesFormulas(addr);
      FormulaIncoming(w, addr);
      FormulaOutgoing(w, addr);
      ZeroFeatures
    else
      var f := FormulaFeatures(w, addr);
      FormulaCounts(w, addr);
      FormulaAmounts(w, addr);
      FormulaGap(w, addr);
      FormulaIncoming(w, addr);
      FormulaOutgoing(w, addr);
      f
  }
}
