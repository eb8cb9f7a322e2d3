/** The transaction records the anomaly detector consumes, how each one is
    classified relative to the target address, and the period restriction
    applied before windowing (onchain_anomaly_detector.py, lines 17-44). */
module Transactions {
  import opened Common
  import opened Text
  import opened Sorting

  const SecondsPerHour: int := 3600
  const SecondsPerDay: int := 86400
  const WeiPerEth: real := 1000000000000000000.0

  /** One on-chain transaction: addresses as text, amounts as integers in wei,
      the timestamp in Unix seconds. */
  datatype Tx = Tx(hash: string, from: string, to: string, value: nat, gasPrice: nat, gasUsed: nat, timeStamp: int)

  /** `value / 10**18`: the amount in ether. */
  function ValueEth(tx: Tx): real
  {
    tx.value as real / WeiPerEth
  }

  /** `gasPrice * gasUsed / 10**18`: the fee in ether. */
  function GasFeeEth(tx: Tx): real
  {
    (tx.gasPrice * tx.gasUsed) as real / WeiPerEth
  }

  /** Addresses are compared lower-cased. */
  predicate SameAddress(a: string, b: string)
  {
    Lower(a) == Lower(b)
  }

  /** A transaction sent to the target address (checked first, line 27). */
  predicate IsIncoming(tx: Tx, addr: string)
  {
    SameAddress(tx.to, addr)
  }

  /** A transaction sent by the target address and not already incoming (line 28). */
  predicate IsOutgoing(tx: Tx, addr: string)
  {
    !IsIncoming(tx, addr) && SameAddress(tx.from, addr)
  }

  /** The address-matching filter of line 32. */
  predicate Involves(tx: Tx, addr: string)
  {
    SameAddress(tx.to, addr) || SameAddress(tx.from, addr)
  }

  /** Every address-matching transaction is classified exactly once: incoming
      or outgoing, never both, so a self-transfer counts as incoming only. */
  lemma ClassifiedExactlyOnce(tx: Tx, addr: string)
    requires Involves(tx, addr)
    ensures IsIncoming(tx, addr) != IsOutgoing(tx, addr)
    ensures SameAddress(tx.to, addr) && SameAddress(tx.from, addr) ==> IsIncoming(tx, addr) && !IsOutgoing(tx, addr)
  {
  }

  function TimeKey(tx: Tx): real
  {
    tx.timeStamp as real
  }

  /** The half-open period test of lines 38-41: the lower bound is inclusive,
      the upper bound exclusive, and an absent bound does not restrict. */
  predicate InPeriod(t: int, start: Option<int>, end: Option<int>)
  {
    (start.None? || t >= start.value) && (end.None? || t < end.value)
  }

  /** The address test as a filter predicate. */
  function Matches(addr: string): Tx -> bool
  {
    (tx: Tx) => Involves(tx, addr)
  }

  /** The incoming test as a filter predicate. */
  function Incoming(addr: string): Tx -> bool
  {
    (tx: Tx) => IsIncoming(tx, addr)
  }

  /** The outgoing test as a filter predicate. */
  function Outgoing(addr: string): Tx -> bool
  {
    (tx: Tx) => IsOutgoing(tx, addr)
  }

  /** The period test as a filter predicate. */
  function During(start: Option<int>, end: Option<int>): Tx -> bool
  {
    (tx: Tx) => InPeriod(tx.timeStamp, start, end)
  }

  /** Lines 17-44: the transactions in time order, keeping those that involve
      the target address and fall inside the period. */
  function PeriodTransactions(all: seq<Tx>, addr: string, start: Option<int>, end: Option<int>): (r: seq<Tx>)
    ensures forall i :: 0 <= i < |r| ==> Involves(r[i], addr) && InPeriod(r[i].timeStamp, start, end)
    ensures forall i, j :: 0 <= i < j < |r| ==> r[i].timeStamp <= r[j].timeStamp
    ensures multiset(r) <= multiset(all)
  {
    var sorted := SortBy(all, TimeKey);
    FilterTwice(sorted, Matches(addr), During(start, end), TimeKey);
    Filter(Filter(sorted, Matches(addr)), During(start, end))
  }

  /** The boolean mask of lines 32-41 keeps every copy of a transaction that
      involves the address and lies in the period, and none of any other. */
  lemma PeriodTransactionsComplete(all: seq<Tx>, addr: string, start: Option<int>, end: Option<int>, tx: Tx)
    ensures multiset(PeriodTransactions(all, addr, start, end))[tx] ==
            if Involves(tx, addr) && InPeriod(tx.timeStamp, start, end) then multiset(all)[tx] else 0
    ensures tx in all && Involves(tx, addr) && InPeriod(tx.timeStamp, start, end) ==>
            tx in PeriodTransactions(all, addr, start, end)
  {
    var sorted := SortBy(all, TimeKey);
    var related := Filter(sorted, Matches(addr));
    FilterMultiplicity(sorted, Matches(addr), tx);
    FilterMultiplicity(related, During(start, end), tx);
  }

  lemma {:induction false} FilterCompleteAt<T>(s: seq<T>, p: T -> bool, x: T)
    requires x in s && p(x)
    ensures x in Filter(s, p)
  {
    if s[|s| - 1] != x {
      assert s == s[..|s| - 1] + [s[|s| - 1]];
      FilterCompleteAt(s[..|s| - 1], p, x);
    }
  }

  /** Lines 219-220: the baseline period ends `baselineDays` days after the
      earliest transaction of the whole input, whichever address it involves. */
  function BaselineEnd(all: seq<Tx>, baselineDays: int): (b: int)
    requires |all| > 0
    ensures forall i :: 0 <= i < |all| ==> b <= all[i].timeStamp + baselineDays * SecondsPerDay
    ensures exists i :: 0 <= i < |all| && b == all[i].timeStamp + baselineDays * SecondsPerDay
  {
    EarliestTime(all) + baselineDays * SecondsPerDay
  }

  function EarliestTime(all: seq<Tx>): (t: int)
    requires |all| > 0
    ensures forall i :: 0 <= i < |all| ==> t <= all[i].timeStamp
    ensures exists i :: 0 <= i < |all| && t == all[i].timeStamp
  {
    if |all| == 1 then all[0].timeStamp
    else
      var rest := EarliestTime(all[1..]);
      assert forall i :: 1 <= i < |all| ==> all[i] == all[1..][i - 1];
      if all[0].timeStamp <= rest then all[0].timeStamp else rest
  }

  /** Lines 223-242: the baseline run (no lower bound, upper bound `b`) and the
      current run (lower bound `b`, no upper bound) split the address-matching
      transactions between them, each one going to exactly one side. */
  lemma BaselineAndCurrentPartition(all: seq<Tx>, addr: string, b: int)
    ensures multiset(PeriodTransactions(all, addr, None, Some(b))) + multiset(PeriodTransactions(all, addr, Some(b), None))
            == multiset(PeriodTransactions(all, addr, None, None))
    ensures forall t :: InPeriod(t, None, Some(b)) != InPeriod(t, Some(b), None)
  {
    var sorted := SortBy(all, TimeKey);
    var related := Filter(sorted, Matches(addr));
    var before := During(None, Some(b));
    var after := During(Some(b), None);
    FilterSplit(related, before, after);
    FilterAll(related, During(None, None));
  }
}
