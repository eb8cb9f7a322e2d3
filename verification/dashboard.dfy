/** The aggregations of DashboardPage.jsx over the list of coin scores:
    summary counts, the top five promising coins, the five-bin score
    histogram and the five highest-risk alerts. */
module Dashboard {
  import opened Common
  import opened Sorting

  /** `overall_potential_score_0_10` as JavaScript sees it. */
  datatype Score = Num(x: real) | Null | Undefined

  /** One score record; the screen name is `None` when null or absent. */
  datatype Coin = Coin(screenName: Option<string>, score: Score, tweetId: Option<string>)

  /** JavaScript's `ToNumber` for a relational comparison: `null` is 0 and
      `undefined` is NaN, for which every comparison is false. */
  function ToNumber(s: Score): (r: Option<real>)
    ensures s.Num? ==> r == Some(s.x)
    ensures s.Null? ==> r == Some(0.0)
    ensures s.Undefined? ==> r.None?
  {
    match s
    case Num(x) => Some(x)
    case Null => Some(0.0)
    case Undefined => None
  }

  /** `score >= bound` in JavaScript. */
  predicate AtLeast(s: Score, bound: real)
  {
    ToNumber(s).Some? && ToNumber(s).value >= bound
  }

  /** `score <= bound` in JavaScript. */
  predicate AtMost(s: Score, bound: real)
  {
    ToNumber(s).Some? && ToNumber(s).value <= bound
  }

  const PromisingThreshold: real := 8.0
  const HighRiskThreshold: real := 3.0

  function Promising(): Coin -> bool
  {
    (c: Coin) => AtLeast(c.score, PromisingThreshold)
  }

  function HighRisk(): Coin -> bool
  {
    (c: Coin) => AtMost(c.score, HighRiskThreshold)
  }

  datatype SummaryStats = SummaryStats(totalAnalyzed: nat, promisingCount: nat, highRiskCount: nat)

  /** Lines 16-33: the number of coins, of promising ones (score at least 8)
      and of high-risk ones (score at most 3). */
  function Summarize(scores: seq<Coin>): (r: SummaryStats)
    ensures |scores| == 0 ==> r == SummaryStats(0, 0, 0)
    ensures r.totalAnalyzed == |scores|
    ensures r.promisingCount == |Positions(scores, Promising())|
    ensures r.highRiskCount == |Positions(scores, HighRisk())|
    ensures r.promisingCount + r.highRiskCount <= r.totalAnalyzed
  {
    if |scores| == 0 then SummaryStats(0, 0, 0)
    else
      FilterCount(scores, Promising());
      FilterCount(scores, HighRisk());
      FilterDisjoint(scores, Promising(), HighRisk());
      SummaryStats(|scores|, |Filter(scores, Promising())|, |Filter(scores, HighRisk())|)
  }

  /** Line 38: a promising coin with a non-empty screen name. */
  predicate Eligible(c: Coin)
  {
    AtLeast(c.score, 8.0) && c.screenName.Some? && |c.screenName.value| > 0
  }

  function EligibleFilter(): Coin -> bool
  {
    (c: Coin) => Eligible(c)
  }

  /** The sort key: the score as a number (`null` compares as 0). */
  function ScoreKey(c: Coin): real
  {
    match ToNumber(c.score)
    case Some(x) => x
    case None => 0.0
  }

  function NegatedScoreKey(c: Coin): real
  {
    -ScoreKey(c)
  }

  function Min(a: nat, b: nat): nat
  {
    if a <= b then a else b
  }

  /** Lines 35-46: the eligible coins by descending score, at most five. The
      fallbacks `|| 'Unknown'` and `|| 0` of lines 42-43 never apply to an
      eligible coin, so each entry is the coin itself. */
  function TopPromisingCoins(scores: seq<Coin>): (r: seq<Coin>)
    ensures |scores| == 0 ==> r == []
    ensures |r| == Min(5, |Filter(scores, EligibleFilter())|)
    ensures forall i :: 0 <= i < |r| ==> Eligible(r[i]) && r[i] in scores
    ensures forall i, j :: 0 <= i < j < |r| ==> ScoreKey(r[i]) >= ScoreKey(r[j])
    ensures multiset(r) <= multiset(Filter(scores, EligibleFilter()))
  {
    if |scores| == 0 then []
    else
      var sorted := SortBy(Filter(scores, EligibleFilter()), NegatedScoreKey);
      var n := Min(5, |sorted|);
      SortedPrefix(scores, EligibleFilter(), sorted, n);
      DescendingPrefix(sorted, n);
      sorted[..n]
  }

  /** A prefix of a rearrangement of the filtered coins holds only coins that
      pass the filter and come from the input. */
  lemma SortedPrefix(scores: seq<Coin>, p: Coin -> bool, sorted: seq<Coin>, n: nat)
    requires multiset(sorted) == multiset(Filter(scores, p)) && n <= |sorted|
    ensures forall i :: 0 <= i < n ==> p(sorted[i]) && sorted[i] in scores
    ensures multiset(sorted[..n]) <= multiset(Filter(scores, p))
  {
    var filtered := Filter(scores, p);
    FilterMembers(scores, p);
    assert sorted == sorted[..n] + sorted[n..];
    assert multiset(sorted) == multiset(sorted[..n]) + multiset(sorted[n..]);
    forall i | 0 <= i < n
      ensures p(sorted[i]) && sorted[i] in scores
    {
      assert sorted[i] in multiset(filtered);
      var j :| 0 <= j < |filtered| && filtered[j] == sorted[i];
    }
  }

  /** A prefix of a sequence sorted by the negated score is in descending
      order of score. */
  lemma DescendingPrefix(sorted: seq<Coin>, n: nat)
    requires SortedBy(sorted, NegatedScoreKey) && n <= |sorted|
    ensures forall i, j :: 0 <= i < j < n ==> ScoreKey(sorted[..n][i]) >= ScoreKey(sorted[..n][j])
  {
    forall i, j | 0 <= i < j < n
      ensures ScoreKey(sorted[..n][i]) >= ScoreKey(sorted[..n][j])
    {
      assert NegatedScoreKey(sorted[i]) <= NegatedScoreKey(sorted[j]);
    }
  }

  /** Lines 37-40: no eligible coin left out of the top list outscores one
      that is in it. */
  lemma TopPromisingMaximal(scores: seq<Coin>, c: Coin)
    requires c in multiset(Filter(scores, EligibleFilter())) - multiset(TopPromisingCoins(scores))
    ensures forall i :: 0 <= i < |TopPromisingCoins(scores)| ==> ScoreKey(c) <= ScoreKey(TopPromisingCoins(scores)[i])
  {
    var top := TopPromisingCoins(scores);
    if |scores| > 0 {
      var sorted := SortBy(Filter(scores, EligibleFilter()), NegatedScoreKey);
      var n := Min(5, |sorted|);
      assert top == sorted[..n];
      SortedTail(sorted, NegatedScoreKey, n, c);
      forall i | 0 <= i < |top|
        ensures ScoreKey(c) <= ScoreKey(top[i])
      {
        assert NegatedScoreKey(top[i]) <= NegatedScoreKey(c);
      }
    }
  }

  /** Line 39 sorts with `Array.prototype.sort`, which is stable: among the
      coins of one score, the top list takes the earliest eligible ones, in
      input order. */
  lemma TopPromisingTies(scores: seq<Coin>, v: real)
    ensures Filter(TopPromisingCoins(scores), KeyIs(NegatedScoreKey, v))
            <= Filter(Filter(scores, EligibleFilter()), KeyIs(NegatedScoreKey, v))
  {
    if |scores| > 0 {
      var eligible := Filter(scores, EligibleFilter());
      SortedPrefixStable(eligible, NegatedScoreKey, Min(5, |eligible|), v);
    }
  }

  /** Lines 59-63: the bin a score is counted in, checked in the source's
      order. */
  function BinOf(s: Score): (r: Option<nat>)
    ensures r.Some? ==> r.value < 5
  {
    match ToNumber(s)
    case None => None
    case Some(x) =>
      if x >= 0.0 && x <= 2.0 then Some(0)
      else if x > 2.0 && x <= 4.0 then Some(1)
      else if x > 4.0 && x <= 6.0 then Some(2)
      else if x > 6.0 && x <= 8.0 then Some(3)
      else if x > 8.0 && x <= 10.0 then Some(4)
      else None
  }

  /** The intervals [0,2], (2,4], (4,6], (6,8], (8,10]. */
  predicate InBin(x: real, k: nat)
  {
    if k == 0 then 0.0 <= x <= 2.0 else k < 5 && 2.0 * k as real < x <= 2.0 * k as real + 2.0
  }

  /** A score lands in bin `k` exactly when its number lies in the `k`-th
      interval; scores outside [0,10] and `undefined` land nowhere. */
  lemma BinOfIff(s: Score, k: nat)
    ensures BinOf(s) == Some(k) <==> ToNumber(s).Some? && InBin(ToNumber(s).value, k)
    ensures BinOf(s).None? <==> ToNumber(s).None? || !(0.0 <= ToNumber(s).value <= 10.0)
  {
  }

  function InBinFilter(k: nat): Coin -> bool
  {
    (c: Coin) => BinOf(c.score) == Some(k)
  }

  function InRangeFilter(): Coin -> bool
  {
    (c: Coin) => BinOf(c.score).Some?
  }

  /** The number of coins counted in bin `k`. */
  function BinCount(scores: seq<Coin>, k: nat): nat
  {
    |Filter(scores, InBinFilter(k))|
  }

  /** Lines 48-66: the five bin counts, or nothing for an empty list. */
  method ScoreDistribution(scores: seq<Coin>) returns (bins: seq<nat>)
    ensures |scores| == 0 ==> bins == []
    ensures |scores| > 0 ==> |bins| == 5 && forall k :: 0 <= k < 5 ==> bins[k] == BinCount(scores, k)
  {
    if |scores| == 0 {
      return [];
    }
    bins := [0, 0, 0, 0, 0];
    for i := 0 to |scores|
      invariant |bins| == 5
      invariant forall k :: 0 <= k < 5 ==> bins[k] == BinCount(scores[..i], k)
    {
      assert scores[..i + 1][..i] == scores[..i];
      match BinOf(scores[i].score)
      case Some(k) =>
        bins := bins[k := bins[k] + 1];
      case None =>
    }
    assert scores[..|scores|] == scores;
  }

  /** Every in-range score is counted exactly once: the bins add up to the
      number of coins whose score lies in [0,10]. */
  lemma {:induction false} BinsPartition(scores: seq<Coin>)
    ensures BinCount(scores, 0) + BinCount(scores, 1) + BinCount(scores, 2) + BinCount(scores, 3) + BinCount(scores, 4)
            == |Filter(scores, InRangeFilter())|
  {
    if |scores| > 0 {
      BinsPartition(scores[..|scores| - 1]);
      BinCountStep(scores, 0);
      BinCountStep(scores, 1);
      BinCountStep(scores, 2);
      BinCountStep(scores, 3);
      BinCountStep(scores, 4);
      var last := scores[|scores| - 1];
      assert InRangeFilter()(last) <==> BinOf(last.score).Some?;
    }
  }

  lemma BinCountStep(scores: seq<Coin>, k: nat)
    requires |scores| > 0
    ensures BinCount(scores, k)
            == BinCount(scores[..|scores| - 1], k) + if BinOf(scores[|scores| - 1].score) == Some(k) then 1 else 0
  {
  }

  function AlertFilter(): Coin -> bool
  {
    (c: Coin) => AtMost(c.score, 3.0)
  }

  /** Lines 102-108: the high-risk coins by ascending score, at most five. */
  function HighRiskAlerts(scores: seq<Coin>): (r: seq<Coin>)
    ensures |scores| == 0 ==> r == []
    ensures |r| == Min(5, |Filter(scores, AlertFilter())|)
    ensures forall i :: 0 <= i < |r| ==> AtMost(r[i].score, 3.0) && r[i] in scores
    ensures forall i, j :: 0 <= i < j < |r| ==> ScoreKey(r[i]) <= ScoreKey(r[j])
    ensures multiset(r) <= multiset(Filter(scores, AlertFilter()))
  {
    if |scores| == 0 then []
    else
      var sorted := SortBy(Filter(scores, AlertFilter()), ScoreKey);
      var n := Min(5, |sorted|);
      SortedPrefix(scores, AlertFilter(), sorted, n);
      AscendingPrefix(sorted, n);
      sorted[..n]
  }

  /** A prefix of a sequence sorted by score is in ascending order of score. */
  lemma AscendingPrefix(sorted: seq<Coin>, n: nat)
    requires SortedBy(sorted, ScoreKey) && n <= |sorted|
    ensures forall i, j :: 0 <= i < j < n ==> ScoreKey(sorted[..n][i]) <= ScoreKey(sorted[..n][j])
  {
    forall i, j | 0 <= i < j < n
      ensures ScoreKey(sorted[..n][i]) <= ScoreKey(sorted[..n][j])
    {
      assert sorted[..n][i] == sorted[i] && sorted[..n][j] == sorted[j];
    }
  }

  /** No high-risk coin left out of the alerts has a lower score than one
      that is in them. */
  lemma HighRiskAlertsMinimal(scores: seq<Coin>, c: Coin)
    requires c in multiset(Filter(scores, AlertFilter())) - multiset(HighRiskAlerts(scores))
    ensures forall i :: 0 <= i < |HighRiskAlerts(scores)| ==> ScoreKey(HighRiskAlerts(scores)[i]) <= ScoreKey(c)
  {
    var alerts := Filter(scores, AlertFilter());
    var sorted := SortBy(alerts, ScoreKey);
    var n := Min(5, |sorted|);
    SortedTail(sorted, ScoreKey, n, c);
  }

  /** The alerts are sorted stably too: among the coins of one score they
      take the earliest high-risk ones, in input order. */
  lemma HighRiskAlertsTies(scores: seq<Coin>, v: real)
    ensures Filter(HighRiskAlerts(scores), KeyIs(ScoreKey, v)) <= Filter(Filter(scores, AlertFilter()), KeyIs(ScoreKey, v))
  {
    if |scores| > 0 {
      var alerts := Filter(scores, AlertFilter());
      SortedPrefixStable(alerts, ScoreKey, Min(5, |alerts|), v);
    }
  }
}
