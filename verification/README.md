# Crypto project analysis pipeline: a verified model of its core

The repository gathers data about Ethereum tokens from several services and
turns it into risk signals for a dashboard. This project models the parts of
that pipeline that make decisions, as pure Dafny functions and a few
methods:

- **On-chain anomaly detector** (`onchain_anomaly_detector.py`):
  - classifying transactions relative to a target address;
  - restricting them to a period;
  - the sliding-window walk and the features of each window (the source
    computes seventeen; the model keeps the sixteen the detector can read);
  - the baseline/current split;
  - the rule table that compares a window with its historical statistics.
- **Data cleaning** (`data_cleaning_processor.py`):
  - text normalisation;
  - tweet and transaction deduplication and annotation;
  - the scraped-website record.
- **Risk flagger** (`risk_flagger.py`):
  - the three keyword checks;
  - token-holder concentration;
  - the flag summary.
- **Dashboard** (`DashboardPage.jsx`): summary counts, the top-five lists and
  the score histogram.
- **Coin detail page** (`CoinDetailPage.jsx`): the dotted-path lookup and the
  risk level.
- **CoinMarketCap collector** (`cmc_data_collector.py`): contract selection,
  and reading and writing the contracts file.

Modules follow the source files:

| Module | File |
|---|---|
| `Transactions` | `transactions.dfy` |
| `WindowWalk` | `window_walk.dfy` |
| `Features` | `features.dfy` |
| `Extractor` | `extractor.dfy` |
| `Detector` | `detector.dfy` |
| `Cleaning` | `cleaning.dfy` |
| `RiskFlags` | `risk.dfy` |
| `Dashboard` | `dashboard.dfy` |
| `CoinDetail` | `coin_detail.dfy` |
| `CmcSelection` | `cmc.dfy` |

Shared support lives in four modules:

- `Common`: filters, sums and subsequences;
- `Sorting`: a stable insertion sort with sortedness, permutation and
  stability contracts;
- `Text`: Python's `strip`, `lower`, `in` on strings and decimal parsing;
- `Python`: a dynamically typed Python value with truthiness and
  `dict.get`.

## Modelling choices

- **Python and JavaScript values.** Python values are the datatype
  `Python.PyValue` (`None`, bool, int, float, str, list, dict). JavaScript
  values are `CoinDetail.JsValue` and `Dashboard.Score`. Truthiness, `get`
  with a default, and `ToNumber` in comparisons are written out, so a
  malformed input takes the branch (or raises the exception) the source
  would. Raised exceptions are `Result` errors (`TypeError`,
  `AttributeError`).
- **Numbers.**
  - Timestamps are integer Unix seconds.
  - Amounts are in wei (`nat`) and are converted to ether as exact reals.
  - Floating-point and `Decimal` arithmetic is idealised to exact reals.
  - The `1e-9` guards are the exact rational `1/10^9`.
- **Historical statistics.** The baseline is the dictionary
  `map<string, real>` that the detector reads. How the pipeline computes it
  (pandas `mean`/`std`) is not modelled.
- **Window walk.** Its step must be at least one hour:
  - with a step of zero or less, the source's loop never exits, and
    `WindowWalk.NonPositiveStepNeverStops` proves this;
  - fractional hours are not modelled.

## Edge cases of the code

- **Coverage of the latest transaction.**
  - The window walk (`onchain_anomaly_detector.py:107-115`) stops when the
    next step would pass the latest time and the current window already
    ends exactly at it. Windows are the half-open intervals
    `[start, start + window)`, so the latest time then lies in no window.
    This can only happen when the step is longer than the window.
  - `WindowWalk.LatestCoveredUnlessExactEnd` states exactly when the latest
    time is covered.
  - `WindowWalk.ExactEndLeavesLatestUncovered` gives a concrete walk that
    leaves it uncovered.
  - `WindowWalk.StepWithinWindowCoversLatest` shows that a step no longer
    than the window always covers it.
- **Self-transfers.** The conditional expression of lines 26-29 classifies a
  transfer from the address to itself as incoming only
  (`Transactions.ClassifiedExactlyOnce`).
- **Empty baseline.** When there are current windows, an empty baseline
  dictionary yields the single "no historical baselines" entry (lines
  126-127) before any window is scored,
  so the fixed-threshold fallbacks of lines 161-166 apply only to columns
  missing from a non-empty baseline (`Detector.Detect`).

## Other behaviour the model makes explicit

- **Dashboard.** A coin whose score is `null` compares as 0. It therefore
  counts as high-risk, enters the alerts list and falls in the first
  histogram bin. A missing (`undefined`) score does none of these.
- **Coin detail page.** A score that is not a number (a non-numeric string,
  an object) is neither `>= 7` nor `>= 4`, so its risk level is High.
- **CoinMarketCap collector.**
  - A `status` that is present but not a dictionary raises
    `AttributeError`. A truthy one (a non-empty string or list) raises in
    the condition of line 52, where `.get` is called on it. A falsy one
    (`null`, `""`, `0`) skips that call and raises in the error branch at
    line 78.
  - The contracts-file reader checks only the `0x` prefix and the length 42,
    not that the rest is hexadecimal.
- **Risk flagger.**
  - Holder data that is a truthy string or dictionary, or a list holding
    anything but dictionaries, raises `AttributeError`. The `.get` of line
    56 raises, the `except Exception` handler catches it, and the handler's
    own message calls `.get` on the same holder again (line 68).
  - A truthy number raises `TypeError`.
  - A truthy non-string website text raises `AttributeError`.
- **Text normalisation is not idempotent.** Dropping a character can leave
  two spaces that the space collapse has already passed
  (`Cleaning.NormalizeNotIdempotent`).

## Model

| member | source | states |
|---|---|---|
| Transactions.ClassifiedExactlyOnce | onchain_anomaly_detector.py:26-32 | An address-matching transaction is incoming or outgoing, never both; a self-transfer is incoming only |
| Transactions.PeriodTransactions | onchain_anomaly_detector.py:17-44 | The kept transactions all involve the address and lie in the half-open period, are in time order, and are drawn from the input (sub-multiset) |
| Transactions.PeriodTransactionsComplete | onchain_anomaly_detector.py:32-41 | The masks keep every copy of an input transaction that involves the address and lies in the period, as many times as it occurs in the input, and no copy of any other transaction |
| Transactions.EarliestTime | onchain_anomaly_detector.py:219 | The earliest timestamp is attained by some transaction and bounds all of them from below |
| Transactions.BaselineEnd | onchain_anomaly_detector.py:219-220 | The baseline end is the earliest timestamp of the whole input plus the baseline days, in seconds |
| Transactions.BaselineAndCurrentPartition | onchain_anomaly_detector.py:219-242 | The baseline run and the current run together hold exactly the address-matching transactions, each once, and no instant belongs to both periods |
| WindowWalk.Advance | onchain_anomaly_detector.py:107-115 | The loop stops only when the step overshoots the latest time; otherwise the next start is later; a snap happens only when the step exceeds the window and lands at latest - window + 1 |
| WindowWalk.WindowStarts | onchain_anomaly_detector.py:46-56 | The walk starts at the earliest time, stays within [earliest, latest], strictly increases, and ends where the advance stops |
| WindowWalk.WalkUnfolds | onchain_anomaly_detector.py:107-115 | One pass of the loop emits the current start and continues from the advanced one, or stops |
| WindowWalk.LastWindowReachesLatest | onchain_anomaly_detector.py:107-113 | The last window's end reaches at least the latest transaction time |
| WindowWalk.LatestCoveredUnlessExactEnd | onchain_anomaly_detector.py:107-113 | The latest time lies in some window exactly when the last window does not end precisely at it |
| WindowWalk.StepWithinWindowCoversLatest | onchain_anomaly_detector.py:107-115 | With a step no longer than the window, the latest time is always covered |
| WindowWalk.ExactEndLeavesLatestUncovered | onchain_anomaly_detector.py:107-113 | A one-day window with a 25-hour step over one day yields the single window [0, 86400), which leaves 86400 uncovered |
| WindowWalk.NonPositiveStepNeverStops | onchain_anomaly_detector.py:55-115 | With a step of zero or less the loop is still running after any number of passes |
| Features.Ratio | onchain_anomaly_detector.py:92-93 | The guarded ratio times (denominator + 1e-9) gives back the numerator; a zero denominator gives numerator times 10^9 |
| Features.MeanMaxSumOrdered | onchain_anomaly_detector.py:74-83 | For non-negative amounts, 0 <= mean <= max (0 when empty) <= sum |
| Features.GapSumTelescopes | onchain_anomaly_detector.py:85-88 | The gaps between consecutive timestamps sum to last - first |
| Features.DistinctAtMostLength | onchain_anomaly_detector.py:80-81 | The number of distinct counterparties never exceeds the number of transactions |
| Features.ZeroFillMatchesFormulas | onchain_anomaly_detector.py:94-103 | The explicit zero fill for an empty window agrees with the general formulas applied to no transactions |
| Features.FormulaCounts | onchain_anomaly_detector.py:67-81 | Incoming plus outgoing counts equal the total; distinct counterparties are at most the matching count |
| Features.FormulaAmounts | onchain_anomaly_detector.py:72-84 | Average <= maximum <= volume on each side, the average fee is at most the total fee, and a side with no transactions has zero volume and maximum |
| Features.FormulaGap | onchain_anomaly_detector.py:85-91 | The average gap is (last - first) / (n - 1) for two or more transactions and 0 otherwise |
| Features.FormulaIncoming | onchain_anomaly_detector.py:69-83 | The `_in` features are the number of incoming transactions, the sum and the largest of their values, the number of distinct senders among them, and that sum over that number |
| Features.FormulaOutgoing | onchain_anomaly_detector.py:70-84 | The `_out` features and the gas fee are the same quantities over the outgoing transactions, with distinct recipients as counterparties and the gas fee summed and averaged over outgoing transactions only |
| Features.FilteredSum | onchain_anomaly_detector.py:73-74 | Summing a column of the filtered frame is summing it over the positions the filter selects |
| Features.FilteredMax | onchain_anomaly_detector.py:77-78 | The maximum of the filtered frame's values bounds every selected transaction's value and, for a non-empty selection, is one of them |
| Features.FilteredSenders | onchain_anomaly_detector.py:79 | The senders of the filtered frame are exactly the senders of the selected transactions |
| Features.FilteredRecipients | onchain_anomaly_detector.py:80 | The recipients of the filtered frame are exactly the recipients of the selected transactions |
| Features.ComputeFeatures | onchain_anomaly_detector.py:58-103 | A window's features: zero fill when empty; the incoming count, volume, maximum (attained and bounding), distinct senders and mean as volume over count are taken over exactly the incoming transactions; the outgoing ones, with the gas fee total and mean, over exactly the outgoing ones; guarded ratios; average gap |
| Extractor.WindowTransactionsExact | onchain_anomaly_detector.py:58-61 | A transaction is in the window exactly when it is in the period run and start <= time < end |
| Extractor.WindowInvolves | onchain_anomaly_detector.py:58-61 | Every transaction of a window still involves the address |
| Extractor.Row | onchain_anomaly_detector.py:58-65 | A row records the window's start, its end start + window, the address and the window's transaction count |
| Extractor.WalkWindows | onchain_anomaly_detector.py:46-115 | The rows' starts are exactly the window walk from the first to the last timestamp, and each row is its window's row |
| Extractor.CalculateWindowedFeatures | onchain_anomaly_detector.py:9-117 | No rows exactly when the period holds no matching transaction; otherwise the rows follow the walk with durations in seconds |
| Detector.RuleFlagsFire | onchain_anomaly_detector.py:143-166 | A feature value raises an anomaly about its column exactly when the rule table fires for it |
| Detector.RuleFlagsAscending | onchain_anomaly_detector.py:148-166 | A column raises at most its high anomaly and then its low one (or one constant-baseline or fallback anomaly), ranked in that column's own two places |
| Detector.ColumnFlagsFire | onchain_anomaly_detector.py:139-166 | The anomalies one column raises are exactly the firing anomalies about that column |
| Detector.FlagsOverFire | onchain_anomaly_detector.py:136-166 | The anomalies of a list of columns are exactly the firing anomalies about those columns |
| Detector.WindowFlagsMatchRules | onchain_anomaly_detector.py:129-166 | A window raises an anomaly exactly when it concerns one of the eight scored features and its rule fires |
| Detector.WindowFlagsAscending | onchain_anomaly_detector.py:129-166 | A window's anomalies come column by column in the order of the checked list, each at most once |
| Detector.FallbacksNeedMissingStats | onchain_anomaly_detector.py:160-166 | When every scored feature has both statistics, the two fixed-threshold fallbacks never fire |
| Detector.HighLowExclusive | onchain_anomaly_detector.py:148-158 | With a non-negative multiplier a column is never both unusually high and unusually low |
| Detector.NegativeMultiplierMayRaiseBoth | onchain_anomaly_detector.py:148-158 | With a negative multiplier a concrete window is both unusually high and unusually low in incoming volume |
| Detector.RaisingMultiplierNeverAdds | onchain_anomaly_detector.py:148-166 | Every anomaly raised with a larger multiplier is also raised with a smaller one |
| Detector.RaisingMultiplierNeverLengthens | onchain_anomaly_detector.py:139-166 | A larger multiplier never raises more anomalies |
| Detector.Anomalies | onchain_anomaly_detector.py:129-170 | A window's report is never empty; it is the "nothing detected" sentinel exactly when no rule fires, and otherwise lists exactly the firing anomalies, column by column in the order of lines 129-133, a high before a low, each once |
| Detector.Detect | onchain_anomaly_detector.py:119-178 | No windows gives the no-windows sentinel; otherwise an empty baseline gives the no-baseline sentinel; otherwise one analysed entry per window, in order |
| Cleaning.KeepOnly | data_cleaning_processor.py:14 | The kept characters are letters, digits, whitespace or the allowed punctuation, all taken from the input, and no more than the input holds |
| Cleaning.KeepOnlyExact | data_cleaning_processor.py:14 | Every copy of every allowed character survives, every other character is deleted, and the survivors keep their input order (a subsequence of the input) |
| Cleaning.KeepOnlyJoin | data_cleaning_processor.py:14 | Deleting characters from two pieces joined by a space is deleting from each piece and joining the results by that space |
| Cleaning.CollapseKeepsNonSpaces | data_cleaning_processor.py:13 | Collapsing whitespace runs keeps every non-whitespace character, in order |
| Cleaning.CollapseSingleSpaced | data_cleaning_processor.py:13 | Text whose whitespace is already single plain spaces is unchanged by the collapse |
| Cleaning.CollapseSpaces | data_cleaning_processor.py:13 | The result has no two adjacent whitespace characters and every whitespace character left is a plain space; it starts with whitespace exactly when the input does |
| Cleaning.CollapseRun | data_cleaning_processor.py:13 | A maximal run of whitespace between two non-whitespace characters (or an end of the text) becomes exactly one space, and the text on either side is collapsed independently |
| Cleaning.CollapseIdempotent | data_cleaning_processor.py:13 | Collapsing whitespace twice is the same as collapsing it once |
| Cleaning.NormalizeText | data_cleaning_processor.py:9-15 | A non-string gives ""; for a string, only allowed characters remain, with no leading or trailing space, and the non-whitespace characters are exactly those of the lower-cased input that the deletion keeps, in order |
| Cleaning.Normalize | data_cleaning_processor.py:12-15 | Only allowed characters are left, with no leading or trailing space, and the non-whitespace characters are exactly those of the lower-cased input that the deletion keeps, in order |
| Cleaning.NormalizeJoinsRun | data_cleaning_processor.py:12-15 | A whitespace run between two characters that survive lower-casing and deletion becomes a single space, and each side is normalised on its own |
| Cleaning.NormalizeTextJoinsRun | data_cleaning_processor.py:9-15 | The same for `normalize_text` applied to a string |
| Cleaning.NormalizeNotIdempotent | data_cleaning_processor.py:13-14 | "x # y"-shaped text normalises to "x  y", and normalising again gives "x y" |
| Cleaning.AnnotateTweet | data_cleaning_processor.py:30-33 | The cleaned text fields are added for the text fields present; every other field is unchanged and nothing else is added |
| Cleaning.AnnotateTweetIdempotent | data_cleaning_processor.py:30-33 | Annotating an annotated tweet changes nothing |
| Cleaning.ConvertField | data_cleaning_processor.py:75-79 | A digit string becomes its integer; another string becomes a float exactly when it parses as a decimal numeral, and then that numeral's value; a non-string, or a string that parses as neither, is unchanged |
| Cleaning.ConvertNumbers | data_cleaning_processor.py:73-79 | Only the numeric fields are converted; the key set is unchanged |
| Cleaning.ConvertShownNumber | data_cleaning_processor.py:77 | A number printed in decimal converts back to that number |
| Cleaning.ConvertShownDecimal | data_cleaning_processor.py:77 | A numeral printed as digits, a point and digits converts to the float it denotes |
| Cleaning.ConvertNumbersIdempotent | data_cleaning_processor.py:73-79 | Converting twice is the same as converting once |
| Cleaning.CleanRecords | data_cleaning_processor.py:17-38 | Raises TypeError exactly when some candidate's id is unhashable; otherwise keeps exactly the first record of each id, in input order, transformed |
| Cleaning.KeptIdsDistinct | data_cleaning_processor.py:22-27 | The kept records have pairwise distinct ids, and every id's first record is kept |
| Cleaning.CleanTwitterData | data_cleaning_processor.py:17-38 | Raises TypeError exactly when some candidate tweet's "id_str" is unhashable; otherwise the output holds exactly the first tweet of each "id_str", in input order, each annotated, with distinct ids |
| Cleaning.CleanEtherscanTransactions | data_cleaning_processor.py:62-81 | Raises TypeError exactly when some candidate transaction's "hash" is unhashable; otherwise the output holds exactly the first transaction of each "hash", in input order, each with its numeric fields converted, with distinct hashes |
| Cleaning.CleanScrapedWebsiteData | data_cleaning_processor.py:83-91 | A record without scraped text gives the malformed marker; otherwise the cleaned text and title are added and every other field is kept |
| RiskFlags.AnyContains | risk_flagger.py:13 | True exactly when one of the phrases occurs in the text |
| RiskFlags.CheckTeamAnonymity | risk_flagger.py:8-18 | Missing or empty text counts as anonymous; otherwise anonymous exactly when an anonymity phrase occurs, case-insensitively |
| RiskFlags.CheckWhitepaperAvailability | risk_flagger.py:20-29 | Missing text means no whitepaper; otherwise a whitepaper or litepaper mention, or ".pdf" in the text when a URL is given |
| RiskFlags.CheckRoadmapClarity | risk_flagger.py:31-37 | Missing text means no roadmap; otherwise a roadmap, future-plans or timeline mention |
| RiskFlags.MentionsExtend | risk_flagger.py:12-13 | Appending text never removes a mention |
| RiskFlags.Balance | risk_flagger.py:56-63 | A dictionary holder's balance, multiplied by 10^decimals, gives back its quantity; it exists exactly when the decimals are usable and the quantity converts |
| RiskFlags.Balances | risk_flagger.py:54-69 | AttributeError exactly when some holder is not a dictionary (line 56 raises, and the handler of line 68 raises again); otherwise every balance comes from some holder and every holder with a balance contributes it |
| RiskFlags.BalancesAppend | risk_flagger.py:54-69 | Balances of a concatenation are the concatenation of the balances, so input order and multiplicity are kept |
| RiskFlags.NoBalancesIff | risk_flagger.py:54-72 | A list of dictionary holders has no balances exactly when no holder has a usable quantity |
| RiskFlags.SortDescending | risk_flagger.py:78 | The balances in descending order, as a permutation of the input |
| RiskFlags.SumPermutation | risk_flagger.py:63 | The total does not depend on the order of the balances |
| RiskFlags.TopSumMaximal | risk_flagger.py:78-81 | No choice of the same number of balances sums to more than the top-N sum |
| RiskFlags.Percentage | risk_flagger.py:83-86 | The percentage times the total is 100 times the top sum; a non-positive total gives 0 |
| RiskFlags.PercentageBounded | risk_flagger.py:83-86 | With non-negative balances and a positive total, the concentration lies between 0 and 100 |
| RiskFlags.Assess | risk_flagger.py:71-91 | No balances or a zero total give their sentinels; otherwise the top-N percentage, reported as high exactly when it reaches the threshold |
| RiskFlags.CheckTokenHolderConcentration | risk_flagger.py:39-91 | Falsy data is "not available"; AttributeError exactly when the data is a truthy string or dict or a list holding a non-dict; a truthy number raises TypeError; a list of dicts has "no valid balances" exactly when no holder has a balance, and is otherwise assessed on its balances in input order |
| RiskFlags.RaisedFrom | risk_flagger.py:113-118 | The raised flags from a rank onward, each once, in rank order |
| RiskFlags.Summary | risk_flagger.py:113-122 | Never empty; the "no red flags" line exactly when nothing is raised; otherwise exactly the raised flags, in order |
| RiskFlags.IdentifyRiskFlags | risk_flagger.py:93-128 | AttributeError exactly when the website text is truthy but not a string or the holder data raises it; TypeError exactly when the text is usable and the holder data is a truthy number; otherwise the three text flags, the concentration, the summary and the identifier (default "N/A"), with missing text raising all three text flags |
| Dashboard.Summarize | DashboardPage.jsx:16-33 | Total, promising (>= 8) and high-risk (<= 3) counts; the two categories never exceed the total |
| Dashboard.TopPromisingCoins | DashboardPage.jsx:35-46 | Up to five eligible coins from the input, scores non-increasing, drawn from the eligible ones |
| Dashboard.TopPromisingMaximal | DashboardPage.jsx:37-45 | No eligible coin left out of the top list scores higher than any coin in it |
| Dashboard.TopPromisingTies | DashboardPage.jsx:37-40 | Among coins of equal score, the top list holds the first eligible ones in input order, as a stable sort gives |
| Dashboard.BinOfIff | DashboardPage.jsx:55-63 | A score falls in histogram bin k exactly when its numeric value lies in that bin's interval; scores outside [0, 10] or NaN fall in none |
| Dashboard.ScoreDistribution | DashboardPage.jsx:48-66 | No coins give no bins; otherwise five bins, each counting the coins whose score falls in it |
| Dashboard.BinsPartition | DashboardPage.jsx:55-63 | The five bins together count exactly the coins scored within [0, 10] |
| Dashboard.HighRiskAlerts | DashboardPage.jsx:102-108 | Up to five coins with score <= 3, from the input, scores non-decreasing |
| Dashboard.HighRiskAlertsMinimal | DashboardPage.jsx:104-107 | No qualifying coin left out of the alerts scores lower than any coin in it |
| Dashboard.HighRiskAlertsTies | DashboardPage.jsx:104-107 | Among coins of equal score, the alerts hold the first qualifying ones in input order |
| CoinDetail.JoinSplit | CoinDetailPage.jsx:7 | Splitting a path on "." and joining the pieces gives the path back |
| CoinDetail.SplitJoin | CoinDetailPage.jsx:7 | Joining dot-free pieces and splitting again gives the pieces back |
| CoinDetail.FalsyStops | CoinDetailPage.jsx:7 | Once the reduction reaches a falsy value, that value is the result |
| CoinDetail.ResolveAppend | CoinDetailPage.jsx:7 | Resolving a path in two pieces equals resolving it at once |
| CoinDetail.NestedField | CoinDetailPage.jsx:7 | Following present nested fields reaches the innermost value |
| CoinDetail.GetNestedValue | CoinDetailPage.jsx:6-9 | The resolved value, or the default exactly when that value is null or undefined |
| CoinDetail.SingleField | CoinDetailPage.jsx:6-9 | A dot-free path reads one field, with the default when the field is absent or nullish |
| CoinDetail.ToNumber | CoinDetailPage.jsx:44-45 | A number compares as itself; null, false and a blank string as 0; true as 1; a non-blank string as its decimal value, which is NaN exactly when it is not an optionally signed decimal numeral; undefined and objects as NaN |
| CoinDetail.GetRiskLevel | CoinDetailPage.jsx:42-47 | Unknown exactly for null or undefined; Low for >= 7, Medium for [4, 7), High below 4 or for NaN |
| CoinDetail.RiskMonotone | CoinDetailPage.jsx:44-46 | A higher numeric score never gives a more severe level |
| CoinDetail.CoinRiskLevel | CoinDetailPage.jsx:49 | A coin with a numeric overall score gets that score's level |
| CoinDetail.MissingScoreIsUnknown | CoinDetailPage.jsx:49 | A coin with a missing or null overall score has an Unknown level |
| CmcSelection.CoinCandidate | cmc_data_collector.py:64-68 | A coin yields a contract exactly when its platform is Ethereum with a truthy token address; a non-dict coin or a truthy non-dict platform raises AttributeError |
| CmcSelection.Candidates | cmc_data_collector.py:61-70 | Every candidate address is offered by some coin of the listing |
| CmcSelection.Pick | cmc_data_collector.py:68-70 | Offering addresses in turn keeps the starting contracts as a prefix, adds at most one entry per address, and keeps the list free of duplicates |
| CmcSelection.PickMembers | cmc_data_collector.py:68-70 | The uncapped selection holds exactly the starting contracts and the offered addresses |
| CmcSelection.NoErrorAfterCap | cmc_data_collector.py:57-59 | Once ten new addresses are collected, no later coin is looked at, so none can raise |
| CmcSelection.SelectFromListing | cmc_data_collector.py:57-75 | The result is the existing contracts followed by the uncapped selection of the candidates seen before the loop stopped, either at the end of the listing or with exactly ten new addresses; AttributeError exactly when a malformed coin is reached before the cap; no duplicates, in listing order |
| CmcSelection.SelectNewContracts | cmc_data_collector.py:16-81 | The AttributeError cases, the error-status path returning the existing contracts, and on a good status the listing's selection, raising exactly when a malformed coin comes before the cap |
| CmcSelection.ContractOf | cmc_data_collector.py:97-100 | A line is read as a contract exactly when, stripped, it starts with "0x" and has length 42 |
| CmcSelection.ReadExistingContracts | cmc_data_collector.py:96-100 | The set of stripped contract lines of the file |
| CmcSelection.WriteThenRead | cmc_data_collector.py:116-118 | Writing contracts one per line and reading them back gives the same set, for contracts without surrounding whitespace |
| Text.StripIdempotent | cmc_data_collector.py:98 | Stripping twice is the same as stripping once |
| Text.ParseShowRoundTrip | data_cleaning_processor.py:77 | Reading back a natural number's decimal digits gives the number |
| Text.ContainsIff | risk_flagger.py:13 | Python's `in` on strings holds exactly when the phrase occurs at some position |
| Text.Strip | cmc_data_collector.py:98 | The result has no whitespace at either end and is a contiguous piece of the input |
| Text.StripJoin | data_cleaning_processor.py:15 | Stripping text whose inner pieces end and start with non-whitespace strips only its two outer pieces |
| Text.Lower | risk_flagger.py:12 | Same length, each character lower-cased in place |
| Text.ParseDecimal | data_cleaning_processor.py:77 | Reads a value exactly when the stripped text is an optional sign followed by digits with at most one point and at least one digit; a leading minus gives a value <= 0, otherwise >= 0; a digit string reads as its integer value |
| Text.ParseUnsignedDecimal | data_cleaning_processor.py:77 | Reads a non-negative value exactly when the text is digits with at most one point and at least one digit |
| Text.SignedNumeral | data_cleaning_processor.py:77 | A leading minus negates the value of the numeral after it, and a leading plus leaves it unchanged |
| Text.ParseShownDecimal | data_cleaning_processor.py:77 | A numeral printed as digits, a point and digits reads back as the value it denotes |
| Sorting.SortBy | risk_flagger.py:78 | The result is ordered by the key and is a permutation of the input |
| Sorting.SortByStable | DashboardPage.jsx:39 | Elements with equal keys keep their input order |
| Sorting.SortedPrefixStable | DashboardPage.jsx:39-40 | The first n sorted elements hold, for each key, an initial run of the input's elements with that key |
| Common.FilterMultiplicity | onchain_anomaly_detector.py:32-41 | A boolean mask keeps every copy of a selected element and no copy of another |

## Left out

- Command-line entry points and I/O are not modelled: `main()`, file and
  HTTP access, `time.sleep` and progress printing. The collector's
  `existing` list and the file's lines are parameters instead.
- The computation of the historical statistics (pandas `mean` and `std`
  over the baseline rows) is not modelled. The detector receives the
  resulting dictionary.
- Detector.RuleFlags: a NaN standard deviation (one baseline window) is
  routed by the source to the constant-baseline branch through a float
  comparison. Reals have no NaN, so the model cannot express that case.
- Features.ComputeFeatures: `std_time_between_tx_sec` and the gas price in
  gwei are not computed. The detector never reads them.
- Detector.Anomalies: anomalies are values, not the formatted `:.2f`
  message text.
- RiskFlags.Assess: the concentration is a value, not the formatted
  message text.
- Floating point and Python's `Decimal` 28-digit context are idealised to
  exact reals, so rounding is not modelled.
- Text.Lower: only ASCII letters are lower-cased; Unicode case mapping is
  not modelled.
- Text.ParseDecimal: only plain decimal numerals are accepted. Exponents,
  `inf`/`nan` and digit-group underscores are not.
- Text.ParseDecimal: only the ASCII digits are read. Python's `float` also
  accepts other Unicode decimal digits (`float("\u0665")` is 5.0); the
  model reads such text as no number.
- CoinDetail.ToNumber: JavaScript's hexadecimal, exponent and `Infinity`
  numerals are read as NaN.
- Dashboard.TopPromisingCoins: the projection onto three fields is not
  modelled. For an eligible coin, its `|| 'Unknown'` and `|| 0` defaults
  change no value.
- Dashboard.ToNumber: scores are numbers, `null` or `undefined`. String
  scores are not modelled.
- CoinDetail.ToNumber: a string is trimmed with Python's whitespace set
  (`Text.IsSpace`). JavaScript's `Number` also trims U+FEFF but not
  U+001C-U+001F or U+0085, so "\uFEFF5" and "\x1c5" read differently.
- CoinDetail.JsValue: there are no arrays, so a lookup path that passes
  through a JSON array is not representable.
- Cleaning.ConvertField: `str.isdigit` is modelled for the ASCII digits
  only. Python also accepts other Unicode digits: "\u0663" converts to 3,
  and a superscript digit passes `isdigit` but makes `int` raise
  `ValueError`, which leaves the string unchanged.
- CmcSelection.SelectFromListing: addresses are compared structurally.
  Python's `==` on mixed types (`1 == True`, `1 == 1.0`) would treat such
  token addresses as already present.
- RiskFlags.Balance: `Decimal` also accepts "NaN", "Infinity" and exponent
  forms. The model reads no such quantity, so such a holder is skipped
  instead of reaching the later comparisons.
- RiskFlags.Balance: `Decimal` also accepts non-ASCII Unicode decimal
  digits (`Decimal("\u0665")` is 5). The model reads only ASCII digits, so
  such a holder is skipped.
- Extractor.CalculateWindowedFeatures: the step is at least one hour. A
  step below one hour is not modelled, nor is a non-positive step over an
  empty period, which the source answers with an empty frame (lines
  43-44).
- CoinDetail.Lookup: JavaScript prototype properties and indexing into
  strings are not modelled; a non-object value yields `undefined`.
- Cleaning.CleanRecords:
  - ids are compared structurally, whereas Python's `1 == 1.0 == True` would
    merge such ids;
  - records already mutated before a `TypeError` is raised are not
    reported.
- CmcSelection.SelectNewContracts: the order of `list(existing_contracts)`
  is Python's set iteration order. The model takes any order as a sequence
  without duplicates.
- CmcSelection.WriteThenRead: a contract with surrounding whitespace or an
  embedded newline is not read back as itself.
- RiskFlags.Balances: holder addresses are not kept, only balances.
- Not part of this model:
  - the data collectors;
  - sentiment analysis;
  - the API service and stores;
  - the dashboard's average score and radar chart;
  - `clean_financial_data`;
  - the front-end test files.
