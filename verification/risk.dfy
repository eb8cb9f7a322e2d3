/** The rule-based risk flagger of risk_flagger.py: substring tests on the
    scraped website text, the top-N holder concentration check, and the
    assembly of the flag summary. */
module RiskFlags {
  import opened Common
  import opened Text
  import opened Sorting
  import opened Python

  /** Some phrase of `phrases` occurs somewhere in the lower-cased text. */
  ghost predicate Mentions(t: string, phrases: seq<string>)
  {
    exists j, i :: 0 <= j < |phrases| && OccursAt(Lower(t), phrases[j], i)
  }

  /** The chain of `in` tests joined by `or`. */
  function AnyContains(s: string, phrases: seq<string>): (r: bool)
    ensures r <==> exists j, i :: 0 <= j < |phrases| && OccursAt(s, phrases[j], i)
  {
    if |phrases| == 0 then false
    else
      ContainsIff(s, phrases[0]);
      var rest := AnyContains(s, phrases[1..]);
      assert forall j :: 1 <= j < |phrases| ==> phrases[j] == phrases[1..][j - 1];
      assert rest ==> exists j, i :: 0 <= j < |phrases| && OccursAt(s, phrases[j], i) by {
        if rest {
          var j, i :| 0 <= j < |phrases[1..]| && OccursAt(s, phrases[1..][j], i);
          assert OccursAt(s, phrases[j + 1], i);
        }
      }
      Contains(s, phrases[0]) || rest
  }

  /** A text that is absent or empty: Python's `not text_content`. */
  predicate Blank(text: Option<string>)
  {
    text.None? || |text.value| == 0
  }

  const AnonymityPhrases: seq<string> := ["anonymous team", "team is anonymous", "team unknown"]
  const WhitepaperPhrases: seq<string> := ["whitepaper", "litepaper"]
  const RoadmapPhrases: seq<string> := ["roadmap", "future plans", "timeline"]

  /** Lines 8-18: a blank text counts as anonymous; otherwise only the three
      anonymity phrases do (the list of team keywords has no effect). */
  function CheckTeamAnonymity(text: Option<string>): (r: bool)
    ensures Blank(text) ==> r
    ensures !Blank(text) ==> (r <==> Mentions(text.value, AnonymityPhrases))
  {
    Blank(text) || AnyContains(Lower(text.value), AnonymityPhrases)
  }

  /** Lines 20-29: a blank text has no whitepaper; otherwise a mention of a
      white- or litepaper counts, and so does ".pdf" when a URL is given. */
  function CheckWhitepaperAvailability(text: Option<string>, url: PyValue): (r: bool)
    ensures Blank(text) ==> !r
    ensures !Blank(text) ==>
              (r <==> Mentions(text.value, WhitepaperPhrases) || (Truthy(url) && Mentions(text.value, [".pdf"])))
  {
    !Blank(text)
    && (AnyContains(Lower(text.value), WhitepaperPhrases) || (Truthy(url) && AnyContains(Lower(text.value), [".pdf"])))
  }

  /** Lines 31-37: a blank text has no roadmap; otherwise one of three
      phrases must occur. */
  function CheckRoadmapClarity(text: Option<string>): (r: bool)
    ensures Blank(text) ==> !r
    ensures !Blank(text) ==> (r <==> Mentions(text.value, RoadmapPhrases))
  {
    !Blank(text) && AnyContains(Lower(text.value), RoadmapPhrases)
  }

  lemma LowerAppend(s: string, t: string)
    ensures Lower(s + t) == Lower(s) + Lower(t)
  {
  }

  /** Text added after a mention never hides it, so every check above is
      monotone under extension of the text. */
  lemma MentionsExtend(s: string, t: string, phrases: seq<string>)
    requires Mentions(s, phrases)
    ensures Mentions(s + t, phrases)
  {
    var j, i :| 0 <= j < |phrases| && OccursAt(Lower(s), phrases[j], i);
    LowerAppend(s, t);
    assert Lower(s + t)[i..i + |phrases[j]|] == Lower(s)[i..i + |phrases[j]|];
    assert OccursAt(Lower(s + t), phrases[j], i);
  }

  /** The outcome of `check_token_holder_concentration`: three sentinels,
      then the high and the ordinary message with the top-N percentage. */
  datatype Concentration =
    | NotAvailable
    | NoValidBalances
    | ZeroTotal
    | HighConcentration(topN: int, percentage: real)
    | ConcentrationChecked(topN: int, percentage: real)

  /** `Decimal("10") ** d` as an exact rational. */
  function Scale(d: int): (r: real)
    ensures r > 0.0
    ensures d >= 0 ==> r == Pow10(d) as real
    ensures d < 0 ==> r * Pow10(-d) as real == 1.0
  {
    if d >= 0 then Pow10(d) as real else 1.0 / Pow10(-d) as real
  }

  /** Line 110: the `token_decimals` entry, 18 when absent. Only an integer
      (or a bool, which Python treats as one) can raise a `Decimal`; any
      other value makes the division of line 61 raise for every holder. */
  function Decimals(project: map<string, PyValue>): (r: Option<int>)
    ensures "token_decimals" !in project ==> r == Some(18)
    ensures "token_decimals" in project && project["token_decimals"].PyInt? ==> r == Some(project["token_decimals"].i)
    ensures "token_decimals" in project && project["token_decimals"].PyBool? ==>
              r == Some(if project["token_decimals"].b then 1 else 0)
    ensures "token_decimals" in project && !project["token_decimals"].PyInt? && !project["token_decimals"].PyBool? ==> r.None?
  {
    if "token_decimals" !in project then Some(18)
    else match project["token_decimals"]
      case PyInt(d) => Some(d)
      case PyBool(b) => Some(if b then 1 else 0)
      case _ => None
  }

  /** `Decimal(quantity)`: strings in plain decimal notation, integers, bools
      and floats convert; other values raise. */
  function Quantity(v: PyValue): (r: Option<real>)
    ensures v.PyInt? ==> r == Some(v.i as real)
    ensures v.PyFloat? ==> r == Some(v.x)
    ensures v.PyBool? ==> r == Some(if v.b then 1.0 else 0.0)
    ensures v.PyStr? ==> r == ParseDecimal(v.s)
    ensures v.PyNone? || v.PyList? || v.PyDict? ==> r.None?
  {
    match v
    case PyStr(s) => ParseDecimal(s)
    case PyInt(i) => Some(i as real)
    case PyBool(b) => Some(if b then 1.0 else 0.0)
    case PyFloat(x) => Some(x)
    case _ => None
  }

  /** A balance in whole tokens that, scaled back by `10 ** decimals`,
      gives the raw quantity. */
  predicate ScaledBy(balance: real, quantity: real, decimals: int)
  {
    balance * Scale(decimals) == quantity
  }

  /** Lines 55-69 for one dictionary holder: the balance in whole tokens, or
      `None` when the holder is skipped (quantity missing or `None`, quantity
      or decimals unusable). */
  function Balance(holder: map<string, PyValue>, decimals: Option<int>): (r: Option<real>)
    ensures r.Some? ==>
              && decimals.Some?
              && Quantity(Get(holder, "TokenHolderQuantity")).Some?
              && ScaledBy(r.value, Quantity(Get(holder, "TokenHolderQuantity")).value, decimals.value)
    ensures decimals.Some? && Quantity(Get(holder, "TokenHolderQuantity")).Some? ==> r.Some?
  {
    if decimals.None? then None
    else
      var quantity := Quantity(Get(holder, "TokenHolderQuantity"));
      if quantity.None? then None else Some(Divide(quantity.value, decimals.value))
  }

  /** `Decimal(quantity) / Decimal("10") ** decimals`, exactly. */
  function Divide(quantity: real, decimals: int): (r: real)
    ensures ScaledBy(r, quantity, decimals)
  {
    quantity / Scale(decimals)
  }

  /** Every holder is a dictionary. Any other holder makes `holder.get` raise
      `AttributeError` at line 56, and the handler of line 68 calls
      `holder.get` again, so the error leaves the function. */
  predicate AllDicts(holders: seq<PyValue>)
  {
    forall j :: 0 <= j < |holders| ==> holders[j].PyDict?
  }

  /** The balances of the dictionary holders that are not skipped, in input
      order. */
  function DictBalances(holders: seq<PyValue>, decimals: Option<int>): (r: seq<real>)
    requires AllDicts(holders)
    ensures |r| <= |holders|
    ensures forall i :: 0 <= i < |r| ==>
              exists j :: 0 <= j < |holders| && Balance(holders[j].entries, decimals) == Some(r[i])
    ensures forall j :: 0 <= j < |holders| && Balance(holders[j].entries, decimals).Some? ==>
              Balance(holders[j].entries, decimals).value in r
  {
    if |holders| == 0 then []
    else
      var rest := DictBalances(holders[1..], decimals);
      assert forall j :: 1 <= j < |holders| ==> holders[j] == holders[1..][j - 1];
      match Balance(holders[0].entries, decimals)
      case None => rest
      case Some(b) => [b] + rest
  }

  /** Lines 54-69: the balances of the holders, or `AttributeError` when some
      holder is not a dictionary. */
  function Balances(holders: seq<PyValue>, decimals: Option<int>): (r: Result<seq<real>, PyError>)
    ensures r.Err? <==> exists j :: 0 <= j < |holders| && !holders[j].PyDict?
    ensures r.Err? ==> r.error == AttributeError
    ensures r.Ok? ==> AllDicts(holders) && r.value == DictBalances(holders, decimals)
  {
    if AllDicts(holders) then Ok(DictBalances(holders, decimals)) else Err(AttributeError)
  }

  /** The holder list can be processed in two pieces: the balances keep
      input order and skip exactly the holders without one. */
  lemma {:induction false} BalancesAppend(a: seq<PyValue>, b: seq<PyValue>, decimals: Option<int>)
    requires AllDicts(a) && AllDicts(b)
    ensures AllDicts(a + b)
    ensures DictBalances(a + b, decimals) == DictBalances(a, decimals) + DictBalances(b, decimals)
    decreases |a|
  {
    AllDictsAppend(a, b);
    if |a| == 0 {
      assert a + b == b;
    } else {
      var ab := a + b;
      assert ab[0] == a[0];
      assert ab[1..] == a[1..] + b;
      BalancesAppend(a[1..], b, decimals);
    }
  }

  lemma AllDictsAppend(a: seq<PyValue>, b: seq<PyValue>)
    requires AllDicts(a) && AllDicts(b)
    ensures AllDicts(a + b)
    ensures |a| > 0 ==> AllDicts(a[1..])
  {
    assert forall j :: 0 <= j < |a + b| ==> (a + b)[j] == if j < |a| then a[j] else b[j - |a|];
  }

  /** Python's slice `s[:n]` keeps this many elements. */
  function SliceCount(len: nat, n: int): (r: nat)
    ensures r <= len
    ensures n >= 0 ==> r == if n <= len then n else len
    ensures n < 0 ==> r == if len + n >= 0 then len + n else 0
  {
    if n >= 0 then (if n <= len then n else len)
    else if len + n >= 0 then len + n else 0
  }

  function Negated(b: real): real
  {
    -b
  }

  /** No later element is larger. */
  predicate Descending(s: seq<real>)
  {
    forall i, j :: 0 <= i < j < |s| ==> s[i] >= s[j]
  }

  /** Line 78: `sorted(..., reverse=True)` on the balances. */
  function SortDescending(s: seq<real>): (r: seq<real>)
    ensures Descending(r)
    ensures multiset(r) == multiset(s)
    ensures |r| == |s|
  {
    var r := SortBy(s, Negated);
    assert forall i, j :: 0 <= i < j < |r| ==> Negated(r[i]) <= Negated(r[j]);
    r
  }

  /** Line 81: the sum of the `n` largest balances (with Python's slicing for
      a negative `n`). */
  function TopSum(balances: seq<real>, n: int): real
  {
    var sorted := SortDescending(balances);
    Sum(sorted[..SliceCount(|sorted|, n)])
  }

  /** Lines 83-86: the share of the top holders in percent. */
  function Percentage(top: real, total: real): (r: real)
    ensures total > 0.0 ==> r * total == top * 100.0
    ensures total <= 0.0 ==> r == 0.0
  {
    if total > 0.0 then (top / total) * 100.0 else 0.0
  }

  /** Lines 71-91 once the holder list has been read. */
  function Assess(balances: seq<real>, topN: int, threshold: real): (r: Concentration)
    ensures r == NoValidBalances <==> |balances| == 0
    ensures r == ZeroTotal <==> |balances| > 0 && Sum(balances) == 0.0
    ensures r.HighConcentration? || r.ConcentrationChecked? <==> |balances| > 0 && Sum(balances) != 0.0
    ensures r.HighConcentration? || r.ConcentrationChecked? ==>
              r.topN == topN && r.percentage == Percentage(TopSum(balances, topN), Sum(balances))
    ensures r.HighConcentration? <==> |balances| > 0 && Sum(balances) != 0.0 && r.percentage >= threshold
    ensures r != NotAvailable
  {
    if |balances| == 0 then NoValidBalances
    else
      var total := Sum(balances);
      if total == 0.0 then ZeroTotal
      else
        var pct := Percentage(TopSum(balances, topN), total);
        if pct >= threshold then HighConcentration(topN, pct) else ConcentrationChecked(topN, pct)
  }

  /** The holder data makes the loop of lines 54-69 raise `AttributeError`:
      a non-empty string or dictionary iterates as strings, and a list may
      hold a value that is not a dictionary. */
  predicate HolderRaises(holders: PyValue)
  {
    match holders
    case PyStr(s) => |s| > 0
    case PyDict(entries) => |entries| > 0
    case PyList(items) => exists j :: 0 <= j < |items| && !items[j].PyDict?
    case _ => false
  }

  /** Lines 39-91. A falsy holder value is "not available". A non-empty string
      or dictionary iterates as strings, whose `get` raises `AttributeError`.
      Any other truthy value that is not a list is not iterable and the `for`
      raises `TypeError` outside the `try`. */
  function CheckTokenHolderConcentration(holders: PyValue, decimals: Option<int>, topN: int, threshold: real)
    : (r: Result<Concentration, PyError>)
    ensures !Truthy(holders) ==> r == Ok(NotAvailable)
    ensures Truthy(holders) && (holders.PyStr? || holders.PyDict?) ==> r == Err(AttributeError)
    ensures Truthy(holders) && (holders.PyInt? || holders.PyFloat? || holders.PyBool?) ==> r == Err(TypeError)
    ensures r == Err(AttributeError) <==> HolderRaises(holders)
    ensures holders.PyList? && Truthy(holders) && r.Ok? ==>
              && AllDicts(holders.items)
              && (r.value == NoValidBalances <==>
                    forall j :: 0 <= j < |holders.items| ==> Balance(holders.items[j].entries, decimals).None?)
              && r.value == Assess(DictBalances(holders.items, decimals), topN, threshold)
  {
    if !Truthy(holders) then Ok(NotAvailable)
    else match holders
      case PyList(items) =>
        (match Balances(items, decimals)
         case Err(e) => Err(e)
         case Ok(b) =>
           NoBalancesIff(items, decimals);
           Ok(Assess(b, topN, threshold)))
      case PyStr(_) => Err(AttributeError)
      case PyDict(_) => Err(AttributeError)
      case _ => Err(TypeError)
  }

  /** No balance survives exactly when every holder is skipped. */
  lemma NoBalancesIff(items: seq<PyValue>, decimals: Option<int>)
    requires AllDicts(items)
    ensures |DictBalances(items, decimals)| == 0 <==>
              forall j :: 0 <= j < |items| ==> Balance(items[j].entries, decimals).None?
  {
    var b := DictBalances(items, decimals);
    if |b| > 0 {
      var j :| 0 <= j < |items| && Balance(items[j].entries, decimals) == Some(b[0]);
    }
  }

  lemma SumSingleton(x: real)
    ensures Sum([x]) == x
  {
    assert [x][..0] == [];
  }

  /** Removing one element takes it out of the sum. */
  lemma SumRemove(t: seq<real>, i: nat)
    requires i < |t|
    ensures Sum(t) == t[i] + Sum(t[..i] + t[i + 1..])
  {
    var front, back := t[..i], t[i + 1..];
    var upto := t[..i + 1];
    assert upto == front + [t[i]];
    assert t == upto + back;
    SumAppend(upto, back);
    assert upto[..|upto| - 1] == front;
    assert Sum(upto) == Sum(front) + t[i];
    SumAppend(front, back);
  }

  /** Rearranging a sequence keeps its sum. */
  lemma {:induction false} SumPermutation(a: seq<real>, b: seq<real>)
    requires multiset(a) == multiset(b)
    ensures Sum(a) == Sum(b)
    decreases |a|
  {
    if |a| > 0 {
      var x, a' := a[|a| - 1], a[..|a| - 1];
      assert x in multiset(b);
      var i :| 0 <= i < |b| && b[i] == x;
      RemoveAtMultiset(b, i);
      RemoveLastMultiset(a);
      SumPermutation(a', b[..i] + b[i + 1..]);
      SumRemove(b, i);
    }
  }

  lemma RemoveLastMultiset<T>(s: seq<T>)
    requires |s| > 0
    ensures multiset(s[..|s| - 1]) == multiset(s) - multiset{s[|s| - 1]}
  {
    assert s == s[..|s| - 1] + [s[|s| - 1]];
  }

  /** Removing the element at `i` removes one occurrence of it. */
  lemma RemoveAtMultiset<T>(s: seq<T>, i: nat)
    requires i < |s|
    ensures multiset(s[..i] + s[i + 1..]) == multiset(s) - multiset{s[i]}
  {
    assert s == s[..i] + [s[i]] + s[i + 1..];
    assert multiset(s) == multiset(s[..i] + s[i + 1..]) + multiset{s[i]};
  }

  /** The first `m` elements of a descending sequence have the largest sum
      that any `m` of its elements can have. */
  lemma {:induction false} PrefixSumMaximal(s: seq<real>, m: nat, t: seq<real>)
    requires Descending(s) && m <= |s|
    requires multiset(t) <= multiset(s) && |t| == m
    ensures Sum(t) <= Sum(s[..m])
    decreases |s|
  {
    if m > 0 {
      var x, rest := s[0], s[1..];
      DescendingTail(s);
      PrefixSumHead(s, m);
      if x in multiset(t) {
        var t' := HeadTaken(t, x, rest);
        PrefixSumMaximal(rest, m - 1, t');
      } else {
        var t' := HeadSkipped(t, x, rest);
        PrefixSumMaximal(rest, m - 1, t');
      }
    }
  }

  lemma DescendingTail(s: seq<real>)
    requires Descending(s) && |s| > 0
    ensures Descending(s[1..])
    ensures forall j :: 0 <= j < |s[1..]| ==> s[1..][j] <= s[0]
  {
  }

  lemma PrefixSumHead(s: seq<real>, m: nat)
    requires 0 < m <= |s|
    ensures Sum(s[..m]) == s[0] + Sum(s[1..][..m - 1])
    ensures multiset(s) == multiset{s[0]} + multiset(s[1..])
  {
    assert s == [s[0]] + s[1..];
    assert s[..m] == [s[0]] + s[1..][..m - 1];
    SumAppend([s[0]], s[1..][..m - 1]);
    SumSingleton(s[0]);
  }

  /** When the largest element is among the chosen ones, the rest of the
      choice comes from the rest of the sequence. */
  lemma HeadTaken(t: seq<real>, x: real, rest: seq<real>) returns (t': seq<real>)
    requires x in multiset(t) && multiset(t) <= multiset{x} + multiset(rest)
    ensures multiset(t') <= multiset(rest) && |t'| + 1 == |t|
    ensures Sum(t) == x + Sum(t')
  {
    var i :| 0 <= i < |t| && t[i] == x;
    t' := t[..i] + t[i + 1..];
    assert t == t[..i] + [x] + t[i + 1..];
    assert multiset(t) == multiset(t') + multiset{x};
    forall z
      ensures multiset(t')[z] <= multiset(rest)[z]
    {
      assert multiset(t)[z] <= (multiset{x} + multiset(rest))[z];
    }
    SumRemove(t, i);
  }

  /** When the largest element `x` is not chosen, swapping it in for the first
      chosen element does not lower the sum. */
  lemma HeadSkipped(t: seq<real>, x: real, rest: seq<real>) returns (t': seq<real>)
    requires |t| > 0 && x !in multiset(t) && multiset(t) <= multiset{x} + multiset(rest)
    requires forall j :: 0 <= j < |rest| ==> rest[j] <= x
    ensures multiset(t') <= multiset(rest) && |t'| + 1 == |t|
    ensures Sum(t) <= x + Sum(t')
  {
    DropAbsent(multiset(t), x, multiset(rest));
    t' := t[1..];
    TailSubMultiset(t, multiset(rest));
    FirstAtMostBound(t, x, rest);
  }

  /** The tail of a sequence that fits in `m` fits in `m`. */
  lemma TailSubMultiset<T>(t: seq<T>, m: multiset<T>)
    requires |t| > 0 && multiset(t) <= m
    ensures multiset(t[1..]) <= m
  {
    assert t == [t[0]] + t[1..];
    assert multiset(t) == multiset{t[0]} + multiset(t[1..]);
    forall z
      ensures multiset(t[1..])[z] <= m[z]
    {
      assert multiset(t[1..])[z] <= multiset(t)[z];
    }
  }

  lemma FirstAtMostBound(t: seq<real>, x: real, rest: seq<real>)
    requires |t| > 0 && multiset(t) <= multiset(rest)
    requires forall j :: 0 <= j < |rest| ==> rest[j] <= x
    ensures Sum(t) <= x + Sum(t[1..])
  {
    var y := t[0];
    assert y in multiset(rest);
    var j :| 0 <= j < |rest| && rest[j] == y;
    SumFirst(t);
  }

  lemma SumFirst(t: seq<real>)
    requires |t| > 0
    ensures Sum(t) == t[0] + Sum(t[1..])
  {
    assert t == [t[0]] + t[1..];
    SumAppend([t[0]], t[1..]);
    SumSingleton(t[0]);
  }

  /** A multiset without `x` that fits in `{x} + b` fits in `b`. */
  lemma DropAbsent<T>(a: multiset<T>, x: T, b: multiset<T>)
    requires x !in a && a <= multiset{x} + b
    ensures a <= b
  {
    forall z
      ensures a[z] <= b[z]
    {
      assert a[z] <= (multiset{x} + b)[z];
    }
  }

  /** Lines 78-81: the top-N sum is the largest sum of any `n` holders' balances
      (as many as the slice keeps). */
  lemma TopSumMaximal(balances: seq<real>, n: int, t: seq<real>)
    requires multiset(t) <= multiset(balances) && |t| == SliceCount(|balances|, n)
    ensures Sum(t) <= TopSum(balances, n)
  {
    var sorted := SortDescending(balances);
    PrefixSumMaximal(sorted, SliceCount(|sorted|, n), t);
  }

  /** With non-negative balances and a positive total the percentage lies in
      [0, 100]. */
  lemma PercentageBounded(balances: seq<real>, n: int)
    requires forall i :: 0 <= i < |balances| ==> balances[i] >= 0.0
    requires Sum(balances) > 0.0
    ensures 0.0 <= Percentage(TopSum(balances, n), Sum(balances)) <= 100.0
  {
    var sorted := SortDescending(balances);
    forall i | 0 <= i < |sorted|
      ensures sorted[i] >= 0.0
    {
      assert sorted[i] in multiset(balances);
    }
    PrefixSumBounded(sorted, SliceCount(|sorted|, n));
    SumPermutation(sorted, balances);
    PercentageRange(TopSum(balances, n), Sum(balances));
  }

  lemma PercentageRange(top: real, total: real)
    requires 0.0 <= top <= total && total > 0.0
    ensures 0.0 <= Percentage(top, total) <= 100.0
  {
  }

  /** The detailed flags of lines 104-111. */
  datatype Flags = Flags(teamAnonymous: bool, whitepaperMissing: bool, roadmapUnclear: bool, concentration: Concentration)

  /** One entry of the active-flag summary. */
  datatype SummaryItem =
    | TeamAnonymousFlag
    | WhitepaperMissingFlag
    | RoadmapUnclearFlag
    | ConcentrationFlag(analysis: Concentration)
    | NoRedFlags

  /** The position of a flag among the keys of the flag dictionary. */
  function Rank(item: SummaryItem): nat
  {
    match item
    case TeamAnonymousFlag => 0
    case WhitepaperMissingFlag => 1
    case RoadmapUnclearFlag => 2
    case ConcentrationFlag(_) => 3
    case NoRedFlags => 4
  }

  /** Line 117: the concentration message is listed for the high result and
      the three sentinels, never for the ordinary message. */
  predicate Alarming(c: Concentration)
  {
    !c.ConcentrationChecked?
  }

  /** The flag `item` is raised by `flags`. */
  predicate Raised(flags: Flags, item: SummaryItem)
  {
    match item
    case TeamAnonymousFlag => flags.teamAnonymous
    case WhitepaperMissingFlag => flags.whitepaperMissing
    case RoadmapUnclearFlag => flags.roadmapUnclear
    case ConcentrationFlag(c) => c == flags.concentration && Alarming(c)
    case NoRedFlags => false
  }

  predicate AnyRaised(flags: Flags)
  {
    flags.teamAnonymous || flags.whitepaperMissing || flags.roadmapUnclear || Alarming(flags.concentration)
  }

  /** The entry of rank `k` that `flags` could raise. */
  function RankedItem(flags: Flags, k: nat): (item: SummaryItem)
    requires k < 4
    ensures Rank(item) == k
  {
    match k
    case 0 => TeamAnonymousFlag
    case 1 => WhitepaperMissingFlag
    case 2 => RoadmapUnclearFlag
    case _ => ConcentrationFlag(flags.concentration)
  }

  /** The raised entries of rank `k` or more, in rank order. */
  function RaisedFrom(flags: Flags, k: nat): (r: seq<SummaryItem>)
    requires k <= 4
    ensures forall i :: 0 <= i < |r| ==> k <= Rank(r[i]) && Raised(flags, r[i])
    ensures forall i, j :: 0 <= i < j < |r| ==> Rank(r[i]) < Rank(r[j])
    ensures forall item :: Raised(flags, item) && Rank(item) >= k ==> item in r
    decreases 4 - k
  {
    if k == 4 then []
    else
      var here := RankedItem(flags, k);
      var rest := RaisedFrom(flags, k + 1);
      if Raised(flags, here) then [here] + rest else rest
  }

  /** Lines 113-122: the raised flags in key order, or the single "no red
      flags" entry. */
  function Summary(flags: Flags): (r: seq<SummaryItem>)
    ensures |r| > 0
    ensures r == [NoRedFlags] <==> !AnyRaised(flags)
    ensures AnyRaised(flags) ==> forall item :: item in r <==> Raised(flags, item)
    ensures forall i, j :: 0 <= i < j < |r| ==> Rank(r[i]) < Rank(r[j])
  {
    var listed := RaisedFrom(flags, 0);
    if |listed| == 0 then
      assert !Raised(flags, TeamAnonymousFlag) && !Raised(flags, WhitepaperMissingFlag);
      assert !Raised(flags, RoadmapUnclearFlag) && !Raised(flags, ConcentrationFlag(flags.concentration));
      [NoRedFlags]
    else
      assert Raised(flags, listed[0]);
      listed
  }

  /** The result dictionary of lines 124-128. */
  datatype RiskReport = RiskReport(identifier: PyValue, flags: Flags, summary: seq<SummaryItem>)

  /** `not text` followed by `text.lower()`: a falsy value is blank, a string
      is read, and any other truthy value has no `lower` and raises. */
  function TextArgument(v: PyValue): (r: Result<Option<string>, PyError>)
    ensures !Truthy(v) ==> r == Ok(None)
    ensures Truthy(v) && v.PyStr? ==> r == Ok(Some(v.s))
    ensures Truthy(v) && !v.PyStr? ==> r == Err(AttributeError)
  {
    if !Truthy(v) then Ok(None)
    else if v.PyStr? then Ok(Some(v.s))
    else Err(AttributeError)
  }

  /** Lines 97-102: the website text and URL, or `None` when the scraped
      content is not a dictionary. */
  function WebsiteField(project: map<string, PyValue>, key: string): (r: PyValue)
    ensures !Get(project, "scraped_website_content").PyDict? ==> r == PyNone
    ensures Get(project, "scraped_website_content").PyDict? ==> r == Get(Get(project, "scraped_website_content").entries, key)
  {
    match Get(project, "scraped_website_content")
    case PyDict(entries) => Get(entries, key)
    case _ => PyNone
  }

  /** Lines 93-128 with the default top 10 and threshold 50. */
  function IdentifyRiskFlags(project: map<string, PyValue>): (r: Result<RiskReport, PyError>)
    ensures var text := WebsiteField(project, "cleaned_scraped_text_content");
            r == Err(AttributeError) <==> (Truthy(text) && !text.PyStr?) || HolderRaises(Get(project, "token_holder_data"))
    ensures var text := WebsiteField(project, "cleaned_scraped_text_content");
            var holders := Get(project, "token_holder_data");
            r == Err(TypeError) <==>
              !(Truthy(text) && !text.PyStr?) && Truthy(holders) && (holders.PyInt? || holders.PyFloat? || holders.PyBool?)
    ensures r.Ok? ==>
              var text := WebsiteField(project, "cleaned_scraped_text_content");
              var t := if text.PyStr? && |text.s| > 0 then Some(text.s) else None;
              && r.value.flags.teamAnonymous == CheckTeamAnonymity(t)
              && r.value.flags.whitepaperMissing == !CheckWhitepaperAvailability(t, WebsiteField(project, "url"))
              && r.value.flags.roadmapUnclear == !CheckRoadmapClarity(t)
              && Ok(r.value.flags.concentration)
                 == CheckTokenHolderConcentration(Get(project, "token_holder_data"), Decimals(project), 10, 50.0)
              && r.value.summary == Summary(r.value.flags)
              && r.value.identifier == (if "identifier" in project then project["identifier"] else PyStr("N/A"))
    ensures r.Ok? && !Truthy(WebsiteField(project, "cleaned_scraped_text_content")) ==>
              r.value.flags.teamAnonymous && r.value.flags.whitepaperMissing && r.value.flags.roadmapUnclear
  {
    var content := WebsiteField(project, "cleaned_scraped_text_content");
    match TextArgument(content)
    case Err(e) => Err(e)
    case Ok(text) =>
      assert text == if content.PyStr? && |content.s| > 0 then Some(content.s) else None;
      var team := CheckTeamAnonymity(text);
      var whitepaperMissing := !CheckWhitepaperAvailability(text, WebsiteField(project, "url"));
      var roadmapUnclear := !CheckRoadmapClarity(text);
      match CheckTokenHolderConcentration(Get(project, "token_holder_data"), Decimals(project), 10, 50.0)
      case Err(e) => Err(e)
      case Ok(c) =>
        var flags := Flags(team, whitepaperMissing, roadmapUnclear, c);
        var id := if "identifier" in project then project["identifier"] else PyStr("N/A");
        Ok(RiskReport(id, flags, Summary(flags)))
  }
}
