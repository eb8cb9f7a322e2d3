/** The helpers of CoinDetailPage.jsx: the dotted-path lookup
    `getNestedValue` and the risk-level classifier `getRiskLevel`. */
module CoinDetail {
  import opened Common
  import opened Text

  /** A JavaScript value as the page receives it from parsed JSON. Numbers
      are idealised as reals (there is no NaN among them). */
  datatype JsValue =
    | Undefined
    | Null
    | JsBool(b: bool)
    | JsNum(x: real)
    | JsStr(s: string)
    | JsObject(fields: map<string, JsValue>)

  /** JavaScript's truth test. */
  predicate Truthy(v: JsValue)
  {
    match v
    case Undefined => false
    case Null => false
    case JsBool(b) => b
    case JsNum(x) => x != 0.0
    case JsStr(s) => |s| > 0
    case JsObject(_) => true
  }

  /** `null` or `undefined`. */
  predicate Nullish(v: JsValue)
  {
    v.Undefined? || v.Null?
  }

  /** `s.split(sep)`: the pieces between the separators, always at least one. */
  function Split(s: string, sep: char): (r: seq<string>)
    ensures |r| >= 1
    ensures forall i :: 0 <= i < |r| ==> sep !in r[i]
    decreases |s|
  {
    match IndexOf(s, sep)
    case None => [s]
    case Some(i) => [s[..i]] + Split(s[i + 1..], sep)
  }

  /** The pieces glued back with the separator. */
  function Join(parts: seq<string>, sep: char): string
    requires |parts| >= 1
  {
    if |parts| == 1 then parts[0] else parts[0] + [sep] + Join(parts[1..], sep)
  }

  /** Splitting and joining give back the path. */
  lemma {:induction false} JoinSplit(s: string, sep: char)
    ensures Join(Split(s, sep), sep) == s
    decreases |s|
  {
    match IndexOf(s, sep)
    case None =>
    case Some(i) =>
      var rest := Split(s[i + 1..], sep);
      JoinSplit(s[i + 1..], sep);
      var parts := [s[..i]] + rest;
      assert parts[1..] == rest;
      assert Join(parts, sep) == s[..i] + [sep] + Join(rest, sep);
      assert s == s[..i] + [sep] + s[i + 1..];
  }

  /** Joining pieces free of the separator and splitting again gives back
      the pieces. */
  lemma {:induction false} SplitJoin(parts: seq<string>, sep: char)
    requires |parts| >= 1
    requires forall i :: 0 <= i < |parts| ==> sep !in parts[i]
    ensures Split(Join(parts, sep), sep) == parts
    decreases |parts|
  {
    var head := parts[0];
    if |parts| == 1 {
      assert IndexOf(head, sep).None?;
    } else {
      var s := Join(parts, sep);
      var tail := Join(parts[1..], sep);
      assert s == head + [sep] + tail;
      IndexAfterFreeHead(head, sep, tail);
      assert s[..|head|] == head;
      assert s[|head| + 1..] == tail;
      SplitJoin(parts[1..], sep);
      assert parts == [head] + parts[1..];
    }
  }

  /** `acc[part]` on a truthy value: an object's own field, otherwise
      `undefined`. */
  function Lookup(acc: JsValue, part: string): (r: JsValue)
    ensures acc.JsObject? && part in acc.fields ==> r == acc.fields[part]
    ensures !(acc.JsObject? && part in acc.fields) ==> r == Undefined
  {
    match acc
    case JsObject(fields) => if part in fields then fields[part] else Undefined
    case _ => Undefined
  }

  /** One step of the `reduce` of line 7: `acc && acc[part]`. */
  function Step(acc: JsValue, part: string): (r: JsValue)
    ensures !Truthy(acc) ==> r == acc
  {
    if Truthy(acc) then Lookup(acc, part) else acc
  }

  /** The `reduce` of line 7 over all the parts in turn. */
  function Resolve(acc: JsValue, parts: seq<string>): JsValue
    decreases |parts|
  {
    if |parts| == 0 then acc else Resolve(Step(acc, parts[0]), parts[1..])
  }

  /** A falsy intermediate value short-circuits every later step and is the
      result itself. */
  lemma {:induction false} FalsyStops(acc: JsValue, parts: seq<string>)
    requires !Truthy(acc)
    ensures Resolve(acc, parts) == acc
    decreases |parts|
  {
    if |parts| > 0 {
      FalsyStops(acc, parts[1..]);
    }
  }

  /** Resolving a path in two pieces. */
  lemma {:induction false} ResolveAppend(acc: JsValue, a: seq<string>, b: seq<string>)
    ensures Resolve(acc, a + b) == Resolve(Resolve(acc, a), b)
    decreases |a|
  {
    if |a| > 0 {
      assert (a + b)[0] == a[0];
      assert (a + b)[1..] == a[1..] + b;
      var next := Step(acc, a[0]);
      assert Resolve(acc, a + b) == Resolve(next, a[1..] + b);
      assert Resolve(acc, a) == Resolve(next, a[1..]);
      ResolveAppend(next, a[1..], b);
    } else {
      assert a + b == b;
    }
  }

  /** Following present fields of nested objects reaches the innermost one. */
  lemma NestedField(outer: map<string, JsValue>, a: string, inner: map<string, JsValue>, b: string)
    requires a in outer && outer[a] == JsObject(inner) && b in inner
    ensures Resolve(JsObject(outer), [a, b]) == inner[b]
  {
    var path := [a, b];
    assert path[0] == a && path[1..] == [b] && [b][1..] == [];
    assert Step(JsObject(outer), a) == JsObject(inner);
    assert Resolve(JsObject(outer), path) == Resolve(JsObject(inner), [b]);
    assert Resolve(JsObject(inner), [b]) == Resolve(inner[b], []);
  }

  /** Lines 6-9: the value at the dotted path, or the default exactly when
      that value is `null` or `undefined`. */
  function GetNestedValue(obj: JsValue, path: string, default: JsValue): (r: JsValue)
    ensures Nullish(Resolve(obj, Split(path, '.'))) ==> r == default
    ensures !Nullish(Resolve(obj, Split(path, '.'))) ==> r == Resolve(obj, Split(path, '.')) && !Nullish(r)
  {
    var value := Resolve(obj, Split(path, '.'));
    if !Nullish(value) then value else default
  }

  /** A path without dots names one field. */
  lemma SingleField(obj: map<string, JsValue>, key: string, default: JsValue)
    requires '.' !in key
    ensures key !in obj ==> GetNestedValue(JsObject(obj), key, default) == default
    ensures key in obj && !Nullish(obj[key]) ==> GetNestedValue(JsObject(obj), key, default) == obj[key]
    ensures key in obj && Nullish(obj[key]) ==> GetNestedValue(JsObject(obj), key, default) == default
  {
    assert IndexOf(key, '.').None?;
    assert Split(key, '.') == [key];
    assert [key][1..] == [];
    assert Resolve(JsObject(obj), [key]) == Resolve(Step(JsObject(obj), key), []);
  }

  /** JavaScript's `ToNumber` for a relational comparison, `None` standing
      for NaN: booleans are 0 or 1, a string is read as a signed decimal
      numeral (blank meaning 0, anything else of another shape NaN), and an
      object is NaN. */
  function ToNumber(v: JsValue): (r: Option<real>)
    ensures v.JsNum? ==> r == Some(v.x)
    ensures v.Null? || (v.JsBool? && !v.b) ==> r == Some(0.0)
    ensures v.JsBool? && v.b ==> r == Some(1.0)
    ensures v.JsStr? && |Strip(v.s)| == 0 ==> r == Some(0.0)
    ensures v.JsStr? && IsDigitString(Strip(v.s)) ==> r == Some(DigitsValue(Strip(v.s)) as real)
    ensures v.JsStr? && |Strip(v.s)| > 0 ==> r == ParseDecimal(v.s) && (r.Some? <==> NumeralShape(Strip(v.s)))
    ensures v.Undefined? || v.JsObject? ==> r.None?
  {
    match v
    case Undefined => None
    case Null => Some(0.0)
    case JsBool(b) => Some(if b then 1.0 else 0.0)
    case JsNum(x) => Some(x)
    case JsStr(s) => if |Strip(s)| == 0 then Some(0.0) else ParseDecimal(s)
    case JsObject(_) => None
  }

  datatype RiskLevel = Unknown | Low | Medium | High

  /** How severe a known risk level is. */
  function Severity(level: RiskLevel): nat
  {
    match level
    case Unknown => 0
    case Low => 1
    case Medium => 2
    case High => 3
  }

  /** Lines 42-47. A value that is not a number compares false with both
      thresholds and so is classified high. */
  function GetRiskLevel(score: JsValue): (r: RiskLevel)
    ensures Nullish(score) <==> r == Unknown
    ensures !Nullish(score) && ToNumber(score).Some? ==>
              (r == Low <==> ToNumber(score).value >= 7.0)
              && (r == Medium <==> 4.0 <= ToNumber(score).value < 7.0)
              && (r == High <==> ToNumber(score).value < 4.0)
    ensures !Nullish(score) && ToNumber(score).None? ==> r == High
  {
    if Nullish(score) then Unknown
    else match ToNumber(score)
      case None => High
      case Some(x) => if x >= 7.0 then Low else if x >= 4.0 then Medium else High
  }

  /** A higher score never gives a more severe risk level. */
  lemma RiskMonotone(a: real, b: real)
    requires a <= b
    ensures Severity(GetRiskLevel(JsNum(b))) <= Severity(GetRiskLevel(JsNum(a)))
    ensures Severity(GetRiskLevel(JsNum(a))) >= 1
  {
  }

  const ScoreField: string := "overall_potential_score_0_10"

  /** Line 49: the risk level of a coin, looked up with a `null` default. */
  function CoinRiskLevel(coin: JsValue): (r: RiskLevel)
    ensures coin.JsObject? && ScoreField in coin.fields && coin.fields[ScoreField].JsNum? ==>
              r == GetRiskLevel(coin.fields[ScoreField])
  {
    ScoreFieldHasNoDot();
    SingleField(if coin.JsObject? then coin.fields else map[], ScoreField, Null);
    GetRiskLevel(GetNestedValue(coin, ScoreField, Null))
  }

  lemma ScoreFieldHasNoDot()
    ensures '.' !in ScoreField
  {
  }

  /** A coin without an overall score, or with a `null` one, has an unknown
      risk level because the lookup default is `null`. */
  lemma MissingScoreIsUnknown(fields: map<string, JsValue>)
    requires ScoreField !in fields || Nullish(fields[ScoreField])
    ensures CoinRiskLevel(JsObject(fields)) == Unknown
  {
    ScoreFieldHasNoDot();
    SingleField(fields, ScoreField, Null);
  }
}
