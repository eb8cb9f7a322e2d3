/** Character- and string-level helpers shared by the cleaners, the risk
    flagger, the contract-file reader and the page helpers: whitespace,
    ASCII lower-casing, stripping, substring search and numeral parsing. */
module Text {
  import opened Common

  /** The characters Python treats as whitespace (`str.isspace`, and `\s`
      in a regular expression over `str`). */
  predicate IsSpace(c: char)
  {
    || c == ' '
    || ('\U{9}' <= c <= '\U{D}')
    || ('\U{1C}' <= c <= '\U{1F}')
    || c == '\U{85}' || c == '\U{A0}' || c == '\U{1680}'
    || ('\U{2000}' <= c <= '\U{200A}')
    || c == '\U{2028}' || c == '\U{2029}' || c == '\U{202F}' || c == '\U{205F}' || c == '\U{3000}'
  }

  /** Lower-casing of one character, restricted to the ASCII letters. */
  function LowerChar(c: char): char
  {
    if 'A' <= c <= 'Z' then (c as int + 32) as char else c
  }

  function Lower(s: string): (r: string)
    ensures |r| == |s|
    ensures forall i :: 0 <= i < |s| ==> r[i] == LowerChar(s[i])
  {
    seq(|s|, i requires 0 <= i < |s| => LowerChar(s[i]))
  }

  /** Python's `str.lstrip()`: drops the leading whitespace. */
  function StripLeft(s: string): (r: string)
    ensures |r| <= |s| && r == s[|s| - |r|..]
    ensures |r| > 0 ==> !IsSpace(r[0])
    ensures forall k :: 0 <= k < |s| - |r| ==> IsSpace(s[k])
  {
    if |s| > 0 && IsSpace(s[0]) then StripLeft(s[1..]) else s
  }

  /** Python's `str.rstrip()`: drops the trailing whitespace. */
  function StripRight(s: string): (r: string)
    ensures |r| <= |s| && r == s[..|r|]
    ensures |r| > 0 ==> !IsSpace(r[|r| - 1])
    ensures forall k :: |r| <= k < |s| ==> IsSpace(s[k])
  {
    if |s| > 0 && IsSpace(s[|s| - 1]) then StripRight(s[..|s| - 1]) else s
  }

  /** `r` is the slice of `s` that starts `i` characters in, and everything
      of `s` outside that slice is whitespace. */
  predicate TrimmedAt(s: string, r: string, i: int)
  {
    && 0 <= i <= |s| - |r|
    && r == s[i..i + |r|]
    && (forall k :: 0 <= k < i ==> IsSpace(s[k]))
    && (forall k :: i + |r| <= k < |s| ==> IsSpace(s[k]))
  }

  /** Python's `str.strip()`: the result is the slice of `s` left once the
      whitespace at both ends is removed, and it starts and ends with a
      non-whitespace character. */
  function Strip(s: string): (r: string)
    ensures |r| > 0 ==> !IsSpace(r[0]) && !IsSpace(r[|r| - 1])
    ensures exists i :: TrimmedAt(s, r, i)
  {
    var left := StripLeft(s);
    var r := StripRight(left);
    StripBothEnds(s, left, r);
    r
  }

  lemma StripBothEnds(s: string, left: string, r: string)
    requires |left| <= |s| && left == s[|s| - |left|..]
    requires forall k :: 0 <= k < |s| - |left| ==> IsSpace(s[k])
    requires |r| <= |left| && r == left[..|r|]
    requires forall k :: |r| <= k < |left| ==> IsSpace(left[k])
    ensures TrimmedAt(s, r, |s| - |left|)
  {
    var i := |s| - |left|;
    assert forall k :: i <= k < |s| ==> s[k] == left[k - i];
    assert r == s[i..i + |r|];
  }

  /** Leading whitespace is dropped from the front part alone when that part
      ends with a non-whitespace character. */
  lemma {:induction false} StripLeftJoin(x: string, m: string, y: string)
    requires |x| > 0 && !IsSpace(x[|x| - 1])
    ensures StripLeft(x + m + y) == StripLeft(x) + m + y
  {
    if IsSpace(x[0]) {
      assert (x + m + y)[1..] == x[1..] + m + y;
      StripLeftJoin(x[1..], m, y);
    }
  }

  /** Trailing whitespace is dropped from the back part alone when that part
      starts with a non-whitespace character. */
  lemma {:induction false} StripRightPrepend(x: string, y: string)
    requires |y| > 0 && !IsSpace(y[0])
    ensures StripRight(x + y) == x + StripRight(y)
  {
    if IsSpace(y[|y| - 1]) {
      assert (x + y)[..|x + y| - 1] == x + y[..|y| - 1];
      StripRightPrepend(x, y[..|y| - 1]);
    }
  }

  /** Stripping a text whose middle is framed by non-whitespace characters
      strips the two outer parts and leaves the middle as it is. */
  lemma StripJoin(x: string, m: string, y: string)
    requires |x| > 0 && !IsSpace(x[|x| - 1])
    requires |y| > 0 && !IsSpace(y[0])
    ensures Strip(x + m + y) == Strip(x) + m + Strip(y)
  {
    var left := StripLeft(x);
    StripLeftJoin(x, m, y);
    StripRightPrepend(left + m, y);
    StripEndsWithNonSpace(x);
    StripStartsWithNonSpace(y);
  }

  lemma StripEndsWithNonSpace(x: string)
    requires |x| > 0 && !IsSpace(x[|x| - 1])
    ensures Strip(x) == StripLeft(x)
  {
    var left := StripLeft(x);
    assert left[|left| - 1] == x[|x| - 1];
  }

  lemma StripStartsWithNonSpace(y: string)
    requires |y| > 0 && !IsSpace(y[0])
    ensures Strip(y) == StripRight(y)
  {
  }

  /** Stripping twice removes nothing more. */
  lemma StripIdempotent(s: string)
    ensures Strip(Strip(s)) == Strip(s)
  {
    var r := Strip(s);
    if |r| > 0 {
      assert StripLeft(r) == r;
      assert StripRight(r) == r;
    }
  }

  predicate StartsWith(s: string, prefix: string)
  {
    |prefix| <= |s| && s[..|prefix|] == prefix
  }

  /** Python's `sub in s` on strings. */
  predicate Contains(s: string, sub: string)
    decreases |s|
  {
    StartsWith(s, sub) || (|s| > 0 && Contains(s[1..], sub))
  }

  /** `sub` occurs in `s` starting at offset `i`. */
  predicate OccursAt(s: string, sub: string, i: int)
  {
    0 <= i <= |s| - |sub| && s[i..i + |sub|] == sub
  }

  /** The recursive search finds `sub` exactly when it occurs at some offset. */
  lemma {:induction false} ContainsIff(s: string, sub: string)
    ensures Contains(s, sub) <==> exists i :: OccursAt(s, sub, i)
    decreases |s|
  {
    if StartsWith(s, sub) {
      assert OccursAt(s, sub, 0);
    } else if |s| > 0 {
      ContainsIff(s[1..], sub);
      if exists i :: OccursAt(s, sub, i) {
        var i :| OccursAt(s, sub, i);
        assert i != 0;
        assert s[1..][i - 1..i - 1 + |sub|] == s[i..i + |sub|];
        assert OccursAt(s[1..], sub, i - 1);
      }
      if Contains(s[1..], sub) {
        var j :| OccursAt(s[1..], sub, j);
        assert s[j + 1..j + 1 + |sub|] == s[1..][j..j + |sub|];
        assert OccursAt(s, sub, j + 1);
      }
    } else {
      assert forall i :: !OccursAt(s, sub, i);
    }
  }

  predicate IsDigit(c: char)
  {
    '0' <= c <= '9'
  }

  predicate AllDigits(s: string)
  {
    forall i :: 0 <= i < |s| ==> IsDigit(s[i])
  }

  /** Python's `str.isdigit()`, restricted to the ASCII digits. */
  predicate IsDigitString(s: string)
  {
    |s| > 0 && AllDigits(s)
  }

  /** The value of a string of decimal digits (Python's `int(s)`). */
  function DigitsValue(s: string): nat
    requires AllDigits(s)
  {
    if |s| == 0 then 0 else DigitsValue(s[..|s| - 1]) * 10 + (s[|s| - 1] as int - '0' as int)
  }

  function DigitChar(d: nat): (c: char)
    requires d < 10
    ensures IsDigit(c) && c as int - '0' as int == d
  {
    ('0' as int + d) as char
  }

  /** The decimal numeral of `n`, as Python's `str(n)` writes it. */
  function ShowNat(n: nat): (r: string)
    ensures IsDigitString(r)
  {
    if n < 10 then [DigitChar(n)] else ShowNat(n / 10) + [DigitChar(n % 10)]
  }

  /** Reading back a printed natural number gives the number. */
  lemma {:induction false} ParseShowRoundTrip(n: nat)
    ensures DigitsValue(ShowNat(n)) == n
  {
    if n >= 10 {
      ParseShowRoundTrip(n / 10);
      var s := ShowNat(n);
      assert s[..|s| - 1] == ShowNat(n / 10);
    }
  }

  function Pow10(n: nat): (r: nat)
    ensures r >= 1
  {
    if n == 0 then 1 else 10 * Pow10(n - 1)
  }

  /** The first position of `c` in `s`, if any. */
  function IndexOf(s: string, c: char): (r: Option<nat>)
    ensures r.Some? ==> r.value < |s| && s[r.value] == c && c !in s[..r.value]
    ensures r.None? ==> c !in s
  {
    if |s| == 0 then None
    else if s[0] == c then Some(0)
    else match IndexOf(s[1..], c)
      case None => None
      case Some(k) => assert s[..k + 1] == [s[0]] + s[1..][..k]; Some(k + 1)
  }

  /** The first occurrence of `sep` follows a head that does not hold it. */
  lemma IndexAfterFreeHead(head: string, sep: char, tail: string)
    requires sep !in head
    ensures IndexOf(head + [sep] + tail, sep) == Some(|head|)
    decreases |head|
  {
    if |head| > 0 {
      IndexAfterFreeHead(head[1..], sep, tail);
      assert (head + [sep] + tail)[1..] == head[1..] + [sep] + tail;
    }
  }

  /** The shape of an unsigned numeral: nothing but digits and points, at
      most one point, and at least one digit. */
  predicate UnsignedShape(u: string)
  {
    && (forall i :: 0 <= i < |u| ==> IsDigit(u[i]) || u[i] == '.')
    && (forall i, j :: 0 <= i < j < |u| && u[i] == '.' ==> u[j] != '.')
    && (exists i :: 0 <= i < |u| && IsDigit(u[i]))
  }

  /** The shape of a numeral: an unsigned one, possibly after one sign. */
  predicate NumeralShape(t: string)
  {
    UnsignedShape(t) || (|t| > 0 && (t[0] == '-' || t[0] == '+') && UnsignedShape(t[1..]))
  }

  /** An unsigned decimal numeral `digits[.digits]` with at least one digit. */
  function ParseUnsignedDecimal(s: string): (r: Option<real>)
    ensures IsDigitString(s) ==> r == Some(DigitsValue(s) as real)
    ensures r.Some? ==> r.value >= 0.0
    ensures r.Some? <==> UnsignedShape(s)
  {
    match IndexOf(s, '.')
    case None =>
      NoPointShape(s);
      if IsDigitString(s) then Some(DigitsValue(s) as real) else None
    case Some(dot) =>
      var whole, frac := s[..dot], s[dot + 1..];
      PointShape(s, dot);
      if AllDigits(whole) && AllDigits(frac) && |whole| + |frac| > 0 then
        Some(PointValue(DigitsValue(whole), frac))
      else None
  }

  /** Without a point, the numeral shape is a non-empty digit string. */
  lemma NoPointShape(s: string)
    requires '.' !in s
    ensures UnsignedShape(s) <==> IsDigitString(s)
  {
    if IsDigitString(s) {
      assert IsDigit(s[0]);
    }
    if UnsignedShape(s) {
      assert forall i :: 0 <= i < |s| ==> s[i] != '.';
    }
  }

  /** With its first point at `dot`, the numeral shape is digits on both
      sides of that point and at least one digit in all. */
  lemma PointShape(s: string, dot: nat)
    requires dot < |s| && s[dot] == '.' && '.' !in s[..dot]
    ensures UnsignedShape(s) <==>
              AllDigits(s[..dot]) && AllDigits(s[dot + 1..]) && |s[..dot]| + |s[dot + 1..]| > 0
  {
    var whole, frac := s[..dot], s[dot + 1..];
    assert forall i :: 0 <= i < dot ==> s[i] == whole[i];
    assert forall i :: dot < i < |s| ==> s[i] == frac[i - dot - 1];
    if UnsignedShape(s) {
      forall i | 0 <= i < |whole|
        ensures IsDigit(whole[i])
      {
        assert whole[i] != '.';
      }
      forall i | 0 <= i < |frac|
        ensures IsDigit(frac[i])
      {
        assert s[dot + 1 + i] != '.';
      }
      var k :| 0 <= k < |s| && IsDigit(s[k]);
      assert k != dot;
    }
    if AllDigits(whole) && AllDigits(frac) && |whole| + |frac| > 0 {
      forall i, j | 0 <= i < j < |s| && s[i] == '.'
        ensures s[j] != '.'
      {
        assert i == dot;
      }
      if |whole| > 0 {
        assert IsDigit(s[0]);
      } else {
        assert IsDigit(s[dot + 1]);
      }
    }
  }

  /** The value of the numeral `whole.frac`. */
  function PointValue(whole: nat, frac: string): (r: real)
    requires AllDigits(frac)
    ensures r >= whole as real
  {
    whole as real + DigitsValue(frac) as real / Pow10(|frac|) as real
  }

  /** The value with its sign flipped; `None` stays `None`. */
  function Negated(o: Option<real>): Option<real>
  {
    match o
    case None => None
    case Some(x) => Some(-x)
  }

  /** A plain decimal numeral with an optional sign, once surrounding
      whitespace is stripped: the forms of `float(s)` in Python and
      `Number(s)` in JavaScript that this model covers. */
  function ParseDecimal(s: string): (r: Option<real>)
    ensures IsDigitString(Strip(s)) ==> r == Some(DigitsValue(Strip(s)) as real)
    ensures r.Some? <==> NumeralShape(Strip(s))
    ensures r.Some? && Strip(s)[0] == '-' ==> r.value <= 0.0
    ensures r.Some? && Strip(s)[0] != '-' ==> r.value >= 0.0
  {
    var t := Strip(s);
    if |t| > 0 && t[0] == '-' then Negated(ParseUnsignedDecimal(t[1..]))
    else if |t| > 0 && t[0] == '+' then ParseUnsignedDecimal(t[1..])
    else ParseUnsignedDecimal(t)
  }

  /** A leading minus negates an unsigned numeral and a leading plus changes
      nothing; either way, what follows the sign is read as it would be on
      its own. */
  lemma SignedNumeral(u: string)
    requires |u| > 0 && (IsDigit(u[0]) || u[0] == '.') && !IsSpace(u[|u| - 1])
    ensures ParseDecimal("-" + u) == Negated(ParseDecimal(u))
    ensures ParseDecimal("+" + u) == ParseDecimal(u)
  {
    ParseUnstripped(u);
    ParseUnstripped("-" + u);
    ParseUnstripped("+" + u);
    assert ("-" + u)[1..] == u && ("+" + u)[1..] == u;
  }

  /** A numeral without surrounding whitespace is read sign first. */
  lemma ParseUnstripped(t: string)
    requires |t| > 0 && !IsSpace(t[0]) && !IsSpace(t[|t| - 1])
    ensures ParseDecimal(t) ==
              if t[0] == '-' then Negated(ParseUnsignedDecimal(t[1..]))
              else if t[0] == '+' then ParseUnsignedDecimal(t[1..])
              else ParseUnsignedDecimal(t)
  {
    StripUnchanged(t);
  }

  /** A numeral written as a printed natural number, a point and a string
      of digits reads back as the value it denotes. */
  lemma ParseShownDecimal(whole: nat, frac: string)
    requires AllDigits(frac)
    ensures ParseDecimal(ShowNat(whole) + "." + frac) == Some(PointValue(whole, frac))
  {
    var head := ShowNat(whole);
    var s := head + "." + frac;
    assert '.' !in head by {
      assert forall i :: 0 <= i < |head| ==> IsDigit(head[i]);
    }
    assert s[0] == head[0];
    assert IsDigit(s[|s| - 1]) || s[|s| - 1] == '.';
    UnsignedUnchanged(s);
    ParseAtPoint(head, frac);
    ParseShowRoundTrip(whole);
  }

  /** A numeral that starts with a digit and ends without whitespace is
      read as it stands. */
  lemma UnsignedUnchanged(s: string)
    requires |s| > 0 && IsDigit(s[0]) && !IsSpace(s[|s| - 1])
    ensures ParseDecimal(s) == ParseUnsignedDecimal(s)
  {
    StripUnchanged(s);
  }

  lemma ParseAtPoint(head: string, frac: string)
    requires IsDigitString(head) && AllDigits(frac)
    ensures ParseUnsignedDecimal(head + "." + frac) == Some(PointValue(DigitsValue(head), frac))
  {
    var s := head + "." + frac;
    assert '.' !in head by {
      assert forall i :: 0 <= i < |head| ==> IsDigit(head[i]);
    }
    IndexAfterFreeHead(head, '.', frac);
    assert s[..|head|] == head && s[|head| + 1..] == frac;
  }

  lemma StripUnchanged(s: string)
    requires |s| > 0 && !IsSpace(s[0]) && !IsSpace(s[|s| - 1])
    ensures Strip(s) == s
  {
  }
}
