/** The record cleaners of data_cleaning_processor.py: text normalisation
    (lines 9-15), first-occurrence deduplication of tweets and Etherscan
    transactions (lines 17-38 and 62-81) and the scraped-page cleaner
    (lines 83-91). */
module Cleaning {
  import opened Common
  import opened Text
  import opened Python

  /** Line 13: every maximal run of whitespace becomes a single space. The
      result holds no whitespace but plain spaces, never two in a row, and
      starts with whitespace exactly when the input does. */
  function CollapseSpaces(s: string): (r: string)
    ensures SingleSpaced(r)
    ensures |s| > 0 ==> |r| > 0 && (IsSpace(r[0]) <==> IsSpace(s[0]))
    decreases |s|
  {
    if |s| == 0 then ""
    else if IsSpace(s[0]) then
      var rest := StripLeft(s);
      assert |rest| < |s|;
      var tail := CollapseSpaces(rest);
      SingleSpacedCons(' ', tail);
      " " + tail
    else
      var tail := CollapseSpaces(s[1..]);
      SingleSpacedCons(s[0], tail);
      [s[0]] + tail
  }

  /** Putting a character in front of a single-spaced text keeps it single
      spaced unless a space meets a space. */
  lemma SingleSpacedCons(c: char, t: string)
    requires SingleSpaced(t)
    requires IsSpace(c) ==> c == ' ' && (|t| > 0 ==> !IsSpace(t[0]))
    ensures SingleSpaced([c] + t)
  {
    var s := [c] + t;
    forall i | 0 <= i < |s| && IsSpace(s[i])
      ensures s[i] == ' ' && (i + 1 < |s| ==> !IsSpace(s[i + 1]))
    {
      if i > 0 {
        assert s[i] == t[i - 1];
      }
    }
  }

  /** A whitespace run between two non-whitespace characters becomes exactly
      one space, and the text on either side is collapsed on its own. */
  lemma {:induction false} CollapseRun(a: string, w: string, b: string)
    requires |a| == 0 || !IsSpace(a[|a| - 1])
    requires |w| > 0 && forall k :: 0 <= k < |w| ==> IsSpace(w[k])
    requires |b| == 0 || !IsSpace(b[0])
    ensures CollapseSpaces(a + w + b) == CollapseSpaces(a) + " " + CollapseSpaces(b)
    decreases |a|
  {
    if |a| == 0 {
      CollapseRunBase(a, w, b);
    } else if IsSpace(a[0]) {
      StripLeftKeepsLast(a);
      CollapseRun(StripLeft(a), w, b);
      CollapseRunSpaceStep(a, w, b);
    } else {
      TailKeepsLast(a);
      CollapseRun(a[1..], w, b);
      CollapseRunCharStep(a, w, b);
    }
  }

  lemma CollapseRunBase(a: string, w: string, b: string)
    requires |a| == 0
    requires |w| > 0 && forall k :: 0 <= k < |w| ==> IsSpace(w[k])
    requires |b| == 0 || !IsSpace(b[0])
    ensures CollapseSpaces(a + w + b) == CollapseSpaces(a) + " " + CollapseSpaces(b)
  {
    EmptyJoin(a, w, b);
    CollapseSpaceHead(w + b);
    StripLeftSpaces(w, b);
    EmptyJoin(CollapseSpaces(a), " ", CollapseSpaces(b));
  }

  lemma EmptyJoin<T>(a: seq<T>, w: seq<T>, b: seq<T>)
    requires |a| == 0
    ensures a + w + b == w + b
  {
  }

  /** Stripping leading whitespace off a text that starts with whitespace and
      ends without it leaves a shorter text with the same last character. */
  lemma StripLeftKeepsLast(a: string)
    requires |a| > 0 && IsSpace(a[0]) && !IsSpace(a[|a| - 1])
    ensures 0 < |StripLeft(a)| < |a|
    ensures StripLeft(a)[|StripLeft(a)| - 1] == a[|a| - 1]
  {
  }

  lemma TailKeepsLast(a: string)
    requires |a| > 0 && !IsSpace(a[|a| - 1])
    ensures |a[1..]| == 0 || !IsSpace(a[1..][|a[1..]| - 1])
  {
  }

  /** The inductive step of `CollapseRun` for a text that starts with whitespace. */
  lemma CollapseRunSpaceStep(a: string, w: string, b: string)
    requires |a| > 0 && IsSpace(a[0]) && !IsSpace(a[|a| - 1])
    requires CollapseSpaces(StripLeft(a) + w + b) == CollapseSpaces(StripLeft(a)) + " " + CollapseSpaces(b)
    ensures CollapseSpaces(a + w + b) == CollapseSpaces(a) + " " + CollapseSpaces(b)
  {
    var rest := StripLeft(a);
    calc {
      CollapseSpaces(a + w + b);
      { CollapseSpaceHead(a + w + b); }
      " " + CollapseSpaces(StripLeft(a + w + b));
      { StripLeftJoin(a, w, b); }
      " " + CollapseSpaces(rest + w + b);
      " " + (CollapseSpaces(rest) + " " + CollapseSpaces(b));
      { Regroup(" ", CollapseSpaces(rest), " ", CollapseSpaces(b)); }
      " " + CollapseSpaces(rest) + " " + CollapseSpaces(b);
      { CollapseSpaceHead(a); }
      CollapseSpaces(a) + " " + CollapseSpaces(b);
    }
  }

  /** The inductive step of `CollapseRun` for a text that starts with another character. */
  lemma CollapseRunCharStep(a: string, w: string, b: string)
    requires |a| > 0 && !IsSpace(a[0])
    requires CollapseSpaces(a[1..] + w + b) == CollapseSpaces(a[1..]) + " " + CollapseSpaces(b)
    ensures CollapseSpaces(a + w + b) == CollapseSpaces(a) + " " + CollapseSpaces(b)
  {
    var rest := a[1..];
    var s := a + w + b;
    TailOfJoin(a, w, b);
    CollapseCharHead(s);
    CollapseCharHead(a);
    Regroup([a[0]], CollapseSpaces(rest), " ", CollapseSpaces(b));
  }

  /** One step of the collapse on a text that starts with a non-whitespace character. */
  lemma CollapseCharHead(s: string)
    requires |s| > 0 && !IsSpace(s[0])
    ensures CollapseSpaces(s) == [s[0]] + CollapseSpaces(s[1..])
  {
  }

  lemma TailOfJoin<T>(a: seq<T>, w: seq<T>, b: seq<T>)
    requires |a| > 0
    ensures (a + w + b)[0] == a[0] && (a + w + b)[1..] == a[1..] + w + b
  {
  }

  lemma Regroup<T>(p: seq<T>, q: seq<T>, r: seq<T>, t: seq<T>)
    ensures p + (q + r + t) == p + q + r + t
  {
  }

  /** A run of whitespace is stripped off entirely when what follows starts
      with a non-whitespace character. */
  lemma {:induction false} StripLeftSpaces(w: string, b: string)
    requires forall k :: 0 <= k < |w| ==> IsSpace(w[k])
    requires |b| == 0 || !IsSpace(b[0])
    ensures StripLeft(w + b) == b
  {
    if |w| > 0 {
      assert (w + b)[1..] == w[1..] + b;
      StripLeftSpaces(w[1..], b);
    } else {
      assert w + b == b;
    }
  }

  /** The character class `[a-z0-9\s.,!?-]` of line 14. */
  predicate Kept(c: char)
  {
    ('a' <= c <= 'z') || ('0' <= c <= '9') || IsSpace(c)
    || c == '.' || c == ',' || c == '!' || c == '?' || c == '-'
  }

  /** Line 14: deletes every character outside the class. */
  function KeepOnly(s: string): (r: string)
    ensures |r| <= |s|
    ensures forall i :: 0 <= i < |r| ==> Kept(r[i]) && r[i] in s
  {
    if |s| == 0 then ""
    else (if Kept(s[0]) then [s[0]] else "") + KeepOnly(s[1..])
  }

  /** The deletion keeps every copy of every allowed character, drops every
      other character, and keeps the survivors in their input order. */
  lemma KeepOnlyExact(s: string)
    ensures forall c :: multiset(KeepOnly(s))[c] == if Kept(c) then multiset(s)[c] else 0
    ensures IsSubseq(KeepOnly(s), s)
  {
    KeepOnlyMultiplicity(s);
    KeepOnlyInOrder(s);
  }

  lemma {:induction false} KeepOnlyMultiplicity(s: string)
    ensures forall c :: multiset(KeepOnly(s))[c] == if Kept(c) then multiset(s)[c] else 0
  {
    if |s| > 0 {
      var head: string := if Kept(s[0]) then [s[0]] else "";
      KeepOnlyMultiplicity(s[1..]);
      assert s == [s[0]] + s[1..];
      assert KeepOnly(s) == head + KeepOnly(s[1..]);
      assert multiset(KeepOnly(s)) == multiset(head) + multiset(KeepOnly(s[1..]));
      assert multiset(s) == multiset([s[0]]) + multiset(s[1..]);
    }
  }

  lemma {:induction false} KeepOnlyInOrder(s: string)
    ensures IsSubseq(KeepOnly(s), s)
  {
    if |s| > 0 {
      var tail := KeepOnly(s[1..]);
      KeepOnlyInOrder(s[1..]);
      if Kept(s[0]) {
        assert KeepOnly(s) == [s[0]] + tail;
        assert ([s[0]] + tail)[1..] == tail;
      } else {
        assert KeepOnly(s) == tail;
        KeepOnlySkips(s);
      }
    }
  }

  /** A dropped first character does not occur at the head of what is kept. */
  lemma KeepOnlySkips(s: string)
    requires |s| > 0 && !Kept(s[0])
    ensures IsSubseq(KeepOnly(s[1..]), s[1..]) ==> IsSubseq(KeepOnly(s[1..]), s)
  {
    var tail := KeepOnly(s[1..]);
    if |tail| > 0 {
      assert Kept(tail[0]);
    }
  }


  /** The characters a normalised text can hold: lower-case ASCII letters,
      digits, the plain space and `. , ! ? -`. */
  predicate Allowed(c: char)
  {
    ('a' <= c <= 'z') || ('0' <= c <= '9') || c == ' '
    || c == '.' || c == ',' || c == '!' || c == '?' || c == '-'
  }

  /** Lines 12-15 for a string: lower-case, collapse whitespace, delete the
      characters outside the class, strip. */
  function Normalize(s: string): (r: string)
    ensures forall i :: 0 <= i < |r| ==> Allowed(r[i])
    ensures |r| > 0 ==> r[0] != ' ' && r[|r| - 1] != ' '
    ensures NonSpaces(r) == KeepOnly(NonSpaces(Lower(s)))
  {
    var collapsed := CollapseSpaces(Lower(s));
    var kept := KeepOnly(collapsed);
    var r := Strip(kept);
    var i :| TrimmedAt(kept, r, i);
    NormalizedChars(collapsed, kept, r, i);
    TrimmedKeepsNonSpaces(kept, r, i);
    KeepOnlyNonSpaces(collapsed);
    CollapseKeepsNonSpaces(Lower(s));
    r
  }

  /** The characters that survive the deletion and the strip are allowed ones. */
  lemma NormalizedChars(collapsed: string, kept: string, r: string, i: int)
    requires forall j :: 0 <= j < |collapsed| && IsSpace(collapsed[j]) ==> collapsed[j] == ' '
    requires forall j :: 0 <= j < |kept| ==> Kept(kept[j]) && kept[j] in collapsed
    requires TrimmedAt(kept, r, i)
    ensures forall j :: 0 <= j < |r| ==> Allowed(r[j])
  {
    forall j | 0 <= j < |r|
      ensures Allowed(r[j])
    {
      assert r[j] == kept[i + j];
      var m :| 0 <= m < |collapsed| && collapsed[m] == r[j];
    }
  }

  /** Lines 9-15: a non-string gives the empty string. */
  function NormalizeText(v: PyValue): (r: string)
    ensures !v.PyStr? ==> r == ""
    ensures forall i :: 0 <= i < |r| ==> Allowed(r[i])
    ensures |r| > 0 ==> r[0] != ' ' && r[|r| - 1] != ' '
    ensures v.PyStr? ==> NonSpaces(r) == KeepOnly(NonSpaces(Lower(v.s)))
  {
    if v.PyStr? then Normalize(v.s) else ""
  }

  /** For a string, a whitespace run between two kept characters becomes
      exactly one space of the cleaned text. */
  lemma NormalizeTextJoinsRun(a: string, w: string, b: string)
    requires |a| > 0 && Solid(a[|a| - 1])
    requires |w| > 0 && forall k :: 0 <= k < |w| ==> IsSpace(w[k])
    requires |b| > 0 && Solid(b[0])
    ensures NormalizeText(PyStr(a + w + b)) == NormalizeText(PyStr(a)) + " " + NormalizeText(PyStr(b))
  {
    NormalizeJoinsRun(a, w, b);
  }

  /** The non-whitespace characters of `s`, in order. */
  function NonSpaces(s: string): string
  {
    if |s| == 0 then "" else (if IsSpace(s[0]) then "" else [s[0]]) + NonSpaces(s[1..])
  }

  lemma {:induction false} NonSpacesAppend(a: string, b: string)
    ensures NonSpaces(a + b) == NonSpaces(a) + NonSpaces(b)
  {
    if |a| == 0 {
      assert a + b == b;
    } else {
      assert (a + b)[1..] == a[1..] + b;
      NonSpacesAppend(a[1..], b);
    }
  }

  lemma {:induction false} NonSpacesOfSpaces(s: string)
    requires forall k :: 0 <= k < |s| ==> IsSpace(s[k])
    ensures NonSpaces(s) == ""
  {
    if |s| > 0 {
      NonSpacesOfSpaces(s[1..]);
    }
  }

  /** Collapsing whitespace keeps every other character. */
  lemma {:induction false} CollapseKeepsNonSpaces(s: string)
    ensures NonSpaces(CollapseSpaces(s)) == NonSpaces(s)
    decreases |s|
  {
    if |s| > 0 {
      if IsSpace(s[0]) {
        var rest := StripLeft(s);
        var k := |s| - |rest|;
        assert s == s[..k] + rest;
        NonSpacesOfSpaces(s[..k]);
        NonSpacesAppend(s[..k], rest);
        CollapseKeepsNonSpaces(rest);
        NonSpacesAppend(" ", CollapseSpaces(rest));
      } else {
        CollapseKeepsNonSpaces(s[1..]);
        NonSpacesAppend([s[0]], CollapseSpaces(s[1..]));
      }
    }
  }

  /** Deleting characters and dropping whitespace commute. */
  lemma {:induction false} KeepOnlyNonSpaces(s: string)
    ensures NonSpaces(KeepOnly(s)) == KeepOnly(NonSpaces(s))
  {
    if |s| > 0 {
      KeepOnlyNonSpaces(s[1..]);
      var head := if Kept(s[0]) then [s[0]] else "";
      NonSpacesAppend(head, KeepOnly(s[1..]));
      var ns := if IsSpace(s[0]) then "" else [s[0]];
      KeepOnlyAppend(ns, NonSpaces(s[1..]));
    }
  }

  lemma {:induction false} KeepOnlyAppend(a: string, b: string)
    ensures KeepOnly(a + b) == KeepOnly(a) + KeepOnly(b)
  {
    if |a| == 0 {
      assert a + b == b;
    } else {
      assert (a + b)[1..] == a[1..] + b;
      KeepOnlyAppend(a[1..], b);
    }
  }

  lemma TrimmedKeepsNonSpaces(s: string, r: string, i: int)
    requires TrimmedAt(s, r, i)
    ensures NonSpaces(r) == NonSpaces(s)
  {
    var head, tail := s[..i], s[i + |r|..];
    assert s == head + r + tail;
    assert forall k :: 0 <= k < |tail| ==> tail[k] == s[i + |r| + k];
    NonSpacesOfSpaces(head);
    NonSpacesOfSpaces(tail);
    NonSpacesAppend(head + r, tail);
    NonSpacesAppend(head, r);
  }

  lemma LowerWithoutCapitals(s: string)
    requires forall i :: 0 <= i < |s| ==> !('A' <= s[i] <= 'Z')
    ensures Lower(s) == s
  {
  }

  lemma KeepOnlyCons(c: char, s: string)
    ensures KeepOnly([c] + s) == (if Kept(c) then [c] else "") + KeepOnly(s)
  {
    assert ([c] + s)[1..] == s;
  }

  lemma CollapseCons(c: char, s: string)
    requires !IsSpace(c)
    ensures CollapseSpaces([c] + s) == [c] + CollapseSpaces(s)
  {
    assert ([c] + s)[1..] == s;
  }

  /** A character that survives normalisation unchanged and is not whitespace. */
  predicate Plain(c: char)
  {
    'a' <= c <= 'z'
  }

  /** A character the deletion removes. */
  predicate Dropped(c: char)
  {
    !Kept(c) && !('A' <= c <= 'Z')
  }

  lemma CollapseSpacedOut(x: char, d: char, y: char)
    requires Plain(x) && Dropped(d) && Plain(y)
    ensures CollapseSpaces([x, ' ', d, ' ', y]) == [x, ' ', d, ' ', y]
  {
    var s := [x, ' ', d, ' ', y];
    assert !IsSpace(x) && !IsSpace(d) && !IsSpace(y);
    assert SingleSpaced(s);
    CollapseSingleSpaced(s);
  }

  /** Every whitespace character is a plain space followed by a non-space. */
  predicate SingleSpaced(s: string)
  {
    forall i :: 0 <= i < |s| && IsSpace(s[i]) ==> s[i] == ' ' && (i + 1 < |s| ==> !IsSpace(s[i + 1]))
  }

  /** Collapsing leaves a string without runs of whitespace unchanged. */
  lemma {:induction false} CollapseSingleSpaced(s: string)
    requires SingleSpaced(s)
    ensures CollapseSpaces(s) == s
    decreases |s|
  {
    if |s| > 0 {
      var t := s[1..];
      SingleSpacedTail(s);
      CollapseSingleSpaced(t);
      if IsSpace(s[0]) {
        CollapseLoneSpace(s);
      } else {
        CollapseCons(s[0], t);
        assert s == [s[0]] + t;
      }
    }
  }

  /** Collapsing twice changes nothing more. */
  lemma CollapseIdempotent(s: string)
    ensures CollapseSpaces(CollapseSpaces(s)) == CollapseSpaces(s)
  {
    CollapseSingleSpaced(CollapseSpaces(s));
  }

  lemma SingleSpacedTail(s: string)
    requires |s| > 0 && SingleSpaced(s)
    ensures SingleSpaced(s[1..])
  {
    var t := s[1..];
    forall i | 0 <= i < |t| && IsSpace(t[i])
      ensures t[i] == ' ' && (i + 1 < |t| ==> !IsSpace(t[i + 1]))
    {
      assert t[i] == s[i + 1];
    }
  }

  /** A single space not followed by whitespace stays as it is. */
  lemma CollapseLoneSpace(s: string)
    requires |s| > 0 && s[0] == ' ' && (|s| > 1 ==> !IsSpace(s[1]))
    ensures CollapseSpaces(s) == [' '] + CollapseSpaces(s[1..])
  {
    assert StripLeft(s[1..]) == s[1..];
  }

  lemma CollapseSingle(y: char)
    requires Plain(y)
    ensures CollapseSpaces([y]) == [y]
  {
    CollapseCons(y, "");
    assert [y] + "" == [y];
  }

  lemma KeepSpacedOut(x: char, d: char, y: char)
    requires Plain(x) && Dropped(d) && Plain(y)
    ensures KeepOnly([x, ' ', d, ' ', y]) == [x, ' ', ' ', y]
  {
    var s := [x, ' ', d, ' ', y];
    KeepSingleChar(s[4..]);
    KeepOnlyHead(s[3..]);
    KeepOnlyHead(s[2..]);
    KeepOnlyHead(s[1..]);
    KeepOnlyHead(s);
  }

  lemma KeepSingleChar(s: string)
    requires |s| == 1 && Kept(s[0])
    ensures KeepOnly(s) == s
  {
    assert s[1..] == "";
  }

  /** One step of the deletion, on a slice. */
  lemma KeepOnlyHead(s: string)
    requires |s| > 0
    ensures KeepOnly(s) == (if Kept(s[0]) then [s[0]] else "") + KeepOnly(s[1..])
  {
  }

  lemma CollapseDoubled(x: char, y: char)
    requires Plain(x) && Plain(y)
    ensures CollapseSpaces([x, ' ', ' ', y]) == [x, ' ', y]
  {
    var s := [x, ' ', ' ', y];
    CollapseDoubleSpace(s[1..]);
    CollapseCons(x, s[1..]);
    assert s == [x] + s[1..];
  }

  lemma CollapseDoubleSpace(s: string)
    requires |s| == 3 && s[0] == ' ' && s[1] == ' ' && Plain(s[2])
    ensures CollapseSpaces(s) == [' ', s[2]]
  {
    CollapseSpaceHead(s);
    StripTwoSpaces(s);
    CollapseSingle(s[2]);
  }

  lemma CollapseSpaceHead(s: string)
    requires |s| > 0 && IsSpace(s[0])
    ensures CollapseSpaces(s) == " " + CollapseSpaces(StripLeft(s))
  {
  }

  lemma StripTwoSpaces(s: string)
    requires |s| == 3 && s[0] == ' ' && s[1] == ' ' && Plain(s[2])
    ensures StripLeft(s) == [s[2]]
  {
    StripLeftSpaceHead(s);
    StripLeftSpaceHead(s[1..]);
    assert s[1..][1..] == s[2..];
    StripLeftPlain(s[2..]);
  }

  lemma StripLeftSpaceHead(s: string)
    requires |s| > 0 && IsSpace(s[0])
    ensures StripLeft(s) == StripLeft(s[1..])
  {
  }

  lemma StripLeftPlain(s: string)
    requires |s| == 1 && Plain(s[0])
    ensures StripLeft(s) == s == [s[0]]
  {
  }

  lemma KeepSingle(x: char, y: char)
    requires Plain(x) && Plain(y)
    ensures KeepOnly([x, ' ', y]) == [x, ' ', y]
  {
    KeepOnlyCons(y, "");
    KeepOnlyCons(' ', [y]);
    KeepOnlyCons(x, [' ', y]);
  }

  lemma FirstPass(x: char, d: char, y: char)
    requires Plain(x) && Dropped(d) && Plain(y)
    ensures Normalize([x, ' ', d, ' ', y]) == [x, ' ', ' ', y]
  {
    LowerWithoutCapitals([x, ' ', d, ' ', y]);
    CollapseSpacedOut(x, d, y);
    KeepSpacedOut(x, d, y);
    StripUnchanged([x, ' ', ' ', y]);
  }

  lemma SecondPass(x: char, y: char)
    requires Plain(x) && Plain(y)
    ensures Normalize([x, ' ', ' ', y]) == [x, ' ', y]
  {
    LowerWithoutCapitals([x, ' ', ' ', y]);
    CollapseDoubled(x, y);
    KeepSingle(x, y);
    StripUnchanged([x, ' ', y]);
  }

  /** Whitespace is collapsed before the deletion, so a deleted character
      between two spaces leaves two spaces behind, and a second pass changes
      the result: normalisation is not idempotent (for instance on "a @ b"). */
  lemma NormalizeNotIdempotent(x: char, d: char, y: char)
    requires Plain(x) && Dropped(d) && Plain(y)
    ensures Normalize([x, ' ', d, ' ', y]) == [x, ' ', ' ', y]
    ensures Normalize(Normalize([x, ' ', d, ' ', y])) == [x, ' ', y]
    ensures Normalize(Normalize([x, ' ', d, ' ', y])) != Normalize([x, ' ', d, ' ', y])
  {
    FirstPass(x, d, y);
    SecondPass(x, y);
  }

  /** A character that normalisation keeps, and keeps as a non-whitespace one. */
  predicate Solid(c: char)
  {
    !IsSpace(c) && Kept(LowerChar(c))
  }

  /** Lines 13-15 on a whitespace run between two kept characters: the run
      becomes exactly one space, and the text on either side is normalised
      on its own. */
  lemma NormalizeJoinsRun(a: string, w: string, b: string)
    requires |a| > 0 && Solid(a[|a| - 1])
    requires |w| > 0 && forall k :: 0 <= k < |w| ==> IsSpace(w[k])
    requires |b| > 0 && Solid(b[0])
    ensures Normalize(a + w + b) == Normalize(a) + " " + Normalize(b)
  {
    var la, lw, lb := Lower(a), Lower(w), Lower(b);
    LowerJoin(a, w, b);
    CollapseRun(la, lw, lb);
    var ca, cb := CollapseSpaces(la), CollapseSpaces(lb);
    CollapseKeepsLast(la);
    CollapseCharHead(lb);
    KeepOnlyJoin(ca, cb);
    var x, y := KeepOnly(ca), KeepOnly(cb);
    KeepOnlyKeepsLast(ca);
    KeepOnlyHead(cb);
    StripJoin(x, " ", y);
  }

  lemma LowerJoin(a: string, w: string, b: string)
    requires forall k :: 0 <= k < |w| ==> IsSpace(w[k])
    ensures Lower(a + w + b) == Lower(a) + Lower(w) + Lower(b)
    ensures forall k :: 0 <= k < |w| ==> IsSpace(Lower(w)[k])
  {
  }

  lemma KeepOnlyJoin(x: string, y: string)
    ensures KeepOnly(x + " " + y) == KeepOnly(x) + " " + KeepOnly(y)
  {
    KeepOnlyAppend(x + " ", y);
    KeepOnlyAppend(x, " ");
    KeepOnlyCons(' ', "");
    assert [' '] + "" == " ";
  }

  /** Collapsing keeps a final non-whitespace character in place. */
  lemma {:induction false} CollapseKeepsLast(s: string)
    requires |s| > 0 && !IsSpace(s[|s| - 1])
    ensures EndsWith(CollapseSpaces(s), s[|s| - 1])
    decreases |s|
  {
    if IsSpace(s[0]) {
      StripLeftKeepsLast(s);
      CollapseKeepsLast(StripLeft(s));
      CollapseSpaceHead(s);
      EndsWithCons(' ', CollapseSpaces(StripLeft(s)), s[|s| - 1]);
    } else if |s| > 1 {
      TailKeepsLast(s);
      CollapseKeepsLast(s[1..]);
      CollapseCharHead(s);
      EndsWithCons(s[0], CollapseSpaces(s[1..]), s[|s| - 1]);
    } else {
      CollapseCharHead(s);
      assert CollapseSpaces(s[1..]) == "";
    }
  }

  /** `t` is non-empty and its last character is `c`. */
  predicate EndsWith(t: string, c: char)
  {
    |t| > 0 && t[|t| - 1] == c
  }

  lemma EndsWithCons(h: char, t: string, c: char)
    requires EndsWith(t, c)
    ensures EndsWith([h] + t, c)
  {
  }

  /** The deletion keeps a final allowed character in place. */
  lemma KeepOnlyKeepsLast(s: string)
    requires |s| > 0 && Kept(s[|s| - 1])
    ensures EndsWith(KeepOnly(s), s[|s| - 1])
  {
    var init, last := s[..|s| - 1], s[|s| - 1];
    InitLast(s);
    KeepOnlyAppend(init, [last]);
    KeepSingleChar([last]);
  }

  lemma InitLast<T>(s: seq<T>)
    requires |s| > 0
    ensures s == s[..|s| - 1] + [s[|s| - 1]]
  {
  }

  /** The two record cleaners: the key they deduplicate on and what they do
      to a kept record. */
  datatype Cleaner = TweetCleaner | TransactionCleaner

  function KeyOf(c: Cleaner): string
  {
    match c
    case TweetCleaner => "id_str"
    case TransactionCleaner => "hash"
  }

  /** Lines 30-33: the cleaned texts are added only for the fields present. */
  function AnnotateTweet(m: map<string, PyValue>): (r: map<string, PyValue>)
    ensures "full_text" in m ==> "cleaned_full_text" in r && r["cleaned_full_text"] == PyStr(NormalizeText(m["full_text"]))
    ensures "text" in m ==> "cleaned_text" in r && r["cleaned_text"] == PyStr(NormalizeText(m["text"]))
    ensures forall k :: k in m && k != "cleaned_full_text" && k != "cleaned_text" ==> k in r && r[k] == m[k]
    ensures forall k :: k in r ==> k in m || (k == "cleaned_full_text" && "full_text" in m) || (k == "cleaned_text" && "text" in m)
  {
    var withFull := if "full_text" in m then m["cleaned_full_text" := PyStr(NormalizeText(m["full_text"]))] else m;
    if "text" in withFull then withFull["cleaned_text" := PyStr(NormalizeText(withFull["text"]))] else withFull
  }

  /** The fields converted to numbers, in the order of line 74. */
  const NumericFields: seq<string> :=
    ["value", "gasPrice", "gasUsed", "blockNumber", "timeStamp", "nonce", "transactionIndex", "gas", "cumulativeGasUsed"]

  /** Lines 75-79: a digit string becomes an integer, another numeral a float,
      and anything else stays as it is. */
  function ConvertField(v: PyValue): (r: PyValue)
    ensures !v.PyStr? ==> r == v
    ensures v.PyStr? && IsDigitString(v.s) ==> r == PyInt(DigitsValue(v.s))
    ensures r.PyStr? ==> r == v
    ensures v.PyStr? ==> (r.PyFloat? <==> !IsDigitString(v.s) && ParseDecimal(v.s).Some?)
    ensures v.PyStr? && r.PyFloat? ==> ParseDecimal(v.s) == Some(r.x)
  {
    match v
    case PyStr(s) =>
      if IsDigitString(s) then PyInt(DigitsValue(s))
      else (match ParseDecimal(s)
            case Some(x) => PyFloat(x)
            case None => v)
    case _ => v
  }

  /** The loop of line 74 over the fields `fields`. */
  function ConvertFields(m: map<string, PyValue>, fields: seq<string>): (r: map<string, PyValue>)
    requires NoDuplicates(fields)
    ensures r.Keys == m.Keys
    ensures forall k :: k in m ==> r[k] == if k in fields then ConvertField(m[k]) else m[k]
  {
    if |fields| == 0 then m
    else
      var rest := ConvertFields(m, fields[1..]);
      var k := fields[0];
      assert k !in fields[1..];
      if k in rest then rest[k := ConvertField(rest[k])] else rest
  }

  /** Lines 73-79: every numeric field present is converted, every other
      field is left alone. */
  function ConvertNumbers(m: map<string, PyValue>): (r: map<string, PyValue>)
    ensures r.Keys == m.Keys
    ensures forall k :: k in m ==> r[k] == if k in NumericFields then ConvertField(m[k]) else m[k]
  {
    ConvertFields(m, NumericFields)
  }

  /** A digit string produced by printing a number converts back to it. */
  lemma ConvertShownNumber(n: nat)
    ensures ConvertField(PyStr(ShowNat(n))) == PyInt(n)
  {
    ParseShowRoundTrip(n);
  }

  /** A numeral with a decimal point, as Python prints a float, converts
      to its value. */
  lemma ConvertShownDecimal(whole: nat, frac: string)
    requires AllDigits(frac)
    ensures ConvertField(PyStr(ShowNat(whole) + "." + frac)) == PyFloat(PointValue(whole, frac))
  {
    var s := ShowNat(whole) + "." + frac;
    assert !IsDigitString(s) by {
      assert s[|ShowNat(whole)|] == '.';
    }
    ParseShownDecimal(whole, frac);
    ConvertNumeral(s, PointValue(whole, frac));
  }

  lemma ConvertNumeral(s: string, x: real)
    requires !IsDigitString(s) && ParseDecimal(s) == Some(x)
    ensures ConvertField(PyStr(s)) == PyFloat(x)
  {
  }

  /** Converting a record a second time changes nothing. */
  lemma ConvertNumbersIdempotent(m: map<string, PyValue>)
    ensures ConvertNumbers(ConvertNumbers(m)) == ConvertNumbers(m)
  {
    var once := ConvertNumbers(m);
    forall k | k in once
      ensures ConvertNumbers(once)[k] == once[k]
    {
      if k in NumericFields {
        assert ConvertField(ConvertField(m[k])) == ConvertField(m[k]);
      }
    }
  }

  /** Annotating a tweet a second time changes nothing: the cleaned texts are
      recomputed from the unchanged originals. */
  lemma AnnotateTweetIdempotent(m: map<string, PyValue>)
    ensures AnnotateTweet(AnnotateTweet(m)) == AnnotateTweet(m)
  {
    var once := AnnotateTweet(m);
    var twice := AnnotateTweet(once);
    AnnotationKeysDistinct();
    forall k | k in twice
      ensures k in once && twice[k] == once[k]
    {
      if k == "cleaned_full_text" && "full_text" in m {
        assert once["full_text"] == m["full_text"];
      } else if k == "cleaned_text" && "text" in m {
        assert once["text"] == m["text"];
      }
    }
  }

  /** The original and the cleaned field names are four different keys. */
  lemma AnnotationKeysDistinct()
    ensures "full_text" != "cleaned_full_text" && "full_text" != "cleaned_text"
    ensures "text" != "cleaned_full_text" && "text" != "cleaned_text"
    ensures "cleaned_full_text" != "cleaned_text" && "full_text" != "text"
  {
    assert "full_text"[0] != "cleaned_full_text"[0] && "full_text"[0] != "cleaned_text"[0];
    assert "text"[0] != "cleaned_full_text"[0] && "text"[0] != "cleaned_text"[0];
    assert "cleaned_full_text"[8] != "cleaned_text"[8] && "full_text"[0] != "text"[0];
  }

  /** What a cleaner does to a record it keeps. */
  function Transform(c: Cleaner, m: map<string, PyValue>): (r: map<string, PyValue>)
    ensures KeyOf(c) in m ==> KeyOf(c) in r && r[KeyOf(c)] == m[KeyOf(c)]
  {
    match c
    case TweetCleaner => TweetKeyNotAnnotation(); AnnotateTweet(m)
    case TransactionCleaner => HashNotNumeric(); ConvertNumbers(m)
  }

  lemma TweetKeyNotAnnotation()
    ensures "id_str" != "cleaned_full_text" && "id_str" != "cleaned_text"
  {
    assert "id_str"[0] != "cleaned_full_text"[0];
    assert "id_str"[0] != "cleaned_text"[0];
  }

  lemma HashNotNumeric()
    ensures "hash" !in NumericFields
  {
    forall i | 0 <= i < |NumericFields|
      ensures NumericFields[i] != "hash"
    {
      assert NumericFields[i][0] != 'h' || |NumericFields[i]| != 4;
    }
  }

  /** Lines 22 and 67: a dictionary whose key is present and truthy. */
  predicate Candidate(v: PyValue, key: string)
  {
    v.PyDict? && key in v.entries && Truthy(v.entries[key])
  }

  function IdOf(v: PyValue, key: string): PyValue
    requires Candidate(v, key)
  {
    v.entries[key]
  }

  /** The candidate at `j` is the first one with its id. */
  predicate FirstWithId(data: seq<PyValue>, key: string, j: int)
  {
    && 0 <= j < |data|
    && Candidate(data[j], key)
    && forall l :: 0 <= l < j && Candidate(data[l], key) ==> IdOf(data[l], key) != IdOf(data[j], key)
  }

  /** The membership test of lines 25 and 69 raises `TypeError` for a
      candidate whose id cannot be hashed. */
  predicate Raises(data: seq<PyValue>, key: string)
  {
    exists j :: 0 <= j < |data| && Candidate(data[j], key) && !Hashable(IdOf(data[j], key))
  }

  /** The ids of the candidates among the first `n` records. */
  function SeenIds(data: seq<PyValue>, key: string, n: nat): set<PyValue>
    requires n <= |data|
  {
    set j | 0 <= j < n && Candidate(data[j], key) :: IdOf(data[j], key)
  }

  lemma SeenIdsStep(data: seq<PyValue>, key: string, i: nat)
    requires i < |data|
    ensures SeenIds(data, key, i + 1) == SeenIds(data, key, i) + if Candidate(data[i], key) then {IdOf(data[i], key)} else {}
  {
  }

  /** A candidate whose id was seen before is not the first with it. */
  lemma SeenNotFirst(data: seq<PyValue>, key: string, i: nat)
    requires i < |data| && Candidate(data[i], key) && IdOf(data[i], key) in SeenIds(data, key, i)
    ensures !FirstWithId(data, key, i)
  {
  }

  /** A candidate whose id was not seen before is the first with it. */
  lemma UnseenFirst(data: seq<PyValue>, key: string, i: nat)
    requires i < |data| && Candidate(data[i], key) && IdOf(data[i], key) !in SeenIds(data, key, i)
    ensures FirstWithId(data, key, i)
  {
    forall l | 0 <= l < i && Candidate(data[l], key)
      ensures IdOf(data[l], key) != IdOf(data[i], key)
    {
      assert IdOf(data[l], key) in SeenIds(data, key, i);
    }
  }

  lemma RaisesAt(data: seq<PyValue>, key: string, i: nat)
    requires i < |data| && Candidate(data[i], key) && !Hashable(IdOf(data[i], key))
    ensures Raises(data, key)
  {
  }

  lemma NeverRaises(data: seq<PyValue>, key: string, seen: set<PyValue>)
    requires Scanned(data, key, |data|, seen)
    ensures !Raises(data, key)
  {
  }

  /** The loop invariant of `CleanRecords` about ids after the first `n`
      records: every candidate's id was hashable and `seen` holds them all. */
  predicate Scanned(data: seq<PyValue>, key: string, n: nat, seen: set<PyValue>)
    requires n <= |data|
  {
    && (forall j :: 0 <= j < n && Candidate(data[j], key) ==> Hashable(IdOf(data[j], key)))
    && seen == SeenIds(data, key, n)
  }

  lemma ScanStep(data: seq<PyValue>, key: string, i: nat, seen: set<PyValue>)
    requires i < |data| && Scanned(data, key, i, seen)
    requires Candidate(data[i], key) ==> Hashable(IdOf(data[i], key))
    ensures Scanned(data, key, i + 1, if Candidate(data[i], key) then seen + {IdOf(data[i], key)} else seen)
  {
    SeenIdsStep(data, key, i);
  }

  /** The loop invariant of `CleanRecords` after the first `n` records: `out`
      holds the transformed first occurrences among them, in input order, and
      `kept` their positions. */
  predicate KeptSoFar(data: seq<PyValue>, c: Cleaner, n: nat, out: seq<PyValue>, kept: seq<nat>)
  {
    && |kept| == |out|
    && (forall a, b :: 0 <= a < b < |kept| ==> kept[a] < kept[b])
    && (forall a :: 0 <= a < |kept| ==> kept[a] < n)
    && (forall a :: 0 <= a < |kept| ==>
          FirstWithId(data, KeyOf(c), kept[a]) && out[a] == PyDict(Transform(c, data[kept[a]].entries)))
    && (forall j :: 0 <= j < n && FirstWithId(data, KeyOf(c), j) ==> j in kept)
  }

  /** Skipping a record that is not the first with its id keeps the invariant. */
  lemma SkipStep(data: seq<PyValue>, c: Cleaner, i: nat, out: seq<PyValue>, kept: seq<nat>)
    requires i < |data| && KeptSoFar(data, c, i, out, kept) && !FirstWithId(data, KeyOf(c), i)
    ensures KeptSoFar(data, c, i + 1, out, kept)
  {
  }

  /** Keeping the first record with its id keeps the invariant. */
  lemma KeepStep(data: seq<PyValue>, c: Cleaner, i: nat, out: seq<PyValue>, kept: seq<nat>)
    requires i < |data| && KeptSoFar(data, c, i, out, kept) && FirstWithId(data, KeyOf(c), i)
    ensures KeptSoFar(data, c, i + 1, out + [PyDict(Transform(c, data[i].entries))], kept + [i])
  {
    var out', kept' := out + [PyDict(Transform(c, data[i].entries))], kept + [i];
    KeepStepRows(data, c, i, out, kept);
    KeepStepComplete(data, c, i, kept);
    KeepStepOrder(i, kept);
  }

  lemma KeepStepOrder(i: nat, kept: seq<nat>)
    requires forall a, b :: 0 <= a < b < |kept| ==> kept[a] < kept[b]
    requires forall a :: 0 <= a < |kept| ==> kept[a] < i
    ensures forall a, b :: 0 <= a < b < |kept + [i]| ==> (kept + [i])[a] < (kept + [i])[b]
    ensures forall a :: 0 <= a < |kept + [i]| ==> (kept + [i])[a] < i + 1
  {
  }

  lemma KeepStepRows(data: seq<PyValue>, c: Cleaner, i: nat, out: seq<PyValue>, kept: seq<nat>)
    requires i < |data| && KeptSoFar(data, c, i, out, kept) && FirstWithId(data, KeyOf(c), i)
    ensures var out', kept' := out + [PyDict(Transform(c, data[i].entries))], kept + [i];
            forall a :: 0 <= a < |kept'| ==>
              FirstWithId(data, KeyOf(c), kept'[a]) && out'[a] == PyDict(Transform(c, data[kept'[a]].entries))
  {
    var out', kept' := out + [PyDict(Transform(c, data[i].entries))], kept + [i];
    forall a | 0 <= a < |kept'|
      ensures FirstWithId(data, KeyOf(c), kept'[a]) && out'[a] == PyDict(Transform(c, data[kept'[a]].entries))
    {
      if a < |kept| {
        assert kept'[a] == kept[a] && out'[a] == out[a];
      }
    }
  }

  lemma KeepStepComplete(data: seq<PyValue>, c: Cleaner, i: nat, kept: seq<nat>)
    requires i < |data| && forall j :: 0 <= j < i && FirstWithId(data, KeyOf(c), j) ==> j in kept
    ensures forall j :: 0 <= j < i + 1 && FirstWithId(data, KeyOf(c), j) ==> j in kept + [i]
  {
  }

  /** Lines 17-38 and 62-81: skips non-dictionaries and records without a
      truthy key, keeps the first record for each key in input order, and
      transforms it. `kept` names the input positions the output came from. */
  method CleanRecords(data: seq<PyValue>, c: Cleaner) returns (r: Result<seq<PyValue>, PyError>, ghost kept: seq<nat>)
    ensures r.Err? <==> Raises(data, KeyOf(c))
    ensures r.Err? ==> r.error == TypeError
    ensures r.Ok? ==> KeptSoFar(data, c, |data|, r.value, kept)
  {
    var key := KeyOf(c);
    var out: seq<PyValue> := [];
    var seen: set<PyValue> := {};
    kept := [];
    for i := 0 to |data|
      invariant Scanned(data, key, i, seen)
      invariant KeptSoFar(data, c, i, out, kept)
    {
      var record := data[i];
      if !Candidate(record, key) {
        ScanStep(data, key, i, seen);
        SkipStep(data, c, i, out, kept);
        continue;
      }
      var id := record.entries[key];
      if !Hashable(id) {
        RaisesAt(data, key, i);
        return Err(TypeError), [];
      }
      ScanStep(data, key, i, seen);
      if id in seen {
        SeenNotFirst(data, key, i);
        SkipStep(data, c, i, out, kept);
        continue;
      }
      UnseenFirst(data, key, i);
      KeepStep(data, c, i, out, kept);
      seen := seen + {id};
      out := out + [PyDict(Transform(c, record.entries))];
      kept := kept + [i];
    }
    NeverRaises(data, key, seen);
    r := Ok(out);
  }

  /** The kept records have pairwise different keys, and every first
      occurrence of a key is among them. */
  lemma KeptIdsDistinct(data: seq<PyValue>, c: Cleaner, out: seq<PyValue>, kept: seq<nat>)
    requires KeptSoFar(data, c, |data|, out, kept)
    ensures forall i :: 0 <= i < |out| ==> Candidate(out[i], KeyOf(c))
    ensures forall i, j :: 0 <= i < j < |out| ==> IdOf(out[i], KeyOf(c)) != IdOf(out[j], KeyOf(c))
    ensures forall j :: FirstWithId(data, KeyOf(c), j) ==>
              exists i :: 0 <= i < |out| && out[i] == PyDict(Transform(c, data[j].entries))
  {
    forall j | FirstWithId(data, KeyOf(c), j)
      ensures exists i :: 0 <= i < |out| && out[i] == PyDict(Transform(c, data[j].entries))
    {
      var i :| 0 <= i < |kept| && kept[i] == j;
    }
  }

  /** Lines 17-38: tweets deduplicated on `id_str`, with cleaned texts. */
  method CleanTwitterData(data: seq<PyValue>) returns (r: Result<seq<PyValue>, PyError>)
    ensures r.Err? <==> Raises(data, "id_str")
    ensures r.Err? ==> r.error == TypeError
    ensures r.Ok? ==> forall i :: 0 <= i < |r.value| ==> Candidate(r.value[i], "id_str")
    ensures r.Ok? ==> forall i, j :: 0 <= i < j < |r.value| ==> IdOf(r.value[i], "id_str") != IdOf(r.value[j], "id_str")
    ensures r.Ok? ==> forall j :: FirstWithId(data, "id_str", j) ==>
              exists i :: 0 <= i < |r.value| && r.value[i] == PyDict(AnnotateTweet(data[j].entries))
    ensures r.Ok? ==> exists kept :: KeptSoFar(data, TweetCleaner, |data|, r.value, kept)
  {
    ghost var kept;
    r, kept := CleanRecords(data, TweetCleaner);
    if r.Ok? {
      KeptIdsDistinct(data, TweetCleaner, r.value, kept);
      assert KeptSoFar(data, TweetCleaner, |data|, r.value, kept);
    }
  }

  /** Lines 62-81: transactions deduplicated on `hash`, with numeric fields
      converted. */
  method CleanEtherscanTransactions(data: seq<PyValue>) returns (r: Result<seq<PyValue>, PyError>)
    ensures r.Err? <==> Raises(data, "hash")
    ensures r.Err? ==> r.error == TypeError
    ensures r.Ok? ==> forall i :: 0 <= i < |r.value| ==> Candidate(r.value[i], "hash")
    ensures r.Ok? ==> forall i, j :: 0 <= i < j < |r.value| ==> IdOf(r.value[i], "hash") != IdOf(r.value[j], "hash")
    ensures r.Ok? ==> forall j :: FirstWithId(data, "hash", j) ==>
              exists i :: 0 <= i < |r.value| && r.value[i] == PyDict(ConvertNumbers(data[j].entries))
    ensures r.Ok? ==> exists kept :: KeptSoFar(data, TransactionCleaner, |data|, r.value, kept)
  {
    ghost var kept;
    r, kept := CleanRecords(data, TransactionCleaner);
    if r.Ok? {
      KeptIdsDistinct(data, TransactionCleaner, r.value, kept);
      assert KeptSoFar(data, TransactionCleaner, |data|, r.value, kept);
    }
  }

  /** The error object of line 86. */
  const MalformedScraped: PyValue := PyDict(map["error" := PyStr("Malformed scraped data")])

  /** Lines 83-91: the cleaned text is added, and the cleaned title only when
      a title is present; everything else is kept. */
  function CleanScrapedWebsiteData(v: PyValue): (r: PyValue)
    ensures !(v.PyDict? && "scraped_text_content" in v.entries) ==> r == MalformedScraped
    ensures v.PyDict? && "scraped_text_content" in v.entries ==>
              && r.PyDict?
              && "cleaned_scraped_text_content" in r.entries
              && r.entries["cleaned_scraped_text_content"] == PyStr(NormalizeText(v.entries["scraped_text_content"]))
              && ("title" in v.entries ==>
                    "cleaned_title" in r.entries && r.entries["cleaned_title"] == PyStr(NormalizeText(v.entries["title"])))
              && (forall k :: k in v.entries && k != "cleaned_scraped_text_content" && k != "cleaned_title" ==>
                                k in r.entries && r.entries[k] == v.entries[k])
              && (forall k :: k in r.entries ==>
                    k in v.entries || k == "cleaned_scraped_text_content" || (k == "cleaned_title" && "title" in v.entries))
  {
    if !v.PyDict? || "scraped_text_content" !in v.entries then MalformedScraped
    else
      var m := v.entries["cleaned_scraped_text_content" := PyStr(NormalizeText(v.entries["scraped_text_content"]))];
      PyDict(if "title" in m then m["cleaned_title" := PyStr(NormalizeText(m["title"]))] else m)
  }
}
