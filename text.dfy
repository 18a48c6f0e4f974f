/** Python string operations used by the core, on `string` (a sequence of
    code points): `strip`, slicing `s[:n]`, `replace`, `in`, `upper`,
    `isdigit` and `int(...)`. */
module Text {
  import opened Common

  /** Python's `str.isspace` for a single code point. */
  predicate IsSpace(c: char) {
    c == ' ' || ('\t' <= c <= '\r') || ('\U{1C}' <= c <= '\U{1F}') || c == '\U{85}' || c == '\U{A0}'
    || c == '\U{1680}' || ('\U{2000}' <= c <= '\U{200A}') || c == '\U{2028}' || c == '\U{2029}'
    || c == '\U{202F}' || c == '\U{205F}' || c == '\U{3000}'
  }

  function StripLeft(s: string): (r: string)
    ensures |r| <= |s|
    decreases |s|
  {
    if |s| > 0 && IsSpace(s[0]) then StripLeft(s[1..]) else s
  }

  function StripRight(s: string): (r: string)
    ensures |r| <= |s|
    decreases |s|
  {
    if |s| > 0 && IsSpace(s[|s| - 1]) then StripRight(s[..|s| - 1]) else s
  }

  /** StripLeft cuts a whitespace prefix and leaves no leading whitespace. */
  lemma {:induction false} StripLeftSpec(s: string)
    ensures var r := StripLeft(s);
      && |r| <= |s| && r == s[|s| - |r|..]
      && (forall k :: 0 <= k < |s| - |r| ==> IsSpace(s[k]))
      && (r == [] || !IsSpace(r[0]))
    decreases |s|
  {
    if |s| > 0 && IsSpace(s[0]) {
      StripLeftSpec(s[1..]);
      var r := StripLeft(s);
      forall k | 0 < k < |s| - |r| ensures IsSpace(s[k]) {
        assert s[k] == s[1..][k - 1];
      }
    }
  }

  /** StripRight cuts a whitespace suffix and leaves no trailing whitespace. */
  lemma {:induction false} StripRightSpec(s: string)
    ensures var r := StripRight(s);
      && |r| <= |s| && r == s[..|r|]
      && (forall k :: |r| <= k < |s| ==> IsSpace(s[k]))
      && (r == [] || !IsSpace(r[|r| - 1]))
    decreases |s|
  {
    if |s| > 0 && IsSpace(s[|s| - 1]) {
      StripRightSpec(s[..|s| - 1]);
      var r := StripRight(s);
      forall k | |r| <= k < |s| - 1 ensures IsSpace(s[k]) {
        assert s[k] == s[..|s| - 1][k];
      }
    }
  }

  /** Python's `s.strip()`. */
  function Strip(s: string): string {
    StripRight(StripLeft(s))
  }

  /** The stripped string has no surrounding whitespace, and what was cut off
      on either side was whitespace only. */
  lemma StripSpec(s: string)
    ensures var r := Strip(s); var i := |s| - |StripLeft(s)|;
      && i + |r| <= |s| && r == s[i..i + |r|]
      && (forall k :: 0 <= k < i ==> IsSpace(s[k]))
      && (forall k :: i + |r| <= k < |s| ==> IsSpace(s[k]))
      && (r == [] || (!IsSpace(r[0]) && !IsSpace(r[|r| - 1])))
  {
    var l := StripLeft(s);
    var r := StripRight(l);
    var i := |s| - |l|;
    StripLeftSpec(s);
    StripRightSpec(l);
    StripInside(s, l, r);
  }

  /** A prefix r of a suffix l of s sits inside s; what follows it in s is
      what follows it in l. */
  lemma StripInside(s: string, l: string, r: string)
    requires |l| <= |s| && l == s[|s| - |l|..] && |r| <= |l| && r == l[..|r|]
    requires forall k :: |r| <= k < |l| ==> IsSpace(l[k])
    ensures r == s[|s| - |l|..|s| - |l| + |r|]
    ensures r == [] || r[0] == l[0]
    ensures forall k :: |s| - |l| + |r| <= k < |s| ==> IsSpace(s[k])
  {
    var i := |s| - |l|;
    forall k | i + |r| <= k < |s| ensures IsSpace(s[k]) {
      assert s[k] == l[k - i];
    }
  }

  /** Stripping twice is stripping once. */
  lemma StripIdempotent(s: string)
    ensures Strip(Strip(s)) == Strip(s)
  {
    var r := Strip(s);
    assert r == [] || (!IsSpace(r[0]) && !IsSpace(r[|r| - 1])) by { StripSpec(s); }
    assert StripLeft(r) == r;
    assert StripRight(r) == r;
  }

  /** Python's slice `s[:n]`. */
  function Take(s: string, n: nat): (r: string)
    ensures |r| <= n && |r| <= |s|
    ensures r == s[..|r|]
    ensures |s| <= n ==> r == s
  {
    if |s| <= n then s else s[..n]
  }

  /** `sub in s`. */
  predicate Contains(s: string, sub: string) {
    exists i {:trigger s[i..]} :: 0 <= i <= |s| - |sub| && s[i..][..|sub|] == sub
  }

  /** Python's `s.replace(pat, rep)`: non-overlapping occurrences, left to right. */
  function ReplaceAll(s: string, pat: string, rep: string): string
    requires pat != []
    decreases |s|
  {
    if |s| == 0 then []
    else if |pat| <= |s| && s[..|pat|] == pat then rep + ReplaceAll(s[|pat|..], pat, rep)
    else [s[0]] + ReplaceAll(s[1..], pat, rep)
  }

  /** Replacing a single character by something that does not contain it
      leaves no occurrence of it. */
  lemma {:induction false} ReplaceCharRemoves(s: string, c: char, rep: string)
    requires c !in rep
    ensures c !in ReplaceAll(s, [c], rep)
    decreases |s|
  {
    if |s| > 0 {
      ReplaceCharRemoves(s[1..], c, rep);
    }
  }

  /** Replacing a character by a string never introduces a character that was
      neither in the input nor in the replacement. */
  lemma {:induction false} ReplaceCharIntroducesNothing(s: string, c: char, rep: string, x: char)
    requires x in ReplaceAll(s, [c], rep)
    ensures x in s || x in rep
    decreases |s|
  {
    if |s| > 0 {
      if s[..1] == [c] {
        if x !in rep { ReplaceCharIntroducesNothing(s[1..], c, rep, x); }
      } else {
        if x != s[0] { ReplaceCharIntroducesNothing(s[1..], c, rep, x); }
      }
    }
  }

  /** Replacing a character distributes over concatenation: no occurrence of
      a one-character pattern can straddle the seam. */
  lemma {:induction false} ReplaceCharConcat(x: string, y: string, c: char, rep: string)
    ensures ReplaceAll(x + y, [c], rep) == ReplaceAll(x, [c], rep) + ReplaceAll(y, [c], rep)
    decreases |x|
  {
    if |x| == 0 {
      assert x + y == y;
    } else {
      var s := x + y;
      assert s[0] == x[0];
      assert s[1..] == x[1..] + y;
      ReplaceCharHead(x, c, rep);
      ReplaceCharHead(s, c, rep);
      ReplaceCharConcat(x[1..], y, c, rep);
    }
  }

  /** One step of replacing a character: the head is replaced or kept. */
  lemma ReplaceCharHead(s: string, c: char, rep: string)
    requires |s| > 0
    ensures ReplaceAll(s, [c], rep) == (if s[0] == c then rep else [s[0]]) + ReplaceAll(s[1..], [c], rep)
  {
    assert s[..1] == [s[0]];
  }

  /** A prefix that does not contain the first character of the pattern is
      copied unchanged. */
  lemma {:induction false} ReplaceAllKeepsPrefix(x: string, t: string, pat: string, rep: string)
    requires pat != [] && pat[0] !in x
    ensures ReplaceAll(x + t, pat, rep) == x + ReplaceAll(t, pat, rep)
    decreases |x|
  {
    if |x| > 0 {
      var s := x + t;
      assert s[0] == x[0] && x[0] != pat[0];
      assert |pat| <= |s| ==> s[..|pat|][0] == s[0];
      assert s[1..] == x[1..] + t;
      ReplaceAllKeepsPrefix(x[1..], t, pat, rep);
      assert x == [x[0]] + x[1..];
    } else {
      assert x + t == t;
    }
  }

  /** A string without the first character of the pattern has no occurrence. */
  lemma ReplaceAllAbsent(x: string, pat: string, rep: string)
    requires pat != [] && pat[0] !in x
    ensures ReplaceAll(x, pat, rep) == x
  {
    ReplaceAllKeepsPrefix(x, [], pat, rep);
    assert x + [] == x;
  }

  /** The pattern itself is replaced whole. */
  lemma ReplaceAllWhole(pat: string, rep: string)
    requires pat != []
    ensures ReplaceAll(pat, pat, rep) == rep
  {
    assert pat[..|pat|] == pat;
    assert pat[|pat|..] == [];
  }

  /** A single occurrence of c between two strings free of c is replaced. */
  lemma ReplaceCharBetween(a: string, b: string, c: char, rep: string)
    requires c !in a && c !in b
    ensures ReplaceAll(a + [c] + b, [c], rep) == a + rep + b
  {
    var t := [c] + b;
    assert a + [c] + b == a + t;
    ReplaceAllKeepsPrefix(a, t, [c], rep);
    ReplaceCharHead(t, c, rep);
    assert t[1..] == b;
    ReplaceAllAbsent(b, [c], rep);
    assert a + (rep + b) == a + rep + b;
  }

  /** A trailing occurrence of the pattern after text free of its first
      character is replaced. */
  lemma ReplaceAllSuffix(x: string, pat: string, rep: string)
    requires pat != [] && pat[0] !in x
    ensures ReplaceAll(x + pat, pat, rep) == x + rep
  {
    ReplaceAllKeepsPrefix(x, pat, pat, rep);
    ReplaceAllWhole(pat, rep);
  }

  /** The single c between a and b is removed from a + [c] + b + suf when
      none of the parts holds c. */
  lemma DropCharBeforeSuffix(a: string, b: string, suf: string, c: char)
    requires c !in a && c !in b && c !in suf
    ensures ReplaceAll(a + [c] + b + suf, [c], []) == a + b + suf
  {
    assert a + [c] + b + suf == a + [c] + (b + suf);
    ReplaceCharBetween(a, b + suf, c, []);
    assert a + [] + (b + suf) == a + b + suf;
  }

  /** Digits are not whitespace, so a digit string is its own strip. */
  lemma StripDigits(s: string)
    requires AllDigits(s)
    ensures Strip(s) == s
  {
    assert !IsSpace(s[0]) && !IsSpace(s[|s| - 1]);
    assert StripLeft(s) == s;
    assert StripRight(s) == s;
  }

  /** Python's `str.upper()` on the ASCII letters. */
  function UpperChar(c: char): char {
    if 'a' <= c <= 'z' then (c as int - 32) as char else c
  }

  function Upper(s: string): (r: string)
    ensures |r| == |s|
    ensures forall k :: 0 <= k < |s| ==> r[k] == UpperChar(s[k])
  {
    seq(|s|, k requires 0 <= k < |s| => UpperChar(s[k]))
  }

  /** Python's `str.lower()` on the ASCII letters. */
  function LowerChar(c: char): char {
    if 'A' <= c <= 'Z' then (c as int + 32) as char else c
  }

  function Lower(s: string): (r: string)
    ensures |r| == |s|
    ensures forall k :: 0 <= k < |s| ==> r[k] == LowerChar(s[k])
  {
    seq(|s|, k requires 0 <= k < |s| => LowerChar(s[k]))
  }

  /** Python's `s.isdigit()` on ASCII digits: non-empty and only digits. */
  predicate AllDigits(s: string) {
    |s| > 0 && forall k :: 0 <= k < |s| ==> IsDigit(s[k])
  }

  /** The value of a non-empty string of decimal digits. */
  function DigitsValue(s: string): nat
    requires AllDigits(s)
    decreases |s|
  {
    if |s| == 1 then DigitValue(s[0])
    else DigitsValue(s[..|s| - 1]) * 10 + DigitValue(s[|s| - 1])
  }

  /** Printing a natural number in decimal and reading it back gives the
      number: the decimal form is a faithful encoding. */
  lemma {:induction false} NatToStrRoundTrip(n: nat)
    ensures AllDigits(NatToStr(n))
    ensures DigitsValue(NatToStr(n)) == n
    decreases n
  {
    if n >= 10 {
      NatToStrRoundTrip(n / 10);
      var s := NatToStr(n);
      assert s[..|s| - 1] == NatToStr(n / 10);
    }
  }

  /** Different numbers print differently. */
  lemma NatToStrInjective(a: nat, b: nat)
    requires NatToStr(a) == NatToStr(b)
    ensures a == b
  {
    NatToStrRoundTrip(a);
    NatToStrRoundTrip(b);
  }

  function Pow10(n: nat): (r: nat)
    ensures r >= 1
  {
    if n == 0 then 1 else 10 * Pow10(n - 1)
  }

  lemma AllDigitsConcat(a: string, b: string)
    requires AllDigits(a) && AllDigits(b)
    ensures AllDigits(a + b)
  {
    var s := a + b;
    forall k | 0 <= k < |s| ensures IsDigit(s[k]) {
      if k >= |a| { assert s[k] == b[k - |a|]; } else { assert s[k] == a[k]; }
    }
  }

  /** Concatenating digit strings shifts the first by the length of the
      second. */
  lemma {:induction false} DigitsValueConcat(a: string, b: string)
    requires AllDigits(a) && AllDigits(b)
    ensures AllDigits(a + b)
    ensures DigitsValue(a + b) == DigitsValue(a) * Pow10(|b|) + DigitsValue(b)
    decreases |b|
  {
    AllDigitsConcat(a, b);
    var s := a + b;
    if |b| == 1 {
      assert s[..|s| - 1] == a;
    } else {
      var b' := b[..|b| - 1];
      var d := DigitValue(b[|b| - 1]);
      assert AllDigits(b');
      assert s[..|s| - 1] == a + b';
      assert s[|s| - 1] == b[|b| - 1];
      DigitsValueConcat(a, b');
      assert DigitsValue(s) == DigitsValue(a + b') * 10 + d;
      assert DigitsValue(b) == DigitsValue(b') * 10 + d;
      assert Pow10(|b|) == Pow10(|b'|) * 10;
      ShiftArith(DigitsValue(a), Pow10(|b'|), DigitsValue(b'), d);
    }
  }

  lemma ShiftArith(x: int, p: int, y: int, d: int)
    ensures (x * p + y) * 10 + d == x * (p * 10) + (y * 10 + d)
  {
  }

  /** The first position of c in s. */
  function IndexOf(s: string, c: char): (r: Option<nat>)
    ensures r.None? ==> c !in s
    ensures r.Some? ==> r.value < |s| && s[r.value] == c && c !in s[..r.value]
  {
    if s == [] then None
    else if s[0] == c then Some(0)
    else match IndexOf(s[1..], c)
      case None => None
      case Some(k) => assert s[..k + 1] == [s[0]] + s[1..][..k]; Some(k + 1)
  }

  /** The value of a possibly empty digit string (empty reads as zero). */
  function DigitsOrZero(s: string): nat
    requires s == [] || AllDigits(s)
  {
    if s == [] then 0 else DigitsValue(s)
  }

  /** The unsigned decimal forms `float()` accepts: digits with at most one
      point and at least one digit on either side of it. */
  function UnsignedFloat(t: string): (r: Option<real>)
  {
    match IndexOf(t, '.')
    case None => if AllDigits(t) then Some(DigitsValue(t) as real) else None
    case Some(k) => PointForm(t[..k], t[k + 1..])
  }

  /** The digits a and b around a point, at least one of them non-empty. */
  function PointForm(a: string, b: string): Option<real> {
    if (a == [] || AllDigits(a)) && (b == [] || AllDigits(b)) && (a != [] || b != [])
    then Some(DigitsOrZero(a) as real + DigitsOrZero(b) as real / Pow10(|b|) as real)
    else None
  }

  /** Python's `float(s)` on plain decimal notation: surrounding whitespace,
      an optional sign, digits and at most one point; anything else raises,
      modelled as None. */
  function PyFloat(s: string): (r: Option<real>)
  {
    var t := Strip(s);
    if |t| > 0 && t[0] == '-' then
      match UnsignedFloat(t[1..])
      case None => None
      case Some(x) => Some(-x)
    else if |t| > 0 && t[0] == '+' then UnsignedFloat(t[1..])
    else UnsignedFloat(t)
  }

  /** `float` reads a digit string as its integer value. */
  lemma PyFloatDigits(s: string)
    requires AllDigits(s)
    ensures PyFloat(s) == Some(DigitsValue(s) as real)
  {
    StripDigits(s);
    assert !IsDigit('-') && !IsDigit('+') && !IsDigit('.');
    assert s[0] != '-' && s[0] != '+';
    assert '.' !in s;
  }

  /** In "a.b" with a made of digits, the first point is the one between a
      and b. */
  lemma IndexOfPoint(a: string, b: string)
    requires AllDigits(a)
    ensures IndexOf(a + "." + b, '.') == Some(|a|)
  {
    var s := a + "." + b;
    var r := IndexOf(s, '.');
    assert s[|a|] == '.';
    assert s[..|a|] == a;
    assert '.' in s;
    forall k | 0 <= k < |a| ensures s[k] != '.' {
      assert s[k] == a[k];
    }
    forall k | 0 <= k < r.value ensures s[k] != '.' {
      assert s[k] == s[..r.value][k];
    }
  }

  /** A string that neither starts nor ends with whitespace is its own strip. */
  lemma StripUnchanged(s: string)
    requires |s| > 0 && !IsSpace(s[0]) && !IsSpace(s[|s| - 1])
    ensures Strip(s) == s
  {
    assert StripLeft(s) == s;
    assert StripRight(s) == s;
  }

  lemma PointFormDigits(a: string, b: string)
    requires AllDigits(a) && AllDigits(b)
    ensures PointForm(a, b) == Some(DigitsValue(a) as real + DigitsValue(b) as real / Pow10(|b|) as real)
  {
    assert a != [] && b != [];
    assert DigitsOrZero(a) == DigitsValue(a);
    assert DigitsOrZero(b) == DigitsValue(b);
  }

  lemma UnsignedFloatPoint(a: string, b: string)
    requires AllDigits(a) && AllDigits(b)
    ensures UnsignedFloat(a + "." + b) == Some(DigitsValue(a) as real + DigitsValue(b) as real / Pow10(|b|) as real)
  {
    var s := a + "." + b;
    IndexOfPoint(a, b);
    assert s[..|a|] == a;
    assert s[|a| + 1..] == b;
    assert UnsignedFloat(s) == PointForm(a, b);
    PointFormDigits(a, b);
  }

  /** `float` reads "a.b" as a plus b tenths, hundredths, ... */
  lemma PyFloatPoint(a: string, b: string)
    requires AllDigits(a) && AllDigits(b)
    ensures PyFloat(a + "." + b) == Some(DigitsValue(a) as real + DigitsValue(b) as real / Pow10(|b|) as real)
  {
    var s := a + "." + b;
    assert s[0] == a[0] && s[|s| - 1] == b[|b| - 1];
    StripUnchanged(s);
    assert s[0] != '-' && s[0] != '+';
    UnsignedFloatPoint(a, b);
  }

  /** Digits with single underscores between them, the digit part `int()`
      accepts: no leading, trailing or doubled underscore. */
  predicate Grouped(s: string) {
    && |s| > 0 && IsDigit(s[0]) && IsDigit(s[|s| - 1])
    && (forall k :: 0 <= k < |s| ==> IsDigit(s[k]) || s[k] == '_')
    && (forall k :: 0 <= k < |s| - 1 && s[k] == '_' ==> s[k + 1] != '_')
  }

  /** The text without its underscores. */
  function Ungrouped(s: string): (r: string)
    ensures (forall k :: 0 <= k < |s| ==> IsDigit(s[k]) || s[k] == '_') ==> forall k :: 0 <= k < |r| ==> IsDigit(r[k])
    ensures |s| > 0 && IsDigit(s[0]) ==> |r| > 0 && r[0] == s[0]
    ensures (forall k :: 0 <= k < |s| ==> s[k] != '_') ==> r == s
    ensures forall k :: 0 <= k < |r| ==> r[k] != '_'
    decreases |s|
  {
    if s == [] then []
    else
      var rest := Ungrouped(s[1..]);
      assert forall k :: 0 <= k < |s| - 1 ==> s[1..][k] == s[k + 1];
      (if s[0] == '_' then [] else [s[0]]) + rest
  }

  /** Digits alone are grouped, and lose nothing when ungrouped. */
  lemma DigitsGrouped(s: string)
    requires AllDigits(s)
    ensures Grouped(s) && Ungrouped(s) == s
  {
    forall k | 0 <= k < |s| ensures s[k] != '_' {
      assert IsDigit(s[k]);
    }
  }

  /** Python's `int(s)` for base-10 text: surrounding whitespace, an optional
      sign and digits that may be grouped by single underscores; anything
      else raises, modelled as None. */
  function PyInt(s: string): Option<int> {
    var t := Strip(s);
    if Grouped(t) then Some(DigitsValue(Ungrouped(t)))
    else if |t| > 1 && t[0] == '-' && Grouped(t[1..]) then Some(-(DigitsValue(Ungrouped(t[1..])) as int))
    else if |t| > 1 && t[0] == '+' && Grouped(t[1..]) then Some(DigitsValue(Ungrouped(t[1..])))
    else None
  }

  /** `int(s)` succeeds exactly on an optional sign followed by grouped
      digits; plain digits read as their decimal value, and a minus sign
      negates it. */
  lemma PyIntSpec(s: string)
    ensures var t := Strip(s);
      PyInt(s).Some? <==> Grouped(t) || (|t| > 1 && (t[0] == '-' || t[0] == '+') && Grouped(t[1..]))
    ensures AllDigits(Strip(s)) ==> PyInt(s) == Some(DigitsValue(Strip(s)))
    ensures var t := Strip(s);
      |t| > 1 && t[0] == '-' && AllDigits(t[1..]) ==> PyInt(s) == Some(-(DigitsValue(t[1..]) as int))
  {
    var t := Strip(s);
    if AllDigits(t) {
      DigitsGrouped(t);
    }
    if |t| > 1 && AllDigits(t[1..]) {
      DigitsGrouped(t[1..]);
    }
  }

  /** `int(str(n))` gives back n for every integer. */
  lemma PyIntOfIntToStr(i: int)
    ensures PyInt(IntToStr(i)) == Some(i)
  {
    var s := IntToStr(i);
    NatToStrRoundTrip(if i < 0 then -i else i);
    assert Strip(s) == s by {
      assert !IsSpace(s[0]) && !IsSpace(s[|s| - 1]);
      assert StripLeft(s) == s;
      assert StripRight(s) == s;
    }
    if i < 0 {
      assert s[1..] == NatToStr(-i);
      assert !IsDigit(s[0]);
      DigitsGrouped(s[1..]);
    } else {
      DigitsGrouped(s);
    }
  }
}
