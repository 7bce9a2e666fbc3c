/** The string primitives the service leans on: commons-lang `StringUtils`
    blank/empty tests, `String.equalsIgnoreCase`, `String.contains`,
    `Integer.parseInt` and the head of `String.split("-")`. */
module Text {
  import opened Wrappers

  const MinInt: int := -0x8000_0000
  const MaxInt: int := 0x7FFF_FFFF

  /** Java `int` arithmetic: the result reduced into the 32-bit range. */
  function Wrap32(x: int): (r: int)
    ensures MinInt <= r <= MaxInt
    ensures MinInt <= x <= MaxInt ==> r == x
  {
    (x - MinInt) % 0x1_0000_0000 + MinInt
  }

  /** `Character.isWhitespace`: ASCII controls tab..carriage return, the four
      information separators, and the Unicode space, line and paragraph
      separators except the non-breaking ones. */
  predicate IsWhitespace(c: char) {
    || c == ' '
    || ('\t' <= c <= '\r')
    || ('\U{1C}' <= c <= '\U{1F}')
    || c == '\U{1680}'
    || ('\U{2000}' <= c <= '\U{2006}')
    || ('\U{2008}' <= c <= '\U{200A}')
    || c == '\U{2028}' || c == '\U{2029}' || c == '\U{205F}' || c == '\U{3000}'
  }

  /** `StringUtils.isBlank`: null, empty, or whitespace only. */
  predicate IsBlank(s: Option<string>) {
    s.None? || forall i :: 0 <= i < |s.value| ==> IsWhitespace(s.value[i])
  }

  /** `StringUtils.isEmpty`: null or of length zero. */
  predicate IsEmpty(s: Option<string>) {
    s.None? || |s.value| == 0
  }

  function ToLower(c: char): char {
    if 'A' <= c <= 'Z' then (c as int + 32) as char else c
  }

  /** `a.equalsIgnoreCase(b)`: false when `b` is null, otherwise equal lengths
      and equal characters after case folding. */
  predicate EqualsIgnoreCase(a: string, b: Option<string>) {
    && b.Some?
    && |a| == |b.value|
    && forall i :: 0 <= i < |a| ==> ToLower(a[i]) == ToLower(b.value[i])
  }

  /** `s.contains(t)`: `t` occurs in `s` as a contiguous substring. */
  predicate Contains(s: string, t: string)
    decreases |s|
  {
    t <= s || (|s| > 0 && Contains(s[1..], t))
  }

  /** `t` is spelled by the window of `s` that starts at `i`. */
  predicate OccursAt(s: string, t: string, i: int) {
    0 <= i && i + |t| <= |s| && s[i..i + |t|] == t
  }

  /** A window of `s` past its first character is a window of `s[1..]`. */
  lemma OccursShiftDown(s: string, t: string, i: int)
    requires |s| > 0 && i > 0 && OccursAt(s, t, i)
    ensures OccursAt(s[1..], t, i - 1)
  {
    assert s[1..][i - 1..i - 1 + |t|] == s[i..i + |t|];
  }

  /** A window of `s[1..]` is a window of `s`, one position later. */
  lemma OccursShiftUp(s: string, t: string, i: int)
    requires |s| > 0 && OccursAt(s[1..], t, i)
    ensures OccursAt(s, t, i + 1)
  {
    assert s[1..][i..i + |t|] == s[i + 1..i + 1 + |t|];
  }

  /** `Contains` is exactly the substring relation: some window of `s` spells `t`. */
  lemma {:induction false} ContainsIsSubstring(s: string, t: string)
    ensures Contains(s, t) <==> exists i :: OccursAt(s, t, i)
    decreases |s|
  {
    if t <= s {
      assert OccursAt(s, t, 0);
    } else if |s| > 0 {
      ContainsIsSubstring(s[1..], t);
      if exists i :: OccursAt(s, t, i) {
        var i :| OccursAt(s, t, i);
        assert i != 0;
        OccursShiftDown(s, t, i);
      }
      if exists i :: OccursAt(s[1..], t, i) {
        var i :| OccursAt(s[1..], t, i);
        OccursShiftUp(s, t, i);
      }
    }
  }

  /** Substring containment is transitive: a field list naming "topics" also
      names "topic". */
  lemma ContainsWithin(s: string, u: string, t: string)
    requires Contains(s, u) && Contains(u, t)
    ensures Contains(s, t)
  {
    ContainsIsSubstring(s, u);
    ContainsIsSubstring(u, t);
    var i :| OccursAt(s, u, i);
    var j :| OccursAt(u, t, j);
    assert forall k :: 0 <= k < |t| ==> s[i + j + k] == u[j + k] == t[k];
    assert OccursAt(s, t, i + j);
    ContainsIsSubstring(s, t);
  }

  predicate IsDigit(c: char) {
    '0' <= c <= '9'
  }

  predicate AllDigits(s: string) {
    forall i :: 0 <= i < |s| ==> IsDigit(s[i])
  }

  /** The value of a string of decimal digits, most significant first. */
  function DigitsValue(s: string): nat
    requires AllDigits(s)
  {
    if |s| == 0 then 0
    else DigitsValue(s[..|s| - 1]) * 10 + (s[|s| - 1] as int - '0' as int)
  }

  /** `Integer.parseInt(s)`: an optional sign, at least one digit, and a value
      that fits in 32 bits; anything else is a NumberFormatException (None). */
  function ParseInt(s: string): (r: Option<int>)
    ensures r.Some? ==> MinInt <= r.value <= MaxInt
    ensures r.Some? ==> |s| > 0 && (IsDigit(s[0]) || s[0] == '+' || s[0] == '-')
  {
    if |s| == 0 then None
    else
      var body := if s[0] == '-' || s[0] == '+' then s[1..] else s;
      if |body| == 0 || !AllDigits(body) then None
      else
        var v := if s[0] == '-' then -(DigitsValue(body) as int) else DigitsValue(body) as int;
        if MinInt <= v <= MaxInt then Some(v) else None
  }

  /** The decimal spelling of a natural number, without sign or leading zeros. */
  function FormatNat(n: nat): (r: string)
    ensures |r| > 0 && AllDigits(r)
    ensures n >= 10 ==> r[0] != '0'
  {
    if n < 10 then ['0' + n as char]
    else FormatNat(n / 10) + ['0' + (n % 10) as char]
  }

  lemma {:induction false} FormatNatValue(n: nat)
    ensures DigitsValue(FormatNat(n)) == n
  {
    if n >= 10 {
      var s := FormatNat(n);
      assert s[..|s| - 1] == FormatNat(n / 10);
      FormatNatValue(n / 10);
    }
  }

  /** Parsing the decimal spelling of an int-sized natural gives the number back. */
  lemma ParseFormatRoundTrip(n: nat)
    requires n <= MaxInt
    ensures ParseInt(FormatNat(n)) == Some(n)
  {
    FormatNatValue(n);
  }

  /** The decimal spelling of an integer: a minus sign for a negative one. */
  function FormatInt(i: int): (r: string)
    ensures |r| > 0
  {
    if i < 0 then ['-'] + FormatNat(-i) else FormatNat(i)
  }

  /** Every 32-bit integer reads back from its decimal spelling, sign included. */
  lemma ParseFormatIntRoundTrip(i: int)
    requires MinInt <= i <= MaxInt
    ensures ParseInt(FormatInt(i)) == Some(i)
  {
    if i < 0 {
      var digits := FormatNat(-i);
      FormatNatValue(-i);
      assert FormatInt(i)[0] == '-' && FormatInt(i)[1..] == digits;
    } else {
      ParseFormatRoundTrip(i);
    }
  }

  /** The value of digits does not change with a leading zero. */
  lemma {:induction false} LeadingZeroValue(t: string)
    requires AllDigits(t)
    ensures AllDigits(['0'] + t) && DigitsValue(['0'] + t) == DigitsValue(t)
    decreases |t|
  {
    if |t| > 0 {
      LeadingZeroValue(t[..|t| - 1]);
      assert (['0'] + t)[..|t|] == ['0'] + t[..|t| - 1];
    }
  }

  /** A zero-padded text parses to the same value as the unpadded one, after
      a sign or without one. */
  lemma ZeroPaddingIgnored(sign: string, t: string)
    requires sign == "" || sign == "-" || sign == "+"
    requires |t| > 0 && AllDigits(t)
    ensures ParseInt(sign + ['0'] + t) == ParseInt(sign + t)
  {
    LeadingZeroValue(t);
    assert (sign + ['0'] + t)[|sign|..] == ['0'] + t;
    assert (sign + t)[|sign|..] == t;
  }

  /** Anything but a digit after the optional leading sign makes the parse fail. */
  lemma ParseRejectsNonDigit(s: string, i: int)
    requires 0 <= i < |s| && !IsDigit(s[i])
    requires i > 0 || (s[0] != '-' && s[0] != '+')
    ensures ParseInt(s) == None
  {
    if s[0] == '-' || s[0] == '+' {
      assert s[1..][i - 1] == s[i];
    }
  }

  /** A decimal natural beyond the 32-bit range does not parse, with or without
      a minus sign, except the one extra negative value. */
  lemma ParseRejectsOutOfRange(n: nat)
    requires n > MaxInt
    ensures ParseInt(FormatNat(n)) == None
    ensures n > -MinInt ==> ParseInt(['-'] + FormatNat(n)) == None
  {
    FormatNatValue(n);
    assert (['-'] + FormatNat(n))[1..] == FormatNat(n);
  }

  /** The part of `s` before the first `c` (all of `s` when `c` does not occur):
      element 0 of Java's `s.split(c)`. */
  function PrefixBefore(s: string, c: char): (r: string)
    ensures r <= s
    ensures c !in r
    ensures |r| < |s| ==> s[|r|] == c
  {
    if |s| == 0 || s[0] == c then ""
    else [s[0]] + PrefixBefore(s[1..], c)
  }

  /** Splitting `d + c + rest` at the first `c` gives `d` when `d` holds no `c`. */
  lemma {:induction false} PrefixBeforeSeparator(d: string, c: char, rest: string)
    requires c !in d
    ensures PrefixBefore(d + [c] + rest, c) == d
  {
    if |d| > 0 {
      assert (d + [c] + rest)[1..] == d[1..] + [c] + rest;
      PrefixBeforeSeparator(d[1..], c, rest);
    }
  }
}
