/** Decimal text of integers as the C library writes it with `%d` and reads
    it back with `sscanf(.., "%d", ..)`. */
module Decimal {
  import opened Common

  predicate IsDigit(c: char) {
    '0' <= c <= '9'
  }

  /** The characters `isspace` accepts in the "C" locale. */
  predicate IsSpace(c: char) {
    c == ' ' || c == '\t' || c == '\n' || c == '\U{B}' || c == '\U{C}' || c == '\r'
  }

  predicate AllDigits(s: string) {
    forall i :: 0 <= i < |s| ==> IsDigit(s[i])
  }

  /** Digit text as `%d` prints a non-negative value: non-empty, and with no
      leading zero unless the value is zero itself. */
  predicate Canonical(s: string) {
    |s| > 0 && AllDigits(s) && (|s| > 1 ==> s[0] != '0')
  }

  function DigitChar(d: nat): (c: char)
    requires d < 10
    ensures IsDigit(c)
  {
    ('0' as int + d) as char
  }

  function DigitValue(c: char): (d: nat)
    requires IsDigit(c)
    ensures d < 10 && DigitChar(d) == c
  {
    c as int - '0' as int
  }

  /** `%d` applied to a non-negative value. */
  function NatToText(n: nat): (s: string)
    ensures Canonical(s)
    decreases n
  {
    if n < 10 then [DigitChar(n)] else NatToText(n / 10) + [DigitChar(n % 10)]
  }

  /** The value of a string of decimal digits (the empty string reads as 0). */
  function TextToNat(s: string): nat
    requires AllDigits(s)
  {
    if s == [] then 0 else TextToNat(s[..|s| - 1]) * 10 + DigitValue(s[|s| - 1])
  }

  /** `%d` applied to any `int`: a minus sign precedes negative values. */
  function IntToText(x: int): string
  {
    if x < 0 then "-" + NatToText(-x) else NatToText(x)
  }

  /** The longest prefix of `s` made of digits. */
  function LeadingDigits(s: string): (d: string)
    ensures d <= s && AllDigits(d)
    ensures |d| < |s| ==> !IsDigit(s[|d|])
  {
    if s != [] && IsDigit(s[0]) then [s[0]] + LeadingDigits(s[1..]) else []
  }

  function SkipSpace(s: string): (t: string)
    ensures |t| <= |s| && t == s[|s| - |t|..]
    ensures t != [] ==> !IsSpace(t[0])
  {
    if s != [] && IsSpace(s[0]) then SkipSpace(s[1..]) else s
  }

  /** The digits at the start of `u` read as a value, if there are any. */
  function ScanDigits(u: string): Option<int>
  {
    var d := LeadingDigits(u);
    if d == [] then None else Some(TextToNat(d))
  }

  /** `%d` once white space is skipped: an optional sign, then digits. */
  function ScanSigned(t: string): Option<int>
  {
    if t != [] && t[0] == '-' then
      match ScanDigits(t[1..])
      case Some(n) => Some(-n)
      case None => None
    else if t != [] && t[0] == '+' then ScanDigits(t[1..])
    else ScanDigits(t)
  }

  /** `sscanf(s, "%d", &v)`: skips leading white space, accepts one optional
      sign and then needs at least one digit; `None` when the conversion
      fails, in which case the C call leaves `v` untouched. */
  function ScanInt(s: string): Option<int>
  {
    ScanSigned(SkipSpace(s))
  }

  /** Reading back what `%d` printed for a non-negative value gives the value. */
  lemma {:induction false} NatTextRoundTrip(n: nat)
    ensures TextToNat(NatToText(n)) == n
    decreases n
  {
    var s := NatToText(n);
    if n >= 10 {
      NatTextRoundTrip(n / 10);
      assert s[..|s| - 1] == NatToText(n / 10);
    }
  }

  lemma {:induction false} LeadingNonZeroIsPositive(s: string)
    requires |s| > 0 && AllDigits(s) && s[0] != '0'
    ensures TextToNat(s) > 0
  {
    if |s| > 1 {
      LeadingNonZeroIsPositive(s[..|s| - 1]);
    }
  }

  /** Conversely, every canonical digit string is what `%d` prints for its value. */
  lemma {:induction false} TextNatRoundTrip(s: string)
    requires Canonical(s)
    ensures NatToText(TextToNat(s)) == s
  {
    var p := s[..|s| - 1];
    var d := DigitValue(s[|s| - 1]);
    if |s| == 1 {
      assert s == [s[0]];
    } else {
      assert Canonical(p);
      LeadingNonZeroIsPositive(p);
      TextNatRoundTrip(p);
      var v := TextToNat(s);
      assert v == TextToNat(p) * 10 + d;
      assert v / 10 == TextToNat(p) && v % 10 == d;
      assert s == p + [s[|s| - 1]];
    }
  }

  lemma {:induction false} LeadingDigitsOfDigits(s: string)
    requires AllDigits(s)
    ensures LeadingDigits(s) == s
  {
    if s != [] {
      LeadingDigitsOfDigits(s[1..]);
      assert s == [s[0]] + s[1..];
    }
  }

  /** White space skipping stops at once on a non-space character. */
  lemma SkipNoSpace(s: string)
    requires s != [] && !IsSpace(s[0])
    ensures SkipSpace(s) == s
  {
  }

  /** The digits of a canonical string are all read. */
  lemma ScanDigitsCanonical(u: string)
    requires Canonical(u)
    ensures ScanDigits(u) == Some(TextToNat(u))
  {
    LeadingDigitsOfDigits(u);
  }

  lemma ScanCanonical(u: string)
    requires Canonical(u)
    ensures ScanInt(u) == Some(TextToNat(u))
  {
    SkipNoSpace(u);
    assert ScanSigned(u) == ScanDigits(u) by {
      assert IsDigit(u[0]);
    }
    ScanDigitsCanonical(u);
  }

  lemma ScanNegatedCanonical(t: string)
    requires t != [] && t[0] == '-' && Canonical(t[1..])
    ensures ScanInt(t) == Some(0 - TextToNat(t[1..]))
  {
    SkipNoSpace(t);
    ScanDigitsCanonical(t[1..]);
    ScanMinus(t, TextToNat(t[1..]));
  }

  /** A minus sign negates the digits after it. */
  lemma ScanMinus(t: string, v: int)
    requires t != [] && t[0] == '-' && ScanDigits(t[1..]) == Some(v)
    ensures ScanSigned(t) == Some(-v)
  {
  }

  /** `sscanf` with `%d` reads back exactly the value `%d` printed. */
  lemma ScanIntRoundTrip(x: int)
    ensures ScanInt(IntToText(x)) == Some(x)
  {
    if x < 0 {
      ScanNegatedNat(-x);
    } else {
      ScanNatText(x);
    }
  }

  lemma ScanNatText(n: nat)
    ensures ScanInt(IntToText(n)) == Some(n)
  {
    var u := NatToText(n);
    assert IntToText(n) == u;
    NatTextRoundTrip(n);
    ScanCanonical(u);
  }

  lemma ScanNegatedNat(n: nat)
    requires n > 0
    ensures ScanInt(IntToText(0 - n)) == Some(0 - n)
  {
    var t := IntToText(0 - n);
    assert t[1..] == NatToText(n);
    NatTextRoundTrip(n);
    ScanNegatedCanonical(t);
  }

  predicate NoDigit(s: string) {
    forall i :: 0 <= i < |s| ==> !IsDigit(s[i])
  }

  /** A value with no digit in it is never converted. */
  lemma ScanIntNeedsDigit(s: string)
    requires NoDigit(s)
    ensures ScanInt(s) == None
  {
    var t := SkipSpace(s);
    assert NoDigit(t) by {
      assert forall i :: 0 <= i < |t| ==> t[i] == s[|s| - |t| + i];
    }
    if t != [] {
      assert NoDigit(t[1..]);
      NoDigitScan(t[1..]);
    }
    NoDigitScan(t);
  }

  lemma NoDigitScan(u: string)
    requires NoDigit(u)
    ensures ScanDigits(u) == None
  {
  }
}
