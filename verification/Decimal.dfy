/** Numbers written in decimal, as `format!` and `to_string` write them, and read back. */
module Decimal {
  import opened Basics

  predicate IsDigit(c: char) {
    '0' <= c <= '9'
  }

  predicate AllDigits(s: string) {
    forall k :: 0 <= k < |s| ==> IsDigit(s[k])
  }

  function DigitChar(d: nat): (c: char)
    requires d < 10
    ensures IsDigit(c)
  {
    ('0' as int + d) as char
  }

  function DigitValue(c: char): (d: nat)
    requires IsDigit(c)
    ensures d < 10
  {
    c as int - '0' as int
  }

  function Digits(n: nat): string {
    if n < 10 then [DigitChar(n)] else Digits(n / 10) + [DigitChar(n % 10)]
  }

  function Value(s: string): nat
    requires AllDigits(s)
  {
    if s == "" then 0 else Value(s[..|s| - 1]) * 10 + DigitValue(s[|s| - 1])
  }

  /** `n` with leading zeros up to `width` columns; wider numbers are written whole. */
  function Padded(width: nat, n: nat): string {
    Zeros(width, Digits(n))
  }

  function Zeros(width: nat, s: string): string
    decreases width - |s|
  {
    if |s| >= width then s else Zeros(width, "0" + s)
  }

  lemma {:induction false} DigitsRoundTrip(n: nat)
    ensures Digits(n) != "" && AllDigits(Digits(n)) && Value(Digits(n)) == n
  {
    if n >= 10 {
      DigitsRoundTrip(n / 10);
      assert Digits(n)[..|Digits(n)| - 1] == Digits(n / 10);
    }
  }

  lemma {:induction false} LeadingZero(s: string)
    requires AllDigits(s)
    ensures AllDigits("0" + s) && Value("0" + s) == Value(s)
  {
    if s != "" {
      LeadingZero(s[..|s| - 1]);
      assert ("0" + s)[..|s|] == "0" + s[..|s| - 1];
    } else {
      assert ("0" + s)[..0] == "";
    }
  }

  lemma {:induction false} ZerosKeepValue(width: nat, s: string)
    requires AllDigits(s)
    ensures AllDigits(Zeros(width, s)) && Value(Zeros(width, s)) == Value(s)
    ensures |Zeros(width, s)| == if |s| < width then width else |s|
    decreases width - |s|
  {
    if |s| < width {
      LeadingZero(s);
      ZerosKeepValue(width, "0" + s);
    }
  }

  function Pow10(w: nat): nat {
    if w == 0 then 1 else 10 * Pow10(w - 1)
  }

  lemma {:induction false} DigitsFit(n: nat, width: nat)
    requires n < Pow10(width) && width > 0
    ensures |Digits(n)| <= width
  {
    if n >= 10 {
      DigitsFit(n / 10, width - 1);
    }
  }

  lemma PaddedRoundTrip(width: nat, n: nat)
    ensures AllDigits(Padded(width, n)) && Value(Padded(width, n)) == n
    ensures |Padded(width, n)| >= width && Padded(width, n) != ""
    ensures width > 0 && n < Pow10(width) ==> |Padded(width, n)| == width
  {
    DigitsRoundTrip(n);
    ZerosKeepValue(width, Digits(n));
    if width > 0 && n < Pow10(width) {
      DigitsFit(n, width);
    }
  }

  // ----- order -----

  /** `s` comes before `t` at the first character where they differ. */
  ghost predicate LexLess(s: string, t: string) {
    exists k :: 0 <= k < |s| && k < |t| && s[..k] == t[..k] && s[k] < t[k]
  }

  lemma LexLessInContext(prefix: string, s: string, t: string, after: string, after': string)
    requires LexLess(s, t)
    ensures LexLess(prefix + s + after, prefix + t + after')
  {
    var k :| 0 <= k < |s| && k < |t| && s[..k] == t[..k] && s[k] < t[k];
    var a, b, at := prefix + s + after, prefix + t + after', |prefix| + k;
    assert a[..at] == prefix + s[..k] && b[..at] == prefix + t[..k];
    assert a[at] == s[k] && b[at] == t[k];
  }

  lemma {:induction false} SameLengthSameValue(s: string, t: string)
    requires AllDigits(s) && AllDigits(t) && |s| == |t| && Value(s) == Value(t)
    ensures s == t
  {
    if s != "" {
      var n := |s| - 1;
      SameLengthSameValue(s[..n], t[..n]);
      assert s == s[..n] + [s[n]] && t == t[..n] + [t[n]];
    }
  }

  lemma LexLessExtends(s: string, t: string, c: char, d: char)
    requires LexLess(s, t) || (s == t && c < d)
    ensures LexLess(s + [c], t + [d])
  {
    if s == t {
      assert (s + [c])[..|s|] == (t + [d])[..|s|];
    } else {
      var k :| 0 <= k < |s| && k < |t| && s[..k] == t[..k] && s[k] < t[k];
      assert (s + [c])[..k] == (t + [d])[..k];
    }
  }

  lemma LastDigitDecides(v: nat, w: nat, c: char, d: char)
    requires IsDigit(c) && IsDigit(d) && v * 10 + DigitValue(c) < w * 10 + DigitValue(d)
    ensures v < w || (v == w && c < d)
  {
  }

  /** Digit strings of one length are ordered as their values are. */
  lemma {:induction false} ValueOrdersDigits(s: string, t: string)
    requires AllDigits(s) && AllDigits(t) && |s| == |t| && Value(s) < Value(t)
    ensures LexLess(s, t)
  {
    var n := |s| - 1;
    var init, init' := s[..n], t[..n];
    LastDigitDecides(Value(init), Value(init'), s[n], t[n]);
    if Value(init) == Value(init') {
      SameLengthSameValue(init, init');
    } else {
      ValueOrdersDigits(init, init');
    }
    LexLessExtends(init, init', s[n], t[n]);
    assert s == init + [s[n]] && t == init' + [t[n]];
  }
}
