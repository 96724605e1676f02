/** Decimal numerals: Python's `str` and `int` on natural numbers. */
module Decimal {

  predicate Digit(c: char) {
    '0' <= c <= '9'
  }

  /** Python's `s.isdigit()` on ASCII text. */
  predicate IsDigits(s: string) {
    s != "" && forall i :: 0 <= i < |s| ==> Digit(s[i])
  }

  function DigitChar(d: nat): char
    requires d < 10
  {
    ('0' as int + d) as char
  }

  function Str(n: nat): (s: string)
    ensures IsDigits(s)
  {
    if n < 10 then [DigitChar(n)] else Str(n / 10) + [DigitChar(n % 10)]
  }

  function Value(s: string): nat
    requires forall i :: 0 <= i < |s| ==> Digit(s[i])
  {
    if s == "" then 0
    else
      assert Digit(s[|s| - 1]);
      10 * Value(s[..|s| - 1]) + (s[|s| - 1] as int - '0' as int)
  }

  lemma {:induction false} ValueOfStr(n: nat)
    ensures Value(Str(n)) == n
  {
    if n >= 10 {
      ValueOfStr(n / 10);
      assert Str(n)[..|Str(n)| - 1] == Str(n / 10);
    } else {
      assert Str(n)[..0] == "";
    }
  }

  lemma {:induction false} PositiveValue(s: string)
    requires IsDigits(s) && s[0] != '0'
    ensures Value(s) > 0
  {
    if |s| > 1 { PositiveValue(s[..|s| - 1]); }
  }

  /** A numeral without a leading zero is the numeral of its value. */
  lemma {:induction false} StrOfValue(s: string)
    requires IsDigits(s) && s[0] != '0'
    ensures Str(Value(s)) == s
  {
    var init, last := s[..|s| - 1], s[|s| - 1];
    if init == "" {
      assert s == [last];
    } else {
      StrOfValue(init);
      PositiveValue(init);
      assert Value(s) / 10 == Value(init) && Value(s) % 10 == last as int - '0' as int;
      assert s == init + [last];
    }
  }

  /** Zeros in front do not count. */
  lemma {:induction false} LeadingZero(s: string)
    requires forall i :: 0 <= i < |s| ==> Digit(s[i])
    ensures Value("0" + s) == Value(s)
  {
    var t := "0" + s;
    if s == "" {
      assert t[..0] == "";
    } else {
      LeadingZero(s[..|s| - 1]);
      assert t[..|t| - 1] == "0" + s[..|s| - 1];
    }
  }

  /** Only zero has a numeral that begins with zero. */
  lemma {:induction false} LeadingDigit(n: nat)
    requires n > 0
    ensures Str(n)[0] != '0'
  {
    if n >= 10 { LeadingDigit(n / 10); }
  }

  function Power(e: nat): nat {
    if e == 0 then 1 else 10 * Power(e - 1)
  }

  lemma {:induction false} PowerGrows(d: nat, e: nat)
    requires d <= e
    ensures 0 < Power(d) <= Power(e)
  {
    if d < e { PowerGrows(d, e - 1); } else if d > 0 { PowerGrows(d - 1, e - 1); }
  }

  lemma {:induction false} ValueBelow(s: string)
    requires forall i :: 0 <= i < |s| ==> Digit(s[i])
    ensures Value(s) < Power(|s|)
  {
    if s != "" { ValueBelow(s[..|s| - 1]); }
  }

  lemma {:induction false} ValueAbove(s: string)
    requires IsDigits(s) && s[0] != '0'
    ensures Value(s) >= Power(|s| - 1)
  {
    if |s| > 1 { ValueAbove(s[..|s| - 1]); }
  }

  /** A longer numeral is a larger number. */
  lemma LongerIsLarger(s: string, t: string)
    requires IsDigits(s) && IsDigits(t) && t[0] != '0' && |s| < |t|
    ensures Value(s) < Value(t)
  {
    ValueBelow(s);
    ValueAbove(t);
    PowerGrows(|s|, |t| - 1);
  }
}
