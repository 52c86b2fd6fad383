/**
 * Decimal rendering of non-negative integers, as JavaScript's
 * `Number.prototype.toString()` and `String.prototype.padStart(2, '0')`
 * produce it, together with the digit-string value that undoes it.
 */
module Decimal {

  predicate IsDigit(c: char) {
    '0' <= c <= '9'
  }

  predicate AllDigits(s: string) {
    forall i :: 0 <= i < |s| ==> IsDigit(s[i])
  }

  function DigitChar(d: nat): (c: char)
    requires d < 10
    ensures IsDigit(c) && c as int - '0' as int == d
  {
    ('0' as int + d) as char
  }

  function DigitValue(c: char): (d: nat)
    requires IsDigit(c)
    ensures d < 10
  {
    c as int - '0' as int
  }

  /** `n.toString()`: the shortest decimal numeral for `n`. */
  function Dec(n: nat): (s: string)
    ensures 1 <= |s| && AllDigits(s)
    ensures |s| > 1 ==> s[0] != '0'
    decreases n
  {
    if n < 10 then [DigitChar(n)] else Dec(n / 10) + [DigitChar(n % 10)]
  }

  /** The number a string of decimal digits denotes (leading zeros allowed). */
  function Value(s: string): nat
    requires AllDigits(s)
  {
    if s == [] then 0 else Value(s[..|s| - 1]) * 10 + DigitValue(s[|s| - 1])
  }

  /** Reading back the numeral `Dec` writes gives the number again. */
  lemma {:induction false} ValueOfDec(n: nat)
    ensures Value(Dec(n)) == n
    decreases n
  {
    var s := Dec(n);
    if n >= 10 {
      ValueOfDec(n / 10);
      assert s[..|s| - 1] == Dec(n / 10);
    }
  }

  /** A leading zero does not change the value of a digit string. */
  lemma {:induction false} ValueOfLeadingZero(s: string)
    requires AllDigits(s)
    ensures AllDigits("0" + s) && Value("0" + s) == Value(s)
    decreases |s|
  {
    if s != [] {
      var t := s[..|s| - 1];
      ValueOfLeadingZero(t);
      assert ("0" + s)[..|"0" + s| - 1] == "0" + t;
    }
  }

  /** `s.padStart(2, '0')`: prepends zeros until the string has two characters. */
  function PadStart2(s: string): (r: string)
    ensures |r| == if |s| < 2 then 2 else |s|
    ensures |s| >= 2 ==> r == s
    ensures |s| < 2 ==> r[2 - |s|..] == s && forall i :: 0 <= i < 2 - |s| ==> r[i] == '0'
    decreases 2 - |s|
  {
    if |s| >= 2 then s else PadStart2("0" + s)
  }

  /** Padding a digit string keeps it a digit string with the same value. */
  lemma {:induction false} ValueOfPadStart2(s: string)
    requires AllDigits(s)
    ensures AllDigits(PadStart2(s)) && Value(PadStart2(s)) == Value(s)
    decreases 2 - |s|
  {
    if |s| < 2 {
      ValueOfLeadingZero(s);
      ValueOfPadStart2("0" + s);
    }
  }

  /** The zero-padded two-character (at least) numeral of `n`, as a clock shows it. */
  lemma TwoDigitField(n: nat)
    ensures AllDigits(PadStart2(Dec(n))) && Value(PadStart2(Dec(n))) == n
    ensures |PadStart2(Dec(n))| >= 2
    ensures n < 100 ==> |PadStart2(Dec(n))| == 2
  {
    ValueOfDec(n);
    ValueOfPadStart2(Dec(n));
    if n < 100 {
      assert |Dec(n)| <= 2 by {
        if n >= 10 { assert Dec(n) == Dec(n / 10) + [DigitChar(n % 10)]; }
      }
    }
  }
}
