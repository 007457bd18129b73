/** ASCII decimal text: the digit test, the string-to-integer conversion and the
    integer-to-string renderings that the date formatter relies on. Only the
    ten ASCII digits '0'..'9' are digits here. */
module AsciiDecimal {

  predicate IsDigit(c: char) {
    '0' <= c <= '9'
  }

  /** Every character is a digit (the empty string qualifies). */
  predicate AllDigits(s: string) {
    forall i :: 0 <= i < |s| ==> IsDigit(s[i])
  }

  /** A non-empty run of digits: what `str.isdigit()` accepts. */
  predicate IsNumeral(s: string) {
    |s| > 0 && AllDigits(s)
  }

  function Pow10(k: nat): nat {
    if k == 0 then 1 else 10 * Pow10(k - 1)
  }

  function DigitValue(c: char): (d: nat)
    requires IsDigit(c)
    ensures d < 10
  {
    c as int - '0' as int
  }

  function DigitChar(d: nat): (c: char)
    requires d < 10
    ensures IsDigit(c) && DigitValue(c) == d
  {
    ('0' as int + d) as char
  }

  /** The integer a string of digits denotes, leading zeros allowed:
      `int(s)` for such a string. */
  function Value(s: string): nat
    requires AllDigits(s)
  {
    if |s| == 0 then 0 else Value(s[..|s| - 1]) * 10 + DigitValue(s[|s| - 1])
  }

  /** The shortest decimal rendering of `n`: `str(n)`, or `{n}` in an
      f-string. */
  function Decimal(n: nat): string {
    if n < 10 then [DigitChar(n)] else Decimal(n / 10) + [DigitChar(n % 10)]
  }

  /** The rendering `{n:02d}`: zero-filled on the left to at least two
      characters. */
  function Pad2(n: nat): string {
    if n < 10 then "0" + Decimal(n) else Decimal(n)
  }

  /** The last `w` decimal digits of `n`, zero-filled on the left: one
      fixed-width field of a `YYYYMMDDHHmm` stamp. */
  function Fixed(n: nat, w: nat): string {
    if w == 0 then "" else Fixed(n / 10, w - 1) + [DigitChar(n % 10)]
  }

  /** A string of `k` digits denotes a number below 10 to the power `k`. */
  lemma {:induction false} ValueBound(s: string)
    requires AllDigits(s)
    ensures Value(s) < Pow10(|s|)
  {
    if |s| > 0 {
      var k := |s| - 1;
      ValueBound(s[..k]);
      assert Value(s[..k]) * 10 <= (Pow10(k) - 1) * 10;
    }
  }

  /** Appending a digit multiplies by ten and adds that digit. */
  lemma ValueSnoc(s: string, c: char)
    requires AllDigits(s) && IsDigit(c)
    ensures AllDigits(s + [c]) && Value(s + [c]) == Value(s) * 10 + DigitValue(c)
  {
    assert (s + [c])[..|s|] == s;
  }

  /** `str(n)` reads back as `n`, is all digits, and starts with '0' only
      for zero. */
  lemma {:induction false} DecimalRoundTrip(n: nat)
    ensures IsNumeral(Decimal(n)) && Value(Decimal(n)) == n
    ensures Decimal(n)[0] == '0' ==> n == 0
  {
    if n >= 10 {
      DecimalRoundTrip(n / 10);
      ValueSnoc(Decimal(n / 10), DigitChar(n % 10));
    }
  }

  /** The plain rendering has as many digits as the number's magnitude
      calls for. */
  lemma {:induction false} DecimalLength(n: nat)
    ensures n < 10 <==> |Decimal(n)| == 1
    ensures 10 <= n < 100 <==> |Decimal(n)| == 2
    ensures 100 <= n < 1000 <==> |Decimal(n)| == 3
    ensures 1000 <= n < 10000 <==> |Decimal(n)| == 4
    ensures n < 10000 ==> |Decimal(n)| <= 4
  {
    if n >= 10 {
      DecimalLength(n / 10);
    }
  }

  /** A leading '0' does not change the value. */
  lemma {:induction false} ValueOfLeadingZero(d: string)
    requires AllDigits(d)
    ensures AllDigits("0" + d) && Value("0" + d) == Value(d)
  {
    if |d| > 0 {
      var k := |d| - 1;
      ValueOfLeadingZero(d[..k]);
      assert "0" + d == ("0" + d[..k]) + [d[k]];
      ValueSnoc("0" + d[..k], d[k]);
    }
  }

  /** `{n:02d}` reads back as `n`, is all digits, and is exactly two
      characters long precisely when `n` is below 100. */
  lemma Pad2RoundTrip(n: nat)
    ensures IsNumeral(Pad2(n)) && Value(Pad2(n)) == n
    ensures n < 100 <==> |Pad2(n)| == 2
  {
    DecimalRoundTrip(n);
    DecimalLength(n);
    if n < 10 {
      ValueOfLeadingZero(Decimal(n));
    }
  }

  /** A number below 10 to the power `w`, written in `w` fixed digits, reads
      back as itself. */
  lemma {:induction false} FixedRoundTrip(n: nat, w: nat)
    requires n < Pow10(w)
    ensures |Fixed(n, w)| == w && AllDigits(Fixed(n, w)) && Value(Fixed(n, w)) == n
  {
    if w > 0 {
      FixedRoundTrip(n / 10, w - 1);
      ValueSnoc(Fixed(n / 10, w - 1), DigitChar(n % 10));
    }
  }

  /** A two-digit string's value, digit by digit. */
  lemma ValueOfTwo(s: string)
    requires |s| == 2 && AllDigits(s)
    ensures Value(s) == 10 * DigitValue(s[0]) + DigitValue(s[1])
  {
    ValueSnoc("", s[0]);
    assert "" + [s[0]] == [s[0]];
    ValueSnoc([s[0]], s[1]);
    assert s == [s[0]] + [s[1]];
  }

  /** A four-digit string's value, digit by digit. */
  lemma ValueOfFour(s: string)
    requires |s| == 4 && AllDigits(s)
    ensures Value(s) == 1000 * DigitValue(s[0]) + 100 * DigitValue(s[1])
                        + 10 * DigitValue(s[2]) + DigitValue(s[3])
  {
    ValueOfTwo(s[..2]);
    assert s[..3][..2] == s[..2];
  }

  /** A four-digit number's plain rendering, digit by digit. */
  lemma DecimalOfFourDigits(n: nat)
    requires 1000 <= n < 10000
    ensures Decimal(n) == [DigitChar(n / 1000), DigitChar(n / 100 % 10), DigitChar(n / 10 % 10), DigitChar(n % 10)]
  {
    assert Decimal(n / 100) == [DigitChar(n / 1000), DigitChar(n / 100 % 10)];
  }

  /** A number below 100 rendered with `{n:02d}`, digit by digit. */
  lemma Pad2Digits(n: nat)
    requires n < 100
    ensures Pad2(n) == [DigitChar(n / 10), DigitChar(n % 10)]
  {
    if n < 10 {
      assert DigitChar(0) == '0';
    } else {
      assert Decimal(n / 10) == [DigitChar(n / 10)];
    }
  }
}
