/**
  Decimal text for non-negative integers: the rendering done by Python's
  `"{:0Nd}".format(n)` and the parsing done by `int(s)` on a string of ASCII
  digits. Both are used by the card-number code and by the PIN generator.
*/
module Decimal {

  function Pow10(n: nat): (p: nat)
    ensures p >= 1
  {
    if n == 0 then 1 else 10 * Pow10(n - 1)
  }

  predicate IsDigit(c: char) {
    '0' <= c <= '9'
  }

  predicate AllDigits(s: string) {
    forall i :: 0 <= i < |s| ==> IsDigit(s[i])
  }

  /** The numeric value of one ASCII digit, as `int(c)` computes it. */
  function DigitValue(c: char): (d: int)
    requires IsDigit(c)
    ensures 0 <= d <= 9
  {
    c as int - '0' as int
  }

  /** The ASCII digit for a value 0..9. */
  function DigitChar(d: int): (c: char)
    requires 0 <= d <= 9
    ensures IsDigit(c)
    ensures DigitValue(c) == d
  {
    ('0' as int + d) as char
  }

  /** The shortest decimal text of `n`, as `str(n)` prints it. */
  function DecimalString(n: nat): (s: string)
    ensures |s| >= 1
    ensures AllDigits(s)
    decreases n
  {
    if n < 10 then [DigitChar(n)] else DecimalString(n / 10) + [DigitChar(n % 10)]
  }

  /** `k` copies of the character '0'. */
  function Zeros(k: nat): (s: string)
    ensures |s| == k
    ensures AllDigits(s)
  {
    seq(k, _ => '0')
  }

  /** `"{:0Wd}".format(n)` for `n >= 0`: left-padded with zeros to at least `width` characters. */
  function ZeroPad(n: nat, width: nat): (s: string)
    ensures AllDigits(s)
    ensures |s| == if |DecimalString(n)| < width then width else |DecimalString(n)|
  {
    var d := DecimalString(n);
    if |d| < width then Zeros(width - |d|) + d else d
  }

  /**
    `"{:0Wd}".format(n)` for any integer: a negative number keeps its sign in
    front and the zeros fill the remaining width.
  */
  function FormatInt(n: int, width: nat): (s: string)
    ensures n >= 0 ==> AllDigits(s)
    ensures n < 0 ==> |s| >= 2 && s[0] == '-'
  {
    if n >= 0 then ZeroPad(n, width)
    else "-" + ZeroPad(-n, if width > 0 then width - 1 else 0)
  }

  /**
    The value of a string of ASCII digits read as a decimal number, as `int(s)`
    computes it (leading zeros allowed). The empty string reads as 0; the
    callers only parse non-empty slices.
  */
  function ParseDecimal(s: string): (n: nat)
    requires AllDigits(s)
    ensures n < Pow10(|s|)
  {
    if |s| == 0 then 0 else 10 * ParseDecimal(s[..|s| - 1]) + DigitValue(s[|s| - 1])
  }

  /** Parsing the rendering of a number gives the number back. */
  lemma {:induction false} ParseDecimalOfDecimal(n: nat)
    ensures ParseDecimal(DecimalString(n)) == n
    decreases n
  {
    if n >= 10 {
      var d := DecimalString(n / 10);
      ParseDecimalOfDecimal(n / 10);
      assert (d + [DigitChar(n % 10)])[..|d|] == d;
    }
  }

  /** Concatenating digit strings gives a digit string. */
  lemma AllDigitsConcat(a: string, b: string)
    requires AllDigits(a) && AllDigits(b)
    ensures AllDigits(a + b)
  {
    forall i | 0 <= i < |a + b| ensures IsDigit((a + b)[i]) {
      if i < |a| { assert (a + b)[i] == a[i]; } else { assert (a + b)[i] == b[i - |a|]; }
    }
  }

  /** The value of a concatenation: the left part is shifted by the length of the right part. */
  lemma {:induction false} ParseDecimalAppend(a: string, b: string)
    requires AllDigits(a) && AllDigits(b)
    ensures AllDigits(a + b)
    ensures ParseDecimal(a + b) == ParseDecimal(a) * Pow10(|b|) + ParseDecimal(b)
    decreases |b|
  {
    AllDigitsConcat(a, b);
    if |b| > 0 {
      var b' := b[..|b| - 1];
      assert (a + b)[..|a + b| - 1] == a + b';
      assert (a + b)[|a + b| - 1] == b[|b| - 1];
      ParseDecimalAppend(a, b');
      assert ParseDecimal(a + b) == 10 * ParseDecimal(a + b') + DigitValue(b[|b| - 1]);
      assert ParseDecimal(b) == 10 * ParseDecimal(b') + DigitValue(b[|b| - 1]);
      ShiftStep(ParseDecimal(a + b), ParseDecimal(a + b'), ParseDecimal(a), Pow10(|b'|), Pow10(|b|),
                ParseDecimal(b'), ParseDecimal(b), DigitValue(b[|b| - 1]));
    } else {
      assert a + b == a;
    }
  }

  lemma ShiftStep(whole: int, whole': int, x: int, p: int, p10: int, y: int, y10: int, d: int)
    requires whole' == x * p + y && whole == 10 * whole' + d
    requires p10 == 10 * p && y10 == 10 * y + d
    ensures whole == x * p10 + y10
  {
  }

  /** A run of zeros reads as 0. */
  lemma {:induction false} ParseDecimalZeros(k: nat)
    ensures ParseDecimal(Zeros(k)) == 0
  {
    if k > 0 {
      assert Zeros(k)[..k - 1] == Zeros(k - 1);
      ParseDecimalZeros(k - 1);
    }
  }

  /** Padding with zeros does not change the value. */
  lemma ParseDecimalOfZeroPad(n: nat, width: nat)
    ensures ParseDecimal(ZeroPad(n, width)) == n
  {
    ParseDecimalOfDecimal(n);
    var d := DecimalString(n);
    if |d| < width {
      var z := Zeros(width - |d|);
      ParseDecimalZeros(width - |d|);
      ParseDecimalAppend(z, d);
      assert ZeroPad(n, width) == z + d;
      assert ParseDecimal(z + d) == 0 * Pow10(|d|) + n;
    }
  }

  /** For a positive width, a number fits in `width` digits exactly when it is below 10^width. */
  lemma {:induction false} DecimalLength(n: nat, width: nat)
    requires width >= 1
    ensures |DecimalString(n)| <= width <==> n < Pow10(width)
    decreases n
  {
    if n >= 10 {
      if width == 1 {
        assert Pow10(1) == 10;
        assert |DecimalString(n)| == |DecimalString(n / 10)| + 1;
        assert |DecimalString(n / 10)| >= 1;
      } else {
        DecimalLength(n / 10, width - 1);
        assert Pow10(width) == 10 * Pow10(width - 1);
        assert n / 10 < Pow10(width - 1) <==> n < 10 * Pow10(width - 1);
      }
    } else {
      assert Pow10(width) == 10 * Pow10(width - 1);
    }
  }

  /** A number below 10^width is rendered by `"{:0Wd}"` in exactly `width` digits. */
  lemma ZeroPadLength(n: nat, width: nat)
    requires width >= 1 && n < Pow10(width)
    ensures |ZeroPad(n, width)| == width
  {
    DecimalLength(n, width);
  }

  /** A digit string whose value is 0 consists of zeros only. */
  lemma {:induction false} ZeroValueIsZeros(s: string)
    requires AllDigits(s) && ParseDecimal(s) == 0
    ensures s == Zeros(|s|)
  {
    if |s| > 0 {
      var u := s[..|s| - 1];
      ZeroValueIsZeros(u);
      assert s == u + [s[|s| - 1]];
      assert DigitChar(0) == s[|s| - 1];
    }
  }

  /**
    Rendering a parsed digit string with its own width gives the string back:
    `"{:0Wd}".format(int(s)) == s` when `s` has `W` digits.
  */
  lemma {:induction false} ZeroPadOfParse(s: string)
    requires AllDigits(s) && |s| >= 1
    ensures ZeroPad(ParseDecimal(s), |s|) == s
    decreases |s|
  {
    var n := ParseDecimal(s);
    var u := s[..|s| - 1];
    var c := s[|s| - 1];
    assert s == u + [c];
    assert DigitChar(DigitValue(c)) == c;
    if n < 10 {
      assert ParseDecimal(u) == 0;
      ZeroValueIsZeros(u);
      assert DecimalString(n) == [c];
    } else {
      assert n / 10 == ParseDecimal(u) && n % 10 == DigitValue(c);
      assert DecimalString(n) == DecimalString(ParseDecimal(u)) + [c];
      ZeroPadOfParse(u);
      var d := DecimalString(ParseDecimal(u));
      if |d| < |u| {
        assert Zeros(|s| - |d| - 1) + d == u;
        assert Zeros(|s| - |d| - 1) + (d + [c]) == u + [c];
        assert Zeros(|s| - |d| - 1) == Zeros(|s| - |DecimalString(n)|);
      }
    }
  }
}
