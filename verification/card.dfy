/**
  Card numbers of the `CreditCard` class: a 6-digit issuer identification
  number (always 400000 for cards this bank issues), a 9-digit account
  identifier and one Luhn check digit, written as one 16-character string.
*/
module CreditCard {
  import opened Wrappers
  import opened Decimal
  import opened Luhn

  /** The issuer identification number of every card the bank issues. */
  const IIN: int := 400000

  /** The three fields of a card; the string form is `CardNumber`. */
  datatype Card = Card(iin: int, accountId: int, checksum: int)

  /** `int()` raised on the character at this index while summing. */
  datatype CardError = NonDigit(index: nat)

  /** The digit values of a digit string, one per character. */
  function Digits(s: string): (ds: seq<int>)
    requires AllDigits(s)
    ensures |ds| == |s| && AllDigitValues(ds)
    ensures forall i :: 0 <= i < |s| ==> ds[i] == DigitValue(s[i])
  {
    seq(|s|, i requires 0 <= i < |s| => DigitValue(s[i]))
  }

  /**
    `format_card_number`: the three fields zero-padded to 6, 9 and 1
    characters. Fields in range give exactly 16 digits.
  */
  function FormatCardNumber(iin: int, accountId: int, checksum: int): (s: string)
    ensures iin >= 0 && accountId >= 0 && checksum >= 0 ==> AllDigits(s)
    ensures 0 <= iin < Pow10(6) && 0 <= accountId < Pow10(9) && 0 <= checksum <= 9 ==> |s| == 16
  {
    FormatFacts(iin, accountId, checksum);
    FormatInt(iin, 6) + FormatInt(accountId, 9) + FormatInt(checksum, 1)
  }

  lemma FormatFacts(iin: int, accountId: int, checksum: int)
    ensures var s := FormatInt(iin, 6) + FormatInt(accountId, 9) + FormatInt(checksum, 1);
      && (iin >= 0 && accountId >= 0 && checksum >= 0 ==> AllDigits(s))
      && (0 <= iin < Pow10(6) && 0 <= accountId < Pow10(9) && 0 <= checksum <= 9 ==> |s| == 16)
  {
    var p, a, c := FormatInt(iin, 6), FormatInt(accountId, 9), FormatInt(checksum, 1);
    if iin >= 0 && accountId >= 0 && checksum >= 0 {
      AllDigitsConcat(p, a);
      AllDigitsConcat(p + a, c);
    }
    if 0 <= iin < Pow10(6) && 0 <= accountId < Pow10(9) && 0 <= checksum <= 9 {
      assert Pow10(1) == 10;
      ZeroPadLength(iin, 6);
      ZeroPadLength(accountId, 9);
      ZeroPadLength(checksum, 1);
    }
  }


  /**
    `card_number`: the 16-character string of a card. For fields in range,
    the slices [0:6], [6:15] and [15] read back as the issuer number, the
    account identifier and the check digit.
  */
  function CardNumber(c: Card): (s: string)
    ensures InRange(c) ==> |s| == 16 && AllDigits(s)
    ensures InRange(c) ==>
      && ParseDecimal(s[0..6]) == c.iin
      && ParseDecimal(s[6..15]) == c.accountId
      && ParseDecimal(s[15..16]) == c.checksum
  {
    FieldsReadBack(c.iin, c.accountId, c.checksum);
    FormatCardNumber(c.iin, c.accountId, c.checksum)
  }

  /** The fields fit in 6, 9 and 1 digits. */
  predicate InRange(c: Card) {
    0 <= c.iin < Pow10(6) && 0 <= c.accountId < Pow10(9) && 0 <= c.checksum <= 9
  }

  /** Each formatted field, for a value in range, sits in its slice and reads back as that value. */
  lemma FieldsReadBack(iin: int, accountId: int, checksum: int)
    ensures var s := FormatCardNumber(iin, accountId, checksum);
      0 <= iin < Pow10(6) && 0 <= accountId < Pow10(9) && 0 <= checksum <= 9 ==>
      && |s| == 16 && AllDigits(s)
      && ParseDecimal(s[0..6]) == iin
      && ParseDecimal(s[6..15]) == accountId
      && ParseDecimal(s[15..16]) == checksum
  {
    if 0 <= iin < Pow10(6) && 0 <= accountId < Pow10(9) && 0 <= checksum <= 9 {
      var p, a, c := FormatInt(iin, 6), FormatInt(accountId, 9), FormatInt(checksum, 1);
      var s := FormatCardNumber(iin, accountId, checksum);
      assert Pow10(1) == 10;
      ZeroPadLength(iin, 6);
      ZeroPadLength(accountId, 9);
      ZeroPadLength(checksum, 1);
      assert s[0..6] == p && s[6..15] == a && s[15..16] == c;
      ParseDecimalOfZeroPad(iin, 6);
      ParseDecimalOfZeroPad(accountId, 9);
      ParseDecimalOfZeroPad(checksum, 1);
    }
  }

  /** The Luhn sum of the issuer number, the account identifier and a placeholder check digit 0. */
  function PlaceholderSum(accountId: nat): (sum: int)
  {
    LuhnSum(Digits(FormatCardNumber(IIN, accountId, 0)))
  }

  /**
    `calc_checksum`: the digit that brings the Luhn sum of the card number to
    a multiple of 10. A negative identifier is not accepted: its formatted
    string holds a '-' on which `int()` raises.
  */
  function CalcChecksum(accountId: nat): (c: int)
    ensures 0 <= c <= 9
    ensures c == 0 <==> PlaceholderSum(accountId) % 10 == 0
    ensures (PlaceholderSum(accountId) + c) % 10 == 0
  {
    var r := PlaceholderSum(accountId) % 10;
    if r == 0 then 0 else 10 - r
  }

  /** `CreditCard(number)` for an integer: a card of this bank with its check digit computed. */
  function FromAccountId(accountId: nat): (c: Card)
    ensures c.iin == IIN && c.accountId == accountId
    ensures 0 <= c.checksum <= 9
  {
    Card(IIN, accountId, CalcChecksum(accountId))
  }

  /**
    `CreditCard(number)` for a string: the three fields read from the slices
    [0:6], [6:15] and the last character. The check digit is taken as given,
    not verified. Parsing then formatting gives the string back.
  */
  function ParseCard(s: string): (c: Card)
    requires |s| == 16 && AllDigits(s)
    ensures 0 <= c.iin < Pow10(6) && 0 <= c.accountId < Pow10(9) && 0 <= c.checksum <= 9
    ensures CardNumber(c) == s
  {
    var iin, id, d := s[0..6], s[6..15], s[15..16];
    assert s == iin + id + d;
    ZeroPadOfParse(iin);
    ZeroPadOfParse(id);
    ZeroPadOfParse(d);
    Card(ParseDecimal(iin), ParseDecimal(id), DigitValue(s[15]))
  }

  /** A string passes the Luhn check: 16 digits whose Luhn sum is a multiple of 10. */
  predicate LuhnValid(s: string) {
    |s| == 16 && AllDigits(s) && LuhnSum(Digits(s)) % 10 == 0
  }

  /** Extending a digit prefix by one more digit adds that digit's contribution at its index. */
  lemma LuhnSumPrefixStep(s: string, i: nat)
    requires i < |s| && AllDigits(s[..i]) && IsDigit(s[i])
    ensures AllDigits(s[..i + 1])
    ensures LuhnSum(Digits(s[..i + 1])) == LuhnSum(Digits(s[..i])) + Term(DigitValue(s[i]), i)
  {
    assert s[..i + 1] == s[..i] + [s[i]];
    AllDigitsConcat(s[..i], [s[i]]);
    assert Digits(s[..i + 1]) == Digits(s[..i]) + [DigitValue(s[i])];
    LuhnSumSnoc(Digits(s[..i]), DigitValue(s[i]));
  }

  /**
    The digit loop of `is_valid_card_number` and `calc_checksum`: converts
    each character with `int()`, doubling at even indexes, and sums. Stops
    with the index of the first character that is not a digit.
  */
  method LuhnTotal(s: string) returns (r: Result<int, CardError>)
    ensures r.Success? <==> AllDigits(s)
    ensures r.Success? ==> r.value == LuhnSum(Digits(s))
    ensures r.Failure? ==> r.error.index < |s| && !IsDigit(s[r.error.index]) && AllDigits(s[..r.error.index])
  {
    var total := 0;
    var i := 0;
    while i < |s|
      invariant 0 <= i <= |s|
      invariant AllDigits(s[..i])
      invariant total == LuhnSum(Digits(s[..i]))
    {
      if !IsDigit(s[i]) {
        return Failure(NonDigit(i));
      }
      var n := DigitValue(s[i]);
      if i % 2 == 0 {
        n := n * 2;
        if n > 9 {
          n := n - 9;
        }
      }
      assert n == Term(DigitValue(s[i]), i);
      LuhnSumPrefixStep(s, i);
      total := total + n;
      i := i + 1;
    }
    assert s[..i] == s;
    return Success(total);
  }

  /**
    `is_valid_card_number`: false for any length other than 16; otherwise
    whether the Luhn sum is a multiple of 10. A 16-character string holding a
    non-digit makes `int()` raise, reported here as a failure.
  */
  method IsValidCardNumber(s: string) returns (r: Result<bool, CardError>)
    ensures |s| != 16 ==> r == Success(false)
    ensures |s| == 16 ==> (r.Failure? <==> !AllDigits(s))
    ensures r.Success? ==> (r.value <==> LuhnValid(s))
  {
    if |s| != 16 {
      return Success(false);
    }
    var total := LuhnTotal(s);
    match total
    case Failure(e) => r := Failure(e);
    case Success(t) => r := Success(t % 10 == 0);
  }

  /*
    The brand tests divide the issuer number with Python's `//`, which
    rounds toward minus infinity. For the positive divisors used here that is
    Dafny's Euclidean `/`. Each test therefore picks out ranges of issuer numbers.
  */

  /** `is_visa`: `iin // 100000 == 4`, i.e. the issuer number lies in 400000..499999. */
  function IsVisa(c: Card): (v: bool)
    ensures v <==> 400000 <= c.iin < 500000
  {
    c.iin / 100000 == 4
  }

  /** `is_american_express`: `iin // 10000` is 34 or 37, i.e. 340000..349999 or 370000..379999. */
  function IsAmericanExpress(c: Card): (v: bool)
    ensures v <==> 340000 <= c.iin < 350000 || 370000 <= c.iin < 380000
  {
    c.iin / 10000 == 34 || c.iin / 10000 == 37
  }

  /** `is_mastercard`: `iin // 10000` is 51 or 55, i.e. 510000..519999 or 550000..559999. */
  function IsMastercard(c: Card): (v: bool)
    ensures v <==> 510000 <= c.iin < 520000 || 550000 <= c.iin < 560000
  {
    c.iin / 10000 == 51 || c.iin / 10000 == 55
  }

  /** A card is of at most one brand. */
  lemma BrandsAreExclusive(c: Card)
    ensures !(IsVisa(c) && IsAmericanExpress(c))
    ensures !(IsVisa(c) && IsMastercard(c))
    ensures !(IsAmericanExpress(c) && IsMastercard(c))
  {
  }

  /** Every card the bank issues is a Visa card. */
  lemma IssuedCardIsVisa(accountId: nat)
    ensures IsVisa(FromAccountId(accountId))
    ensures !IsAmericanExpress(FromAccountId(accountId)) && !IsMastercard(FromAccountId(accountId))
  {
  }

  /** Formatting then parsing recovers the three fields. */
  lemma FormatParseRoundTrip(iin: int, accountId: int, checksum: int)
    requires 0 <= iin < Pow10(6) && 0 <= accountId < Pow10(9) && 0 <= checksum <= 9
    ensures ParseCard(FormatCardNumber(iin, accountId, checksum)) == Card(iin, accountId, checksum)
  {
    var s := FormatCardNumber(iin, accountId, checksum);
    FieldsReadBack(iin, accountId, checksum);
    assert ParseDecimal(s[15..16]) == 10 * ParseDecimal(s[15..15]) + DigitValue(s[15]);
  }

  /** The Luhn sum of a 16-digit string is that of its first 15 digits plus the last digit, undoubled. */
  lemma LuhnSumLastDigit(s: string)
    requires |s| == 16 && AllDigits(s)
    ensures LuhnSum(Digits(s)) == LuhnSum(Digits(s[..15])) + DigitValue(s[15])
  {
    assert Digits(s)[..15] == Digits(s[..15]);
  }

  /** The issuer number is written as the six characters 400000. */
  lemma IinText()
    ensures FormatInt(IIN, 6) == "400000"
  {
    assert DecimalString(40) == "40";
    assert DecimalString(4000) == "4000";
    assert DecimalString(400000) == "400000";
  }

  /** A check digit is written as its single character. */
  lemma CheckDigitText(d: int)
    requires 0 <= d <= 9
    ensures FormatInt(d, 1) == [DigitChar(d)]
  {
  }

  /**
    A card issued for an identifier below 10^9 has a 16-digit number that
    starts with the issuer number 400000 and parses back to the same card.
  */
  lemma IssuedCardNumberShape(accountId: nat)
    requires accountId < Pow10(9)
    ensures |CardNumber(FromAccountId(accountId))| == 16
    ensures AllDigits(CardNumber(FromAccountId(accountId)))
    ensures CardNumber(FromAccountId(accountId))[..6] == "400000"
    ensures ParseCard(CardNumber(FromAccountId(accountId))) == FromAccountId(accountId)
  {
    var card := FromAccountId(accountId);
    var s := CardNumber(card);
    assert Pow10(6) == 1000000;
    IinText();
    assert s[..6] == FormatInt(IIN, 6);
    FormatParseRoundTrip(IIN, accountId, card.checksum);
  }

  /** A check digit `c` after the issuer number and an identifier below 10^9 adds `c` to the placeholder sum. */
  lemma CheckDigitAdds(accountId: nat, c: int)
    requires accountId < Pow10(9) && 0 <= c <= 9
    ensures LuhnSum(Digits(FormatCardNumber(IIN, accountId, c))) == PlaceholderSum(accountId) + c
  {
    var p, a := FormatInt(IIN, 6), FormatInt(accountId, 9);
    var s := FormatCardNumber(IIN, accountId, c);
    var z := FormatCardNumber(IIN, accountId, 0);
    assert Pow10(6) == 1000000;
    CheckDigitText(c);
    CheckDigitText(0);
    assert s == p + a + [DigitChar(c)];
    assert z == p + a + [DigitChar(0)];
    assert s[..15] == z[..15];
    LuhnSumLastDigit(s);
    LuhnSumLastDigit(z);
  }

  /** The number of a card issued for an identifier below 10^9 passes the Luhn check. */
  lemma IssuedCardNumberIsValid(accountId: nat)
    requires accountId < Pow10(9)
    ensures LuhnValid(CardNumber(FromAccountId(accountId)))
  {
    assert Pow10(6) == 1000000;
    CheckDigitAdds(accountId, CalcChecksum(accountId));
  }

  /**
    From the billionth account on, the identifier no longer fits in 9 digits:
    the card number grows past 16 characters and fails the Luhn check.
  */
  lemma OversizedIdentifierIsInvalid(accountId: nat)
    requires accountId >= Pow10(9)
    ensures |CardNumber(FromAccountId(accountId))| > 16
    ensures !LuhnValid(CardNumber(FromAccountId(accountId)))
  {
    DecimalLength(accountId, 9);
    DecimalLength(IIN, 6);
    assert Pow10(6) == 1000000;
  }

  /**
    Replacing the check digit `d` of a valid number by `(d + 1) % 10` makes it
    invalid: index 15 is never doubled.
  */
  lemma LastDigitCorruptionDetected(s: string)
    requires LuhnValid(s)
    ensures !LuhnValid(s[..15] + [DigitChar((DigitValue(s[15]) + 1) % 10)])
  {
    var t := s[..15] + [DigitChar((DigitValue(s[15]) + 1) % 10)];
    AllDigitsConcat(s[..15], [t[15]]);
    assert t[..15] == s[..15];
    LuhnSumLastDigit(s);
    LuhnSumLastDigit(t);
  }

  /** Any change of one digit of a valid number into a different digit makes it invalid. */
  lemma SingleDigitChangeDetected(s: string, i: nat, c: char)
    requires LuhnValid(s) && i < 16 && IsDigit(c) && c != s[i]
    ensures !LuhnValid(s[i := c])
  {
    var t := s[i := c];
    assert AllDigits(t) by {
      forall j | 0 <= j < |t| ensures IsDigit(t[j]) {
        if j != i { assert t[j] == s[j]; }
      }
    }
    var ds, x := Digits(s), DigitValue(c);
    assert Digits(t) == ds[i := x];
    LuhnSumUpdate(ds, i, x);
    assert x != ds[i] by {
      assert DigitChar(x) == c;
      assert DigitChar(ds[i]) == s[i];
    }
    TermInjective(x, ds[i], i);
    SumShiftDetected(LuhnSum(ds), Term(ds[i], i), Term(x, i));
  }

  lemma SumShiftDetected(sum: int, was: int, now: int)
    requires sum % 10 == 0 && 0 <= was <= 9 && 0 <= now <= 9 && was != now
    ensures (sum - was + now) % 10 != 0
  {
  }

  /** On card numbers the check the code performs is the standard right-to-left Luhn check. */
  lemma LuhnValidIsStandard(s: string)
    requires |s| == 16 && AllDigits(s)
    ensures LuhnValid(s) <==> StandardLuhnSum(Digits(s)) % 10 == 0
  {
    LuhnSumIsStandard(Digits(s));
  }
}
