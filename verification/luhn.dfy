/**
  The Luhn mod-10 sum of ISO/IEC 7812-1 (Annex B) over a sequence of digits,
  in the left-indexed form the card code uses: walking from the leftmost digit,
  every digit at an even 0-based index is doubled, and a doubled value above 9
  loses 9.
*/
module Luhn {

  /** The contribution of digit `d` standing at 0-based index `i` from the left. */
  function Term(d: int, i: nat): (t: int)
    ensures 0 <= d <= 9 ==> 0 <= t <= 9
  {
    if i % 2 == 0 then (if 2 * d > 9 then 2 * d - 9 else 2 * d) else d
  }

  /** The sum of the contributions of all digits, indexed from the left. */
  function LuhnSum(ds: seq<int>): (sum: int)
  {
    if |ds| == 0 then 0 else LuhnSum(ds[..|ds| - 1]) + Term(ds[|ds| - 1], |ds| - 1)
  }

  predicate AllDigitValues(ds: seq<int>) {
    forall i :: 0 <= i < |ds| ==> 0 <= ds[i] <= 9
  }

  /**
    The rule as ISO/IEC 7812-1 states it, indexed from the right: `k` is the
    right-hand index of the last element of `ds`, and a digit is doubled when
    its right-hand index is odd (the check digit itself has index 0).
  */
  function RightSum(ds: seq<int>, k: nat): (sum: int)
  {
    if |ds| == 0 then 0
    else
      var d := ds[|ds| - 1];
      RightSum(ds[..|ds| - 1], k + 1) + (if k % 2 == 1 then (if 2 * d > 9 then 2 * d - 9 else 2 * d) else d)
  }

  /** The standard right-to-left Luhn sum of a complete number (check digit last). */
  function StandardLuhnSum(ds: seq<int>): (sum: int)
  {
    RightSum(ds, 0)
  }

  /** Two different digits contribute different amounts at every index, modulo 10. */
  lemma TermInjective(d: int, e: int, i: nat)
    requires 0 <= d <= 9 && 0 <= e <= 9 && d != e
    ensures Term(d, i) % 10 != Term(e, i) % 10
  {
  }

  /** Appending one digit adds its contribution at the next index. */
  lemma LuhnSumSnoc(ds: seq<int>, d: int)
    ensures LuhnSum(ds + [d]) == LuhnSum(ds) + Term(d, |ds|)
  {
    assert (ds + [d])[..|ds|] == ds;
  }

  /** Replacing the digit at index `i` changes the sum by the difference of the two contributions. */
  lemma {:induction false} LuhnSumUpdate(ds: seq<int>, i: nat, x: int)
    requires i < |ds|
    ensures LuhnSum(ds[i := x]) == LuhnSum(ds) - Term(ds[i], i) + Term(x, i)
    decreases |ds|
  {
    var n := |ds| - 1;
    var es := ds[i := x];
    if i == n {
      assert es[..n] == ds[..n];
    } else {
      assert es[..n] == ds[..n][i := x];
      LuhnSumUpdate(ds[..n], i, x);
    }
  }

  /**
    When the number of digits and the right-hand index of the last one have the
    same parity, the left-indexed sum equals the right-indexed one.
  */
  lemma {:induction false} LuhnSumMatchesRightSum(ds: seq<int>, k: nat)
    requires (|ds| + k) % 2 == 0
    ensures LuhnSum(ds) == RightSum(ds, k)
    decreases |ds|
  {
    if |ds| > 0 {
      LuhnSumMatchesRightSum(ds[..|ds| - 1], k + 1);
    }
  }

  /**
    For a number with an even count of digits (16 for a card number) the
    left-indexed rule the card code uses is the standard right-to-left rule.
  */
  lemma LuhnSumIsStandard(ds: seq<int>)
    requires |ds| % 2 == 0
    ensures LuhnSum(ds) == StandardLuhnSum(ds)
  {
    LuhnSumMatchesRightSum(ds, 0);
  }

  /** Sums of digits are never negative. */
  lemma {:induction false} LuhnSumNonNegative(ds: seq<int>)
    requires AllDigitValues(ds)
    ensures LuhnSum(ds) >= 0
    decreases |ds|
  {
    if |ds| > 0 {
      LuhnSumNonNegative(ds[..|ds| - 1]);
    }
  }
}
