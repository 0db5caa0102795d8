/** OrdinalUtil: English ordinals ("1st", "2nd", "11th", ...) for the
    option-slot prompts. */
module Ordinals {
  import opened Common

  /** Java's `%` on `int`: it truncates toward zero, so the remainder takes
      the sign of the dividend. */
  function JavaRem(a: int, b: int): (r: int)
    requires b > 0
    ensures a >= 0 ==> 0 <= r < b
    ensures a < 0 ==> -b < r <= 0
  {
    if a >= 0 then a % b else -((-a) % b)
  }

  /** `OrdinalUtil.toOrdinal`: the decimal form of n followed by a
      two-letter suffix. */
  function ToOrdinal(n: int): (r: string)
    ensures |r| == |IntToString(n)| + 2
    ensures r[..|r| - 2] == IntToString(n)
    ensures r[|r| - 2..] in ["st", "nd", "rd", "th"]
  {
    var mod100 := JavaRem(n, 100);
    if 11 <= mod100 <= 13 then IntToString(n) + "th"
    else
      var last := JavaRem(n, 10);
      if last == 1 then IntToString(n) + "st"
      else if last == 2 then IntToString(n) + "nd"
      else if last == 3 then IntToString(n) + "rd"
      else IntToString(n) + "th"
  }

  /** The English rule read off a numeral: a tens digit of 1 always takes
      "th"; otherwise a final 1, 2 or 3 takes "st", "nd" or "rd", and any
      other final digit "th". */
  function EnglishSuffix(numeral: string): string
    requires |numeral| >= 1
  {
    var last := numeral[|numeral| - 1];
    if |numeral| >= 2 && numeral[|numeral| - 2] == '1' then "th"
    else if last == '1' then "st"
    else if last == '2' then "nd"
    else if last == '3' then "rd"
    else "th"
  }

  lemma Mod100Split(n: nat)
    ensures n % 100 == 10 * ((n / 10) % 10) + n % 10
  {
    var q := n / 100;
    var r := n % 100;
    assert n == 100 * q + r;
    assert n / 10 == 10 * q + r / 10;
    assert (n / 10) % 10 == r / 10;
    assert n % 10 == r % 10;
  }

  /** For every non-negative n the source's remainder tests agree with the
      English rule applied to the digits of n. */
  lemma {:induction false} OrdinalMatchesEnglishRule(n: nat)
    ensures ToOrdinal(n) == Decimal(n) + EnglishSuffix(Decimal(n))
  {
    var d := Decimal(n);
    Mod100Split(n);
    var tens := (n / 10) % 10;
    var last := n % 10;
    assert DigitChar(last) == '1' <==> last == 1;
    assert DigitChar(last) == '2' <==> last == 2;
    assert DigitChar(last) == '3' <==> last == 3;
    if n >= 10 {
      assert DigitChar(tens) == '1' <==> tens == 1;
    }
  }

  /** Negative numbers always get "th": Java's remainders of a negative
      dividend are never positive. */
  lemma NegativeTakesTh(n: int)
    requires n < 0
    ensures ToOrdinal(n) == IntToString(n) + "th"
  {
  }

  /** The prompts for option slots 1..6, and every other single digit:
      1st, 2nd, 3rd, then "th". */
  lemma SlotOrdinals(n: int)
    requires 1 <= n <= 9
    ensures ToOrdinal(n) == [DigitChar(n)] + (if n == 1 then "st" else if n == 2 then "nd"
                                              else if n == 3 then "rd" else "th")
  {
    assert IntToString(n) == [DigitChar(n)];
  }

  /** Teens take "th" whatever their last digit; twenties do not. */
  lemma {:induction false} TeenAndTwentyOrdinals()
    ensures ToOrdinal(11) == "11th" && ToOrdinal(12) == "12th" && ToOrdinal(13) == "13th"
    ensures ToOrdinal(21) == "21st" && ToOrdinal(112) == "112th"
  {
    assert Decimal(11) == "11";
    assert Decimal(12) == "12";
    assert Decimal(13) == "13";
    assert Decimal(21) == "21";
    assert Decimal(112) == "112" by { assert Decimal(11) == "11"; }
  }
}
