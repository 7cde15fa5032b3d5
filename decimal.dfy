/** Decimal place-value arithmetic on natural numbers: the digits that the
    digit-count and digit-reversal loops peel off with `% 10` and `/ 10`. */
module Decimal {

  predicate IsDigit(d: int) {
    0 <= d <= 9
  }

  predicate AllDigits(s: seq<int>) {
    forall k :: 0 <= k < |s| ==> IsDigit(s[k])
  }

  function Pow10(k: nat): (r: nat)
    ensures r >= 1
  {
    if k == 0 then 1 else 10 * Pow10(k - 1)
  }

  /** The decimal digits of n, least significant first; 0 has none. */
  function DigitsLE(n: nat): (s: seq<int>)
    ensures AllDigits(s)
    ensures s == [] <==> n == 0
    ensures s != [] ==> s[|s| - 1] != 0
  {
    if n == 0 then [] else [n % 10] + DigitsLE(n / 10)
  }

  /** The number a digit sequence denotes when read least significant first. */
  function ValueLE(s: seq<int>): int {
    if s == [] then 0 else s[0] + 10 * ValueLE(s[1..])
  }

  /** The number a digit sequence denotes when read most significant first,
      as an ordinary numeral is written. */
  function ValueBE(s: seq<int>): (r: int)
    ensures AllDigits(s) ==> r >= 0
  {
    if s == [] then 0 else 10 * ValueBE(s[..|s| - 1]) + s[|s| - 1]
  }

  function Reverse(s: seq<int>): (r: seq<int>)
    ensures |r| == |s|
  {
    if s == [] then [] else [s[|s| - 1]] + Reverse(s[..|s| - 1])
  }

  /** The number of decimal digits of n (0 for n == 0). */
  function NumDigits(n: nat): nat {
    |DigitsLE(n)|
  }

  /** The digits of n written in the opposite order, read as a number:
      trailing zeros of n become leading zeros and vanish. */
  function ReverseNumber(n: nat): nat {
    ValueBE(DigitsLE(n))
  }

  lemma {:induction false} ReverseAt(s: seq<int>, k: int)
    requires 0 <= k < |s|
    ensures Reverse(s)[k] == s[|s| - 1 - k]
  {
    if k > 0 {
      ReverseAt(s[..|s| - 1], k - 1);
    }
  }

  lemma ReverseInvolution(s: seq<int>)
    ensures Reverse(Reverse(s)) == s
  {
    var r := Reverse(s);
    forall k | 0 <= k < |s| ensures Reverse(r)[k] == s[k] {
      ReverseAt(r, k);
      ReverseAt(s, |s| - 1 - k);
    }
  }

  /** Decoding the digits of n gives n back. */
  lemma {:induction false} DigitsRoundTrip(n: nat)
    ensures ValueLE(DigitsLE(n)) == n
  {
    if n > 0 {
      DigitsRoundTrip(n / 10);
      assert DigitsLE(n)[1..] == DigitsLE(n / 10);
    }
  }

  /** Reading a sequence most significant first is reading its reversal
      least significant first. */
  lemma {:induction false} ValueBEReverse(s: seq<int>)
    ensures ValueBE(s) == ValueLE(Reverse(s))
  {
    if s != [] {
      ValueBEReverse(s[..|s| - 1]);
      assert Reverse(s)[1..] == Reverse(s[..|s| - 1]);
    }
  }

  lemma {:induction false} ValueBEPositive(s: seq<int>)
    requires AllDigits(s) && s != [] && s[0] != 0
    ensures ValueBE(s) > 0
  {
    if |s| > 1 {
      var init := s[..|s| - 1];
      assert init[0] == s[0];
      ValueBEPositive(init);
    }
  }

  /** A numeral with no leading zero has exactly the written digits. */
  lemma {:induction false} DigitsOfValueBE(s: seq<int>)
    requires AllDigits(s)
    requires s == [] || s[0] != 0
    ensures DigitsLE(ValueBE(s)) == Reverse(s)
  {
    if s != [] {
      var init, last := s[..|s| - 1], s[|s| - 1];
      assert init == [] || init[0] == s[0];
      DigitsOfValueBE(init);
      ValueBEPositive(s);
      var v := ValueBE(s);
      assert v == 10 * ValueBE(init) + last;
      assert v % 10 == last && v / 10 == ValueBE(init);
    }
  }

  /** Reversing a number that does not end in 0 twice gives it back. */
  lemma ReverseNumberRoundTrip(n: nat)
    requires n % 10 != 0
    ensures ReverseNumber(ReverseNumber(n)) == n
  {
    var ds := DigitsLE(n);
    DigitsOfValueBE(ds);
    ValueBEReverse(Reverse(ds));
    ReverseInvolution(ds);
    DigitsRoundTrip(n);
  }

  /** A trailing zero of n does not show in its reversal. */
  lemma ReverseNumberDropsTrailingZero(n: nat)
    ensures ReverseNumber(10 * n) == ReverseNumber(n)
  {
    if n > 0 {
      var ds := DigitsLE(n);
      assert DigitsLE(10 * n) == [0] + ds;
      LeadingZero(ds);
    }
  }

  lemma {:induction false} LeadingZero(s: seq<int>)
    ensures ValueBE([0] + s) == ValueBE(s)
  {
    if s != [] {
      assert ([0] + s)[..|s|] == [0] + s[..|s| - 1];
      LeadingZero(s[..|s| - 1]);
    }
  }

  /** The reversal of n has n's digits in the opposite order, provided n
      does not end in 0. */
  lemma ReverseNumberDigits(n: nat)
    requires n % 10 != 0
    ensures DigitsLE(ReverseNumber(n)) == Reverse(DigitsLE(n))
    ensures NumDigits(ReverseNumber(n)) == NumDigits(n)
  {
    DigitsOfValueBE(DigitsLE(n));
  }

  /** A positive n has d digits exactly when 10^(d-1) <= n < 10^d. */
  lemma {:induction false} NumDigitsBounds(n: nat)
    requires n > 0
    ensures Pow10(NumDigits(n) - 1) <= n < Pow10(NumDigits(n))
  {
    if n >= 10 {
      NumDigitsBounds(n / 10);
    }
  }

  lemma {:induction false} Pow10Monotone(i: nat, j: nat)
    requires i <= j
    ensures Pow10(i) <= Pow10(j)
    decreases j
  {
    if i < j {
      Pow10Monotone(i, j - 1);
    }
  }

  /** The converse of NumDigitsBounds: the only d with
      10^(d-1) <= n < 10^d is the digit count of n. */
  lemma NumDigitsUnique(n: nat, d: nat)
    requires d >= 1 && Pow10(d - 1) <= n < Pow10(d)
    ensures d == NumDigits(n)
  {
    var k := NumDigits(n);
    NumDigitsBounds(n);
    if d < k {
      Pow10Monotone(d, k - 1);
    } else if d > k {
      Pow10Monotone(k, d - 1);
    }
  }
}
