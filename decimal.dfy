/**
 * Decimal text for integers: Python's `str(n)` for a non-negative `n`, and `int(text)`
 * restricted to an optional sign followed by ASCII digits.
 */
module Decimal {
  import opened Wrappers

  predicate IsDigit(c: char) { '0' <= c <= '9' }

  predicate AllDigits(s: string) { forall i :: 0 <= i < |s| ==> IsDigit(s[i]) }

  function DigitChar(d: nat): (c: char)
    requires d < 10
    ensures IsDigit(c) && DigitValue(c) == d
  {
    (48 + d) as char
  }

  function DigitValue(c: char): (d: nat)
    requires IsDigit(c)
    ensures d < 10
  {
    c as int - 48
  }

  function Pow10(k: nat): (p: nat)
    ensures p >= 1
  {
    if k == 0 then 1 else 10 * Pow10(k - 1)
  }

  /** The value of a digit string, most significant digit first; leading zeros add nothing. */
  function DigitsValue(s: string): (v: nat)
    requires AllDigits(s)
    ensures v < Pow10(|s|)
  {
    if |s| == 0 then 0
    else
      var d, rest := DigitValue(s[0]), DigitsValue(s[1..]);
      assert d * Pow10(|s| - 1) <= 9 * Pow10(|s| - 1);
      d * Pow10(|s| - 1) + rest
  }

  /** Python's `str(n)` for `n >= 0`: the shortest decimal rendering, no leading zero. */
  function NatToString(n: nat): (s: string)
    ensures |s| >= 1 && AllDigits(s)
    ensures s[0] == '0' ==> n == 0
  {
    if n < 10 then [DigitChar(n)] else NatToString(n / 10) + [DigitChar(n % 10)]
  }

  /** A digit string as `str()` writes it: no leading zero unless it is "0" itself. */
  predicate IsCanonical(s: string) {
    |s| >= 1 && AllDigits(s) && (s[0] == '0' ==> |s| == 1)
  }

  /** `int(text)` on optional-sign-then-digits text; anything else is the error path. */
  function ParseInt(s: string): (r: Option<int>)
    ensures r.Some? <==>
      (|s| > 0 && AllDigits(s)) || (|s| > 1 && (s[0] == '+' || s[0] == '-') && AllDigits(s[1..]))
    ensures r.Some? ==> -(Pow10(|s|) as int) < r.value < Pow10(|s|)
    ensures r.Some? && AllDigits(s) ==> r.value == DigitsValue(s)
    ensures r.Some? && |s| > 0 && s[0] == '+' ==> r.value == DigitsValue(s[1..])
    ensures r.Some? && |s| > 0 && s[0] == '-' ==> r.value == -(DigitsValue(s[1..]) as int) && r.value <= 0
  {
    if |s| > 0 && (s[0] == '+' || s[0] == '-') then
      if |s| > 1 && AllDigits(s[1..]) then
        var v := DigitsValue(s[1..]);
        assert Pow10(|s| - 1) <= Pow10(|s|);
        Some(if s[0] == '-' then -(v as int) else v)
      else None
    else if |s| > 0 && AllDigits(s) then Some(DigitsValue(s))
    else None
  }

  lemma {:induction false} DigitsValueSnoc(s: string, c: char)
    requires AllDigits(s) && IsDigit(c)
    ensures AllDigits(s + [c])
    ensures DigitsValue(s + [c]) == 10 * DigitsValue(s) + DigitValue(c)
  {
    assert AllDigits(s + [c]);
    if |s| > 0 {
      var t := s + [c];
      assert t[0] == s[0] && t[1..] == s[1..] + [c];
      DigitsValueSnoc(s[1..], c);
      var d, p, r := DigitValue(s[0]), Pow10(|s| - 1), DigitsValue(s[1..]);
      assert Pow10(|t| - 1) == 10 * p;
      assert DigitsValue(t) == d * (10 * p) + DigitsValue(t[1..]);
      assert DigitsValue(s) == d * p + r;
      ShiftDigit(d, p, r, DigitValue(c));
    } else {
      assert s + [c] == [c];
    }
  }

  lemma ShiftDigit(d: int, p: int, r: int, e: int)
    ensures d * (10 * p) + (10 * r + e) == 10 * (d * p + r) + e
  {
  }

  /** Reading back what `str()` wrote gives the number again. */
  lemma {:induction false} ValueOfNatToString(n: nat)
    ensures DigitsValue(NatToString(n)) == n
  {
    if n >= 10 {
      ValueOfNatToString(n / 10);
      DigitsValueSnoc(NatToString(n / 10), DigitChar(n % 10));
    }
  }

  /** `int(str(n)) == n`. */
  lemma ParseNatToString(n: nat)
    ensures ParseInt(NatToString(n)) == Some(n)
  {
    ValueOfNatToString(n);
  }

  /** Every string `str()` writes is canonical ... */
  lemma NatToStringIsCanonical(n: nat)
    ensures IsCanonical(NatToString(n))
  {
    assert n >= 10 ==> NatToString(n)[0] != '0';
  }

  /** ... and every canonical string is what `str()` writes for its value. */
  lemma {:induction false} CanonicalIsNatToString(s: string)
    requires IsCanonical(s)
    ensures NatToString(DigitsValue(s)) == s
  {
    if |s| > 1 {
      var init, c := s[..|s| - 1], s[|s| - 1];
      assert s == init + [c];
      DigitsValueSnoc(init, c);
      assert IsCanonical(init);
      CanonicalIsNatToString(init);
      assert DigitsValue(init) >= 1 by {
        assert DigitValue(init[0]) >= 1;
        assert DigitsValue(init) >= DigitValue(init[0]) * Pow10(|init| - 1);
      }
      var v := DigitsValue(s);
      assert v / 10 == DigitsValue(init) && v % 10 == DigitValue(c);
    }
  }

  /** Distinct numbers have distinct renderings. */
  lemma NatToStringInjective(a: nat, b: nat)
    requires NatToString(a) == NatToString(b)
    ensures a == b
  {
    ValueOfNatToString(a);
    ValueOfNatToString(b);
  }

  lemma {:induction false} Pow10Monotone(j: nat, k: nat)
    requires j <= k
    ensures Pow10(j) <= Pow10(k)
    decreases k
  {
    if j < k { Pow10Monotone(j, k - 1); }
  }

  /** A number below 10^k is written with at most k digits. */
  lemma {:induction false} NatToStringLength(n: nat, k: nat)
    requires 1 <= k && n < Pow10(k)
    ensures |NatToString(n)| <= k
  {
    if n >= 10 {
      NatToStringLength(n / 10, k - 1);
    }
  }

  lemma {:induction false} Pow10Add(j: nat, k: nat)
    ensures Pow10(j + k) == Pow10(j) * Pow10(k)
  {
    if k > 0 {
      Pow10Add(j, k - 1);
      assert Pow10(j + k) == 10 * Pow10(j + k - 1);
    }
  }

  /** `k` zero characters. */
  function Zeros(k: nat): (z: string)
    ensures |z| == k && forall i :: 0 <= i < k ==> z[i] == '0'
  {
    seq(k, _ => '0')
  }

  /** Leading zeros do not change a digit string's value. */
  lemma {:induction false} ZerosValue(k: nat, s: string)
    requires AllDigits(s)
    ensures AllDigits(Zeros(k) + s) && DigitsValue(Zeros(k) + s) == DigitsValue(s)
  {
    if k > 0 {
      ZerosValue(k - 1, s);
      var t := Zeros(k - 1) + s;
      assert Zeros(k) + s == "0" + t;
      assert ("0" + t)[1..] == t;
      assert DigitsValue("0" + t) == DigitValue('0') * Pow10(|t|) + DigitsValue(t);
    } else {
      assert Zeros(k) + s == s;
    }
  }

  /** `int()` ignores leading zeros and a leading '+': "03", "+3" and "3" all read as 3. */
  lemma ParsePadded(k: nat, n: nat)
    ensures ParseInt(Zeros(k) + NatToString(n)) == Some(n)
    ensures ParseInt("+" + NatToString(n)) == Some(n)
  {
    ValueOfNatToString(n);
    ZerosValue(k, NatToString(n));
    var t := "+" + NatToString(n);
    assert t[1..] == NatToString(n);
  }
}
