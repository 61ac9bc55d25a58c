/** Decimal digit strings: their value, the canonical rendering of a natural number, zero padding. */
module Digits {

  predicate IsDigit(c: char) { '0' <= c <= '9' }

  predicate AllDigits(s: string) { forall i :: 0 <= i < |s| ==> IsDigit(s[i]) }

  function DigitChar(d: nat): (c: char)
    requires d < 10
    ensures IsDigit(c) && c as int - '0' as int == d
  {
    ('0' as int + d) as char
  }

  /** The value of a digit string, read most significant digit first (leading zeros allowed). */
  function DecimalValue(s: string): nat
    requires AllDigits(s)
  {
    if s == [] then 0 else DecimalValue(s[..|s| - 1]) * 10 + (s[|s| - 1] as int - '0' as int)
  }

  /** The shortest decimal rendering of n. */
  function NatText(n: nat): (r: string)
    ensures |r| > 0 && AllDigits(r)
    ensures DecimalValue(r) == n
    ensures n < 10 <==> |r| == 1
  {
    if n < 10 then [DigitChar(n)]
    else
      var r := NatText(n / 10) + [DigitChar(n % 10)];
      assert r[..|r| - 1] == NatText(n / 10);
      r
  }

  /** A leading zero does not change a digit string's value. */
  lemma {:induction false} LeadingZero(s: string)
    requires AllDigits(s)
    ensures AllDigits("0" + s) && DecimalValue("0" + s) == DecimalValue(s)
  {
    if s != [] {
      var init := s[..|s| - 1];
      LeadingZero(init);
      var z := "0" + s;
      assert z[..|z| - 1] == "0" + init && z[|z| - 1] == s[|s| - 1];
    }
  }

  /** n rendered with at least `width` digits, padded on the left with zeros (like a `dd` or `yyyy` date token). */
  function ZeroPadded(n: nat, width: nat): (r: string)
    ensures AllDigits(r) && |r| > 0
    ensures |r| == if |NatText(n)| < width then width else |NatText(n)|
    ensures DecimalValue(r) == n
    decreases width
  {
    if |NatText(n)| >= width then NatText(n)
    else
      var r := ZeroPadded(n, width - 1);
      LeadingZero(r);
      "0" + r
  }

  /** The end of the maximal run of digits that starts at j (what a greedy `\d+` consumes). */
  function DigitRunEnd(s: string, j: nat): (k: nat)
    requires j <= |s|
    ensures j <= k <= |s|
    ensures AllDigits(s[j..k])
    ensures k == |s| || !IsDigit(s[k])
    decreases |s| - j
  {
    if j < |s| && IsDigit(s[j]) then
      var k := DigitRunEnd(s, j + 1);
      assert forall i :: 0 < i < k - j ==> s[j..k][i] == s[j + 1..k][i - 1];
      k
    else j
  }

  /** A digit run ends at the first non-digit. */
  lemma {:induction false} DigitRunStops(t: string, c: char, rest: string, j: nat)
    requires AllDigits(t) && !IsDigit(c) && j <= |t|
    ensures DigitRunEnd(t + [c] + rest, j) == |t|
    decreases |t| - j
  {
    var u := t + [c] + rest;
    if j < |t| {
      assert u[j] == t[j];
      DigitRunStops(t, c, rest, j + 1);
    } else {
      assert u[j] == c;
    }
  }

  /** A digit run followed by a non-digit c reads back as itself, and what follows c is untouched. */
  lemma ReadRun(t: string, c: char, rest: string)
    requires |t| > 0 && AllDigits(t) && !IsDigit(c)
    ensures var u := t + [c] + rest; var k := DigitRunEnd(u, 0);
      k == |t| && k < |u| && u[k] == c && u[k + 1..] == rest && AllDigits(u[..k]) && DecimalValue(u[..k]) == DecimalValue(t)
  {
    DigitRunStops(t, c, rest, 0);
    var u := t + [c] + rest;
    assert u[..|t|] == t;
    assert u[|t| + 1..] == rest;
  }

  /** A string of digits is one run to its end. */
  lemma {:induction false} DigitRunWhole(t: string, j: nat)
    requires AllDigits(t) && j <= |t|
    ensures DigitRunEnd(t, j) == |t|
    decreases |t| - j
  {
    if j < |t| {
      DigitRunWhole(t, j + 1);
    }
  }

  function Power10(k: nat): (r: nat)
    ensures r >= 1
  {
    if k == 0 then 1 else 10 * Power10(k - 1)
  }

  /** A number below 10^k renders in at most k digits. */
  lemma {:induction false} NatTextWidth(n: nat, k: nat)
    requires 1 <= k && n < Power10(k)
    ensures |NatText(n)| <= k
  {
    if n >= 10 {
      NatTextWidth(n / 10, k - 1);
    }
  }
}
