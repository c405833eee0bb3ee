/** Decimal digit strings: the `%d` verb of Go's fmt package applied to a
    non-negative integer, a fixed-width digit block (the fraction part of
    `%f`), and the digit-run reader that inverts both. */
module Decimal {
  import opened Wrappers

  predicate IsDigit(c: char) {
    '0' <= c <= '9'
  }

  predicate AllDigits(s: string) {
    forall i :: 0 <= i < |s| ==> IsDigit(s[i])
  }

  function DigitChar(d: nat): (c: char)
    requires d < 10
    ensures IsDigit(c)
  {
    (d + 48) as char
  }

  function DigitValue(c: char): (d: nat)
    requires IsDigit(c)
    ensures d < 10
    ensures DigitChar(d) == c
  {
    c as int - 48
  }

  function Pow10(k: nat): (p: nat)
    ensures p >= 1
  {
    if k == 0 then 1 else 10 * Pow10(k - 1)
  }

  /** Go's `%d` of a non-negative int: no sign, no leading zero, "0" for zero. */
  function Dec(n: nat): (s: string)
    ensures 0 < |s| && AllDigits(s)
    ensures s[0] == '0' ==> n == 0
    decreases n
  {
    if n < 10 then [DigitChar(n)] else Dec(n / 10) + [DigitChar(n % 10)]
  }

  /** Exactly `width` digits of `v`, padded with leading zeros. */
  function Fixed(v: nat, width: nat): (s: string)
    requires v < Pow10(width)
    ensures |s| == width && AllDigits(s)
  {
    if width == 0 then [] else Fixed(v / 10, width - 1) + [DigitChar(v % 10)]
  }

  /** The number a digit string denotes (leading zeros allowed). */
  function Value(s: string): nat
    requires AllDigits(s)
  {
    if s == [] then 0 else Value(s[..|s| - 1]) * 10 + DigitValue(s[|s| - 1])
  }

  lemma {:induction false} ValueOfDec(n: nat)
    ensures Value(Dec(n)) == n
    decreases n
  {
    if n >= 10 {
      var s := Dec(n);
      assert s[..|s| - 1] == Dec(n / 10);
      ValueOfDec(n / 10);
    }
  }

  lemma {:induction false} ValueOfFixed(v: nat, width: nat)
    requires v < Pow10(width)
    ensures Value(Fixed(v, width)) == v
  {
    if width > 0 {
      var s := Fixed(v, width);
      assert s[..|s| - 1] == Fixed(v / 10, width - 1);
      ValueOfFixed(v / 10, width - 1);
    }
  }

  /** `Dec` is injective: distinct numbers never print alike. */
  lemma DecInjective(m: nat, n: nat)
    requires Dec(m) == Dec(n)
    ensures m == n
  {
    ValueOfDec(m);
    ValueOfDec(n);
  }

  /** Length of the longest prefix of `s` made of digits. */
  function DigitRun(s: string): (k: nat)
    ensures k <= |s|
    ensures AllDigits(s[..k])
    ensures k < |s| ==> !IsDigit(s[k])
  {
    if s == [] || !IsDigit(s[0]) then 0 else 1 + DigitRun(s[1..])
  }

  lemma {:induction false} DigitRunOfDigits(d: string, rest: string)
    requires AllDigits(d)
    requires rest == [] || !IsDigit(rest[0])
    ensures DigitRun(d + rest) == |d|
  {
    if d != [] {
      assert (d + rest)[1..] == d[1..] + rest;
      DigitRunOfDigits(d[1..], rest);
    }
  }

  /** Reads the leading digit run of `s` as a number; fails when `s` does
      not start with a digit. */
  function ParseNat(s: string): (r: Option<(nat, string)>)
    ensures r.Some? <==> 0 < |s| && IsDigit(s[0])
    ensures r.Some? ==> |r.value.1| < |s| && r.value.1 == s[|s| - |r.value.1|..]
    ensures r.Some? ==> r.value.1 == [] || !IsDigit(r.value.1[0])
  {
    var k := DigitRun(s);
    if k == 0 then None else Some((Value(s[..k]), s[k..]))
  }

  /** Reading back what `Dec` wrote recovers the number and stops exactly
      at the first non-digit. */
  lemma ParseDec(n: nat, rest: string)
    requires rest == [] || !IsDigit(rest[0])
    ensures ParseNat(Dec(n) + rest) == Some((n, rest))
  {
    var s := Dec(n) + rest;
    DigitRunOfDigits(Dec(n), rest);
    assert s[..|Dec(n)|] == Dec(n);
    assert s[|Dec(n)|..] == rest;
    ValueOfDec(n);
  }
}
