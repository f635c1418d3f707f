/**
 * Decimal integers as Rust's `str::parse` reads them for a signed integer
 * type: an optional sign, at least one ASCII digit, nothing else, and a
 * value within the type's range.
 */
module Numbers {

  datatype Option<T> = None | Some(value: T)

  predicate IsDigit(c: char)
  {
    '0' <= c <= '9'
  }

  predicate AllDigits(s: string)
  {
    forall i :: 0 <= i < |s| ==> IsDigit(s[i])
  }

  /** The value of a string of decimal digits, most significant first. */
  function DigitsValue(s: string): nat
    requires AllDigits(s)
  {
    if s == [] then 0 else DigitsValue(s[..|s| - 1]) * 10 + (s[|s| - 1] as int - '0' as int)
  }

  function Pow10(n: nat): nat
  {
    if n == 0 then 1 else 10 * Pow10(n - 1)
  }

  lemma {:induction false} DigitsBound(s: string)
    requires AllDigits(s)
    ensures DigitsValue(s) < Pow10(|s|)
    decreases |s|
  {
    if s != [] {
      DigitsBound(s[..|s| - 1]);
    }
  }

  /** `s.parse()` for a signed type whose values are lo to hi. */
  function ParseInteger(s: string, lo: int, hi: int): (r: Option<int>)
    ensures r.Some? ==> lo <= r.value <= hi
  {
    var negative := |s| > 0 && s[0] == '-';
    var body := if |s| > 0 && (s[0] == '-' || s[0] == '+') then s[1..] else s;
    if body == [] || !AllDigits(body) then None
    else
      var v: int := if negative then 0 - DigitsValue(body) else DigitsValue(body);
      if lo <= v <= hi then Some(v) else None
  }

  /** The shortest decimal digits of n. */
  function Digits(n: nat): (s: string)
    ensures AllDigits(s) && |s| >= 1
  {
    if n < 10 then [('0' as int + n) as char] else Digits(n / 10) + [('0' as int + n % 10) as char]
  }

  /** n written as Rust's `to_string` writes it: a minus sign before negative values. */
  function Show(n: int): string
  {
    if n < 0 then "-" + Digits(0 - n) else Digits(n)
  }

  /** A number's text holds only digits and a leading minus sign. */
  lemma ShowAlphabet(n: int)
    ensures forall i :: 0 <= i < |Show(n)| ==> IsDigit(Show(n)[i]) || (i == 0 && Show(n)[i] == '-')
    ensures ' ' !in Show(n) && ',' !in Show(n)
  {
    var d := Digits(if n < 0 then 0 - n else n);
    assert forall i :: 0 <= i < |d| ==> IsDigit(d[i]);
  }

  lemma {:induction false} DigitsRoundTrip(n: nat)
    ensures DigitsValue(Digits(n)) == n
    decreases n
  {
    if n >= 10 {
      DigitsRoundTrip(n / 10);
      var s := Digits(n);
      assert s[..|s| - 1] == Digits(n / 10);
    }
  }

  /** Parsing reads back every value of the type as written, and nothing outside the range parses. */
  lemma ParseShow(n: int, lo: int, hi: int)
    ensures ParseInteger(Show(n), lo, hi) == if lo <= n <= hi then Some(n) else None
  {
    if n < 0 {
      ParseNegative(n, lo, hi);
    } else {
      ParseNonNegative(n, lo, hi);
    }
  }

  lemma ParseNegative(n: int, lo: int, hi: int)
    requires n < 0
    ensures ParseInteger(Show(n), lo, hi) == if lo <= n <= hi then Some(n) else None
  {
    DigitsRoundTrip(0 - n);
    var s := Show(n);
    assert s[0] == '-' && s[1..] == Digits(0 - n);
  }

  lemma ParseNonNegative(n: int, lo: int, hi: int)
    requires n >= 0
    ensures ParseInteger(Show(n), lo, hi) == if lo <= n <= hi then Some(n) else None
  {
    DigitsRoundTrip(n);
    var s := Digits(n);
    assert s[0] != '-' && s[0] != '+' by {
      assert IsDigit(s[0]);
    }
  }

  /** `s.parse()` for an unsigned type whose greatest value is hi: an optional '+', then digits only. */
  function ParseUnsigned(s: string, hi: nat): (r: Option<nat>)
    ensures r.Some? ==> r.value <= hi
  {
    var body := if |s| > 0 && s[0] == '+' then s[1..] else s;
    if body == [] || !AllDigits(body) || DigitsValue(body) > hi then None else Some(DigitsValue(body))
  }

  /** Every value of the type reads back from its digits, and nothing above the range parses. */
  lemma ParseDigits(n: nat, hi: nat)
    ensures ParseUnsigned(Digits(n), hi) == if n <= hi then Some(n) else None
  {
    DigitsRoundTrip(n);
    var s := Digits(n);
    assert s[0] != '+' by {
      assert IsDigit(s[0]);
    }
  }

  /** Go's `strconv.ParseUint(s, 10, 64)`: ASCII digits only, no sign, at most 2^64 - 1. */
  function ParseUint(s: string): (r: Option<nat>)
    ensures r.Some? ==> r.value <= 0xFFFF_FFFF_FFFF_FFFF
  {
    if s == [] || !AllDigits(s) || DigitsValue(s) > 0xFFFF_FFFF_FFFF_FFFF then None
    else Some(DigitsValue(s))
  }

  /** Every `uint64` reads back from its digits. */
  lemma ParseUintDigits(n: nat)
    requires n <= 0xFFFF_FFFF_FFFF_FFFF
    ensures ParseUint(Digits(n)) == Some(n)
  {
    DigitsRoundTrip(n);
  }

  /** A minus sign never parses as an unsigned value. */
  lemma UnsignedNoMinus(s: string, hi: nat)
    requires |s| > 0 && s[0] == '-'
    ensures ParseUnsigned(s, hi) == None
  {
    assert !IsDigit(s[0]);
  }
}
