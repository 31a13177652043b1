// Decimal numerals and the C++ readers for them, std::stoll and std::stoull.

module Numerals {
  import opened Options

  const INT64_BOUND: int := 0x8000_0000_0000_0000
  const UINT64_BOUND: int := 0x1_0000_0000_0000_0000

  predicate IsDigit(c: char) { '0' <= c <= '9' }

  predicate AllDigits(s: string) { forall k :: 0 <= k < |s| ==> IsDigit(s[k]) }

  function DigitChar(d: nat): char requires d < 10 { '0' + d as char }

  function Decimal(n: nat): (s: string)
    ensures s != "" && AllDigits(s)
  {
    if n < 10 then [DigitChar(n)] else Decimal(n / 10) + [DigitChar(n % 10)]
  }

  function IntText(n: int): string {
    if n < 0 then "-" + Decimal(-n) else Decimal(n)
  }

  function Value(s: string): nat
    requires AllDigits(s)
  {
    if s == "" then 0 else 10 * Value(s[..|s| - 1]) + (s[|s| - 1] - '0') as nat
  }

  lemma {:induction false} ValueOfDecimal(n: nat)
    ensures Value(Decimal(n)) == n
  {
    if n < 10 {
    } else {
      ValueOfDecimal(n / 10);
      var s := Decimal(n);
      assert s[..|s| - 1] == Decimal(n / 10);
    }
  }

  // The longest run of digits at the front.
  function LeadingDigits(s: string): (d: string)
    ensures AllDigits(d)
  {
    if s != "" && IsDigit(s[0]) then [s[0]] + LeadingDigits(s[1..]) else ""
  }

  lemma {:induction false} LeadingDigitsOf(d: string, rest: string)
    requires AllDigits(d) && (rest == "" || !IsDigit(rest[0]))
    ensures LeadingDigits(d + rest) == d
  {
    if d == "" {
      assert d + rest == rest;
    } else {
      assert (d + rest)[1..] == d[1..] + rest;
      LeadingDigitsOf(d[1..], rest);
    }
  }

  predicate IsBlank(c: char) { c == ' ' || '\t' <= c <= '\r' }

  function SkipBlanks(s: string): string {
    if s != "" && IsBlank(s[0]) then SkipBlanks(s[1..]) else s
  }

  // The sign and magnitude both readers see; None when no digit follows.
  function Magnitude(s: string): Option<(bool, nat)> {
    var t := SkipBlanks(s);
    var signed := t != "" && (t[0] == '-' || t[0] == '+');
    var d := LeadingDigits(if signed then t[1..] else t);
    if d == "" then None else Some((signed && t[0] == '-', Value(d)))
  }

  // std::stoll, with None for both of its exceptions.
  function Stoll(s: string): Option<int> {
    match Magnitude(s)
    case None => None
    case Some((negative, v)) =>
      var x: int := if negative then -(v as int) else v;
      if -INT64_BOUND <= x < INT64_BOUND then Some(x) else None
  }

  // std::stoull: a minus sign is accepted and wraps modulo 2^64.
  function Stoull(s: string): Option<nat> {
    match Magnitude(s)
    case None => None
    case Some((negative, v)) =>
      if v >= UINT64_BOUND then None
      else if negative then Some((UINT64_BOUND - v) % UINT64_BOUND)
      else Some(v)
  }

  lemma MagnitudeRead(n: nat, rest: string)
    requires rest == "" || !IsDigit(rest[0])
    ensures Magnitude(Decimal(n) + rest) == Some((false, n))
  {
    LeadingDigitsOf(Decimal(n), rest);
    ValueOfDecimal(n);
    assert (Decimal(n) + rest)[0] == Decimal(n)[0];
  }

  lemma NegativeRead(n: int, rest: string)
    requires n < 0 && (rest == "" || !IsDigit(rest[0]))
    ensures Magnitude(IntText(n) + rest) == Some((true, -n))
  {
    hide Value, LeadingDigits, Decimal;
    LeadingDigitsOf(Decimal(-n), rest);
    ValueOfDecimal(-n);
    var s := IntText(n) + rest;
    assert s[1..] == Decimal(-n) + rest && s[0] == '-';
    assert SkipBlanks(s) == s;
  }

  // stoull reads a printed number back exactly when it fits 64 bits.
  lemma NumeralRead(n: nat, rest: string)
    requires rest == "" || !IsDigit(rest[0])
    ensures Stoull(Decimal(n) + rest) == if n < UINT64_BOUND then Some(n) else None
  {
    MagnitudeRead(n, rest);
    hide Magnitude;
  }

  // stoll likewise, with a sign.
  lemma IntegerRead(n: int, rest: string)
    requires rest == "" || !IsDigit(rest[0])
    ensures Stoll(IntText(n) + rest) == if -INT64_BOUND <= n < INT64_BOUND then Some(n) else None
  {
    if n >= 0 {
      MagnitudeRead(n, rest);
    } else {
      NegativeRead(n, rest);
    }
    hide Magnitude;
  }
}
