/** Numbers as text: digits, their value, what the printer lays out and what the
    parser takes from a string. */
module NumberSpec {

  const MAX: nat := 0xFFFF_FFFF_FFFF_FFFF
  const CELLS: nat := 32

  // ----- digits -----

  /** The digit that a character stands for, or -1. */
  function DigitOf(c: char): (d: int)
    ensures -1 <= d < 36
  {
    if '0' <= c <= '9' then c as int - '0' as int
    else if 'A' <= c <= 'Z' then c as int - 'A' as int + 10
    else if 'a' <= c <= 'z' then c as int - 'a' as int + 10
    else -1
  }

  function DigitChar(d: nat, upper: bool): (c: char)
    requires d < 36
    ensures DigitOf(c) == d && (d == 0 ==> c == '0')
  {
    if d < 10 then ('0' as int + d) as char else ((if upper then 'A' else 'a') as int + d - 10) as char
  }

  predicate IsDigit(c: char, base: nat) { 0 <= DigitOf(c) < base }

  predicate AllDigits(t: string, base: nat) { forall i | 0 <= i < |t| :: IsDigit(t[i], base) }

  /** The number that a string of digits writes, most significant first. */
  function Value(t: string, base: nat): nat {
    if |t| == 0 then 0
    else Value(t[..|t| - 1], base) * base + (if DigitOf(t[|t| - 1]) < 0 then 0 else DigitOf(t[|t| - 1]))
  }

  /** The shortest digits of v, most significant first. */
  function Digits(v: nat, base: nat, upper: bool): (r: string)
    requires 2 <= base <= 36
    ensures |r| > 0
    decreases v
  {
    if v < base then [DigitChar(v, upper)]
    else DivLess(v, base); Digits(v / base, base, upper) + [DigitChar(v % base, upper)]
  }

  lemma DivLess(v: nat, base: nat)
    requires v >= base >= 2
    ensures 0 < v / base < v
  {
    var q := v / base;
    Euclid(v, base);
    if q == 0 { assert false; }
    Times(q, 2, base);
  }

  function Power(base: nat, n: nat): nat { if n == 0 then 1 else base * Power(base, n - 1) }

  lemma {:induction false} DigitsAreDigits(v: nat, base: nat, upper: bool)
    requires 2 <= base <= 36
    ensures AllDigits(Digits(v, base, upper), base)
    decreases v
  {
    if v >= base {
      DivLess(v, base);
      DigitsAreDigits(v / base, base, upper);
    }
  }

  /** Printing and reading digits are inverse. */
  lemma {:induction false} ValueOfDigits(v: nat, base: nat, upper: bool)
    requires 2 <= base <= 36
    ensures Value(Digits(v, base, upper), base) == v
    decreases v
  {
    if v < base {
      ValueSnoc([], DigitChar(v, upper), base);
    } else {
      DivLess(v, base);
      ValueOfDigits(v / base, base, upper);
      ValueSnoc(Digits(v / base, base, upper), DigitChar(v % base, upper), base);
      Euclid(v, base);
    }
  }

  lemma ValueSnoc(t: string, c: char, base: nat)
    requires DigitOf(c) >= 0
    ensures Value([], base) == 0 && Value(t + [c], base) == Value(t, base) * base + DigitOf(c)
    ensures t == [] ==> t + [c] == [c]
  {
    assert (t + [c])[..|t|] == t;
  }

  lemma Euclid(v: nat, base: nat)
    requires base > 0
    ensures v / base * base + v % base == v
  {
  }

  /** Leading zeros do not count. */
  lemma {:induction false} LeadingZeros(z: nat, t: string, base: nat)
    ensures Value(Zeros(z) + t, base) == Value(t, base)
    decreases |t|, z
  {
    var s := Zeros(z) + t;
    if |t| > 0 {
      assert s[..|s| - 1] == Zeros(z) + t[..|t| - 1];
      LeadingZeros(z, t[..|t| - 1], base);
    } else if z > 0 {
      assert s[..|s| - 1] == Zeros(z - 1) + t;
      LeadingZeros(z - 1, t, base);
      assert s[|s| - 1] == '0';
    }
  }

  function Zeros(n: nat): (r: string)
    ensures |r| == n && forall i | 0 <= i < n :: r[i] == '0'
  {
    seq(n, _ => '0')
  }

  function Spaces(n: nat): (r: string)
    ensures |r| == n && forall i | 0 <= i < n :: r[i] == ' '
  {
    seq(n, _ => ' ')
  }

  // ----- how many digits -----

  lemma {:induction false} DigitCount(v: nat, base: nat, upper: bool, n: nat)
    requires 2 <= base <= 36 && n > 0
    ensures |Digits(v, base, upper)| <= n <==> v < Power(base, n)
    decreases v
  {
    if v < base {
      PowerGrows(base, n);
    } else {
      DivLess(v, base);
      if n == 1 {
        assert Power(base, 1) == base;
      } else {
        DigitCount(v / base, base, upper, n - 1);
        QuotientBelow(v, base, Power(base, n - 1));
      }
    }
  }

  lemma {:induction false} PowerGrows(base: nat, n: nat)
    requires base >= 2 && n > 0
    ensures Power(base, n) >= base
  {
    if n > 1 {
      PowerGrows(base, n - 1);
      Times(base, 1, Power(base, n - 1));
    }
  }

  lemma QuotientBelow(v: nat, base: nat, p: nat)
    requires base >= 2
    ensures v / base < p <==> v < base * p
  {
    var q := v / base;
    Euclid(v, base);
    if q < p { Times(base, q + 1, p); } else { Times(base, p, q); }
  }

  lemma Times(m: nat, a: nat, b: nat)
    requires a <= b
    ensures m * a <= m * b && a * m <= b * m
  {
  }

  // ----- the parser -----

  function At(t: string, i: nat): char { if i < |t| then t[i] else 0 as char }

  predicate IsSpace(c: char) { c == ' ' || c == '\t' }

  function SkipSpaces(t: string, i: nat): (j: nat)
    ensures i <= j && !IsSpace(At(t, j))
    ensures forall k | i <= k < j :: IsSpace(At(t, k))
    decreases |t| - i
  {
    if IsSpace(At(t, i)) then SkipSpaces(t, i + 1) else i
  }

  /** Where the run of digits from i on stops. */
  function RunEnd(t: string, i: nat, base: nat): (j: nat)
    ensures i <= j && !IsDigit(At(t, j), base)
    ensures forall k | i <= k < j :: IsDigit(At(t, k), base)
    ensures i <= |t| ==> j <= |t|
    decreases |t| - i
  {
    if IsDigit(At(t, i), base) then RunEnd(t, i + 1, base) else i
  }

  datatype Parsed = Parsed(value: nat, end: nat)

  /** After the spaces, a sign and a prefix, the longest run of digits: its value
      below 2^64, the largest number otherwise; negated modulo 2^64 after a
      minus. No digits: nothing is consumed. */
  function Parse(t: string, base: nat): Parsed {
    var s := Begin(t, base);
    var e := RunEnd(t, s.at, s.base);
    Parsed(Result(s.neg, RunValue(t, s.at, e, s.base)), if e == s.at then 0 else e)
  }

  datatype Start = Start(neg: bool, at: nat, base: nat)

  /** Where the digits begin, in which base and under which sign. */
  function Begin(t: string, base: nat): Start {
    var i := SkipSpaces(t, 0);
    var neg := At(t, i) == '-';
    var j := if neg || At(t, i) == '+' then i + 1 else i;
    var hex := (base == 0 || base == 16) && At(t, j) == '0' && (At(t, j + 1) == 'x' || At(t, j + 1) == 'X');
    var k := if hex then j + 2 else j;
    Start(neg, k, if hex then 16 else if base == 0 then (if At(t, k) == '0' then 8 else 10) else base)
  }

  function RunValue(t: string, from: nat, to: nat, base: nat): nat
    requires from <= to
  {
    if to <= |t| then Value(t[from..to], base) else 0
  }

  function Result(neg: bool, v: nat): nat {
    if v > MAX then MAX else if neg && v > 0 then MAX + 1 - v else v
  }
}
