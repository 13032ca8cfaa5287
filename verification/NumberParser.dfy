/** strtoull: one pass with a sticky overflow mark. */
module NumberParser {
  import opened NumberSpec

  /** The cut-off test is exact. */
  lemma CutOff(acc: nat, base: nat, d: nat)
    requires 0 < base && d < base
    ensures acc > MAX / base || (acc == MAX / base && d > MAX % base) <==> acc * base + d > MAX
  {
    var q, r := MAX / base, MAX % base;
    Euclid(MAX, base);
    if acc > q {
      Times(base, q + 1, acc);
      assert (q + 1) * base == q * base + base;
    } else if acc < q {
      Times(base, acc + 1, q);
      assert (acc + 1) * base == acc * base + base;
    }
  }

  lemma StaysAbove(v: nat, base: nat, d: nat)
    requires v > MAX && base > 0
    ensures v * base + d > MAX
  {
    Times(v, 1, base);
  }

  lemma Grows(v: nat, any: int, acc: nat, base: nat, d: nat)
    requires 0 < base && d < base && (any < 0 <==> v > MAX) && (any >= 0 ==> acc == v)
    ensures any < 0 || acc > MAX / base || (acc == MAX / base && d > MAX % base) <==> v * base + d > MAX
  {
    if any >= 0 { CutOff(acc, base, d); } else { StaysAbove(v, base, d); }
  }

  function Appended(v: nat, base: nat, d: nat): nat { v * base + d }

  lemma RunStep(t: string, k: nat, i: nat, base: nat)
    requires k <= i < |t| && IsDigit(t[i], base)
    ensures RunValue(t, k, i + 1, base) == Appended(RunValue(t, k, i, base), base, DigitOf(t[i]))
    ensures RunEnd(t, i, base) == RunEnd(t, i + 1, base)
  {
    assert t[k..i + 1] == t[k..i] + [t[i]];
    ValueSnoc(t[k..i], t[i], base);
  }

  lemma RunStart(t: string, k: nat, base: nat)
    ensures RunValue(t, k, k, base) == 0
  {
  }

  lemma Negated(acc: nat)
    requires acc <= MAX
    ensures (MAX + 1 - acc) % (MAX + 1) == Result(true, acc)
  {
  }

  lemma NoDigitPastEnd(t: string, i: nat, base: nat)
    requires IsDigit(At(t, i), base)
    ensures i < |t|
  {
  }

  method Strtoull(t: string, base0: nat) returns (acc: nat, end: nat)
    requires base0 <= 36
    ensures Parsed(acc, end) == Parse(t, base0)
  {
    hide RunEnd, RunValue;
    var s, c, base := 1, At(t, 0), base0;
    while IsSpace(c)
      invariant s >= 1 && c == At(t, s - 1) && SkipSpaces(t, 0) == SkipSpaces(t, s - 1)
      decreases |t| + 1 - s
    {
      c := At(t, s);
      s := s + 1;
    }
    var neg := false;
    if c == '-' {
      neg := true;
      c := At(t, s);
      s := s + 1;
    } else if c == '+' {
      c := At(t, s);
      s := s + 1;
    }
    if (base == 0 || base == 16) && c == '0' && (At(t, s) == 'x' || At(t, s) == 'X') {
      c := At(t, s + 1);
      s := s + 2;
      base := 16;
    }
    if base == 0 {
      base := if c == '0' then 8 else 10;
    }
    var k := s - 1;
    assert Start(neg, k, base) == Begin(t, base0);
    var any, e;
    acc, any, e := Accumulate(t, base, k);
    if any < 0 {
      acc := MAX;
    } else if neg {
      Negated(acc);
      acc := (MAX + 1 - acc) % (MAX + 1);
    }
    end := if any != 0 then e else 0;
  }

  /** One digit more: `any` is 0 before the first digit, -1 for ever once the value
      does not fit, 1 otherwise. */
  method TakeDigit(acc0: nat, any0: int, base: nat, d: nat, cutoff: nat, cutlim: nat, ghost v: nat)
    returns (acc: nat, any: int)
    requires 0 < base && d < base && cutoff == MAX / base && cutlim == MAX % base
    requires (any0 < 0 <==> v > MAX) && (any0 >= 0 ==> acc0 == v)
    ensures any != 0 && (any < 0 <==> Appended(v, base, d) > MAX) && (any >= 0 ==> acc == Appended(v, base, d))
  {
    acc, any := acc0, any0;
    Grows(v, any, acc, base, d);
    if any < 0 || acc > cutoff || (acc == cutoff && d > cutlim) {
      any := -1;
    } else {
      any := 1;
      acc := acc * base;
      acc := acc + d;
    }
  }

  /** The digit loop. */
  method Accumulate(t: string, base: nat, k: nat) returns (acc: nat, any: int, i: nat)
    requires 0 < base <= 36
    ensures i == RunEnd(t, k, base)
    ensures any == 0 <==> i == k
    ensures any < 0 <==> RunValue(t, k, i, base) > MAX
    ensures any >= 0 ==> acc == RunValue(t, k, i, base)
  {
    hide RunValue, RunEnd, Appended;
    RunStart(t, k, base);
    var cutoff, cutlim := MAX / base, MAX % base;
    acc, any, i := 0, 0, k;
    while true
      invariant k <= i && (i > k ==> i <= |t|)
      invariant RunEnd(t, i, base) == RunEnd(t, k, base)
      invariant any == 0 <==> i == k
      invariant any < 0 <==> RunValue(t, k, i, base) > MAX
      invariant any >= 0 ==> acc == RunValue(t, k, i, base)
      decreases |t| - i
    {
      var c := At(t, i);
      var d := DigitOf(c);
      if d < 0 { break; }
      if d >= base { break; }
      NoDigitPastEnd(t, i, base);
      RunStep(t, k, i, base);
      acc, any := TakeDigit(acc, any, base, d, cutoff, cutlim, RunValue(t, k, i, base));
      i := i + 1;
    }
  }
}
