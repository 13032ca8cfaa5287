/** The integer printer behind printf and the parser strtoull, loop by loop, and
    the laws that tie one to the other. */
module NumberText {
  import opened NumberSpec

  datatype Flags = Flags(zeropad: bool, left: bool, plus: bool, space: bool, hash: bool, uppercase: bool,
                         precision: bool)

  const PLAIN := Flags(false, false, false, false, false, false, false)

  // ----- what is printed -----

  function Max(a: int, b: int): int { if a < b then b else a }
  function Min(a: int, b: int): int { if a < b then a else b }

  /** The digits that fit the conversion buffer: the last 32. */
  function Kept(v: nat, base: nat, upper: bool): (r: string)
    requires 2 <= base <= 36
  {
    Tail(Digits(v, base, upper), CELLS)
  }

  function Figures(v: nat, base: nat, f: Flags): (r: string)
    requires 2 <= base <= 36
  {
    if f.precision && v == 0 then "" else Kept(v, base, f.uppercase)
  }

  /** The width that is left for the zeros. */
  function Narrowed(negative: bool, width: nat, f: Flags): nat {
    if !f.left && width > 0 && f.zeropad && (negative || f.plus || f.space) then width - 1 else width
  }

  function Padded(figures: string, prec: nat, width: nat, f: Flags): (r: string) {
    if f.left then figures else
      var byPrec := Max(|figures|, Min(prec, CELLS));
      var n := if f.zeropad then Max(byPrec, Min(width, CELLS)) else byPrec;
      Zeros(n - |figures|) + figures
  }

  /** How many characters in front the alternative form takes away again. */
  function Dropped(n: nat, base: nat, prec: nat, width: nat, f: Flags): (k: nat)
    ensures k <= n
  {
    if f.precision || n == 0 || (n != prec && n != width) then 0 else if n > 1 && base == 16 then 2 else 1
  }

  /** The alternative form: 0x, 0b or 0 in front, as far as the buffer goes. */
  function Marked(body: string, base: nat, prec: nat, width: nat, f: Flags): (r: string) {
    if !f.hash then body else
      var d := body[Dropped(|body|, base, prec, width, f)..];
      var m := if |d| >= CELLS then d
               else if base == 16 then (if f.uppercase then "X" else "x") + d
               else if base == 2 then "b" + d else d;
      if |m| < CELLS then "0" + m else m
  }

  /** Zero has no alternative form. */
  function Unhashed(v: nat, f: Flags): Flags { if v == 0 then f.(hash := false) else f }

  function Sign(body: string, negative: bool, f: Flags): (r: string) {
    if |body| >= CELLS then "" else if negative then "-" else if f.plus then "+" else if f.space then " " else ""
  }

  function Text(v: nat, negative: bool, base: nat, prec: nat, width: nat, f: Flags): string
    requires 2 <= base <= 36
  {
    var w := Narrowed(negative, width, f);
    var body := Marked(Padded(Figures(v, base, f), prec, w, f), base, prec, w, Unhashed(v, f));
    Framed(Sign(body, negative, f) + body, w, f)
  }

  /** Spaces before or behind, up to the width. */
  function Framed(t: string, width: nat, f: Flags): string {
    var pad := Max(0, width - |t|);
    (if !f.left && !f.zeropad then Spaces(pad) else "") + t + (if f.left then Spaces(pad) else "")
  }

  // ----- printed text parses back -----

  lemma ParseAt(t: string, i: nat, j: nat, e: nat, base: nat)
    requires base >= 2 && SkipSpaces(t, 0) == i && i <= j < e <= |t| && RunEnd(t, j, base) == e
    requires j == if t[i] == '-' || t[i] == '+' then i + 1 else i
    requires base == 16 ==> At(t, j + 1) != 'x' && At(t, j + 1) != 'X'
    ensures Parse(t, base) == Parsed(Result(t[i] == '-', Value(t[j..e], base)), e)
  {
  }

  /** Spaces, a sign, digits and spaces parse as the signed value of the digits,
      and the parser stops behind them. */
  lemma ParseShape(k: nat, sign: string, body: string, n: nat, base: nat)
    requires 2 <= base <= 36 && |body| > 0 && AllDigits(body, base)
    requires sign in ["", "-", "+", " "]
    ensures Parse(Spaces(k) + sign + body + Spaces(n), base)
              == Parsed(Result(sign == "-", Value(body, base)), k + |sign| + |body|)
  {
    hide Parse, SkipSpaces, RunEnd, Value;
    var t := Spaces(k) + sign + body + Spaces(n);
    var i, j := if sign == " " then k + 1 else k, k + |sign|;
    assert t[j..j + |body|] == body;
    assert t[j] == body[0] && IsDigit(body[0], base);
    SpacesEnd(t, i);
    RunEnds(t, j, j + |body|, base);
    assert base == 16 ==> At(t, j + 1) != 'x' && At(t, j + 1) != 'X' by {
      if |body| > 1 { assert t[j + 1] == body[1] && IsDigit(body[1], base); }
    }
    ParseAt(t, i, j, j + |body|, base);
  }

  /** The value, spelled out: the largest 64-bit number when the digits exceed it, the
      two's complement behind a minus. */
  lemma ParseValue(k: nat, sign: string, body: string, n: nat, base: nat)
    requires 2 <= base <= 36 && |body| > 0 && AllDigits(body, base)
    requires sign in ["", "-", "+", " "]
    ensures var v := Value(body, base);
            Parse(Spaces(k) + sign + body + Spaces(n), base).value ==
              if v >= 0x1_0000_0000_0000_0000 then 0xFFFF_FFFF_FFFF_FFFF
              else if sign == "-" && v > 0 then 0x1_0000_0000_0000_0000 - v else v
  {
    hide Parse, Value;
    ParseShape(k, sign, body, n, base);
  }

  lemma SpacesEnd(t: string, j: nat)
    requires j <= |t| && (forall i | 0 <= i < j :: IsSpace(t[i])) && !IsSpace(At(t, j))
    ensures SkipSpaces(t, 0) == j
  {
    assert forall i | 0 <= i < j :: IsSpace(At(t, i));
  }

  lemma RunEnds(t: string, i: nat, j: nat, base: nat)
    requires i <= j <= |t| && AllDigits(t[i..j], base) && !IsDigit(At(t, j), base)
    ensures RunEnd(t, i, base) == j
  {
    forall k | i <= k < j ensures IsDigit(At(t, k), base) {
      assert t[i..j][k - i] == t[k];
    }
  }

  lemma Layout(v: nat, negative: bool, base: nat, prec: nat, width: nat, f: Flags, w: nat, body: string, sign: string)
    returns (k: nat, n: nat)
    requires 2 <= base <= 36 && w == Narrowed(negative, width, f)
    requires body == Marked(Padded(Figures(v, base, f), prec, w, f), base, prec, w, Unhashed(v, f))
    requires sign == Sign(body, negative, f)
    ensures Text(v, negative, base, prec, width, f) == Spaces(k) + sign + body + Spaces(n) && (!f.left ==> n == 0)
    ensures (k > 0 ==> !f.left && !f.zeropad) && (k + n > 0 ==> k + |sign| + |body| + n == w)
    ensures f.left || !f.zeropad ==> k + |sign| + |body| + n >= w
  {
    hide Marked, Padded, Figures, Narrowed, Sign, Unhashed;
    var t := sign + body;
    var pad := Max(0, w - |t|);
    k := if !f.left && !f.zeropad then pad else 0;
    n := if f.left then pad else 0;
  }

  // ----- the characters of the text -----

  const SMALL := "0123456789abcdefghijklmnopqrstuvwxyz"
  const LARGE := "0123456789ABCDEFGHIJKLMNOPQRSTUVWXYZ"

  function Letter(d: nat, upper: bool): char
    requires d < 36
  {
    if upper then LARGE[d] else SMALL[d]
  }

  lemma DigitIsLetter(d: nat, upper: bool)
    requires d < 36
    ensures DigitChar(d, upper) == Letter(d, upper)
  {
  }

  /** The digit of base^i in v. */
  function Place(v: nat, base: nat, i: nat): (d: nat)
    requires 2 <= base
    ensures d < base
  {
    PowerPositive(base, i);
    v / Power(base, i) % base
  }

  lemma PlaceMoves(v: nat, base: nat, i: nat)
    requires 2 <= base
    ensures Place(v, base, 0) == v % base && Place(v, base, i + 1) == Place(v / base, base, i)
  {
    PowerPositive(base, i);
    DivTwice(v, base, Power(base, i));
  }

  lemma DigitsIs(v: nat, base: nat, upper: bool)
    requires 2 <= base <= 36
    ensures Digits(v, base, upper) ==
            (if v < base then "" else Digits(v / base, base, upper)) + [Letter(v % base, upper)]
  {
    hide Letter, DigitChar;
    DigitIsLetter(v % base, upper);
    if v < base { Unique(v, v, 0, base); }
  }

  /** The digit i places from the right is that of base^i, in the letter case asked for. */
  lemma {:induction false} DigitAt(v: nat, base: nat, upper: bool, i: nat)
    requires 2 <= base <= 36 && i < |Digits(v, base, upper)|
    ensures Digits(v, base, upper)[|Digits(v, base, upper)| - 1 - i] == Letter(Place(v, base, i), upper)
    decreases i
  {
    hide Digits, Letter, Place;
    DigitsIs(v, base, upper);
    if i == 0 {
      PlaceMoves(v, base, 0);
    } else {
      PlaceMoves(v, base, i - 1);
      DigitAt(v / base, base, upper, i - 1);
    }
  }

  lemma DivTwice(v: nat, a: nat, b: nat)
    requires a > 0 && b > 0
    ensures a * b > 0 && v / a / b == v / (a * b)
  {
    var q := v / a;
    var k, r := q / b, q % b;
    Euclid(v, a);
    Euclid(q, b);
    Times(a, r + 1, b);
    assert v == k * (a * b) + (a * r + v % a) by { Expands(k, a, b, r, v % a); }
    assert a * r + v % a < a * b;
    Times(a, 1, b);
    Quotient(v, a * r + v % a, k, a * b);
  }

  lemma Expands(k: nat, a: nat, b: nat, r: nat, s: nat)
    ensures (k * b + r) * a + s == k * (a * b) + (a * r + s)
  {
  }

  lemma Quotient(n: nat, r: nat, q: nat, m: nat)
    requires r < m && n == q * m + r
    ensures n / m == q
  {
    Unique(n, r, q, m);
    var d := n / m;
    Euclid(n, m);
    if d < q { Times(m, d + 1, q); } else if q < d { Times(m, q + 1, d); }
  }

  /** The text, without #: spaces on the left, the sign that has room, zeros, the
      figures, spaces on the right. Spaces stand on the left only of text that is
      neither left-justified nor filled with zeros, and on the right only of text that
      is left-justified; zeros are as many as precision and width ask for. */
  lemma TextLayout(v: nat, negative: bool, base: nat, prec: nat, width: nat, f: Flags)
    returns (k: nat, z: nat, n: nat)
    requires 2 <= base <= 36 && !Unhashed(v, f).hash
    ensures var figures := Figures(v, base, f);
            var body := Zeros(z) + figures;
            var sign := if |body| >= 32 then "" else if negative then "-" else if f.plus then "+"
                        else if f.space then " " else "";
            var w := if !f.left && width > 0 && f.zeropad && (negative || f.plus || f.space) then width - 1 else width;
            var asked := Max(prec, if f.zeropad then w else 0);
            && figures == (if f.precision && v == 0 then "" else Tail(Digits(v, base, f.uppercase), 32))
            && Text(v, negative, base, prec, width, f) == Spaces(k) + sign + body + Spaces(n)
            && (k > 0 ==> !f.left && !f.zeropad) && (n > 0 ==> f.left)
            && |body| == (if f.left then |figures| else Max(|figures|, Min(asked, 32)))
            && (k + n > 0 ==> k + |sign| + |body| + n == w)
            && (f.left || !f.zeropad ==> k + |sign| + |body| + n >= w)
  {
    hide Figures;
    var w := Narrowed(negative, width, f);
    var figures := Figures(v, base, f);
    var body := Padded(figures, prec, w, f);
    var sign := Sign(body, negative, f);
    FiguresFit(v, base, f);
    FiguresAre(v, base, f);
    z := |body| - |figures|;
    assert body == Zeros(z) + figures;
    k, n := Layout(v, negative, base, prec, width, f, w, body, sign);
  }

  lemma FiguresAre(v: nat, base: nat, f: Flags)
    requires 2 <= base <= 36
    ensures Figures(v, base, f) == if f.precision && v == 0 then "" else Tail(Digits(v, base, f.uppercase), 32)
  {
  }

  lemma FiguresFit(v: nat, base: nat, f: Flags)
    requires 2 <= base <= 36
    ensures |Figures(v, base, f)| <= 32
  {
    hide Digits;
  }

  /** The alternative form puts 0x or 0X, 0b or 0 in front, as far as there is room;
      zero gets nothing. */
  lemma HashMarks(v: nat, base: nat, upper: bool)
    requires 2 <= base <= 36 && |Digits(v, base, upper)| <= 30
    ensures Text(v, false, base, 0, 0, PLAIN.(hash := true, uppercase := upper)) ==
            (if v == 0 then "" else if base == 16 then (if upper then "0X" else "0x") else if base == 2 then "0b"
             else "0") + Digits(v, base, upper)
  {
    hide Digits, Marked, Framed, Padded;
    var f, d := PLAIN.(hash := true, uppercase := upper), Digits(v, base, upper);
    assert Figures(v, base, f) == d;
    PlainBody(d, f);
    PlainMark(d, base, v, f);
  }

  /** Where the digits fill the width, the mark takes the place of the first of them:
      two in base 16, one in the others. */
  lemma HashTakesDigits(v: nat, base: nat, upper: bool)
    requires 2 <= base <= 36 && v > 0 && |Digits(v, base, upper)| <= 30
    ensures var d := Digits(v, base, upper);
            Text(v, false, base, 0, |d|, PLAIN.(hash := true, uppercase := upper)) ==
              if base == 16 then (if upper then "0X" else "0x") + (if |d| > 1 then d[2..] else "")
              else (if base == 2 then "0b" else "0") + d[1..]
  {
    hide Digits, Marked, Framed, Padded;
    var f, d := PLAIN.(hash := true, uppercase := upper), Digits(v, base, upper);
    assert Figures(v, base, f) == d;
    FullBody(d, f);
    FullMark(d, base, f);
  }

  lemma FullBody(d: string, f: Flags)
    requires |d| <= 32 && !f.left && !f.zeropad
    ensures Padded(d, 0, |d|, f) == d && forall t | |t| >= |d| :: Framed("" + t, |d|, f) == t
  {
    forall t: string | |t| >= |d| ensures Framed("" + t, |d|, f) == t {
      assert "" + t == t && Spaces(0) == "";
    }
  }

  lemma FullMark(d: string, base: nat, f: Flags)
    requires 0 < |d| <= 30 && f.hash && !f.precision
    ensures var m := Marked(d, base, 0, |d|, f);
            && |m| >= |d|
            && m == if base == 16 then (if f.uppercase then "0X" else "0x") + (if |d| > 1 then d[2..] else "")
                    else (if base == 2 then "0b" else "0") + d[1..]
  {
  }

  lemma PlainBody(d: string, f: Flags)
    requires |d| <= 32 && !f.left && !f.zeropad
    ensures Padded(d, 0, 0, f) == d && forall t :: Framed("" + t, 0, f) == t
  {
    forall t ensures Framed("" + t, 0, f) == t {
      assert "" + t == t && Spaces(0) == "";
    }
  }

  lemma PlainMark(d: string, base: nat, v: nat, f: Flags)
    requires 0 < |d| <= 30 && f.hash
    ensures Marked(d, base, 0, 0, Unhashed(v, f)) ==
            (if v == 0 then "" else if base == 16 then (if f.uppercase then "0X" else "0x") else if base == 2 then "0b"
             else "0") + d
  {
    assert d[0..] == d;
  }

  /** Base 0 takes the base from the text: 16 behind 0x or 0X, 8 behind any other zero,
      10 otherwise. */
  lemma BaseFromText(t: string)
    ensures var i := SkipSpaces(t, 0);
            var j := if At(t, i) == '-' || At(t, i) == '+' then i + 1 else i;
            Parse(t, 0) == Parse(t, if At(t, j) == '0' && (At(t, j + 1) == 'x' || At(t, j + 1) == 'X') then 16
                                    else if At(t, j) == '0' then 8 else 10)
  {
    hide RunEnd, RunValue, SkipSpaces;
  }

  lemma BlanksAndTabs(c: char)
    ensures IsSpace(c) <==> c as nat == 32 || c as nat == 9
  {
  }

  // ----- the 32-byte buffer -----

  lemma Unique(n: nat, r: nat, q: nat, m: nat)
    requires r < m && n == q * m + r
    ensures n % m == r
  {
    var d := n / m;
    Euclid(n, m);
    if d < q { Times(m, d + 1, q); } else if q < d { Times(m, q + 1, d); }
  }

  lemma SplitRemainder(v: nat, b: nat, p: nat)
    requires b > 0 && p > 0
    ensures b * p > 0 && v % (b * p) == v / b % p * b + v % b
  {
    var q, r := v / b, v % b;
    var e, s := q / p, q % p;
    Euclid(v, b);
    Euclid(q, p);
    Times(b, s + 1, p);
    Times(b, 1, p);
    assert v == (e * p + s) * b + r == e * (b * p) + (s * b + r);
    assert s * b + b == b * (s + 1);
    Unique(v, s * b + r, e, b * p);
  }

  lemma {:induction false} PowerPositive(base: nat, n: nat)
    requires base > 0
    ensures Power(base, n) > 0
  {
    if n > 0 {
      PowerPositive(base, n - 1);
      Times(base, 1, Power(base, n - 1));
    }
  }

  lemma Small(v: nat, p: nat)
    requires p > 0
    ensures v % p == v <==> v < p
  {
    if v < p { Unique(v, v, 0, p); }
  }

  function Tail(d: string, n: nat): string { d[Max(0, |d| - n)..] }

  lemma TailSnoc(front: string, c: char, n: nat)
    requires n > 0
    ensures Tail(front + [c], n) == Tail(front, n - 1) + [c]
  {
  }

  lemma TailStep(v: nat, base: nat, upper: bool, n: nat)
    requires 2 <= base <= 36 && v >= base && n > 0
    ensures Value(Tail(Digits(v, base, upper), n), base)
              == Value(Tail(Digits(v / base, base, upper), n - 1), base) * base + v % base
  {
    var front, c := Digits(v / base, base, upper), DigitChar(v % base, upper);
    assert Digits(v, base, upper) == front + [c];
    hide Digits, Value;
    TailSnoc(front, c, n);
    ValueSnoc(Tail(front, n - 1), c, base);
  }

  lemma TailShort(v: nat, base: nat, upper: bool, n: nat)
    requires 2 <= base <= 36 && v < base && n > 0
    ensures Power(base, n) > 0 && Value(Tail(Digits(v, base, upper), n), base) == v % Power(base, n)
  {
    var d := Digits(v, base, upper);
    assert Tail(d, n) == d;
    ValueOfDigits(v, base, upper);
    PowerGrows(base, n);
    hide Digits, Value;
    Small(v, Power(base, n));
  }

  /** The last n digits of v write v modulo base^n. */
  lemma {:induction false} ValueOfLast(v: nat, base: nat, upper: bool, n: nat)
    requires 2 <= base <= 36
    ensures Power(base, n) > 0
    ensures Value(Tail(Digits(v, base, upper), n), base) == v % Power(base, n)
    decreases n
  {
    PowerPositive(base, n);
    if n == 0 {
    } else if v < base {
      TailShort(v, base, upper, n);
    } else {
      assert Power(base, n) == base * Power(base, n - 1);
      hide Digits, Value, Power, Tail;
      ValueOfLast(v / base, base, upper, n - 1);
      TailStep(v, base, upper, n);
      SplitRemainder(v, base, Power(base, n - 1));
    }
  }

  /** What the buffer keeps is the number itself exactly below base^32. */
  lemma KeptValue(v: nat, base: nat, upper: bool)
    requires 2 <= base <= 36
    ensures Power(base, CELLS) > 0 && Value(Kept(v, base, upper), base) == v % Power(base, CELLS)
    ensures Value(Kept(v, base, upper), base) == v <==> v < Power(base, CELLS)
    ensures 0 < |Kept(v, base, upper)| <= CELLS && AllDigits(Kept(v, base, upper), base)
  {
    hide Digits, Power, Value;
    ValueOfLast(v, base, upper, CELLS);
    Small(v, Power(base, CELLS));
    DigitsAreDigits(v, base, upper);
  }

  lemma {:induction false} PowerMonotone(a: nat, b: nat, n: nat)
    requires a <= b
    ensures Power(a, n) <= Power(b, n)
  {
    if n > 0 {
      PowerMonotone(a, b, n - 1);
      Times(a, Power(a, n - 1), Power(b, n - 1));
      Times(Power(b, n - 1), a, b);
    }
  }

  lemma PowerOfFour()
    ensures Power(4, CELLS) == MAX + 1
  {
    assert Power(4, 8) == 0x1_0000;
    PowerAdds(4, 8, 8);
    PowerAdds(4, 16, 16);
  }

  lemma {:induction false} PowerAdds(b: nat, m: nat, n: nat)
    ensures Power(b, m + n) == Power(b, m) * Power(b, n)
  {
    if m > 0 {
      PowerAdds(b, m - 1, n);
      Regroup(b, Power(b, m - 1), Power(b, n));
    }
  }

  lemma Regroup(a: nat, b: nat, c: nat)
    ensures a * (b * c) == a * b * c
  {
  }

  /** From base 4 up every 64-bit number fits. */
  lemma Fits(v: nat, base: nat)
    requires v <= MAX && base >= 4
    ensures v < Power(base, CELLS)
  {
    PowerMonotone(4, base, CELLS);
    PowerOfFour();
  }

  /** Whatever the padding and sign options, the printed text parses to what the
      buffer kept, under the sign that had room, and up to the trailing spaces. Zero
      with a precision may leave no digit at all, and then nothing is consumed. */
  lemma ParsesBack(v: nat, negative: bool, base: nat, prec: nat, width: nat, f: Flags)
    requires 2 <= base <= 36 && !Unhashed(v, f).hash
    ensures Power(base, CELLS) > 0
    ensures var t := Text(v, negative, base, prec, width, f);
            var body := Padded(Figures(v, base, f), prec, Narrowed(negative, width, f), f);
            && Parse(t, base).value == Result(negative && |body| < CELLS, v % Power(base, CELLS))
            && (body == "" ==> Parse(t, base).end == 0) && (body != "" && !f.left ==> Parse(t, base).end == |t|)
  {
    hide Text, Parse, Power, Value;
    var w, figures := Narrowed(negative, width, f), Figures(v, base, f);
    var body := Padded(figures, prec, w, f);
    var sign := Sign(body, negative, f);
    KeptValue(v, base, f.uppercase);
    FiguresValue(v, base, f);
    var z := |body| - |figures|;
    assert body == Zeros(z) + figures;
    var k, n := Layout(v, negative, base, prec, width, f, w, body, sign);
    if body == "" {
      ParseBlank(k, sign, n, base);
      assert Spaces(k) + sign + body + Spaces(n) == Spaces(k) + sign + Spaces(n);
    } else {
      LeadingZeros(z, figures, base);
      ParseShape(k, sign, body, n, base);
    }
  }

  lemma FiguresValue(v: nat, base: nat, f: Flags)
    requires 2 <= base <= 36
    ensures Power(base, CELLS) > 0 && AllDigits(Figures(v, base, f), base)
    ensures Value(Figures(v, base, f), base) == v % Power(base, CELLS)
    ensures Figures(v, base, f) == "" ==> v == 0
  {
    hide Power;
    KeptValue(v, base, f.uppercase);
  }

  /** Without digits the parser gives zero and consumes nothing. */
  lemma ParseBlank(k: nat, sign: string, n: nat, base: nat)
    requires 2 <= base <= 36 && sign in ["", "-", "+", " "]
    ensures Parse(Spaces(k) + sign + Spaces(n), base) == Parsed(0, 0)
  {
    hide SkipSpaces;
    var t := Spaces(k) + sign + Spaces(n);
    var i := if sign == "-" || sign == "+" then k else |t|;
    SpacesEnd(t, i);
    assert At(t, i) == (if i == |t| then 0 as char else sign[0]) && At(t, i + 1) in [' ', 0 as char];
  }

  /** The plain round trip, for any base the digits allow: it succeeds exactly
      below base^32, hence for every 64-bit number from base 4 up. */
  lemma RoundTrip(v: nat, base: nat, upper: bool)
    requires 2 <= base <= 36 && v <= MAX
    ensures var t := Text(v, false, base, 0, 0, PLAIN.(uppercase := upper));
            && (Parse(t, base) == Parsed(v, |t|) <==> v < Power(base, CELLS))
            && (base >= 4 ==> Parse(t, base) == Parsed(v, |t|))
  {
    var f := PLAIN.(uppercase := upper);
    hide Text, Parse, Power;
    ParsesBack(v, false, base, 0, 0, f);
    Small(v, Power(base, CELLS));
    Below(v, Power(base, CELLS));
    if base >= 4 { Fits(v, base); }
  }

  lemma Below(v: nat, p: nat)
    requires p > 0
    ensures v % p <= v
  {
    Euclid(v, p);
    Times(p, 0, v / p);
  }

  /** In base 2 the buffer drops the bits from 2^32 up. */
  lemma BaseTwoTruncates()
    ensures Parse(Text(0x1_0000_0000, false, 2, 0, 0, PLAIN), 2).value == 0
  {
    hide Text, Parse, Power;
    ParsesBack(0x1_0000_0000, false, 2, 0, 0, PLAIN);
    PowerOfTwo();
  }

  lemma PowerOfTwo()
    ensures Power(2, CELLS) == 0x1_0000_0000
  {
    assert Power(2, 8) == 256;
    PowerAdds(2, 8, 8);
    PowerAdds(2, 16, 16);
  }

  /** When the sign finds room. */
  lemma SignFits(v: nat, negative: bool, base: nat, prec: nat, width: nat, f: Flags)
    requires 2 <= base <= 36
    ensures var w := Narrowed(negative, width, f);
            (|Padded(Figures(v, base, f), prec, w, f)| < CELLS) <==>
            v < Power(base, CELLS - 1) && (f.left || (prec < CELLS && !(f.zeropad && w >= CELLS)))
  {
    hide Digits, Power;
    PowerGrows(base, CELLS - 1);
    DigitCount(v, base, f.uppercase, CELLS - 1);
    assert |Kept(v, base, f.uppercase)| == Min(|Digits(v, base, f.uppercase)|, CELLS);
  }

  /** The text is at least as wide as asked for, except that zeros stop at the 32
      places of the buffer. */
  lemma TextFillsWidth(v: nat, negative: bool, base: nat, prec: nat, width: nat, f: Flags)
    requires 2 <= base <= 36 && !Unhashed(v, f).hash
    ensures width <= |Text(v, negative, base, prec, width, f)| <==> f.left || !f.zeropad || width <= CELLS
  {
    hide Digits;
    assert |Figures(v, base, f)| <= CELLS;
  }

  /** A signed 64-bit number comes back as its two's complement, unless the
      options ask for 32 digits or more: then the minus is dropped, which only
      the smallest number survives. */
  lemma SignedRoundTrip(x: int, base: nat, prec: nat, width: nat, f: Flags)
    requires 8 <= base <= 36 && x < 0 && -x <= MAX / 2 + 1 && !f.hash
    ensures var v := -x;
            var got := Parse(Text(v, true, base, prec, width, f), base).value;
            var room := f.left || (prec < CELLS && !(f.zeropad && Narrowed(true, width, f) >= CELLS));
            got == (if room then MAX + 1 + x else v) && (got == MAX + 1 + x <==> room || x == -(MAX / 2 + 1))
  {
    var v := -x;
    hide Text, Parse, Power, Padded, Figures, Narrowed;
    ParsesBack(v, true, base, prec, width, f);
    SignFits(v, true, base, prec, width, f);
    assert v < Power(base, CELLS - 1) by { PowerMonotone(8, base, CELLS - 1); PowerOfEight(); }
    Fits(v, base);
    Small(v, Power(base, CELLS));
  }

  lemma PowerOfEight()
    ensures Power(8, CELLS - 1) > MAX
  {
    assert Power(8, 7) == 0x20_0000;
    PowerAdds(8, 7, 8);
    PowerAdds(8, 15, 16);
    assert Power(8, 8) == 8 * Power(8, 7);
    PowerAdds(8, 8, 8);
  }

  // ----- the alternative form -----

  lemma ParseHexAt(t: string, i: nat, j: nat, e: nat)
    requires SkipSpaces(t, 0) == i && i <= j && j + 2 <= e <= |t| && RunEnd(t, j + 2, 16) == e
    requires j == if t[i] == '-' || t[i] == '+' then i + 1 else i
    requires t[j] == '0' && (t[j + 1] == 'x' || t[j + 1] == 'X')
    ensures Parse(t, 16).value == Result(t[i] == '-', Value(t[j + 2..e], 16))
  {
  }

  /** Spaces, a sign and 0x parse as the digits behind them. */
  lemma ParseHexShape(k: nat, sign: string, x: char, d: string, n: nat)
    requires AllDigits(d, 16) && sign in ["", "-", "+", " "] && (x == 'x' || x == 'X')
    ensures Parse(Spaces(k) + sign + (['0', x] + d) + Spaces(n), 16).value == Result(sign == "-", Value(d, 16))
  {
    hide Parse, SkipSpaces, RunEnd, Value;
    var t := Spaces(k) + sign + (['0', x] + d) + Spaces(n);
    var i, j := if sign == " " then k + 1 else k, k + |sign|;
    assert t[j] == '0' && t[j + 1] == x;
    assert t[j + 2..j + 2 + |d|] == d;
    SpacesEnd(t, i);
    RunEnds(t, j + 2, j + 2 + |d|, 16);
    ParseHexAt(t, i, j, j + 2 + |d|);
  }

  /** A text that does not begin with a digit is zero. */
  lemma ParseNothing(k: nat, t: string, base: nat)
    requires 2 <= base <= 36 && |t| > 0 && !IsDigit(t[0], base) && !IsSpace(t[0]) && t[0] != '-' && t[0] != '+'
    ensures Parse(Spaces(k) + t, base).value == 0
  {
    var u := Spaces(k) + t;
    assert u[k] == t[0];
    SpacesEnd(u, k);
    assert u[k..k] == [];
  }

  /** The 0 of 0b is all that base 2 parses. */
  lemma ParseZeroB(k: nat, sign: string, d: string, n: nat)
    requires sign in ["", "-", "+", " "]
    ensures Parse(Spaces(k) + sign + (['0', 'b'] + d) + Spaces(n), 2).value == 0
  {
    hide Parse, SkipSpaces, RunEnd;
    var t := Spaces(k) + sign + (['0', 'b'] + d) + Spaces(n);
    var i, j := if sign == " " then k + 1 else k, k + |sign|;
    assert t[j] == '0' && t[j + 1] == 'b' && t[j..j + 1] == ['0'];
    SpacesEnd(t, i);
    RunEnds(t, j, j + 1, 2);
    ParseRunAt(t, i, j, j + 1);
  }

  lemma ParseRunAt(t: string, i: nat, j: nat, e: nat)
    requires SkipSpaces(t, 0) == i && i <= j < e <= |t| && RunEnd(t, j, 2) == e && t[j..e] == ['0']
    requires j == if t[i] == '-' || t[i] == '+' then i + 1 else i
    ensures Parse(t, 2).value == 0
  {
    assert ['0'][..0] == [];
    assert Value(['0'], 2) == 0;
  }

  /** The ways the marks come out. */
  lemma MarkedIs(body: string, base: nat, prec: nat, w: nat, f: Flags, d: string)
    requires f.hash && |body| <= CELLS && d == body[Dropped(|body|, base, prec, w, f)..]
    ensures var m := Marked(body, base, prec, w, f);
            var x := if base == 2 then 'b' else if f.uppercase then 'X' else 'x';
            if (base != 16 && base != 2) || |d| == CELLS then |m| > 0 && |m| >= |d| && m == Zeros(|m| - |d|) + d
            else if |d| == CELLS - 1 then |m| == CELLS && m[0] == x
            else m == ['0', x] + d
  {
  }

  /** What the digits d parse to behind their mark: nothing in base 16, when 31 of
      them leave no room for the 0 of 0x, and nothing in base 2, where 0b is not a
      prefix, unless 32 of them leave no room for any mark. */
  function MarkedValue(d: string, base: nat): nat {
    if (base == 16 && |d| == CELLS - 1) || (base == 2 && |d| < CELLS) then 0 else Value(d, base)
  }

  /** What the alternative form parses to: the digits that were not taken away. */
  lemma HashParsesBack(v: nat, negative: bool, base: nat, prec: nat, width: nat, f: Flags)
    requires 2 <= base <= 36 && v > 0 && f.hash
    ensures var w := Narrowed(negative, width, f);
            var body := Padded(Figures(v, base, f), prec, w, f);
            var d := body[Dropped(|body|, base, prec, w, f)..];
            Parse(Text(v, negative, base, prec, width, f), base).value
              == Result(negative && |Marked(body, base, prec, w, f)| < CELLS, MarkedValue(d, base))
  {
    var w := Narrowed(negative, width, f);
    var body := Padded(Figures(v, base, f), prec, w, f);
    PaddedDigits(v, base, prec, w, f);
    hide *;
    var m := Marked(body, base, prec, w, f);
    assert m == Marked(body, base, prec, w, Unhashed(v, f)) by { HashStays(v, f); }
    var k, n := Layout(v, negative, base, prec, width, f, w, m, Sign(m, negative, f));
    ParseMarked(k, negative, body, n, base, prec, w, f, body[Dropped(|body|, base, prec, w, f)..]);
  }

  lemma HashStays(v: nat, f: Flags)
    requires v > 0
    ensures Unhashed(v, f) == f
  {
  }

  lemma PaddedDigits(v: nat, base: nat, prec: nat, w: nat, f: Flags)
    requires 2 <= base <= 36 && v > 0
    ensures AllDigits(Padded(Figures(v, base, f), prec, w, f), base)
    ensures |Padded(Figures(v, base, f), prec, w, f)| <= CELLS
  {
    hide Digits, Power, Value, Kept;
    KeptValue(v, base, f.uppercase);
  }

  lemma ParseMarked(k: nat, negative: bool, body: string, n: nat, base: nat, prec: nat, w: nat, f: Flags, d: string)
    requires 2 <= base <= 36 && f.hash && AllDigits(body, base) && |body| <= CELLS
    requires d == body[Dropped(|body|, base, prec, w, f)..]
    ensures var m := Marked(body, base, prec, w, f);
            Parse(Spaces(k) + Sign(m, negative, f) + m + Spaces(n), base).value
              == Result(negative && |m| < CELLS, MarkedValue(d, base))
  {
    MarkedIs(body, base, prec, w, f, d);
    hide Parse, Value, Marked, Dropped, MarkedValue, Spaces;
    var m := Marked(body, base, prec, w, f);
    assert AllDigits(d, base);
    ShapeParses(k, Sign(m, negative, f), m, n, base, f.uppercase, d);
  }

  /** The shapes that MarkedIs lists, behind a sign. */
  lemma ShapeParses(k: nat, sign: string, m: string, n: nat, base: nat, upper: bool, d: string)
    requires 2 <= base <= 36 && AllDigits(d, base) && |d| <= CELLS && sign in ["", "-", "+", " "]
    requires |m| == CELLS ==> sign == ""
    requires var x := if base == 2 then 'b' else if upper then 'X' else 'x';
             if (base != 16 && base != 2) || |d| == CELLS then |m| > 0 && |m| >= |d| && m == Zeros(|m| - |d|) + d
             else if |d| == CELLS - 1 then |m| == CELLS && m[0] == x
             else m == ['0', x] + d
    ensures Parse(Spaces(k) + sign + m + Spaces(n), base).value == Result(sign == "-", MarkedValue(d, base))
  {
    hide Parse, Value, Zeros, Spaces;
    if (base != 16 && base != 2) || |d| == CELLS {
      ParseZeros(k, sign, |m| - |d|, d, n, base);
    } else if |d| == CELLS - 1 {
      ParseOnlyMark(k, m, n, base);
    } else if base == 2 {
      ParseZeroB(k, sign, d, n);
    } else {
      ParseHexShape(k, sign, if upper then 'X' else 'x', d, n);
    }
  }

  lemma ParseZeros(k: nat, sign: string, z: nat, d: string, n: nat, base: nat)
    requires 2 <= base <= 36 && AllDigits(d, base) && z + |d| > 0 && sign in ["", "-", "+", " "]
    ensures Parse(Spaces(k) + sign + (Zeros(z) + d) + Spaces(n), base).value == Result(sign == "-", Value(d, base))
  {
    hide Parse, Value;
    LeadingZeros(z, d, base);
    ParseShape(k, sign, Zeros(z) + d, n, base);
  }

  lemma ParseOnlyMark(k: nat, m: string, n: nat, base: nat)
    requires 2 <= base <= 36 && |m| > 0 && !IsDigit(m[0], base) && !IsSpace(m[0]) && m[0] != '-' && m[0] != '+'
    ensures Parse(Spaces(k) + "" + m + Spaces(n), base).value == 0
  {
    hide Parse;
    assert Spaces(k) + "" + m + Spaces(n) == Spaces(k) + (m + Spaces(n));
    ParseNothing(k, m + Spaces(n), base);
  }

  /** Fewer digits of a number than it has are a smaller number. */
  lemma ShorterIsSmaller(v: nat, base: nat, upper: bool, n: nat)
    requires 2 <= base <= 36 && v > 0 && n < |Digits(v, base, upper)|
    ensures Value(Tail(Digits(v, base, upper), n), base) < v
  {
    hide Digits, Power, Value;
    ValueOfLast(v, base, upper, n);
    if n > 0 {
      DigitCount(v, base, upper, n);
      assert v % Power(base, n) < Power(base, n) <= v;
    } else {
      assert v % 1 == 0;
      PowerZero(base);
    }
  }

  lemma PowerZero(base: nat)
    ensures Power(base, 0) == 1
  {
  }

  /** The digits that are left write v exactly when only zeros were taken away. */
  lemma DroppedDigits(v: nat, base: nat, upper: bool, z: nat, k: nat)
    requires 2 <= base <= 36 && 0 < v < Power(base, CELLS) && k <= z + |Digits(v, base, upper)|
    ensures Kept(v, base, upper) == Digits(v, base, upper)
    ensures Value((Zeros(z) + Digits(v, base, upper))[k..], base) == v <==> k <= z
    ensures Value((Zeros(z) + Digits(v, base, upper))[k..], base) <= v
  {
    hide Power, Value, Digits;
    var d := Digits(v, base, upper);
    DigitCount(v, base, upper, CELLS);
    if k <= z {
      assert (Zeros(z) + d)[k..] == Zeros(z - k) + d;
      LeadingZeros(z - k, d, base);
      ValueOfDigits(v, base, upper);
    } else {
      assert (Zeros(z) + d)[k..] == Tail(d, |d| - (k - z));
      ShorterIsSmaller(v, base, upper, |d| - (k - z));
    }
  }

  /** With the alternative form a number comes back exactly when the characters
      taken away were padding and, in base 16, there was room for 0x or, in base
      2, no room for 0b. */
  lemma HashRoundTrip(v: nat, base: nat, prec: nat, width: nat, f: Flags)
    requires 2 <= base <= 36 && 0 < v <= MAX && v < Power(base, CELLS) && f.hash
    ensures var digits := |Digits(v, base, f.uppercase)|;
            var n := |Padded(Figures(v, base, f), prec, Narrowed(false, width, f), f)|;
            var k := Dropped(n, base, prec, Narrowed(false, width, f), f);
            Parse(Text(v, false, base, prec, width, f), base).value == v <==>
            digits + k <= n && !(base == 16 && n - k == CELLS - 1) && !(base == 2 && n - k < CELLS)
  {
    hide Text, Parse, Value, Digits, Power;
    var w := Narrowed(false, width, f);
    var body := Padded(Figures(v, base, f), prec, w, f);
    var k := Dropped(|body|, base, prec, w, f);
    var z := |body| - |Figures(v, base, f)|;
    HashParsesBack(v, false, base, prec, width, f);
    DigitCount(v, base, f.uppercase, CELLS);
    assert Kept(v, base, f.uppercase) == Digits(v, base, f.uppercase);
    assert body == Zeros(z) + Digits(v, base, f.uppercase);
    DroppedDigits(v, base, f.uppercase, z, k);
  }

  /** Asking for the four places that 0x1234 has loses two of its digits. */
  lemma HashLosesDigits()
    ensures Parse(Text(0x1234, false, 16, 0, 4, PLAIN.(hash := true)), 16).value != 0x1234
  {
    var f := PLAIN.(hash := true);
    hide Text, Parse, Value, Digits;
    DigitCount(0x1234, 16, false, 3);
    DigitCount(0x1234, 16, false, 4);
    assert Power(16, 3) == 0x1000 && Power(16, 4) == 0x1_0000;
    Fits(0x1234, 16);
    HashRoundTrip(0x1234, 16, 0, 4, f);
  }
}
