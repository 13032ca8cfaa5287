/** The loops of the integer printer. */
module NumberPrinter {
  import opened NumberSpec
  import opened NumberText

  // ----- output -----

  /** An output buffer of which only the first maxlen cells are written. */
  function Poured(o: string, at: nat, maxlen: nat, t: string): (r: string)
    ensures |r| == |o|
  {
    seq(|o|, i requires 0 <= i < |o| => if at <= i < at + |t| && i < maxlen then t[i - at] else o[i])
  }

  /** Cell i of the output has the character that belongs there, if it lies below
      maxlen; all others keep theirs. */
  lemma PouredAt(o: string, at: nat, maxlen: nat, t: string, i: nat)
    requires i < |o|
    ensures Poured(o, at, maxlen, t)[i] == if at <= i < at + |t| && i < maxlen then t[i - at] else o[i]
  {
  }

  lemma PouredMore(o: string, at: nat, maxlen: nat, t: string, u: string)
    ensures Poured(Poured(o, at, maxlen, t), at + |t|, maxlen, u) == Poured(o, at, maxlen, t + u)
  {
  }

  lemma PouredNothing(o: string, at: nat, maxlen: nat)
    ensures Poured(o, at, maxlen, "") == o
  {
  }

  method Out(c: char, out: array<char>, idx: nat, maxlen: nat)
    requires maxlen <= out.Length
    modifies out
    ensures out[..] == Poured(old(out[..]), idx, maxlen, [c])
  {
    if idx < maxlen {
      out[idx] := c;
    }
  }

  /** n spaces, one after the other. */
  method OutSpaces(n: nat, out: array<char>, at: nat, maxlen: nat) returns (idx: nat)
    requires maxlen <= out.Length
    modifies out
    ensures idx == at + n && out[..] == Poured(old(out[..]), at, maxlen, Spaces(n))
  {
    hide Poured;
    idx := at;
    ghost var o := out[..];
    PouredNothing(o, at, maxlen);
    assert Spaces(0) == "";
    while idx - at < n
      invariant at <= idx <= at + n
      invariant out[..] == Poured(o, at, maxlen, Spaces(idx - at))
    {
      Out(' ', out, idx, maxlen);
      PouredMore(o, at, maxlen, Spaces(idx - at), " ");
      assert Spaces(idx - at) + " " == Spaces(idx + 1 - at);
      idx := idx + 1;
    }
  }

  function Reverse(s: string): (r: string)
    ensures |r| == |s|
  {
    if |s| == 0 then "" else [s[|s| - 1]] + Reverse(s[..|s| - 1])
  }

  lemma ReverseSnoc(s: string, c: char)
    ensures Reverse(s + [c]) == [c] + Reverse(s)
  {
    assert (s + [c])[..|s|] == s;
  }

  /** The buffer backwards. */
  method OutReversed(out: array<char>, at: nat, maxlen: nat, buf: array<char>, len0: nat) returns (idx: nat)
    requires maxlen <= out.Length && len0 <= buf.Length && buf != out
    modifies out
    ensures idx == at + len0 && out[..] == Poured(old(out[..]), at, maxlen, Reverse(buf[..len0]))
  {
    hide Poured, Reverse;
    var len := len0;
    idx := at;
    ghost var o, done := out[..], "";
    PouredNothing(o, at, maxlen);
    assert "" + Reverse(buf[..len0]) == Reverse(buf[..len0]);
    while len > 0
      invariant 0 <= len <= len0 && idx == at + len0 - len == at + |done|
      invariant out[..] == Poured(o, at, maxlen, done)
      invariant Reverse(buf[..len0]) == done + Reverse(buf[..len])
    {
      len := len - 1;
      var c := buf[len];
      Out(c, out, idx, maxlen);
      PouredMore(o, at, maxlen, done, [c]);
      assert buf[..len + 1] == buf[..len] + [c];
      ReverseSnoc(buf[..len], c);
      assert done + ([c] + Reverse(buf[..len])) == done + [c] + Reverse(buf[..len]);
      done := done + [c];
      idx := idx + 1;
    }
    ReverseNothing(buf[..0]);
    assert done + "" == done;
  }

  method OutRev(out: array<char>, at: nat, maxlen: nat, buf: array<char>, len: nat, width: nat, f: Flags)
    returns (idx: nat)
    requires maxlen <= out.Length && len <= buf.Length && buf != out
    modifies out
    ensures var all := Framed(Reverse(buf[..len]), width, f);
            idx == at + |all| && out[..] == Poured(old(out[..]), at, maxlen, all)
  {
    hide Poured, Reverse;
    ghost var o, t, pad := out[..], Reverse(buf[..len]), Max(0, width - len);
    idx := at;
    if !f.left && !f.zeropad {
      idx := OutSpaces(Max(0, width - len), out, idx, maxlen);
      PouredMore(o, at, maxlen, Spaces(pad), t);
    } else {
      assert "" + t == t;
    }
    idx := OutReversed(out, idx, maxlen, buf, len);
    if f.left {
      idx := OutSpaces(Max(0, width - (idx - at)), out, idx, maxlen);
      PouredMore(o, at, maxlen, t, Spaces(pad));
    }
    assert t + "" == t && Spaces(pad) + t + "" == Spaces(pad) + t;
  }

  // ----- the conversion buffer -----

  /** Appends zeros up to a length, as far as the buffer goes. */
  method PadZeros(buf: array<char>, len0: nat, upTo: nat) returns (len: nat)
    requires buf.Length == CELLS && len0 <= CELLS
    modifies buf
    ensures len == Max(len0, Min(upTo, CELLS))
    ensures Reverse(buf[..len]) == Zeros(len - len0) + Reverse(old(buf[..len0]))
  {
    hide Reverse;
    len := len0;
    ghost var r := Reverse(buf[..len0]);
    assert Zeros(0) + r == r;
    while len < upTo && len < CELLS
      invariant len0 <= len <= Max(len0, Min(upTo, CELLS))
      invariant Reverse(buf[..len]) == Zeros(len - len0) + r
    {
      ghost var before := buf[..len];
      buf[len] := '0';
      assert buf[..len + 1] == before + ['0'];
      ReverseSnoc(before, '0');
      assert ['0'] + (Zeros(len - len0) + r) == Zeros(len + 1 - len0) + r;
      len := len + 1;
    }
  }

  /** The leading zeros; also the width that is left. */
  method AddZeros(buf: array<char>, len0: nat, negative: bool, prec: nat, width0: nat, f: Flags)
    returns (len: nat, width: nat)
    requires buf.Length == CELLS && len0 <= CELLS
    modifies buf
    ensures len <= CELLS && width == Narrowed(negative, width0, f)
    ensures Reverse(buf[..len]) == Padded(Reverse(old(buf[..len0])), prec, width, f)
  {
    hide Reverse;
    len, width := len0, width0;
    ghost var figures := Reverse(buf[..len0]);
    if !f.left {
      if width != 0 && f.zeropad && (negative || f.plus || f.space) {
        width := width - 1;
      }
      len := PadZeros(buf, len, prec);
      if f.zeropad {
        ghost var z := Zeros(len - len0);
        var longer := PadZeros(buf, len, width);
        assert Zeros(longer - len) + (z + figures) == Zeros(longer - len0) + figures;
        len := longer;
      }
    }
  }

  method AddSign(buf: array<char>, len0: nat, negative: bool, f: Flags) returns (len: nat)
    requires buf.Length == CELLS && len0 <= CELLS
    modifies buf
    ensures len <= CELLS
    ensures var body := Reverse(old(buf[..len0])); Reverse(buf[..len]) == Sign(body, negative, f) + body
  {
    hide Reverse;
    len := len0;
    ghost var before := buf[..len];
    assert "" + Reverse(before) == Reverse(before);
    if len < CELLS {
      if negative {
        buf[len] := '-';
        len := len + 1;
      } else if f.plus {
        buf[len] := '+';
        len := len + 1;
      } else if f.space {
        buf[len] := ' ';
        len := len + 1;
      }
      if len0 < len {
        assert buf[..len] == before + [buf[len0]];
        ReverseSnoc(before, buf[len0]);
      }
    }
  }

  lemma ReverseDrop(s: string)
    requires |s| > 0
    ensures Reverse(s[..|s| - 1]) == Reverse(s)[1..]
  {
  }

  /** Appends one character. */
  method Append(buf: array<char>, len0: nat, c: char) returns (len: nat)
    requires buf.Length == CELLS && len0 < CELLS
    modifies buf
    ensures len == len0 + 1 && Reverse(buf[..len]) == [c] + Reverse(old(buf[..len0]))
  {
    ghost var before := buf[..len0];
    buf[len0] := c;
    len := len0 + 1;
    assert buf[..len] == before + [c];
    ReverseSnoc(before, c);
  }

  /** Takes characters in front away again. */
  method DropFront(buf: array<char>, len0: nat, base: nat, prec: nat, width: nat, f: Flags) returns (len: nat)
    requires buf.Length == CELLS && len0 <= CELLS
    ensures len <= len0 && Reverse(buf[..len]) == Reverse(buf[..len0])[Dropped(len0, base, prec, width, f)..]
  {
    hide Reverse;
    len := len0;
    ghost var body := Reverse(buf[..len0]);
    if !f.precision && len != 0 && (len == prec || len == width) {
      ReverseDrop(buf[..len]);
      len := len - 1;
      assert buf[..len + 1][..len] == buf[..len];
      if len != 0 && base == 16 {
        ReverseDrop(buf[..len]);
        len := len - 1;
        assert buf[..len + 1][..len] == buf[..len];
        assert body[1..][1..] == body[2..];
      }
    }
  }

  /** The marks of the alternative form. */
  method AddHash(buf: array<char>, len0: nat, base: nat, prec: nat, width: nat, f: Flags) returns (len: nat)
    requires buf.Length == CELLS && len0 <= CELLS
    modifies buf
    ensures len <= CELLS && Reverse(buf[..len]) == Marked(Reverse(old(buf[..len0])), base, prec, width, f)
  {
    hide Reverse, Dropped;
    len := len0;
    if f.hash {
      len := DropFront(buf, len0, base, prec, width, f);
      if base == 16 && !f.uppercase && len < CELLS {
        len := Append(buf, len, 'x');
      } else if base == 16 && f.uppercase && len < CELLS {
        len := Append(buf, len, 'X');
      } else if base == 2 && len < CELLS {
        len := Append(buf, len, 'b');
      }
      if len < CELLS {
        len := Append(buf, len, '0');
      }
    }
  }

  method NtoaFormat(out: array<char>, at: nat, maxlen: nat, buf: array<char>, len0: nat, negative: bool,
                    base: nat, prec: nat, width0: nat, f: Flags)
    returns (idx: nat)
    requires maxlen <= out.Length && buf.Length == CELLS && len0 <= CELLS && buf != out
    modifies out, buf
    ensures var w := Narrowed(negative, width0, f);
            var body := Marked(Padded(Reverse(old(buf[..len0])), prec, w, f), base, prec, w, f);
            var all := Framed(Sign(body, negative, f) + body, w, f);
            idx == at + |all| && out[..] == Poured(old(out[..]), at, maxlen, all)
  {
    hide Reverse, Poured, Framed, Sign, Padded, Narrowed, Marked;
    var len, width := AddZeros(buf, len0, negative, prec, width0, f);
    len := AddHash(buf, len, base, prec, width, f);
    len := AddSign(buf, len, negative, f);
    idx := OutRev(out, at, maxlen, buf, len, width, f);
  }

  method PutDigit(buf: array<char>, len: nat, value: nat, base: nat, upper: bool)
    requires buf.Length == CELLS && len < CELLS && 2 <= base <= 36
    modifies buf
    ensures Reverse(buf[..len + 1]) == Lowest(value, base, upper) + Reverse(old(buf[..len]))
  {
    hide Reverse;
    var digit := value % base;
    ghost var before := buf[..len];
    buf[len] := if digit < 10 then ('0' as int + digit) as char
                else ((if upper then 'A' else 'a') as int + digit - 10) as char;
    assert buf[..len + 1] == before + [buf[len]];
    ReverseSnoc(before, buf[len]);
  }

  /** The digits of a number, least significant first, at most 32. */
  method Convert(buf: array<char>, value0: nat, base: nat, upper: bool) returns (len: nat)
    requires buf.Length == CELLS && 2 <= base <= 36
    modifies buf
    ensures len <= CELLS && Reverse(buf[..len]) == Kept(value0, base, upper)
  {
    hide Reverse, Digits, Tail, Front, Lowest;
    len := 0;
    var value: nat := value0;
    ghost var d := Digits(value0, base, upper);
    ghost var front := d;
    var more := true;
    ReverseNothing(buf[..0]);
    while more
      invariant 0 <= len <= CELLS && (more ==> len < CELLS && front == Digits(value, base, upper))
      invariant !more ==> front == "" || len == CELLS
      invariant d == front + Reverse(buf[..len])
      decreases CELLS - len, more
    {
      DigitsStep(value, base, upper, Reverse(buf[..len]));
      PutDigit(buf, len, value, base, upper);
      front := Front(value / base, base, upper);
      len := len + 1;
      value := value / base;
      FrontIs(value, base, upper);
      more := value != 0 && len < CELLS;
    }
    KeptIsTail(d, front, Reverse(buf[..len]));
  }

  /** Prints a number: the text of NumberText, cut off at maxlen. */
  method NtoaLong(out: array<char>, at: nat, maxlen: nat, value: nat, negative: bool, base: nat,
                  prec: nat, width: nat, f: Flags)
    returns (idx: nat)
    requires maxlen <= out.Length && 2 <= base <= 36 && value <= MAX
    modifies out
    ensures idx == at + |Text(value, negative, base, prec, width, f)|
    ensures out[..] == Poured(old(out[..]), at, maxlen, Text(value, negative, base, prec, width, f))
  {
    hide Reverse, Poured, Marked, Kept;
    var g := f;
    if value == 0 { g := g.(hash := false); }
    var buf := new char[CELLS];
    var len := 0;
    ReverseNothing(buf[..0]);
    if !f.precision || value != 0 {
      len := Convert(buf, value, base, f.uppercase);
    }
    idx := NtoaFormat(out, at, maxlen, buf, len, negative, base, prec, width, g);
  }

  lemma ReverseNothing(s: string)
    requires |s| == 0
    ensures Reverse(s) == ""
  {
  }

  function Lowest(v: nat, base: nat, upper: bool): string
    requires 2 <= base <= 36
  {
    [DigitChar(v % base, upper)]
  }

  /** The digits that are still to come. */
  function Front(v: nat, base: nat, upper: bool): string
    requires 2 <= base <= 36
  {
    if v > 0 then Digits(v, base, upper) else ""
  }

  lemma FrontIs(v: nat, base: nat, upper: bool)
    requires 2 <= base <= 36
    ensures Front(v, base, upper) == if v > 0 then Digits(v, base, upper) else ""
  {
  }

  lemma DigitsStep(v: nat, base: nat, upper: bool, rest: string)
    requires 2 <= base <= 36
    ensures Digits(v, base, upper) + rest == Front(v / base, base, upper) + (Lowest(v, base, upper) + rest)
  {
    hide Digits;
    if v < base {
      SmallQuotient(v, base);
      DigitsShort(v, base, upper);
    } else {
      DigitsLong(v, base, upper);
    }
    assert Digits(v, base, upper) == Front(v / base, base, upper) + Lowest(v, base, upper);
    hide Front, Lowest;
  }

  lemma DigitsShort(v: nat, base: nat, upper: bool)
    requires 2 <= base <= 36 && v < base
    ensures Digits(v, base, upper) == [DigitChar(v, upper)]
  {
  }

  lemma DigitsLong(v: nat, base: nat, upper: bool)
    requires 2 <= base <= 36 && v >= base
    ensures v / base > 0 && Digits(v, base, upper) == Digits(v / base, base, upper) + [DigitChar(v % base, upper)]
  {
    DivLess(v, base);
  }

  lemma SmallQuotient(v: nat, b: nat)
    requires v < b
    ensures v / b == 0 && v % b == v
  {
  }

  lemma KeptIsTail(d: string, front: string, kept: string)
    requires d == front + kept && |kept| <= CELLS && (front == "" || |kept| == CELLS)
    ensures Tail(d, CELLS) == kept
  {
  }
}
