/** What the parser puts into numbers and strings. */
module JsonValues {
  import opened JsonSpec

  // ----- integers -----

  predicate AllDigits(t: string) { forall i | 0 <= i < |t| :: Digit(t[i]) }

  /** The number that decimal digits write. */
  function Decimal(t: string): nat {
    if |t| == 0 then 0
    else Decimal(t[..|t| - 1]) * 10 + (if Digit(t[|t| - 1]) then t[|t| - 1] as nat - '0' as nat else 0)
  }

  /** The overflow test is exact. */
  lemma OverflowIsExact(v: nat, d: nat)
    requires d <= 9
    ensures WouldOverflow(v, d) <==> v * 10 + d > INT_MAX
  {
  }

  /** A number is still an integer: its digits so far. */
  predicate ReadsInteger(text: string, s: State, from: nat) {
    && 0 <= s.core.top < |s.nodes| && s.nodes[s.core.top].kind == Integer && !s.num.e
    && from <= s.core.ptr <= |text| && AllDigits(text[from..s.core.ptr]) && s.num.digits == s.core.ptr - from
    && s.nodes[s.core.top].integer == Decimal(text[from..s.core.ptr]) <= INT_MAX
    && (s.num.zero <==> s.num.digits == 1 && text[from] == '0') && (s.num.digits > 1 ==> text[from] != '0')
  }

  lemma DecimalSnoc(t: string, c: char)
    requires Digit(c)
    ensures Decimal(t + [c]) == Decimal(t) * 10 + (c as nat - '0' as nat)
  {
    assert (t + [c])[..|t|] == t;
  }

  lemma ReadsOn(text: string, s: State, from: nat)
    requires ReadsInteger(text, s, from)
    requires var o := NumberScan(s, At(text, s.core.ptr)); o.Read? && o.on.nodes[s.core.top].kind == Integer
    ensures var s' := NumberScan(s, At(text, s.core.ptr)).on;
            ReadsInteger(text, s', from) && s'.core.ptr == s.core.ptr + 1 && s'.num.negative == s.num.negative
            && s'.core.top == s.core.top && |s'.nodes| == |s.nodes|
  {
    var p := s.core.ptr;
    var b := At(text, p);
    assert Digit(b);
    assert text[from..p + 1] == text[from..p] + [b];
    DecimalSnoc(text[from..p], b);
    hide Decimal;
    OverflowIsExact(Decimal(text[from..p]), b as nat - '0' as nat);
  }

  // ----- strings -----

  datatype Text = Text(content: string, end: nat) | NoText

  function Prepended(w: string, t: Text): Text { if t.Text? then Text(w + t.content, t.end) else NoText }

  /** The bytes of the escape that follows a backslash, and where it ends. */
  function Escaped(text: string, p: nat): (t: Text)
    requires p < |text|
    ensures t.Text? ==> p < t.end <= |text|
  {
    if text[p] != 'u' then Text(Plain(text[p]), p + 1)
    else
      var x := PointAt(text, p);
      if x.NoPoint? then NoText else Text(Utf8(x.u), x.end)
  }

  /** A string from p to its closing quote: its content and where it closes. */
  function Body(text: string, p: nat): (t: Text)
    ensures t.Text? ==> p <= t.end < |text|
    decreases |text| - p
  {
    if p >= |text| || text[p] == 0 as char then NoText
    else if text[p] == '"' then Text("", p)
    else if text[p] != '\\' then Prepended([text[p]], Body(text, p + 1))
    else if p + 1 >= |text| || text[p + 1] == 0 as char || Escaped(text, p + 1).NoText? then NoText
    else var e := Escaped(text, p + 1); Prepended(e.content, Body(text, e.end))
  }

  // ----- code points -----

  /** Reading the bytes back as UTF-8. */
  function CodePoint(w: string): int {
    if |w| == 1 then w[0] as int
    else if |w| == 2 then (w[0] as int - 0xC0) * 64 + (w[1] as int - 0x80)
    else if |w| == 3 then ((w[0] as int - 0xE0) * 64 + (w[1] as int - 0x80)) * 64 + (w[2] as int - 0x80)
    else if |w| == 4 then
      (((w[0] as int - 0xF0) * 64 + (w[1] as int - 0x80)) * 64 + (w[2] as int - 0x80)) * 64 + (w[3] as int - 0x80)
    else -1
  }

  lemma Utf8RoundTrip(u: nat)
    requires u < 0x20_0000
    ensures CodePoint(Utf8(u)) == u && |Utf8(u)| == Utf8Length(u)
    ensures forall i | 1 <= i < |Utf8(u)| :: 0x80 <= Utf8(u)[i] as int < 0xC0
  {
    Sixes(u);
  }

  lemma Sixes(u: nat)
    ensures u == u / 64 * 64 + u % 64
    ensures u / 64 == u / 4096 * 64 + u / 64 % 64
    ensures u / 4096 == u / 262144 * 64 + u / 4096 % 64
  {
    assert u / 64 / 64 == u / 4096 && u / 4096 / 64 == u / 262144;
  }
}
