/** JSON texts as sections 2 to 7 of RFC 8259 write them, with every choice that a
    writer has: spaces, escapes, the case of hexadecimal digits, the forms of a number.
    The parser reads each of them as the value that it writes. */
module JsonRfc {
  import opened Basics
  import opened JsonGrammar
  import S = JsonSpec
  import V = JsonValues

  // ----- what is written -----

  /** A character of a string: itself, a short escape, the four digits of a code point,
      or the eight of a surrogate pair; `upper` tells the case of each digit. */
  datatype Piece = Raw(c: char) | Short(kind: nat) | Unit(u: nat, upper: seq<bool>)
                 | Pair(high: nat, low: nat, upper: seq<bool>)

  datatype Expo = Expo(capital: bool, sign: string, digits: seq<nat>)

  datatype Val = VNull | VTrue | VFalse
               | VNum(negative: bool, whole: seq<nat>, fraction: seq<nat>, exponent: Option<Expo>)
               | VStr(pieces: seq<Piece>) | VArr(space: string, items: Vals) | VObj(space: string, members: Mems)

  datatype Vals = VNil | VCons(before: string, v: Val, after: string, rest: Vals)

  datatype Mems = MNil
                | MCons(before: string, name: seq<Piece>, mid: string, gap: string, v: Val, after: string, rest: Mems)

  const LOWER := "0123456789abcdef"
  const UPPER := "0123456789ABCDEF"

  /** The letters of the short escapes, and the codes of what they stand for. */
  const SHORT := "\"\\/bfnrt"
  const CODES: seq<nat> := [34, 92, 47, 8, 12, 10, 13, 9]

  function HexChar(d: nat, upper: bool): char
    requires d < 16
  {
    if upper then UPPER[d] else LOWER[d]
  }

  function FourText(u: nat, upper: seq<bool>): string
    requires u < 0x1_0000 && |upper| == 4
  {
    [HexChar(u / 4096, upper[0]), HexChar(u / 256 % 16, upper[1]), HexChar(u / 16 % 16, upper[2]),
     HexChar(u % 16, upper[3])]
  }

  predicate High(u: nat) { 0xD800 <= u < 0xDC00 }

  predicate Low(u: nat) { 0xDC00 <= u < 0xE000 }

  predicate PieceOk(x: Piece) {
    match x
    case Raw(c) => c as nat != 34 && c as nat != 92 && c as nat != 0
    case Short(k) => k < 8
    case Unit(u, upper) => u < 0x1_0000 && !High(u) && !Low(u) && |upper| == 4
    case Pair(h, l, upper) => High(h) && Low(l) && EvenPlane(h) && |upper| == 8
  }

  /** The surrogate pairs that are read as section 7 has them: see `PairsExactIff`. */
  predicate EvenPlane(high: nat) { high / 64 % 2 == 0 }

  function PieceText(x: Piece): string
    requires PieceOk(x)
  {
    match x
    case Raw(c) => [c]
    case Short(k) => ['\\', SHORT[k]]
    case Unit(u, upper) => "\\u" + FourText(u, upper)
    case Pair(h, l, upper) => "\\u" + FourText(h, upper[..4]) + "\\u" + FourText(l, upper[4..])
  }

  /** UTF-8 (section 3 of RFC 3629). */
  function Encoded(u: nat): string
    requires u < 0x11_0000
  {
    if u < 128 then [u as char]
    else if u < 2048 then [(192 + u / 64) as char, (128 + u % 64) as char]
    else if u < 65536 then [(224 + u / 4096) as char, (128 + u / 64 % 64) as char, (128 + u % 64) as char]
    else [(240 + u / 262144) as char, (128 + u / 4096 % 64) as char, (128 + u / 64 % 64) as char,
          (128 + u % 64) as char]
  }

  function PieceMeaning(x: Piece): string
    requires PieceOk(x)
  {
    match x
    case Raw(c) => [c]
    case Short(k) => [CODES[k] as char]
    case Unit(u, _) => Encoded(u)
    case Pair(h, l, _) => Encoded(0x1_0000 + (h - 0xD800) * 0x400 + (l - 0xDC00))
  }

  ghost predicate PiecesOk(s: seq<Piece>) { forall i | 0 <= i < |s| :: PieceOk(s[i]) }

  ghost function BodyText(s: seq<Piece>): string
    requires PiecesOk(s)
  {
    if s == [] then "" else PieceText(s[0]) + BodyText(s[1..])
  }

  ghost function StringText(s: seq<Piece>): string
    requires PiecesOk(s)
  {
    "\"" + BodyText(s) + "\""
  }

  ghost function StringMeaning(s: seq<Piece>): string
    requires PiecesOk(s)
  {
    if s == [] then "" else PieceMeaning(s[0]) + StringMeaning(s[1..])
  }

  /** A string that the parser can count. */
  ghost predicate StringOk(s: seq<Piece>) { PiecesOk(s) && |StringMeaning(s)| <= 0xFFFF_FFF7 }

  predicate Digits(d: seq<nat>) { forall i | 0 <= i < |d| :: d[i] < 10 }

  function DigitsText(d: seq<nat>): (t: string)
    requires Digits(d)
    ensures |t| == |d| && forall i | 0 <= i < |d| :: t[i] == "0123456789"[d[i]]
  {
    seq(|d|, i requires 0 <= i < |d| => "0123456789"[d[i]])
  }

  function Horner(d: seq<nat>): nat { if d == [] then 0 else Horner(d[..|d| - 1]) * 10 + d[|d| - 1] }

  predicate ExponentOk(e: Expo) {
    (e.sign == "" || e.sign == "+" || e.sign == "-") && |e.digits| > 0 && Digits(e.digits)
  }

  /** No leading zero; a number with a fraction has to fit 63 bits before its point:
      see `LongFractionFails`. */
  predicate NumOk(v: Val)
    requires v.VNum?
  {
    && |v.whole| > 0 && Digits(v.whole) && Digits(v.fraction) && (|v.whole| > 1 ==> v.whole[0] != 0)
    && (v.fraction != [] ==> Horner(v.whole) <= 0x7FFF_FFFF_FFFF_FFFF)
    && (v.exponent.Some? ==> ExponentOk(v.exponent.value))
  }

  function ExponentText(e: Option<Expo>): string
    requires e.Some? ==> ExponentOk(e.value)
  {
    if e.None? then "" else (if e.value.capital then "E" else "e") + (e.value.sign + DigitsText(e.value.digits))
  }

  function FractionText(d: seq<nat>): string
    requires Digits(d)
  {
    if d == [] then "" else "." + DigitsText(d)
  }

  function NumText(v: Val): string
    requires v.VNum? && NumOk(v)
  {
    (if v.negative then "-" else "") + DigitsText(v.whole) + FractionText(v.fraction) + ExponentText(v.exponent)
  }

  /** A whole number of at most 63 bits is an integer; all others are doubles. */
  function NumMeaning(v: Val): Json
    requires v.VNum?
  {
    if v.fraction != [] || v.exponent.Some? || Horner(v.whole) > 0x7FFF_FFFF_FFFF_FFFF then JDouble
    else JInt(if v.negative then -(Horner(v.whole) as int) else Horner(v.whole))
  }

  predicate Space(w: string) {
    forall i | 0 <= i < |w| :: w[i] as nat == 32 || w[i] as nat == 9 || w[i] as nat == 10 || w[i] as nat == 13
  }

  // ----- values -----

  ghost predicate Ok(v: Val) {
    match v
    case VNum(_, _, _, _) => NumOk(v)
    case VStr(s) => StringOk(s)
    case VArr(w, items) => Space(w) && ItemsOk(items) && Count(items) <= 0xFFFF_FFF7
    case VObj(w, members) => Space(w) && MembersOk(members) && MemberCount(members) <= 0xFFFF_FFF7
    case _ => true
  }

  ghost predicate ItemsOk(items: Vals) {
    match items
    case VNil => true
    case VCons(before, v, after, rest) => Space(before) && Ok(v) && Space(after) && ItemsOk(rest)
  }

  ghost predicate MembersOk(members: Mems) {
    match members
    case MNil => true
    case MCons(before, name, mid, gap, v, after, rest) =>
      && Space(before) && StringOk(name) && Space(mid) && Space(gap) && Ok(v) && Space(after)
      && MembersOk(rest)
  }

  function Count(items: Vals): nat { match items case VNil => 0 case VCons(_, _, _, rest) => 1 + Count(rest) }

  function MemberCount(m: Mems): nat {
    match m case MNil => 0 case MCons(_, _, _, _, _, _, rest) => 1 + MemberCount(rest)
  }

  ghost function Text(v: Val): string
    requires Ok(v)
    decreases v, 1
  {
    match v
    case VNull => "null"
    case VTrue => "true"
    case VFalse => "false"
    case VNum(_, _, _, _) => NumText(v)
    case VStr(s) => StringText(s)
    case VArr(w, items) => "[" + (if items.VNil? then w + "]" else ItemsText(items))
    case VObj(w, members) => "{" + (if members.MNil? then w + "}" else MembersText(members))
  }

  /** Elements up to the closing bracket. */
  ghost function ItemsText(items: Vals): string
    requires ItemsOk(items) && items.VCons?
    decreases items, 0
  {
    items.before + Text(items.v) + items.after + MoreText(items.rest)
  }

  ghost function MoreText(items: Vals): string
    requires ItemsOk(items)
    decreases items, 1
  {
    if items.VNil? then "]" else "," + ItemsText(items)
  }

  ghost function MembersText(m: Mems): string
    requires MembersOk(m) && m.MCons?
    decreases m, 0
  {
    m.before + StringText(m.name) + m.mid + ":" + m.gap + Text(m.v) + m.after + MoreMembersText(m.rest)
  }

  ghost function MoreMembersText(m: Mems): string
    requires MembersOk(m)
    decreases m, 1
  {
    if m.MNil? then "}" else "," + MembersText(m)
  }

  ghost function Meaning(v: Val): Json
    requires Ok(v)
  {
    match v
    case VNull => JNull
    case VTrue => JBool(true)
    case VFalse => JBool(false)
    case VNum(_, _, _, _) => NumMeaning(v)
    case VStr(s) => JString(StringMeaning(s))
    case VArr(_, items) => JArray(ItemsMeaning(items))
    case VObj(_, members) => JObject(Names(members), MembersMeaning(members))
  }

  ghost function ItemsMeaning(items: Vals): Jsons
    requires ItemsOk(items)
  {
    match items case VNil => Nil case VCons(_, v, _, rest) => Cons(Meaning(v), ItemsMeaning(rest))
  }

  ghost function Names(m: Mems): seq<string>
    requires MembersOk(m)
  {
    match m case MNil => [] case MCons(_, name, _, _, _, _, rest) => [StringMeaning(name)] + Names(rest)
  }

  ghost function MembersMeaning(m: Mems): Jsons
    requires MembersOk(m)
  {
    match m case MNil => Nil case MCons(_, _, _, _, v, _, rest) => Cons(Meaning(v), MembersMeaning(rest))
  }

  // ----- reading it -----

  /** w stands in the text at p. */
  predicate Stands(text: string, p: nat, w: string) { p + |w| <= |text| && text[p..p + |w|] == w }

  lemma StandsSplit(text: string, p: nat, a: string, b: string)
    requires Stands(text, p, a + b)
    ensures Stands(text, p, a) && Stands(text, p + |a|, b)
  {
    assert text[p..p + |a|] == (a + b)[..|a|] == a;
    assert text[p + |a|..p + |a| + |b|] == (a + b)[|a|..] == b;
  }

  lemma StandsAt(text: string, p: nat, w: string, i: nat)
    requires Stands(text, p, w) && i < |w|
    ensures p + i < |text| && text[p + i] == w[i]
  {
    assert text[p..p + |w|][i] == w[i];
  }

  /** Nothing that begins a token or a comment: what may follow spaces. */
  lemma {:induction false} SpaceReads(text: string, comments: bool, p: nat, w: string)
    requires Space(w) && Stands(text, p, w) && !S.White(S.At(text, p + |w|))
    requires S.At(text, p + |w|) != '/'
    ensures Skip(text, comments, p) == Place(p + |w|)
    decreases |w|
  {
    if |w| > 0 {
      assert w == w[..1] + w[1..];
      StandsSplit(text, p, w[..1], w[1..]);
      StandsAt(text, p, w, 0);
      SpaceReads(text, comments, p + 1, w[1..]);
    }
  }

  // ----- strings -----

  lemma HexReads(d: nat, upper: bool)
    requires d < 16
    ensures S.HexValue(HexChar(d, upper)) == d
  {
  }

  lemma FourReads(text: string, i: nat, u: nat, upper: seq<bool>)
    requires u < 0x1_0000 && |upper| == 4 && Stands(text, i, FourText(u, upper))
    ensures S.FourHex(text, i) == S.Hex(u)
  {
    hide S.HexValue, HexChar;
    var w := FourText(u, upper);
    StandsAt(text, i, w, 0);
    StandsAt(text, i, w, 1);
    StandsAt(text, i, w, 2);
    StandsAt(text, i, w, 3);
    HexReads(u / 4096, upper[0]);
    HexReads(u / 256 % 16, upper[1]);
    HexReads(u / 16 % 16, upper[2]);
    HexReads(u % 16, upper[3]);
    FourDigits(u);
  }

  lemma FourDigits(u: nat)
    requires u < 0x1_0000
    ensures ((u / 4096 * 16 + u / 256 % 16) * 16 + u / 16 % 16) * 16 + u % 16 == u
  {
    var a, b, c := u / 16, u / 256, u / 4096;
    assert a / 16 == b && b / 16 == c;
    assert u == a * 16 + u % 16 && a == b * 16 + a % 16 && b == c * 16 + b % 16;
  }

  lemma EncodedIsUtf8(u: nat)
    requires u < 0x11_0000
    ensures S.Utf8(u) == Encoded(u)
  {
  }

  /** Section 7: a pair is 0x10000 + (high - 0xD800) * 0x400 + (low - 0xDC00). The
      parser sets the bit 0x10000 and does not add it, so it agrees exactly when that
      bit is clear in the sum behind it. */
  lemma PairsExactIff(h: nat, l: nat)
    requires High(h) && Low(l)
    ensures S.Combined(h, l) == 0x1_0000 + (h - 0xD800) * 0x400 + (l - 0xDC00) <==> EvenPlane(h)
  {
    assert h % 1024 == h - 0xD800 && l % 1024 == l - 0xDC00;
    assert h % 1024 / 64 % 2 == h / 64 % 2;
  }

  lemma PlainReads(k: nat)
    requires k < 8
    ensures SHORT[k] != 'u' && SHORT[k] != 0 as char && S.Plain(SHORT[k]) == [CODES[k] as char]
  {
  }

  lemma ShortReads(text: string, p: nat, k: nat)
    requires k < 8 && Stands(text, p, ['\\', SHORT[k]])
    ensures V.Body(text, p) == V.Prepended([CODES[k] as char], V.Body(text, p + 2))
  {
    hide S.Plain;
    StandsAt(text, p, ['\\', SHORT[k]], 0);
    StandsAt(text, p, ['\\', SHORT[k]], 1);
    PlainReads(k);
  }

  lemma UnitReads(text: string, p: nat, u: nat, upper: seq<bool>)
    requires u < 0x1_0000 && !High(u) && !Low(u) && |upper| == 4 && Stands(text, p, "\\u" + FourText(u, upper))
    ensures V.Body(text, p) == V.Prepended(Encoded(u), V.Body(text, p + 6))
  {
    hide S.FourHex, S.Utf8, Encoded;
    var w := "\\u" + FourText(u, upper);
    StandsAt(text, p, w, 0);
    StandsAt(text, p, w, 1);
    StandsSplit(text, p, "\\u", FourText(u, upper));
    FourReads(text, p + 2, u, upper);
    EncodedIsUtf8(u);
  }

  lemma PairReads(text: string, p: nat, h: nat, l: nat, upper: seq<bool>)
    requires High(h) && Low(l) && EvenPlane(h) && |upper| == 8
    requires Stands(text, p, "\\u" + FourText(h, upper[..4]) + "\\u" + FourText(l, upper[4..]))
    ensures V.Body(text, p) ==
            V.Prepended(Encoded(0x1_0000 + (h - 0xD800) * 0x400 + (l - 0xDC00)), V.Body(text, p + 12))
  {
    hide S.FourHex, S.Utf8, Encoded, S.Combined;
    var a, b := "\\u" + FourText(h, upper[..4]), "\\u" + FourText(l, upper[4..]);
    assert a + "\\u" + FourText(l, upper[4..]) == a + b;
    StandsSplit(text, p, a, b);
    StandsAt(text, p, a, 0);
    StandsAt(text, p, a, 1);
    StandsAt(text, p + 6, b, 0);
    StandsAt(text, p + 6, b, 1);
    StandsSplit(text, p, "\\u", FourText(h, upper[..4]));
    StandsSplit(text, p + 6, "\\u", FourText(l, upper[4..]));
    FourReads(text, p + 2, h, upper[..4]);
    FourReads(text, p + 8, l, upper[4..]);
    PairsExactIff(h, l);
    EncodedIsUtf8(0x1_0000 + (h - 0xD800) * 0x400 + (l - 0xDC00));
  }

  lemma PieceReads(text: string, p: nat, x: Piece)
    requires PieceOk(x) && Stands(text, p, PieceText(x))
    ensures V.Body(text, p) == V.Prepended(PieceMeaning(x), V.Body(text, p + |PieceText(x)|))
  {
    hide FourText, Encoded, V.Body, V.Prepended, Stands;
    PieceLength(x);
    match x
    case Raw(c) => RawReads(text, p, c);
    case Short(k) => ShortReads(text, p, k);
    case Unit(u, upper) => UnitReads(text, p, u, upper);
    case Pair(h, l, upper) => PairReads(text, p, h, l, upper);
  }

  lemma RawReads(text: string, p: nat, c: char)
    requires PieceOk(Raw(c)) && Stands(text, p, [c])
    ensures V.Body(text, p) == V.Prepended([c], V.Body(text, p + 1))
  {
    StandsAt(text, p, [c], 0);
  }

  lemma PieceLength(x: Piece)
    requires PieceOk(x)
    ensures |PieceText(x)| == if x.Raw? then 1 else if x.Short? then 2 else if x.Unit? then 6 else 12
  {
    hide FourText;
    if x.Unit? { FourLength(x.u, x.upper); }
    if x.Pair? {
      FourLength(x.high, x.upper[..4]);
      FourLength(x.low, x.upper[4..]);
    }
  }

  lemma FourLength(u: nat, upper: seq<bool>)
    requires u < 0x1_0000 && |upper| == 4
    ensures |FourText(u, upper)| == 4
  {
  }

  lemma {:induction false} BodyReads(text: string, p: nat, s: seq<Piece>)
    requires PiecesOk(s) && Stands(text, p, BodyText(s) + "\"")
    ensures V.Body(text, p) == V.Text(StringMeaning(s), p + |BodyText(s)|)
    decreases |s|
  {
    hide PieceText, PieceMeaning, V.Body, Stands;
    if s == [] {
      QuoteReads(text, p);
    } else {
      var x, rest := PieceText(s[0]), BodyText(s[1..]) + "\"";
      assert BodyText(s) + "\"" == x + rest;
      StandsSplit(text, p, x, rest);
      PieceReads(text, p, s[0]);
      BodyReads(text, p + |x|, s[1..]);
    }
  }

  lemma QuoteReads(text: string, p: nat)
    requires Stands(text, p, "" + "\"")
    ensures V.Body(text, p) == V.Text("", p)
  {
    StandsAt(text, p, "" + "\"", 0);
  }

  lemma StringReads(text: string, p: nat, s: seq<Piece>)
    requires StringOk(s) && Stands(text, p, StringText(s))
    ensures p < |text| && text[p] == '"'
    ensures Quoted(text, p + 1) == Got(StringMeaning(s), p + |StringText(s)|)
  {
    var b := BodyText(s) + "\"";
    assert StringText(s) == "\"" + b;
    StandsSplit(text, p, "\"", b);
    StandsAt(text, p, StringText(s), 0);
    BodyReads(text, p + 1, s);
  }

  // ----- numbers -----

  /** What may stand behind a value: the end, a space, a comma or a closing bracket. */
  predicate Behind(c: char) { c as nat in [0, 32, 9, 10, 13, 44, 93, 125] }

  lemma DigitReads(d: nat)
    requires d < 10
    ensures var c := "0123456789"[d];
            S.Digit(c) && c as nat - '0' as nat == d && (c == '0' <==> d == 0) && c != '+' && c != '-'
  {
  }

  lemma {:induction false} DigitsRead(text: string, p: nat, d: seq<nat>)
    requires Digits(d) && Stands(text, p, DigitsText(d)) && !S.Digit(S.At(text, p + |d|))
    ensures DigitsEnd(text, p) == p + |d|
    decreases |d|
  {
    if |d| > 0 {
      StandsAt(text, p, DigitsText(d), 0);
      DigitReads(d[0]);
      assert DigitsText(d) == DigitsText(d[..1]) + DigitsText(d[1..]);
      StandsSplit(text, p, DigitsText(d[..1]), DigitsText(d[1..]));
      DigitsRead(text, p + 1, d[1..]);
    }
  }

  lemma {:induction false} DecimalReads(d: seq<nat>)
    requires Digits(d)
    ensures V.Decimal(DigitsText(d)) == Horner(d)
    decreases |d|
  {
    if |d| > 0 {
      var n := |d| - 1;
      assert DigitsText(d)[..n] == DigitsText(d[..n]);
      DigitReads(d[n]);
      DecimalReads(d[..n]);
    }
  }

  lemma BehindFacts(c: char)
    requires Behind(c)
    ensures !S.NumberChar(c) && c != '/' && !S.Digit(c) && c != 'e' && c != 'E'
  {
  }

  /** The letter, the sign and the digits of an exponent. */
  lemma ExponentReads(text: string, p: nat, e: Option<Expo>, v: Json)
    requires (e.Some? ==> ExponentOk(e.value)) && p <= |text| && Stands(text, p, ExponentText(e))
    requires Behind(S.At(text, p + |ExponentText(e)|))
    ensures JsonGrammar.Exponent(text, p, v) == Got(if e.Some? then JDouble else v, p + |ExponentText(e)|)
  {
    hide DigitsEnd, Stands, DigitsText, S.Digit, S.NumberChar, Behind, Power;
    BehindFacts(S.At(text, p + |ExponentText(e)|));
    if e.Some? {
      var x := e.value;
      var letter, tail := if x.capital then "E" else "e", x.sign + DigitsText(x.digits);
      StandsSplit(text, p, letter, tail);
      StandsAt(text, p, letter, 0);
      PowerReads(text, p + 1, x);
    }
  }

  lemma PowerReads(text: string, p: nat, x: Expo)
    requires ExponentOk(x) && Stands(text, p, x.sign + DigitsText(x.digits))
    requires Behind(S.At(text, p + |x.sign| + |x.digits|))
    ensures p <= |text| && Power(text, p) == Got(JDouble, p + |x.sign| + |x.digits|)
  {
    hide DigitsEnd, Stands, DigitsText, S.Digit, S.NumberChar, Behind;
    BehindFacts(S.At(text, p + |x.sign| + |x.digits|));
    StandsSplit(text, p, x.sign, DigitsText(x.digits));
    if x.sign != "" { StandsAt(text, p, x.sign, 0); }
    DigitsRead(text, p + |x.sign|, x.digits);
    StandsAt(text, p + |x.sign|, DigitsText(x.digits), 0);
    DigitReads(x.digits[0]);
  }

  lemma ExponentStarts(text: string, p: nat, e: Option<Expo>)
    requires (e.Some? ==> ExponentOk(e.value)) && Stands(text, p, ExponentText(e))
    requires Behind(S.At(text, p + |ExponentText(e)|))
    ensures !S.Digit(S.At(text, p)) && S.At(text, p) != '.'
  {
    BehindFacts(S.At(text, p + |ExponentText(e)|));
    if e.Some? { StandsAt(text, p, ExponentText(e), 0); }
  }

  lemma FractionLength(f: seq<nat>)
    requires Digits(f) && f != []
    ensures |FractionText(f)| == 1 + |f|
  {
  }

  lemma NoFraction(e: Option<Expo>)
    requires e.Some? ==> ExponentOk(e.value)
    ensures FractionText([]) + ExponentText(e) == ExponentText(e)
  {
  }

  lemma StandsIs(text: string, p: nat, w: string)
    requires Stands(text, p, w)
    ensures p + |w| <= |text| && text[p..p + |w|] == w
  {
  }

  /** A number behind its sign. */
  function Unsigned(v: Val): string
    requires v.VNum? && NumOk(v)
  {
    DigitsText(v.whole) + (FractionText(v.fraction) + ExponentText(v.exponent))
  }

  lemma PointReads(text: string, i: nat, f: seq<nat>)
    requires Digits(f) && f != [] && Stands(text, i, FractionText(f))
    ensures |FractionText(f)| == 1 + |f| && i < |text| && text[i] == '.' && Stands(text, i + 1, DigitsText(f))
  {
    hide Stands, DigitsText;
    StandsSplit(text, i, ".", DigitsText(f));
    StandsAt(text, i, ".", 0);
  }

  lemma DotIsNoDigit()
    ensures !S.Digit('.')
  {
  }

  lemma FractionReads(text: string, i: nat, f: seq<nat>, e: Option<Expo>)
    requires Digits(f) && f != [] && (e.Some? ==> ExponentOk(e.value)) && Stands(text, i, FractionText(f))
    requires Stands(text, i + 1 + |f|, ExponentText(e)) && Behind(S.At(text, i + 1 + |f| + |ExponentText(e)|))
    ensures i < |text| && text[i] == '.' && !S.Digit('.') && |FractionText(f)| == 1 + |f|
    ensures i + 1 + |f| <= |text| && DigitsEnd(text, i + 1) == i + 1 + |f|
    ensures JsonGrammar.Exponent(text, i + 1 + |f|, JDouble) == Got(JDouble, i + 1 + |f| + |ExponentText(e)|)
  {
    hide DigitsEnd, ExponentText, JsonGrammar.Exponent, Stands, DigitsText, FractionText, Behind, S.Digit;
    DotIsNoDigit();
    PointReads(text, i, f);
    ExponentStarts(text, i + 1 + |f|, e);
    DigitsRead(text, i + 1, f);
    assert i + 1 + |f| <= |text| by { StandsIs(text, i + 1 + |f|, ExponentText(e)); }
    ExponentReads(text, i + 1 + |f|, e, JDouble);
  }

  lemma WholeReads(text: string, p: nat, d: seq<nat>)
    requires d != [] && Digits(d) && Stands(text, p, DigitsText(d)) && !S.Digit(S.At(text, p + |d|))
    ensures p + |d| <= |text| && DigitsEnd(text, p) == p + |d| && V.Decimal(text[p..p + |d|]) == Horner(d)
    ensures text[p] == '0' <==> d[0] == 0
  {
    hide DigitsEnd, Horner, Stands, DigitsText, S.Digit, V.Decimal;
    DigitsRead(text, p, d);
    StandsIs(text, p, DigitsText(d));
    DecimalReads(d);
    StandsAt(text, p, DigitsText(d), 0);
    DigitReads(d[0]);
  }

  lemma MagnitudeReads(text: string, p: nat, v: Val)
    requires v.VNum? && NumOk(v) && Stands(text, p, Unsigned(v)) && Behind(S.At(text, p + |Unsigned(v)|))
    ensures Magnitude(text, p, v.negative) == Got(NumMeaning(v), p + |Unsigned(v)|)
  {
    hide DigitsEnd, ExponentText, JsonGrammar.Exponent, Horner, Stands, DigitsText, FractionText, S.Digit, Behind,
         V.Decimal, Magnitude;
    var i := p + |v.whole|;
    StandsSplit(text, p, DigitsText(v.whole), FractionText(v.fraction) + ExponentText(v.exponent));
    StandsSplit(text, i, FractionText(v.fraction), ExponentText(v.exponent));
    if v.fraction != [] {
      FractionLength(v.fraction);
      FractionReads(text, i, v.fraction, v.exponent);
      WholeReads(text, p, v.whole);
      PointMagnitude(text, p, v.negative, i, i + 1 + |v.fraction|, Got(JDouble, p + |Unsigned(v)|));
    } else {
      NoFraction(v.exponent);
      ExponentStarts(text, i, v.exponent);
      WholeReads(text, p, v.whole);
      ExponentReads(text, i, v.exponent, if Horner(v.whole) > S.INT_MAX then JDouble else NumInt(v));
      WholeMagnitude(text, p, v.negative, i, Horner(v.whole), Got(NumMeaning(v), p + |Unsigned(v)|));
    }
  }

  lemma PointMagnitude(text: string, p: nat, negative: bool, i: nat, j: nat, r: Got<Json>)
    requires p < i < |text| && DigitsEnd(text, p) == i && V.Decimal(text[p..i]) <= S.INT_MAX
    requires !(i > p + 1 && text[p] == '0') && text[i] == '.'
    requires DigitsEnd(text, i + 1) == j && i + 1 < j <= |text| && JsonGrammar.Exponent(text, j, JDouble) == r
    ensures Magnitude(text, p, negative) == r
  {
    hide DigitsEnd, JsonGrammar.Exponent, V.Decimal;
  }

  lemma WholeMagnitude(text: string, p: nat, negative: bool, i: nat, n: nat, r: Got<Json>)
    requires p < i <= |text| && DigitsEnd(text, p) == i && V.Decimal(text[p..i]) == n
    requires !(i > p + 1 && text[p] == '0') && S.At(text, i) != '.'
    requires r == JsonGrammar.Exponent(text, i, if n > S.INT_MAX then JDouble else JInt(if negative then 0 - n else n))
    ensures Magnitude(text, p, negative) == r
  {
    hide DigitsEnd, JsonGrammar.Exponent, V.Decimal;
  }

  function NumInt(v: Val): Json
    requires v.VNum?
  {
    JInt(if v.negative then 0 - Horner(v.whole) else Horner(v.whole))
  }

  lemma NumReads(text: string, comments: bool, p: nat, v: Val)
    requires v.VNum? && NumOk(v) && Stands(text, p, NumText(v)) && Behind(S.At(text, p + |NumText(v)|))
    ensures p < |text| && Value(text, comments, p) == Got(NumMeaning(v), p + |NumText(v)|)
  {
    hide Magnitude, Items, Members, Stands, DigitsText, FractionText, ExponentText, Behind, Quoted, JsonGrammar.Literal;
    var sign := if v.negative then "-" else "";
    assert NumText(v) == sign + Unsigned(v);
    StandsSplit(text, p, sign, Unsigned(v));
    MagnitudeReads(text, p + |sign|, v);
    StandsAt(text, p + |sign|, Unsigned(v), 0);
    DigitReads(v.whole[0]);
    if v.negative { StandsAt(text, p, sign, 0); }
  }

  /** A point behind digits that exceed 63 bits is an error, whatever follows. */
  lemma LongFractionFails(text: string, p: nat, whole: seq<nat>, negative: bool)
    requires Digits(whole) && Horner(whole) > 0x7FFF_FFFF_FFFF_FFFF
    requires Stands(text, p, DigitsText(whole) + ".")
    ensures Magnitude(text, p, negative) == No
  {
    hide DigitsEnd, Horner, Stands, DigitsText, V.Decimal;
    StandsSplit(text, p, DigitsText(whole), ".");
    StandsAt(text, p + |whole|, ".", 0);
    DigitsRead(text, p, whole);
    assert text[p..p + |whole|] == DigitsText(whole) by { StandsIs(text, p, DigitsText(whole)); }
    DecimalReads(whole);
  }

  // ----- words -----

  lemma WordReads(text: string, comments: bool, p: nat, v: Val)
    requires (v.VNull? || v.VTrue? || v.VFalse?) && Stands(text, p, Text(v))
    ensures p < |text| && Value(text, comments, p) == Got(Meaning(v), p + |Text(v)|)
  {
    hide Magnitude, Items, Members, Quoted;
    StandsAt(text, p, Text(v), 0);
  }

  // ----- values, by induction over what is written -----

  /** The first character of a value is neither a space nor a bracket or comma, and
      there is one. */
  lemma FirstOf(v: Val)
    requires Ok(v)
    ensures |Text(v)| > 0 && !S.White(Text(v)[0]) && Text(v)[0] != '/' && Text(v)[0] != ']' && Text(v)[0] != ','
  {
    hide ItemsText, MembersText, BodyText, NumText;
    if v.VNum? { NumFirst(v); }
  }

  lemma NumFirst(v: Val)
    requires v.VNum? && NumOk(v)
    ensures NumText(v) != "" && (NumText(v)[0] == '-' || S.Digit(NumText(v)[0]))
  {
    hide DigitsText, ExponentText, FractionText, S.Digit;
    if !v.negative {
      assert NumText(v)[0] == DigitsText(v.whole)[0];
      DigitReads(v.whole[0]);
    }
  }

  lemma {:induction false} ValueReads(text: string, comments: bool, p: nat, v: Val)
    requires Ok(v) && Stands(text, p, Text(v)) && Behind(S.At(text, p + |Text(v)|))
    ensures p < |text| && Value(text, comments, p) == Got(Meaning(v), p + |Text(v)|)
    decreases v, 2
  {
    hide Items, Members, Quoted, Stands, Behind, Magnitude, StringText, StringMeaning, ItemsText, MembersText, NumText;
    if v.VNum? { NumReads(text, comments, p, v); } else { AnyValueReads(text, comments, p, v); }
  }

  /** Only a number needs something behind it that ends it. */
  lemma {:induction false} AnyValueReads(text: string, comments: bool, p: nat, v: Val)
    requires Ok(v) && !v.VNum? && Stands(text, p, Text(v))
    ensures p < |text| && Value(text, comments, p) == Got(Meaning(v), p + |Text(v)|)
    decreases v, 1
  {
    hide Items, Members, Quoted, Stands, Behind, Magnitude, StringText, StringMeaning, ItemsText, MembersText, NumText;
    match v
    case VStr(s) => StringReads(text, p, s);
    case VArr(w, items) =>
      var tail := if items.VNil? then w + "]" else ItemsText(items);
      StandsSplit(text, p, "[", tail);
      StandsAt(text, p, "[", 0);
      if items.VNil? { NoItems(text, comments, p + 1, w); } else { ItemsRead(text, comments, p + 1, 0, items); }
    case VObj(w, members) =>
      var tail := if members.MNil? then w + "}" else MembersText(members);
      StandsSplit(text, p, "{", tail);
      StandsAt(text, p, "{", 0);
      if members.MNil? {
        NoMembers(text, comments, p + 1, w);
      } else {
        MembersRead(text, comments, p + 1, 0, members);
      }
    case _ => WordReads(text, comments, p, v);
  }

  lemma NoItems(text: string, comments: bool, p: nat, w: string)
    requires Space(w) && Stands(text, p, w + "]")
    ensures p <= |text| && Items(text, comments, p, 0) == Got(Nil, p + |w| + 1)
  {
    hide Value, MoreItems, Skip, Stands;
    StandsSplit(text, p, w, "]");
    StandsAt(text, p + |w|, "]", 0);
    SpaceReads(text, comments, p, w);
  }

  lemma NoMembers(text: string, comments: bool, p: nat, w: string)
    requires Space(w) && Stands(text, p, w + "}")
    ensures p <= |text| && Members(text, comments, p, 0) == Got(Named([], Nil), p + |w| + 1)
  {
    hide Member, Skip, Stands;
    StandsSplit(text, p, w, "}");
    StandsAt(text, p + |w|, "}", 0);
    SpaceReads(text, comments, p, w);
  }

  /** Spaces, a value and spaces: what is skipped and what is read. */
  lemma {:induction false} ElementReads(text: string, comments: bool, p: nat, before: string, v: Val, after: string,
                                        rest: string)
    requires Space(before) && Ok(v) && Space(after) && rest != "" && Behind(rest[0]) && !S.White(rest[0])
    requires Stands(text, p, before + Text(v) + after + rest)
    ensures p <= |text| && Skip(text, comments, p) == Place(p + |before|)
    ensures p + |before| < |text| && text[p + |before|] == Text(v)[0]
    ensures var e := p + |before| + |Text(v)|;
            && e <= |text| && Value(text, comments, p + |before|) == Got(Meaning(v), e)
            && Skip(text, comments, e) == Place(e + |after|) && Stands(text, e + |after|, rest)
    decreases v, 3
  {
    hide Value, Skip, Stands, Text, Space, Meaning, S.White;
    var q, e := p + |before|, p + |before| + |Text(v)|;
    StandsSplit(text, p, before + Text(v) + after, rest);
    StandsSplit(text, p, before + Text(v), after);
    StandsSplit(text, p, before, Text(v));
    StandsAt(text, e + |after|, rest, 0);
    FirstOf(v);
    StandsAt(text, q, Text(v), 0);
    SpaceReads(text, comments, p, before);
    assert rest[0] != '/' by { BehindFacts(rest[0]); }
    SpaceReads(text, comments, e, after);
    assert Behind(S.At(text, e)) by { SpaceIsBehind(text, e, after, rest); }
    ValueReads(text, comments, q, v);
  }

  lemma SpaceIsBehind(text: string, e: nat, w: string, rest: string)
    requires Space(w) && rest != "" && Behind(rest[0]) && Stands(text, e, w) && Stands(text, e + |w|, rest)
    ensures Behind(S.At(text, e))
  {
    hide Stands;
    if w != "" { StandsAt(text, e, w, 0); } else { StandsAt(text, e, rest, 0); }
  }

  lemma {:induction false} ItemsRead(text: string, comments: bool, p: nat, n: nat, items: Vals)
    requires items.VCons? && ItemsOk(items) && Stands(text, p, ItemsText(items)) && n + Count(items) <= 0xFFFF_FFF7
    ensures p <= |text| && Items(text, comments, p, n) == Got(ItemsMeaning(items), p + |ItemsText(items)|)
    decreases items, 0
  {
    hide Value, Skip, Stands, Text, Space, Meaning, Behind, MoreText, Items, MoreItems;
    var v, rest := items.v, MoreText(items.rest);
    MoreStarts(items.rest);
    ElementReads(text, comments, p, items.before, v, items.after, rest);
    FirstOf(v);
    ItemsIs(text, comments, p, n);
    MoreRead(text, comments, p + |items.before| + |Text(v)|, n + 1, items.after, items.rest);
  }

  lemma MoreStarts(items: Vals)
    requires ItemsOk(items)
    ensures MoreText(items) != "" && Behind(MoreText(items)[0]) && !S.White(MoreText(items)[0])
    ensures MoreText(items)[0] == if items.VNil? then ']' else ','
  {
    hide ItemsText;
  }

  /** The same behind an element and its spaces. */
  lemma {:induction false} MoreRead(text: string, comments: bool, e: nat, n: nat, after: string, items: Vals)
    requires ItemsOk(items) && n + Count(items) <= 0xFFFF_FFF7
    requires e <= |text| && Skip(text, comments, e) == Place(e + |after|) && Stands(text, e + |after|, MoreText(items))
    ensures MoreItems(text, comments, e, n) == Got(ItemsMeaning(items), e + |after| + |MoreText(items)|)
    decreases items, 3
  {
    hide Skip, Stands, Items, MoreItems, ItemsText;
    var q := e + |after|;
    MoreItemsIs(text, comments, e, n);
    StandsAt(text, q, MoreText(items), 0);
    if items.VCons? {
      StandsSplit(text, q, ",", ItemsText(items));
      ItemsRead(text, comments, q + 1, n, items);
    }
  }

  /** A name with the spaces around it, up to its colon. */
  lemma NameReads(text: string, comments: bool, p: nat, m: Mems, element: string)
    requires m.MCons? && MembersOk(m) && element != ""
    requires Stands(text, p, m.before + (StringText(m.name) + (m.mid + (":" + element))))
    ensures p <= |text| && Skip(text, comments, p) == Place(p + |m.before|)
    ensures var q := p + |m.before|;
            var e := q + |StringText(m.name)|;
            && q < |text| && text[q] == '"' && Quoted(text, q + 1) == Got(StringMeaning(m.name), e) && e <= |text|
            && Skip(text, comments, e) == Place(e + |m.mid|) && e + |m.mid| < |text| && text[e + |m.mid|] == ':'
            && Stands(text, e + |m.mid| + 1, element)
  {
    hide Stands, Skip, Quoted, StringText, StringMeaning, Space, PiecesOk;
    var q := p + |m.before|;
    var e := q + |StringText(m.name)|;
    StandsSplit(text, p, m.before, StringText(m.name) + (m.mid + (":" + element)));
    StandsSplit(text, q, StringText(m.name), m.mid + (":" + element));
    StandsSplit(text, e, m.mid, ":" + element);
    StandsAt(text, e + |m.mid|, ":" + element, 0);
    StandsSplit(text, e + |m.mid|, ":", element);
    StringReads(text, q, m.name);
    SpaceReads(text, comments, p, m.before);
    SpaceReads(text, comments, e, m.mid);
  }

  lemma {:induction false} MembersRead(text: string, comments: bool, p: nat, n: nat, m: Mems)
    requires m.MCons? && MembersOk(m) && Stands(text, p, MembersText(m)) && n + MemberCount(m) <= 0xFFFF_FFF7
    ensures p <= |text|
    ensures Members(text, comments, p, n) == Got(Named(Names(m), MembersMeaning(m)), p + |MembersText(m)|)
    decreases m, 0
  {
    hide Value, Skip, Stands, Text, Space, Meaning, Behind, MoreMembersText, Members, Member, MoreMembers, StringText,
         StringMeaning, Quoted, PiecesOk;
    var v, rest := m.v, MoreMembersText(m.rest);
    var element := m.gap + Text(v) + m.after + rest;
    MoreMembersStart(m.rest);
    assert MembersText(m) == m.before + (StringText(m.name) + (m.mid + (":" + element))) by {
      MemberText(m.before, StringText(m.name), m.mid, m.gap, Text(v), m.after, rest);
    }
    NameReads(text, comments, p, m, element);
    var e := p + |m.before| + |StringText(m.name)|;
    var q := e + |m.mid| + 1;
    ElementReads(text, comments, q, m.gap, v, m.after, rest);
    MembersIs(text, comments, p, n);
    MemberIs(text, comments, e, n, StringMeaning(m.name));
    MoreMembersRead(text, comments, q + |m.gap| + |Text(v)|, n + 1, m.after, m.rest);
  }

  lemma MemberText(a: string, b: string, c: string, d: string, e: string, f: string, g: string)
    ensures a + b + c + ":" + d + e + f + g == a + (b + (c + (":" + (d + e + f + g))))
  {
  }

  lemma MoreMembersStart(m: Mems)
    requires MembersOk(m)
    ensures var t := MoreMembersText(m);
            t != "" && Behind(t[0]) && !S.White(t[0]) && t[0] == if m.MNil? then '}' else ','
  {
    hide MembersText;
  }

  lemma {:induction false} MoreMembersRead(text: string, comments: bool, e: nat, n: nat, after: string, m: Mems)
    requires MembersOk(m) && n + MemberCount(m) <= 0xFFFF_FFF7
    requires e <= |text| && Skip(text, comments, e) == Place(e + |after|)
    requires Stands(text, e + |after|, MoreMembersText(m))
    ensures MoreMembers(text, comments, e, n) ==
            Got(Named(Names(m), MembersMeaning(m)), e + |after| + |MoreMembersText(m)|)
    decreases m, 3
  {
    hide Skip, Stands, Members, MoreMembers, MembersText;
    var q := e + |after|;
    MoreMembersIs(text, comments, e, n);
    StandsAt(text, q, MoreMembersText(m), 0);
    if m.MCons? {
      StandsSplit(text, q, ",", MembersText(m));
      MembersRead(text, comments, q + 1, n, m);
    }
  }

  /** Every JSON text is accepted as the value that it writes. */
  lemma DocumentReads(before: string, v: Val, after: string, comments: bool)
    requires Space(before) && Ok(v) && Space(after)
    ensures var text := before + Text(v) + after; Document(text, comments) == Got(Meaning(v), |text|)
  {
    hide Value, Skip, Text, Meaning, Space, Stands, Behind, S.White;
    var text := before + Text(v) + after;
    var q, e := |before|, |before| + |Text(v)|;
    assert Stands(text, 0, text) by { StandsWhole(text); }
    StandsSplit(text, 0, before + Text(v), after);
    StandsSplit(text, 0, before, Text(v));
    FirstOf(v);
    StandsAt(text, q, Text(v), 0);
    SpaceReads(text, comments, 0, before);
    EndIsBehind(text, e, after);
    SpaceReads(text, comments, e, after);
    ValueReads(text, comments, q, v);
  }

  lemma StandsWhole(text: string)
    ensures Stands(text, 0, text)
  {
  }

  lemma EndIsBehind(text: string, e: nat, w: string)
    requires Space(w) && Stands(text, e, w) && e + |w| == |text|
    ensures Behind(S.At(text, e)) && !S.White(S.At(text, |text|)) && S.At(text, |text|) != '/'
  {
    if w != "" { StandsAt(text, e, w, 0); }
  }

  // ----- comments -----

  /** What may stand between tokens where comments are enabled. */
  datatype Gap = Blank(c: char) | Line(s: string, end: char) | Block(s: string)

  predicate GapOk(g: Gap) {
    match g
    case Blank(c) => Space([c])
    case Line(s, end) =>
      && (forall i | 0 <= i < |s| :: s[i] as nat != 0 && s[i] as nat != 10 && s[i] as nat != 13)
      && (end as nat == 10 || end as nat == 13)
    case Block(s) =>
      && (forall i | 0 <= i < |s| :: s[i] as nat != 0)
      && (forall i | 0 <= i < |s| - 1 :: !(s[i] == '*' && s[i + 1] == '/'))
  }

  function GapText(g: Gap): string {
    match g
    case Blank(c) => [c]
    case Line(s, end) => "//" + s + [end]
    case Block(s) => "/*" + s + "*/"
  }

  predicate GapsOk(g: seq<Gap>) { forall i | 0 <= i < |g| :: GapOk(g[i]) }

  function GapsText(g: seq<Gap>): string { if g == [] then "" else GapText(g[0]) + GapsText(g[1..]) }

  lemma {:induction false} LineReads(text: string, p: nat, s: string, end: char)
    requires GapOk(Line(s, end)) && Stands(text, p, s + [end])
    ensures p <= |text| && LineEnd(text, p) == p + |s|
    decreases |s|
  {
    StandsAt(text, p, s + [end], 0);
    if s != "" {
      assert s + [end] == s[..1] + (s[1..] + [end]);
      StandsSplit(text, p, s[..1], s[1..] + [end]);
      LineReads(text, p + 1, s[1..], end);
    }
  }

  lemma {:induction false} BlockReads(text: string, p: nat, s: string)
    requires GapOk(Block(s)) && Stands(text, p, s + "*/")
    ensures p <= |text| && BlockEnd(text, p) == Place(p + |s| + 2)
    decreases |s|
  {
    StandsAt(text, p, s + "*/", 0);
    StandsAt(text, p, s + "*/", 1);
    if s != "" {
      assert s + "*/" == s[..1] + (s[1..] + "*/");
      StandsSplit(text, p, s[..1], s[1..] + "*/");
      BlockReads(text, p + 1, s[1..]);
    }
  }

  lemma GapReads(text: string, p: nat, g: Gap)
    requires GapOk(g) && Stands(text, p, GapText(g))
    ensures p < |text| && p + |GapText(g)| <= |text|
    ensures Skip(text, true, p) == Skip(text, true, p + |GapText(g)|)
  {
    hide Stands;
    assert p + |GapText(g)| <= |text| by { StandsIs(text, p, GapText(g)); }
    match g
    case Blank(c) => StandsAt(text, p, [c], 0);
    case Line(s, end) => LineGap(text, p, s, end);
    case Block(s) => BlockGap(text, p, s);
  }

  lemma LineGap(text: string, p: nat, s: string, end: char)
    requires GapOk(Line(s, end)) && Stands(text, p, "//" + s + [end])
    ensures p + |s| + 3 <= |text| && Skip(text, true, p) == Skip(text, true, p + |s| + 3)
  {
    hide LineEnd, BlockEnd, Stands;
    assert "//" + s + [end] == "//" + (s + [end]);
    StandsSplit(text, p, "//", s + [end]);
    StandsAt(text, p, "//", 0);
    StandsAt(text, p, "//", 1);
    LineReads(text, p + 2, s, end);
    StandsAt(text, p + 2, s + [end], |s|);
  }

  lemma BlockGap(text: string, p: nat, s: string)
    requires GapOk(Block(s)) && Stands(text, p, "/*" + s + "*/")
    ensures p + |s| + 4 <= |text| && Skip(text, true, p) == Skip(text, true, p + |s| + 4)
  {
    hide LineEnd, BlockEnd, Stands;
    assert "/*" + s + "*/" == "/*" + (s + "*/");
    StandsSplit(text, p, "/*", s + "*/");
    StandsAt(text, p, "/*", 0);
    StandsAt(text, p, "/*", 1);
    BlockReads(text, p + 2, s);
    StandsAt(text, p + 2, s + "*/", |s| + 1);
  }

  /** Spaces and comments are skipped, whatever their number and order. */
  lemma {:induction false} GapsRead(text: string, p: nat, g: seq<Gap>)
    requires GapsOk(g) && Stands(text, p, GapsText(g))
    requires !S.White(S.At(text, p + |GapsText(g)|)) && S.At(text, p + |GapsText(g)|) != '/'
    ensures p <= |text| && Skip(text, true, p) == Place(p + |GapsText(g)|)
    decreases |g|
  {
    hide Stands, S.White, GapOk, GapText;
    if g == [] {
      assert Skip(text, true, p) == Place(p) by { StandsIs(text, p, ""); }
    } else {
      StandsSplit(text, p, GapText(g[0]), GapsText(g[1..]));
      GapReads(text, p, g[0]);
      GapsRead(text, p + |GapText(g[0])|, g[1..]);
    }
  }

  /** Where comments are enabled they may stand around a value, but not directly
      behind a number. */
  lemma CommentedReads(before: seq<Gap>, v: Val, after: seq<Gap>)
    requires GapsOk(before) && Ok(v) && GapsOk(after) && (v.VNum? && after != [] ==> after[0].Blank?)
    ensures var text := GapsText(before) + Text(v) + GapsText(after); Document(text, true) == Got(Meaning(v), |text|)
  {
    hide Value, Skip, Text, Meaning, Stands, S.White, GapsOk, GapsText, GapOk;
    var text := GapsText(before) + Text(v) + GapsText(after);
    var q, e := |GapsText(before)|, |GapsText(before)| + |Text(v)|;
    assert Stands(text, 0, text) by { StandsWhole(text); }
    StandsSplit(text, 0, GapsText(before) + Text(v), GapsText(after));
    StandsSplit(text, 0, GapsText(before), Text(v));
    FirstOf(v);
    StandsAt(text, q, Text(v), 0);
    GapsRead(text, 0, before);
    TextEnds(text);
    GapsRead(text, e, after);
    CommentedValue(text, q, v, after);
  }

  lemma TextEnds(text: string)
    ensures !S.White(S.At(text, |text|)) && S.At(text, |text|) != '/' && S.At(text, |text|) == 0 as char
  {
  }

  lemma CommentedValue(text: string, q: nat, v: Val, after: seq<Gap>)
    requires Ok(v) && GapsOk(after) && (v.VNum? && after != [] ==> after[0].Blank?)
    requires Stands(text, q, Text(v)) && Stands(text, q + |Text(v)|, GapsText(after))
    requires q + |Text(v)| + |GapsText(after)| == |text|
    ensures q < |text| && Value(text, true, q) == Got(Meaning(v), q + |Text(v)|)
  {
    hide Value, Skip, Text, Meaning, Stands, S.White;
    var e := q + |Text(v)|;
    if v.VNum? {
      if after != [] { StandsAt(text, e, GapsText(after), 0); }
      ValueReads(text, true, q, v);
    } else {
      AnyValueReads(text, true, q, v);
    }
  }

  // ----- what is no JSON and no liberty of the parser either -----

  /** A zero in front of other digits is an error, whatever they are. */
  lemma LeadingZeroFails(text: string, p: nat, whole: seq<nat>, negative: bool)
    requires Digits(whole) && |whole| > 1 && whole[0] == 0 && Stands(text, p, DigitsText(whole))
    requires !S.Digit(S.At(text, p + |whole|))
    ensures Magnitude(text, p, negative) == No
  {
    hide DigitsEnd, Stands, DigitsText, V.Decimal;
    DigitsRead(text, p, whole);
    StandsAt(text, p, DigitsText(whole), 0);
    DigitReads(0);
  }

  /** So is a point without digits behind it, and an exponent without any. */
  lemma EmptyPartFails(text: string, p: nat, whole: seq<nat>, negative: bool, c: char)
    requires Digits(whole) && (c == '.' || c == 'e' || c == 'E') && Stands(text, p, DigitsText(whole) + [c])
    requires var b := S.At(text, p + |whole| + 1); !S.Digit(b) && (c != '.' ==> b != '+' && b != '-')
    ensures Magnitude(text, p, negative) == No
  {
    hide DigitsEnd, Stands, DigitsText, V.Decimal;
    var q := p + |whole|;
    StandsSplit(text, p, DigitsText(whole), [c]);
    StandsAt(text, q, [c], 0);
    DotIsNoDigit();
    DigitsRead(text, p, whole);
    DigitsRead(text, q + 1, []);
  }

  /** Half of a surrogate pair alone, either half. */
  lemma LoneHalfFails(text: string, p: nat, u: nat, upper: seq<bool>)
    requires (High(u) || Low(u)) && |upper| == 4 && Stands(text, p, "\\u" + FourText(u, upper))
    requires !(p + 7 < |text| && text[p + 6] == '\\' && text[p + 7] == 'u')
    ensures V.Body(text, p) == V.NoText
  {
    hide S.FourHex, S.Utf8;
    var w := "\\u" + FourText(u, upper);
    StandsAt(text, p, w, 0);
    StandsAt(text, p, w, 1);
    StandsSplit(text, p, "\\u", FourText(u, upper));
    FourReads(text, p + 2, u, upper);
  }

  /** A string without its closing quote. */
  lemma {:induction false} OpenStringFails(text: string, p: nat)
    requires forall i | p <= i < |text| :: text[i] != '"' && text[i] != '\\'
    ensures V.Body(text, p) == V.NoText
    decreases |text| - p
  {
    if p < |text| { OpenStringFails(text, p + 1); }
  }

  /** A string or name of more than 2^32 - 9 bytes is rejected, and so is one more
      element behind 2^32 - 9 of them. */
  lemma TooManyFail(text: string, comments: bool, p: nat)
    requires p <= |text|
    ensures V.Body(text, p).Text? && |V.Body(text, p).content| > 0xFFFF_FFF7 ==> Quoted(text, p) == No
    ensures var q := Skip(text, comments, p);
            q.Place? && S.At(text, q.p) != ']' ==> Items(text, comments, p, 0xFFFF_FFF7) == No
    ensures forall name :: Member(text, comments, p, 0xFFFF_FFF7, name) == No
  {
    hide Value, Items, Member, MoreItems, MoreMembers, Skip, V.Body, Colon;
    ItemsIs(text, comments, p, 0xFFFF_FFF7);
    forall name ensures Member(text, comments, p, 0xFFFF_FFF7, name) == No {
      MemberIs(text, comments, p, 0xFFFF_FFF7, name);
    }
  }

  lemma WordsAreWhole()
    ensures Document("tru", false) == No && Document("nul", false) == No && Document("+1", false) == No
    ensures Document("", false) == No && Document("]", false) == No
  {
  }

  lemma OneValueOnly()
    ensures Document("null null", false) == No && Document("[null null]", false) == No
  {
    assert Value("null null", false, 0) == Got(JNull, 4) && Skip("null null", false, 4) == Place(5);
    var t := "[null null]";
    assert t[1..5] == "null" && t[5] == ' ' && t[6] == 'n';
    assert Value(t, false, 1) == Got(JNull, 5) && Skip(t, false, 6) == Place(6) && Skip(t, false, 5) == Place(6);
    assert MoreItems(t, false, 5, 1) == No;
  }

  lemma NamesAreNeeded()
    ensures Document("{null:null}", false) == No && Document("{\"\" null}", false) == No
  {
    var t := "{\"\" null}";
    assert Quoted(t, 2) == Got("", 3) && Skip(t, false, 3) == Place(4) && Colon(t, false, 3) == Nowhere;
    assert Members(t, false, 1, 0) == No;
  }
}
