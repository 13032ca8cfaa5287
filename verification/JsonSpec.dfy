/** The JSON parser of json.c: one loop body, run twice over the same text. The
    first pass counts, the second writes into memory of exactly those sizes. */
module JsonSpec {

  const UINT_MAX: nat := 0xFFFF_FFFF
  const INT_MAX: nat := 0x7FFF_FFFF_FFFF_FFFF

  datatype Kind = Object | Array | Integer | Double | String | Boolean | Null

  /** A value. The first pass counts in length and nameBytes; the second fills
      slots, keys and text, and uses nameBytes as the offset of the next name.
      `names` counts the names of an object that were read. */
  datatype Node = Node(kind: Kind, parent: int, length: nat, nameBytes: nat, names: nat, integer: int,
                       slots: seq<nat>, keys: seq<string>, text: string)

  datatype Mode = Normal | InString(escaped: bool) | LineComment | BlockComment

  /** The flags and cursors that both passes go through alike. */
  datatype Core = Core(ptr: nat, mode: Mode, seek: bool, needComma: bool, needColon: bool, done: bool, top: int,
                       len: nat)

  /** The flags of the number that the first pass is reading. */
  datatype Num = Num(digits: nat, negative: bool, zero: bool, e: bool, eSign: bool)

  datatype State = State(core: Core, nodes: seq<Node>, num: Num, buf: string)

  /** How a turn of the loop ends; a Fault is an access outside an allocation. */
  datatype Outcome = Next(s: State) | Done(final: State) | Fail | Fault

  /** The plan of the second pass is what the first pass counted. */
  datatype Config = Config(text: string, comments: bool, first: bool, plan: seq<Node>)

  function At(text: string, i: nat): char { if i < |text| then text[i] else 0 as char }

  predicate White(b: char) { b == '\n' || b == ' ' || b == '\t' || b == '\r' }

  predicate Digit(b: char) { '0' <= b <= '9' }

  predicate Container(k: Kind) { k == Object || k == Array }

  predicate Number(k: Kind) { k == Integer || k == Double }

  // ----- moving on -----

  function Go(s: State, ptr: nat): (o: Outcome)
    ensures !o.Done?
  {
    Next(s.(core := s.core.(ptr := ptr)))
  }

  /** The kind of the value at the top, if there is one. */
  predicate TopIs(s: State, k: Kind) { 0 <= s.core.top < |s.nodes| && s.nodes[s.core.top].kind == k }

  /** new_value: the first pass makes a node, the second takes the next one and
      gives it empty memory of the counted size. */
  function New(c: Config, s: State, kind: Kind, value: int): (o: Outcome)
    ensures !o.Done?
  {
    var n := |s.nodes|;
    if c.first then
      Next(s.(core := s.core.(top := n, seek := false),
              nodes := s.nodes + [Node(kind, s.core.top, 0, 0, 0, value, [], [], "")]))
    else if n >= |c.plan| then Fault
    else
      Next(s.(core := s.core.(top := n, seek := false), nodes := s.nodes + [Emptied(c.plan[n])]))
  }

  function Emptied(v: Node): Node { v.(length := 0, nameBytes := 0, names := 0, slots := [], keys := [], text := "") }

  /** The value at the top is complete: its parent gets it. */
  function Finish(c: Config, s: State, ptr: nat): (o: Outcome)
    ensures !o.Done?
  {
    var t := s.core.top;
    if !(0 <= t < |s.nodes|) then Fault else
      var p := s.nodes[t].parent;
      if p < 0 then Next(s.(core := s.core.(needComma := true, done := true, ptr := ptr)))
      else if p >= t then Fault
      else if !c.first && Container(s.nodes[p].kind) && !(p < |c.plan| && s.nodes[p].length < c.plan[p].length) then
        Fault
      else if s.nodes[p].length + 1 > UINT_MAX - 8 then Fail
      else Next(s.(core := s.core.(needComma := true, seek := s.core.seek || s.nodes[p].kind == Array, top := p,
                                   ptr := ptr),
                   nodes := s.nodes[p := Grown(c.first, s.nodes[p], t)]))
  }

  function Grown(first: bool, v: Node, child: nat): Node {
    if first || !Container(v.kind) then v.(length := v.length + 1)
    else v.(length := v.length + 1, slots := v.slots + [child])
  }

  /** new_value and then Finish, for the literals. */
  function Literal(c: Config, s: State, kind: Kind, value: int, ptr: nat): (o: Outcome)
    ensures !o.Done?
  {
    match New(c, s, kind, value)
    case Next(s') => Finish(c, s', ptr)
    case r => r
  }

  // ----- strings -----

  /** Whether the second pass may write bytes up to offset n of the string. */
  predicate Room(plan: seq<Node>, nodes: seq<Node>, t: int, n: nat) {
    && 0 <= t < |nodes| && t < |plan|
    && match nodes[t].kind
       case String => n <= plan[t].length + 1
       case Object => plan[t].length > 0 && nodes[t].nameBytes + n <= plan[t].nameBytes
       case _ => false
  }

  /** More bytes of a string: the first pass adds their count, the second writes
      them one after the other. */
  function Add(c: Config, s: State, bytes: string, count: nat, ptr: nat): (o: Outcome)
    ensures !o.Done?
  {
    var len := s.core.len + (if c.first then count else |bytes|);
    var core := s.core.(len := len, mode := InString(false), ptr := ptr);
    if c.first then Next(s.(core := core))
    else if Room(c.plan, s.nodes, s.core.top, len) then Next(s.(core := core, buf := s.buf + bytes))
    else Fault
  }

  function HexValue(b: char): (h: nat)
    ensures h < 16 || h == 0xFF
  {
    if Digit(b) then b as nat - '0' as nat
    else if 'a' <= b <= 'f' then b as nat - 'a' as nat + 10
    else if 'A' <= b <= 'F' then b as nat - 'A' as nat + 10
    else 0xFF
  }

  /** Four hexadecimal digits at i, or None. */
  datatype Hex = Hex(value: nat) | NoHex

  function FourHex(text: string, i: nat): (h: Hex)
    ensures h.Hex? ==> h.value < 0x1_0000
  {
    var a, b := HexValue(At(text, i)), HexValue(At(text, i + 1));
    var c, d := HexValue(At(text, i + 2)), HexValue(At(text, i + 3));
    if a == 0xFF || b == 0xFF || c == 0xFF || d == 0xFF then NoHex else Hex(((a * 16 + b) * 16 + c) * 16 + d)
  }

  /** The pair as the source combines it: the bit 2^16 is set, not added. */
  function Combined(u: nat, v: nat): (r: nat)
    ensures 0x1_0000 <= r < 0x20_0000
  {
    var hi, lo := u % 1024, v % 1024;
    if hi / 64 % 2 == 1 then 1024 * hi + lo else 0x1_0000 + 1024 * hi + lo
  }

  /** How many bytes the first pass counts for a code point. */
  function Utf8Length(u: nat): nat { if u <= 0x7F then 1 else if u <= 0x7FF then 2 else if u <= 0xFFFF then 3 else 4 }

  /** The bytes that the second pass writes. */
  function Utf8(u: nat): string
    requires u < 0x20_0000
  {
    if u <= 0x7F then [u as char]
    else if u <= 0x7FF then [(0xC0 + u / 64) as char, (0x80 + u % 64) as char]
    else if u <= 0xFFFF then [(0xE0 + u / 4096) as char, (0x80 + u / 64 % 64) as char, (0x80 + u % 64) as char]
    else [(0xF0 + u / 262144) as char, (0x80 + u / 4096 % 64) as char, (0x80 + u / 64 % 64) as char,
          (0x80 + u % 64) as char]
  }

  function Plain(b: char): string {
    [match b
     case 'b' => 8 as char
     case 'f' => 12 as char
     case 'n' => '\n'
     case 'r' => '\r'
     case 't' => '\t'
     case _ => b]
  }

  /** The code point behind \u at p, one escape or a pair of them. */
  datatype Point = Point(u: nat, end: nat) | NoPoint

  function PointAt(text: string, p: nat): (r: Point)
    ensures r.Point? ==> r.u < 0x20_0000 && p < r.end <= |text|
  {
    if |text| <= p + 4 then NoPoint
    else match FourHex(text, p + 1)
      case NoHex => NoPoint
      case Hex(u) =>
        if !(0xD800 <= u <= 0xDFFF) then Point(u, p + 5)
        else if |text| <= p + 10 || text[p + 5] != '\\' || text[p + 6] != 'u' then NoPoint
        else match FourHex(text, p + 7)
          case NoHex => NoPoint
          case Hex(v) => Point(Combined(u, v), p + 11)
  }

  function Escape(c: Config, s: State, b: char): (o: Outcome)
    ensures !o.Done?
  {
    var p := s.core.ptr;
    if b != 'u' then Add(c, s, Plain(b), 1, p + 1)
    else match PointAt(c.text, p)
      case NoPoint => Fail
      case Point(u, end) => Add(c, s, Utf8(u), Utf8Length(u), end)
  }

  function EndString(c: Config, s: State): (o: Outcome)
    ensures !o.Done?
  {
    var t := s.core.top;
    if !(0 <= t < |s.nodes|) || (!c.first && !Room(c.plan, s.nodes, t, s.core.len + 1)) then Fault else
      var v := s.nodes[t];
      var core := s.core.(mode := Normal);
      match v.kind
      case String =>
        var w := v.(length := s.core.len, text := if c.first then "" else s.buf);
        Finish(c, s.(core := core, nodes := s.nodes[t := w], buf := ""), core.ptr + 1)
      case Object =>
        if !c.first && !(v.length < c.plan[t].length) then Fault else
          Next(s.(core := core.(seek := true, needColon := true, ptr := core.ptr + 1),
                  nodes := s.nodes[t := Named(c.first, v, s)], buf := ""))
      case _ => Fault
  }

  function Named(first: bool, v: Node, s: State): Node {
    v.(nameBytes := v.nameBytes + s.core.len + 1, names := v.names + 1, keys := if first then [] else v.keys + [s.buf])
  }

  function StringTurn(c: Config, s: State, b: char): (o: Outcome)
    requires s.core.mode.InString?
    ensures !o.Done?
  {
    if b == 0 as char || s.core.len > UINT_MAX - 8 then Fail
    else if s.core.mode.escaped then Escape(c, s, b)
    else if b == '\\' then Next(s.(core := s.core.(mode := InString(true), ptr := s.core.ptr + 1)))
    else if b == '"' then EndString(c, s)
    else Add(c, s, [b], 1, s.core.ptr + 1)
  }

  // ----- comments -----

  function CommentTurn(c: Config, s: State, b: char): (o: Outcome)
    ensures !o.Done?
  {
    var p := s.core.ptr;
    match s.core.mode
    case LineComment =>
      if b == '\r' || b == '\n' || b == 0 as char then Next(s.(core := s.core.(mode := Normal))) else Go(s, p + 1)
    case BlockComment =>
      if b == 0 as char then Fail
      else if b == '*' && p + 1 < |c.text| && c.text[p + 1] == '/' then
        Next(s.(core := s.core.(mode := Normal, ptr := p + 2)))
      else Go(s, p + 1)
    case _ =>
      if !s.core.seek && !s.core.done && !TopIs(s, Object) then Fail
      else if p + 1 >= |c.text| then Fail
      else if c.text[p + 1] == '/' then Next(s.(core := s.core.(mode := LineComment, ptr := p + 2)))
      else if c.text[p + 1] == '*' then Next(s.(core := s.core.(mode := BlockComment, ptr := p + 2)))
      else Fail
  }

  // ----- values -----

  predicate Word(text: string, p: nat, w: string) { p + |w| <= |text| && text[p..p + |w|] == w }

  predicate NumberChar(b: char) { Digit(b) || b == '+' || b == '-' || b == 'e' || b == 'E' || b == '.' }

  /** The end of the characters that can occur in a number. */
  function SkipEnd(text: string, i: nat): (j: nat)
    requires i <= |text|
    ensures i <= j <= |text|
    decreases |text| - i
  {
    if i < |text| && NumberChar(text[i]) then SkipEnd(text, i + 1) else i
  }

  const FRESH := Num(0, false, false, false, false)

  function SeekTurn(c: Config, s: State, b: char): (o: Outcome)
    requires s.core.ptr <= |c.text|
    ensures !o.Done?
  {
    var core := s.core;
    var p := core.ptr;
    if White(b) then Go(s, p + 1)
    else if b == ']' then
      if TopIs(s, Array) then Finish(c, s.(core := core.(needComma := false, seek := false)), p + 1) else Fail
    else if core.needComma then (if b == ',' then Next(s.(core := core.(needComma := false, ptr := p + 1))) else Fail)
    else if core.needColon then (if b == ':' then Next(s.(core := core.(needColon := false, ptr := p + 1))) else Fail)
    else ValueTurn(c, s, b)
  }

  function ValueTurn(c: Config, s: State, b: char): (o: Outcome)
    requires s.core.ptr <= |c.text|
    ensures !o.Done?
  {
    var p := s.core.ptr;
    if b == '{' then New(c, s.(core := s.core.(ptr := p + 1)), Object, 0)
    else if b == '[' then
      match New(c, s.(core := s.core.(ptr := p + 1)), Array, 0) {
        case Next(s') => Next(s'.(core := s'.core.(seek := true)))
        case r => r
      }
    else if b == '"' then
      match New(c, s.(core := s.core.(ptr := p + 1)), String, 0) {
        case Next(s') => Next(s'.(core := s'.core.(mode := InString(false), len := 0), buf := ""))
        case r => r
      }
    else if b == 't' then (if Word(c.text, p, "true") then Literal(c, s, Boolean, 1, p + 4) else Fail)
    else if b == 'f' then (if Word(c.text, p, "false") then Literal(c, s, Boolean, 0, p + 5) else Fail)
    else if b == 'n' then (if Word(c.text, p, "null") then Literal(c, s, Null, 0, p + 4) else Fail)
    else if Digit(b) || b == '-' then
      if !c.first then Literal(c, s, Integer, 0, SkipEnd(c.text, p))
      else New(c, s.(core := s.core.(ptr := if b == '-' then p + 1 else p), num := FRESH.(negative := b == '-')),
               Integer, 0)
    else Fail
  }

  function ObjectTurn(c: Config, s: State, b: char): (o: Outcome)
    ensures !o.Done?
  {
    var core := s.core;
    var p := core.ptr;
    if White(b) then Go(s, p + 1)
    else if b == '"' then
      if core.needComma then Fail
      else Next(s.(core := core.(mode := InString(false), len := 0, ptr := p + 1), buf := ""))
    else if b == '}' then Finish(c, s.(core := core.(needComma := false)), p + 1)
    else if b == ',' && core.needComma then Next(s.(core := core.(needComma := false, ptr := p + 1)))
    else Fail
  }

  // ----- numbers, in the first pass -----

  function DigitValue(b: char): (d: nat)
    requires Digit(b)
    ensures d <= 9
  {
    b as nat - '0' as nat
  }

  predicate WouldOverflow(value: int, d: nat)
    requires d <= 9
  {
    (INT_MAX - d) / 10 < value
  }

  function SetTop(s: State, v: Node): State
    requires 0 <= s.core.top < |s.nodes|
  {
    s.(nodes := s.nodes[s.core.top := v])
  }

  /** What a character does to the number at the top: it belongs to it, it is an
      error, or it lies behind its end. */
  datatype Scan = Read(on: State) | Bad | End(ended: State)

  function NumberScan(s: State, b: char): Scan
    requires 0 <= s.core.top < |s.nodes|
  {
    var v, n, p := s.nodes[s.core.top], s.num, s.core.ptr;
    if Digit(b) then DigitScan(s, b)
    else if (b == '+' || b == '-') && n.e && !n.eSign then Read(At1(s.(num := n.(eSign := true))))
    else if b == '.' && v.kind == Integer then
      if n.digits == 0 then Bad else Read(At1(SetTop(s, v.(kind := Double)).(num := n.(digits := 0))))
    else if !n.e && v.kind == Double && n.digits == 0 then Bad
    else if !n.e && (b == 'e' || b == 'E') then
      Read(At1(SetTop(s, v.(kind := Double)).(num := n.(e := true, digits := 0, zero := false))))
    else if n.e && n.digits == 0 then Bad
    else End(SetTop(s, if n.negative && v.kind == Integer then v.(integer := -v.integer) else v))
  }

  function DigitScan(s: State, b: char): Scan
    requires 0 <= s.core.top < |s.nodes| && Digit(b)
  {
    var v, n, d := s.nodes[s.core.top], s.num, DigitValue(b);
    if n.e then Read(At1(s.(num := n.(digits := n.digits + 1, eSign := true))))
    else if v.kind != Integer then Read(At1(s.(num := n.(digits := n.digits + 1))))
    else if n.zero then Bad
    else
      var zero := n.digits == 0 && b == '0';
      if WouldOverflow(v.integer, d) then Read(SetTop(s, v.(kind := Double)).(num := n.(zero := zero)))
      else Read(At1(SetTop(s, v.(integer := v.integer * 10 + d)).(num := n.(digits := n.digits + 1, zero := zero))))
  }

  function At1(s: State): State { s.(core := s.core.(ptr := s.core.ptr + 1)) }

  function NumberTurn(c: Config, s: State, b: char): (o: Outcome)
    requires 0 <= s.core.top < |s.nodes|
    ensures !o.Done?
  {
    match NumberScan(s, b)
    case Read(s') => Next(s')
    case Bad => Fail
    case End(s') => Finish(c, s', s.core.ptr)
  }

  // ----- the loop -----

  function Step(c: Config, s: State): Outcome
    requires s.core.ptr <= |c.text|
  {
    var b := At(c.text, s.core.ptr);
    var core := s.core;
    if core.mode.InString? then StringTurn(c, s, b)
    else if c.comments && (core.mode != Normal || b == '/') then CommentTurn(c, s, b)
    else if core.done then
      if b == 0 as char then Done(s) else if White(b) then Go(s, core.ptr + 1) else Fail
    else if core.seek then SeekTurn(c, s, b)
    else if !(0 <= core.top < |s.nodes|) then Fault
    else if s.nodes[core.top].kind == Object then ObjectTurn(c, s, b)
    else if Number(s.nodes[core.top].kind) then NumberTurn(c, s, b)
    else if core.ptr < |c.text| then Go(s, core.ptr + 1) else Fault
  }

  const START := State(Core(0, Normal, true, false, false, false, -1, 0), [], FRESH, "")

  // ----- the loop ends -----

  /** How much the loop can still do without reading on. */
  function Rank(core: Core): nat {
    (if core.mode == LineComment then 3 else 0)
    + (if core.done then 0 else if core.seek && !core.needComma then 2 else 1)
  }

  function TopOf(s: State): nat { if s.core.top < 0 then 0 else s.core.top + 1 }

  function IntegerBit(s: State): nat { if TopIs(s, Integer) then 1 else 0 }

  predicate Smaller(a: State, b: State) {
    || a.core.ptr > b.core.ptr
    || (a.core.ptr == b.core.ptr
        && (Rank(a.core) < Rank(b.core)
            || (Rank(a.core) == Rank(b.core)
                && (TopOf(a) < TopOf(b) || (TopOf(a) == TopOf(b) && IntegerBit(a) < IntegerBit(b))))))
  }

  /** A turn that goes on reads a character or comes closer to reading one. */
  predicate Forward(c: Config, s: State, o: Outcome) {
    o.Next? ==> o.s.core.ptr <= |c.text| && Smaller(o.s, s)
  }

  lemma AddForward(c: Config, s: State, bytes: string, count: nat, ptr: nat)
    requires s.core.ptr < ptr <= |c.text|
    ensures Forward(c, s, Add(c, s, bytes, count, ptr))
  {
  }

  lemma EscapeForward(c: Config, s: State, b: char)
    requires s.core.ptr < |c.text|
    ensures Forward(c, s, Escape(c, s, b))
  {
    hide Add, Utf8, PointAt, Forward;
    AddForward(c, s, Plain(b), 1, s.core.ptr + 1);
    var r := PointAt(c.text, s.core.ptr);
    if r.Point? { AddForward(c, s, Utf8(r.u), Utf8Length(r.u), r.end); }
    FailForward(c, s);
  }

  lemma FailForward(c: Config, s: State)
    ensures Forward(c, s, Fail) && Forward(c, s, Fault)
  {
  }

  lemma StringForward(c: Config, s: State, b: char)
    requires s.core.mode.InString? && s.core.ptr <= |c.text| && b == At(c.text, s.core.ptr)
    ensures Forward(c, s, StringTurn(c, s, b))
  {
    hide Escape, EndString, Add;
    if b != 0 as char {
      EscapeForward(c, s, b);
      EndStringForward(c, s);
      AddForward(c, s, [b], 1, s.core.ptr + 1);
    }
  }

  lemma EndStringForward(c: Config, s: State)
    requires s.core.ptr < |c.text|
    ensures Forward(c, s, EndString(c, s))
  {
  }

  lemma CommentForward(c: Config, s: State, b: char)
    requires s.core.ptr <= |c.text| && b == At(c.text, s.core.ptr) && (s.core.mode != Normal || b == '/')
    requires !s.core.mode.InString?
    ensures Forward(c, s, CommentTurn(c, s, b))
  {
  }

  lemma SeekForward(c: Config, s: State, b: char)
    requires s.core.ptr <= |c.text| && b == At(c.text, s.core.ptr) && s.core.seek && !s.core.done
    ensures Forward(c, s, SeekTurn(c, s, b))
  {
  }

  lemma ObjectForward(c: Config, s: State, b: char)
    requires s.core.ptr <= |c.text| && b == At(c.text, s.core.ptr)
    ensures Forward(c, s, ObjectTurn(c, s, b))
  {
  }

  lemma NumberForward(c: Config, s: State, b: char)
    requires s.core.ptr <= |c.text| && b == At(c.text, s.core.ptr) && 0 <= s.core.top < |s.nodes|
    requires !s.core.seek && !s.core.done
    ensures Forward(c, s, NumberTurn(c, s, b))
  {
  }

  lemma StepForward(c: Config, s: State)
    requires s.core.ptr <= |c.text|
    ensures Forward(c, s, Step(c, s))
  {
    var b := At(c.text, s.core.ptr);
    hide StringTurn, CommentTurn, SeekTurn, ObjectTurn, NumberTurn;
    if s.core.mode.InString? {
      StringForward(c, s, b);
    } else if c.comments && (s.core.mode != Normal || b == '/') {
      CommentForward(c, s, b);
    } else if s.core.done {
    } else if s.core.seek {
      SeekForward(c, s, b);
    } else if 0 <= s.core.top < |s.nodes| {
      ObjectForward(c, s, b);
      NumberForward(c, s, b);
    }
  }

  /** One whole pass. */
  function Run(c: Config, s: State): (o: Outcome)
    requires s.core.ptr <= |c.text|
    ensures !o.Next?
    decreases |c.text| - s.core.ptr, Rank(s.core), TopOf(s), IntegerBit(s)
  {
    StepForward(c, s);
    var o := Step(c, s);
    if o.Next? then Run(c, o.s) else o
  }

  lemma RunOfTurn(c: Config, s: State)
    requires s.core.ptr <= |c.text|
    ensures Forward(c, s, Step(c, s)) && Run(c, s) == if Step(c, s).Next? then Run(c, Step(c, s).s) else Step(c, s)
  {
    hide Step;
    StepForward(c, s);
  }

  function First(text: string, comments: bool): Config { Config(text, comments, true, []) }

  function Second(text: string, comments: bool, plan: seq<Node>): Config { Config(text, comments, false, plan) }
}
