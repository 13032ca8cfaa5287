/** The texts that the parser accepts and the values they write, as a grammar read
    by recursive descent. It is JSON (RFC 8259), with comments where they are
    enabled, and with the liberties that the parser takes: a comma may stand before
    a closing bracket, a minus may stand alone or before an exponent, and a NUL
    ends the text. */
module JsonGrammar {
  import opened JsonSpec
  import opened JsonValues

  datatype Json = JNull | JBool(b: bool) | JInt(i: int) | JDouble | JString(s: string)
                | JArray(items: Jsons) | JObject(names: seq<string>, items: Jsons)

  datatype Jsons = Nil | Cons(head: Json, tail: Jsons)

  datatype Got<T> = Got(v: T, end: nat) | No

  /** The most characters, elements or members that the parser counts. */
  const LIMIT: nat := UINT_MAX - 8

  // ----- spaces and comments -----

  /** The end of a comment's line. */
  function LineEnd(text: string, p: nat): (q: nat)
    requires p <= |text|
    ensures p <= q <= |text|
    decreases |text| - p
  {
    if p == |text| || text[p] in ['\r', '\n', 0 as char] then p else LineEnd(text, p + 1)
  }

  datatype Place = Place(p: nat) | Nowhere

  function BlockEnd(text: string, p: nat): (q: Place)
    requires p <= |text|
    ensures q.Place? ==> p <= q.p <= |text|
    decreases |text| - p
  {
    if p == |text| || text[p] == 0 as char then Nowhere
    else if text[p] == '*' && p + 1 < |text| && text[p + 1] == '/' then Place(p + 2)
    else BlockEnd(text, p + 1)
  }

  /** The end of the comment that begins at p. */
  function CommentEnd(text: string, p: nat): (q: Place)
    requires p < |text|
    ensures q.Place? ==> p < q.p <= |text|
  {
    if p + 1 == |text| then Nowhere
    else if text[p + 1] == '/' then Place(LineEnd(text, p + 2))
    else if text[p + 1] == '*' then BlockEnd(text, p + 2)
    else Nowhere
  }

  /** The first place from p on that is neither space nor comment. */
  function Skip(text: string, comments: bool, p: nat): (q: Place)
    requires p <= |text|
    ensures q.Place? ==> p <= q.p <= |text|
    decreases |text| - p
  {
    if p == |text| then Place(p)
    else if comments && text[p] == '/' then
      match CommentEnd(text, p) { case Nowhere => Nowhere case Place(q) => Skip(text, comments, q) }
    else if White(text[p]) then Skip(text, comments, p + 1)
    else Place(p)
  }

  // ----- numbers -----

  function DigitsEnd(text: string, p: nat): (q: nat)
    requires p <= |text|
    ensures p <= q <= |text| && AllDigits(text[p..q]) && !Digit(At(text, q))
    decreases |text| - p
  {
    if p < |text| && Digit(text[p]) then DigitsEnd(text, p + 1) else p
  }

  /** Nothing that could belong to a number may follow it, and no comment. */
  function Ends(text: string, p: nat, v: Json): Got<Json>
    requires p <= |text|
  {
    if NumberChar(At(text, p)) || At(text, p) == '/' then No else Got(v, p)
  }

  /** What follows the letter of an exponent. */
  function Power(text: string, p: nat): (g: Got<Json>)
    requires p <= |text|
    ensures g.Got? ==> p < g.end <= |text|
  {
    var from := if At(text, p) == '+' || At(text, p) == '-' then p + 1 else p;
    var end := DigitsEnd(text, from);
    if end == from then No else Ends(text, end, JDouble)
  }

  function Exponent(text: string, p: nat, v: Json): (g: Got<Json>)
    requires p <= |text|
    ensures g.Got? ==> p <= g.end <= |text|
  {
    if At(text, p) == 'e' || At(text, p) == 'E' then Power(text, p + 1) else Ends(text, p, v)
  }

  /** The digits of a number, behind its sign; what does not fit 63 bits is a
      double, and has no fraction. */
  function Magnitude(text: string, p: nat, negative: bool): (g: Got<Json>)
    requires p <= |text|
    ensures g.Got? ==> p <= g.end <= |text|
  {
    var i := DigitsEnd(text, p);
    var big := Decimal(text[p..i]) > INT_MAX;
    var n := Decimal(text[p..i]);
    if i > p + 1 && text[p] == '0' then No
    else if At(text, i) == '.' && !big then
      if i == p then No
      else var j := DigitsEnd(text, i + 1); if j == i + 1 then No else Exponent(text, j, JDouble)
    else Exponent(text, i, if big then JDouble else JInt(if negative then 0 - n else n))
  }

  // ----- values -----

  function Literal(text: string, p: nat, w: string, v: Json): (g: Got<Json>)
    ensures g.Got? ==> g.end == p + |w| <= |text|
  {
    if Word(text, p, w) then Got(v, p + |w|) else No
  }

  /** The characters between two quotes. */
  function Quoted(text: string, p: nat): (g: Got<string>)
    ensures g.Got? ==> p < g.end <= |text|
  {
    match Body(text, p)
    case NoText => No
    case Text(content, end) => if |content| > LIMIT then No else Got(content, end + 1)
  }

  function Value(text: string, comments: bool, p: nat): (g: Got<Json>)
    requires p <= |text|
    ensures g.Got? ==> p < g.end <= |text|
    decreases |text| - p, 0
  {
    var b := At(text, p);
    if p == |text| then No
    else if b == '{' then
      match Members(text, comments, p + 1, 0) { case No => No case Got(m, e) => Got(JObject(m.names, m.items), e) }
    else if b == '[' then
      match Items(text, comments, p + 1, 0) { case No => No case Got(vs, e) => Got(JArray(vs), e) }
    else if b == '"' then
      match Quoted(text, p + 1) { case No => No case Got(s, e) => Got(JString(s), e) }
    else if b == 't' then Literal(text, p, "true", JBool(true))
    else if b == 'f' then Literal(text, p, "false", JBool(false))
    else if b == 'n' then Literal(text, p, "null", JNull)
    else if b == '-' then Magnitude(text, p + 1, true)
    else if Digit(b) then Magnitude(text, p, false)
    else No
  }

  /** Elements up to the closing bracket, where one may begin; n came before. */
  function Items(text: string, comments: bool, p: nat, n: nat): (g: Got<Jsons>)
    requires p <= |text|
    ensures g.Got? ==> p < g.end <= |text|
    decreases |text| - p, 2
  {
    match Skip(text, comments, p)
    case Nowhere => No
    case Place(q) =>
      if At(text, q) == ']' then Got(Nil, q + 1)
      else match Value(text, comments, q)
        case No => No
        case Got(v, e) =>
          if n + 1 > LIMIT then No
          else match MoreItems(text, comments, e, n + 1) case No => No case Got(vs, end) => Got(Cons(v, vs), end)
  }

  /** The same behind an element. */
  function MoreItems(text: string, comments: bool, p: nat, n: nat): (g: Got<Jsons>)
    requires p <= |text|
    ensures g.Got? ==> p < g.end <= |text|
    decreases |text| - p, 1
  {
    match Skip(text, comments, p)
    case Nowhere => No
    case Place(q) =>
      if At(text, q) == ']' then Got(Nil, q + 1)
      else if At(text, q) == ',' then Items(text, comments, q + 1, n)
      else No
  }

  datatype Named = Named(names: seq<string>, items: Jsons)

  /** A colon at p, but for spaces, and where the value behind it begins. */
  function Colon(text: string, comments: bool, p: nat): (q: Place)
    requires p <= |text|
    ensures q.Place? ==> p < q.p <= |text|
  {
    match Skip(text, comments, p)
    case Nowhere => Nowhere
    case Place(q) => if At(text, q) == ':' then Skip(text, comments, q + 1) else Nowhere
  }

  /** Members up to the closing brace, where one may begin. */
  function Members(text: string, comments: bool, p: nat, n: nat): (g: Got<Named>)
    requires p <= |text|
    ensures g.Got? ==> p < g.end <= |text|
    decreases |text| - p, 2
  {
    match Skip(text, comments, p)
    case Nowhere => No
    case Place(q) =>
      if At(text, q) == '}' then Got(Named([], Nil), q + 1)
      else if At(text, q) != '"' then No
      else match Quoted(text, q + 1)
        case No => No
        case Got(name, e) => Member(text, comments, e, n, name)
  }

  /** A colon, a value and the members behind it. */
  function Member(text: string, comments: bool, p: nat, n: nat, name: string): (g: Got<Named>)
    requires p <= |text|
    ensures g.Got? ==> p < g.end <= |text|
    decreases |text| - p, 3
  {
    match Colon(text, comments, p)
    case Nowhere => No
    case Place(q) =>
      match Value(text, comments, q)
      case No => No
      case Got(v, e) =>
        if n + 1 > LIMIT then No
        else match MoreMembers(text, comments, e, n + 1)
          case No => No
          case Got(m, end) => Got(Named([name] + m.names, Cons(v, m.items)), end)
  }

  function MoreMembers(text: string, comments: bool, p: nat, n: nat): (g: Got<Named>)
    requires p <= |text|
    ensures g.Got? ==> p < g.end <= |text|
    decreases |text| - p, 1
  {
    match Skip(text, comments, p)
    case Nowhere => No
    case Place(q) =>
      if At(text, q) == '}' then Got(Named([], Nil), q + 1)
      else if At(text, q) == ',' then Members(text, comments, q + 1, n)
      else No
  }

  /** A whole text: one value, and nothing behind it but spaces and comments. */
  function Document(text: string, comments: bool): Got<Json> {
    match Skip(text, comments, 0)
    case Nowhere => No
    case Place(q) =>
      match Value(text, comments, q)
      case No => No
      case Got(v, e) =>
        match Skip(text, comments, e)
        case Nowhere => No
        case Place(end) => if At(text, end) == 0 as char then Got(v, end) else No
  }

  // ----- one turn of it -----

  lemma ArrayIs(text: string, comments: bool, p: nat)
    requires p < |text| && text[p] == '['
    ensures var g := Items(text, comments, p + 1, 0);
            Value(text, comments, p) == if g.No? then No else Got(JArray(g.v), g.end)
  {
    hide Items;
  }

  /** The grammar of the elements, one turn of it. */
  lemma ItemsIs(text: string, comments: bool, p: nat, n: nat)
    requires p <= |text|
    ensures var q := Skip(text, comments, p);
            Items(text, comments, p, n) ==
              if q.Nowhere? then No
              else if At(text, q.p) == ']' then Got(Nil, q.p + 1)
              else
                var g := Value(text, comments, q.p);
                if g.No? || n + 1 > LIMIT then No
                else
                  var h := MoreItems(text, comments, g.end, n + 1);
                  if h.No? then No else Got(Cons(g.v, h.v), h.end)
  {
    hide Value, MoreItems, Skip;
  }

  lemma MoreItemsIs(text: string, comments: bool, p: nat, n: nat)
    requires p <= |text|
    ensures var q := Skip(text, comments, p);
            MoreItems(text, comments, p, n) ==
              if q.Nowhere? then No
              else if At(text, q.p) == ']' then Got(Nil, q.p + 1)
              else if At(text, q.p) == ',' then Items(text, comments, q.p + 1, n)
              else No
  {
    hide Items, Skip;
  }

  lemma ObjectIs(text: string, comments: bool, p: nat)
    requires p < |text| && text[p] == '{'
    ensures var g := Members(text, comments, p + 1, 0);
            Value(text, comments, p) == if g.No? then No else Got(JObject(g.v.names, g.v.items), g.end)
  {
    hide Members;
  }

  lemma MembersIs(text: string, comments: bool, p: nat, n: nat)
    requires p <= |text|
    ensures var q := Skip(text, comments, p);
            Members(text, comments, p, n) ==
              if q.Nowhere? then No
              else if At(text, q.p) == '}' then Got(Named([], Nil), q.p + 1)
              else if At(text, q.p) != '"' then No
              else
                var g := Quoted(text, q.p + 1);
                if g.No? then No else Member(text, comments, g.end, n, g.v)
  {
    hide Member, Skip, Quoted;
  }

  lemma MemberIs(text: string, comments: bool, p: nat, n: nat, name: string)
    requires p <= |text|
    ensures var q := Colon(text, comments, p);
            Member(text, comments, p, n, name) ==
              if q.Nowhere? then No
              else
                var g := Value(text, comments, q.p);
                if g.No? || n + 1 > LIMIT then No
                else
                  var h := MoreMembers(text, comments, g.end, n + 1);
                  if h.No? then No else Got(Named([name] + h.v.names, Cons(g.v, h.v.items)), h.end)
  {
    hide Value, MoreMembers, Colon;
  }

  lemma MoreMembersIs(text: string, comments: bool, p: nat, n: nat)
    requires p <= |text|
    ensures var q := Skip(text, comments, p);
            MoreMembers(text, comments, p, n) ==
              if q.Nowhere? then No
              else if At(text, q.p) == '}' then Got(Named([], Nil), q.p + 1)
              else if At(text, q.p) == ',' then Members(text, comments, q.p + 1, n)
              else No
  {
    hide Members, Skip;
  }

  // ----- where this is not JSON -----

  /** A minus alone is the number zero. */
  lemma LoneMinus()
    ensures Document("-", false) == Got(JInt(0), 1)
  {
    assert DigitsEnd("-", 1) == 1 && "-"[1..1] == [] && Decimal([]) == 0;
  }

  /** A comma may stand before the bracket, but not without an element. */
  lemma TrailingComma()
    ensures Document("[1,]", false) == Got(JArray(Cons(JInt(1), Nil)), 4) && Document("[,]", false) == No
  {
    var t := "[1,]";
    assert DigitsEnd(t, 2) == 2 && DigitsEnd(t, 1) == 2 && t[1..2] == "1" && Decimal("1") == 1;
    assert Value(t, false, 1) == Got(JInt(1), 2);
    assert Items(t, false, 3, 1) == Got(Nil, 4);
    assert MoreItems(t, false, 2, 1) == Got(Nil, 4);
  }

  /** Where comments are enabled, one must not follow a number directly. */
  lemma CommentBehindNumber()
    ensures Document("1/**/", true) == No && Document("1 /**/", true) == Got(JInt(1), 6)
  {
  }
}
