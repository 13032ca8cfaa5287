/** Value by value, and so text by text: a pass builds the tree that the grammar
    has. */
module JsonBuilds {
  import opened JsonSpec
  import opened JsonAgree
  import opened JsonValues
  import opened JsonGrammar
  import opened JsonReads

  // ----- how a value lies among the nodes -----

  function Size(v: Json): nat { 1 + (if v.JArray? || v.JObject? then SizeAll(v.items) else 0) }

  function SizeAll(vs: Jsons): nat {
    match vs case Nil => 0 case Cons(v, rest) => Size(v) + SizeAll(rest)
  }

  function Count(vs: Jsons): nat {
    match vs case Nil => 0 case Cons(_, rest) => 1 + Count(rest)
  }

  /** Where the values begin that follow each other from n on. */
  function Starts(n: nat, vs: Jsons): seq<nat>
    decreases vs
  {
    match vs case Nil => [] case Cons(v, rest) => [n] + Starts(n + Size(v), rest)
  }

  /** Node n is the value v; the first pass keeps only kinds and numbers. */
  predicate HeadOk(first: bool, w: Node, n: nat, v: Json, parent: int) {
    && w.parent == parent
    && match v
       case JNull => w.kind == Null
       case JBool(b) => w.kind == Boolean && w.integer == (if b then 1 else 0)
       case JInt(_) => SpellsNumber(w, v)
       case JDouble => SpellsNumber(w, v)
       case JString(s) => w.kind == String && (first || w.text == s)
       case JArray(vs) => w.kind == Array && (first || w.slots == Starts(n + 1, vs))
       case JObject(names, vs) => w.kind == Object && (first || (w.slots == Starts(n + 1, vs) && w.keys == names))
  }

  /** The nodes from n on are v and what it contains, each before its parts. */
  predicate Laid(first: bool, nodes: seq<Node>, n: nat, v: Json, parent: int)
    decreases v
  {
    && n < |nodes| && HeadOk(first, nodes[n], n, v, parent)
    && (v.JArray? || v.JObject? ==> LaidAll(first, nodes, n + 1, v.items, n))
  }

  predicate LaidAll(first: bool, nodes: seq<Node>, n: nat, vs: Jsons, parent: int)
    decreases vs
  {
    match vs
    case Nil => true
    case Cons(v, rest) => Laid(first, nodes, n, v, parent) && LaidAll(first, nodes, n + Size(v), rest, parent)
  }

  /** The nodes of x from n on, m of them, are also in y. */
  predicate SameFrom(x: seq<Node>, y: seq<Node>, n: nat, m: nat) {
    n + m <= |x| && n + m <= |y| && forall k | n <= k < n + m :: x[k] == y[k]
  }

  lemma {:induction false} LaidSame(first: bool, x: seq<Node>, y: seq<Node>, n: nat, v: Json, parent: int)
    requires Laid(first, x, n, v, parent) && SameFrom(x, y, n, Size(v))
    ensures Laid(first, y, n, v, parent)
    decreases v
  {
    if v.JArray? || v.JObject? {
      LaidAllSame(first, x, y, n + 1, v.items, n);
    }
  }

  lemma {:induction false} LaidAllSame(first: bool, x: seq<Node>, y: seq<Node>, n: nat, vs: Jsons, parent: int)
    requires LaidAll(first, x, n, vs, parent) && SameFrom(x, y, n, SizeAll(vs))
    ensures LaidAll(first, y, n, vs, parent)
    decreases vs
  {
    if vs.Cons? {
      LaidSame(first, x, y, n, vs.head, parent);
      LaidAllSame(first, x, y, n + Size(vs.head), vs.tail, parent);
    }
  }

  // ----- a value that is complete -----

  /** A value may begin here. */
  predicate Seeking(c: Config, s: State) {
    && s.core.ptr <= |c.text| && s.core.mode == Normal && s.core.seek && !s.core.done && !s.core.needComma
    && !s.core.needColon
    && -1 <= s.core.top < |s.nodes| && (s.core.top >= 0 ==> Container(s.nodes[s.core.top].kind))
    && (s.core.top < 0 ==> s.nodes == [])
  }

  /** The container at the top is full. */
  predicate Full(s: State) { 0 <= s.core.top < |s.nodes| && s.nodes[s.core.top].length + 1 > LIMIT }

  /** The state after value v was read from state s on, up to e. */
  predicate HasRead(c: Config, s: State, v: Json, e: nat, s': State) {
    var n, t := |s.nodes|, s.core.top;
    && -1 <= t < n && e <= |c.text|
    && s'.core == s.core.(ptr := e, needComma := true, seek := TopIs(s, Array), done := t < 0,
                          top := if t < 0 then 0 else t,
                          len := s'.core.len)
    && |s'.nodes| == n + Size(v)
    && s'.nodes[..n] == (if t < 0 then s.nodes else s.nodes[t := Grown(c.first, s.nodes[t], n)])
    && Laid(c.first, s'.nodes, n, v, t)
  }

  /** The state in which the new value n is complete and not yet handed over. */
  predicate Completes(c: Config, s: State, v: Json, s1: State) {
    var n := |s.nodes|;
    && s1.core == s.core.(ptr := s1.core.ptr, top := n, seek := false, needComma := false, len := s1.core.len)
    && |s1.nodes| == n + Size(v) && s1.nodes[..n] == s.nodes && Laid(c.first, s1.nodes, n, v, s.core.top)
  }

  lemma HandsOver(c: Config, s: State, v: Json, s1: State, e: nat)
    requires Seeking(c, s) && Completes(c, s, v, s1) && e <= |c.text|
    ensures var o := Finish(c, s1, e);
            && (c.first ==> if Full(s) then o == Fail else o.Next?)
            && (o.Next? ==> HasRead(c, s, v, e, o.s))
  {
    var o, n, t := Finish(c, s1, e), |s.nodes|, s.core.top;
    assert HeadOk(c.first, s1.nodes[n], n, v, t);
    if o.Next? && t >= 0 {
      assert s1.nodes[t] == s.nodes[t];
      assert o.s.nodes == s1.nodes[t := Grown(c.first, s.nodes[t], n)];
      assert o.s.nodes[..n] == s.nodes[t := Grown(c.first, s.nodes[t], n)];
      assert SameFrom(s1.nodes, o.s.nodes, n, Size(v));
      LaidSame(c.first, s1.nodes, o.s.nodes, n, v, t);
    }
  }

  // ----- leaves -----

  /** A pass over the value that begins here: it reads what the grammar has, or a
      first pass rejects. */
  predicate ReadsValue(c: Config, s: State, g: Got<Json>, s': State)
    requires s.core.ptr <= |c.text|
  {
    match g
    case No => c.first ==> Run(c, s) == Fail
    case Got(v, e) =>
      if Full(s) then c.first ==> Run(c, s) == Fail else HasRead(c, s, v, e, s') && Run(c, s) == Run(c, s')
  }

  /** A second pass has the first one's values before it. */
  predicate Planned(c: Config, s: State, g: Got<Json>) {
    c.first || (g.Got? && Laid(true, c.plan, |s.nodes|, g.v, s.core.top))
  }

  lemma Completed(c: Config, s: State, v: Json, s1: State, e: nat) returns (s': State)
    requires Seeking(c, s) && Follows(c, s) && Completes(c, s, v, s1) && e <= |c.text|
    requires Run(c, s) == After(c, Finish(c, s1, e))
    ensures ReadsValue(c, s, Got(v, e), s')
  {
    hide Run, Finish, Completes, HasRead, Seeking;
    HandsOver(c, s, v, s1, e);
    var o := Finish(c, s1, e);
    s' := if o.Next? then o.s else s;
    if o.Next? { ReadIsInside(c, s, v, e, o.s); }
  }

  lemma ReadIsInside(c: Config, s: State, v: Json, e: nat, s': State)
    requires HasRead(c, s, v, e, s')
    ensures s'.core.ptr == e <= |c.text|
  {
  }

  /** What stands at the cursor is neither space nor comment nor the end of an array. */
  predicate Ahead(c: Config, s: State) {
    var b := At(c.text, s.core.ptr); !White(b) && !(c.comments && b == '/') && (b == ']' ==> !TopIs(s, Array))
  }

  lemma SeeksValue(c: Config, s: State)
    requires Seeking(c, s) && Ahead(c, s)
    ensures Step(c, s) == if At(c.text, s.core.ptr) == ']' then Fail else ValueTurn(c, s, At(c.text, s.core.ptr))
  {
    hide ValueTurn, Finish, StringTurn, ObjectTurn, NumberTurn;
  }

  predicate Leaf(v: Json) { !v.JArray? && !v.JObject? }

  /** A value without parts that is made and handed over in one turn. */
  lemma LeafReads(c: Config, s: State, kind: Kind, value: int, v: Json, e: nat) returns (s': State)
    requires Seeking(c, s) && Follows(c, s) && e <= |c.text| && Step(c, s) == JsonSpec.Literal(c, s, kind, value, e)
    requires Planned(c, s, Got(v, e)) && Leaf(v) && !v.JString?
    requires c.first ==> HeadOk(true, Node(kind, s.core.top, 0, 0, 0, value, [], [], ""), |s.nodes|, v, s.core.top)
    ensures ReadsValue(c, s, Got(v, e), s')
  {
    hide Finish, Step, ReadsValue;
    RunOfTurn(c, s);
    var o := New(c, s, kind, value);
    if o.Next? {
      assert Completes(c, s, v, o.s);
      assert Run(c, s) == After(c, Finish(c, o.s, e));
      hide Run;
      s' := Completed(c, s, v, o.s, e);
    } else {
      s' := s;
    }
  }

  lemma LiteralReads(c: Config, s: State) returns (s': State)
    requires Seeking(c, s) && Ahead(c, s) && Follows(c, s) && At(c.text, s.core.ptr) in "tfn"
    requires Planned(c, s, Value(c.text, c.comments, s.core.ptr))
    ensures ReadsValue(c, s, Value(c.text, c.comments, s.core.ptr), s')
  {
    hide Run, Step, ReadsValue, Laid, JsonSpec.Literal;
    SeeksValue(c, s);
    RunOfTurn(c, s);
    var p := s.core.ptr;
    var b := At(c.text, p);
    if b == 't' && Word(c.text, p, "true") {
      s' := LeafReads(c, s, Boolean, 1, JBool(true), p + 4);
    } else if b == 'f' && Word(c.text, p, "false") {
      s' := LeafReads(c, s, Boolean, 0, JBool(false), p + 5);
    } else if b == 'n' && Word(c.text, p, "null") {
      s' := LeafReads(c, s, Null, 0, JNull, p + 4);
    } else {
      s' := s;
      ValueFails(c, s, s');
    }
  }

  lemma ValueFails(c: Config, s: State, s': State)
    requires s.core.ptr <= |c.text| && (c.first ==> Run(c, s) == Fail)
    ensures ReadsValue(c, s, No, s')
  {
  }

  // ----- numbers -----

  /** The second pass skips exactly the characters of the number. */
  lemma {:induction false} SpanOf(text: string, p: nat, e: nat)
    requires p <= e <= |text| && !NumberChar(At(text, e)) && forall i | p <= i < e :: NumberChar(text[i])
    ensures SkipEnd(text, p) == e
    decreases e - p
  {
    if p < e { SpanOf(text, p + 1, e); }
  }

  lemma DigitsAreNumber(text: string, p: nat)
    requires p <= |text|
    ensures forall i | p <= i < DigitsEnd(text, p) :: NumberChar(text[i])
  {
    var q := DigitsEnd(text, p);
    forall i | p <= i < q ensures NumberChar(text[i]) { assert text[p..q][i - p] == text[i]; }
  }

  lemma ExponentSpan(text: string, p: nat, v: Json)
    requires p <= |text| && Exponent(text, p, v).Got?
    ensures var e := Exponent(text, p, v).end;
            !NumberChar(At(text, e)) && forall i | p <= i < e :: NumberChar(text[i])
  {
    hide DigitsEnd;
    if At(text, p) == 'e' || At(text, p) == 'E' {
      DigitsAreNumber(text, if At(text, p + 1) == '+' || At(text, p + 1) == '-' then p + 2 else p + 1);
    }
  }

  lemma MagnitudeSpan(text: string, p: nat, negative: bool)
    requires p <= |text| && Magnitude(text, p, negative).Got?
    ensures SkipEnd(text, p) == Magnitude(text, p, negative).end
  {
    hide DigitsEnd, Exponent, Decimal, SkipEnd;
    var i := DigitsEnd(text, p);
    var n := Decimal(text[p..i]);
    DigitsAreNumber(text, p);
    if At(text, i) == '.' && n <= INT_MAX {
      DigitsAreNumber(text, i + 1);
      ExponentSpan(text, DigitsEnd(text, i + 1), JDouble);
    } else {
      ExponentSpan(text, i, if n > INT_MAX then JDouble else JInt(if negative then 0 - n else n));
    }
    SpanOf(text, p, Magnitude(text, p, negative).end);
  }

  predicate BeginsNumber(c: Config, s: State) { var b := At(c.text, s.core.ptr); Digit(b) || b == '-' }

  function NumberFrom(c: Config, s: State): nat { if At(c.text, s.core.ptr) == '-' then s.core.ptr + 1 else s.core.ptr }

  lemma FirstNumberReads(c: Config, s: State) returns (s': State)
    requires Seeking(c, s) && Ahead(c, s) && c.first && BeginsNumber(c, s)
    ensures ReadsValue(c, s, Magnitude(c.text, NumberFrom(c, s), At(c.text, s.core.ptr) == '-'), s')
  {
    hide Run, Magnitude, Finish, ReadsValue, ReadsNumber;
    SeeksValue(c, s);
    RunOfTurn(c, s);
    hide Step;
    var b, from := At(c.text, s.core.ptr), NumberFrom(c, s);
    var s0 := New(c, s.(core := s.core.(ptr := from), num := FRESH.(negative := b == '-')), Integer, 0).s;
    var s1 := MagnitudeRuns(c, s0);
    s' := NumberOver(c, s, s0, Magnitude(c.text, from, b == '-'), s1);
  }

  lemma NumberOver(c: Config, s: State, s0: State, g: Got<Json>, s1: State) returns (s': State)
    requires Seeking(c, s) && c.first && s0.core.ptr <= |c.text| && Run(c, s) == Run(c, s0) && ReadsNumber(c, s0, g, s1)
    requires s0.core == s.core.(ptr := s0.core.ptr, top := |s.nodes|, seek := false)
    requires s0.nodes == s.nodes + [Node(Integer, s.core.top, 0, 0, 0, 0, [], [], "")]
    ensures ReadsValue(c, s, g, s')
  {
    hide Run, Finish, ReadsValue;
    if g.No? {
      s' := s;
      ValueFails(c, s, s');
    } else {
      NumberLeaf(s1.nodes[|s.nodes|], g.v);
      assert Completes(c, s, g.v, s1);
      s' := Completed(c, s, g.v, s1, g.end);
    }
  }

  lemma NumberLeaf(w: Node, v: Json)
    requires SpellsNumber(w, v)
    ensures Leaf(v) && Size(v) == 1 && HeadOk(true, w, 0, v, w.parent) && HeadOk(false, w, 0, v, w.parent)
  {
  }

  lemma SecondNumberReads(c: Config, s: State) returns (s': State)
    requires Seeking(c, s) && Ahead(c, s) && Follows(c, s) && !c.first && BeginsNumber(c, s)
    requires Planned(c, s, Magnitude(c.text, NumberFrom(c, s), At(c.text, s.core.ptr) == '-'))
    ensures ReadsValue(c, s, Magnitude(c.text, NumberFrom(c, s), At(c.text, s.core.ptr) == '-'), s')
  {
    hide Run, Magnitude, ReadsValue;
    SeeksValue(c, s);
    hide Step;
    var b, from := At(c.text, s.core.ptr), NumberFrom(c, s);
    var g := Magnitude(c.text, from, b == '-');
    MagnitudeSpan(c.text, from, b == '-');
    assert SkipEnd(c.text, s.core.ptr) == g.end;
    MagnitudeIsNumber(c.text, from, b == '-');
    s' := LeafReads(c, s, Integer, 0, g.v, g.end);
  }

  lemma MagnitudeIsNumber(text: string, p: nat, negative: bool)
    requires p <= |text|
    ensures var g := Magnitude(text, p, negative); g.Got? ==> g.v.JInt? || g.v.JDouble?
  {
    hide Decimal, DigitsEnd;
  }

  // ----- strings -----

  /** The new string at the top, with nothing read of it. */
  function Quoting(c: Config, s: State): State
    requires c.first || |s.nodes| < |c.plan|
  {
    var v := if c.first then Node(String, s.core.top, 0, 0, 0, 0, [], [], "") else Emptied(c.plan[|s.nodes|]);
    s.(core := s.core.(ptr := s.core.ptr + 1, top := |s.nodes|, seek := false, mode := InString(false), len := 0),
       nodes := s.nodes + [v], buf := "")
  }

  lemma OpensString(c: Config, s: State)
    requires Seeking(c, s) && Ahead(c, s) && At(c.text, s.core.ptr) == '"' && s.core.ptr < |c.text| && Follows(c, s)
    requires c.first || |s.nodes| < |c.plan|
    ensures Run(c, s) == Run(c, Quoting(c, s)) && Follows(c, Quoting(c, s))
  {
    hide Run;
    SeeksValue(c, s);
    RunOfTurn(c, s);
  }

  /** The closing quote of a text. */
  lemma ClosesText(c: Config, s: State, content: string)
    requires s.core.ptr < |c.text| && c.text[s.core.ptr] == '"' && s.core.mode == InString(false) && s.core.len <= LIMIT
    requires TopIs(s, String) && Follows(c, s) && (!c.first ==> s.buf == content)
    ensures var t := s.core.top;
            var v := s.nodes[t].(length := s.core.len, text := if c.first then "" else content);
            var s1 := s.(core := s.core.(mode := Normal), nodes := s.nodes[t := v], buf := "");
            Run(c, s) == After(c, Finish(c, s1, s.core.ptr + 1))
  {
    hide Run, Finish, SeekTurn, ObjectTurn, NumberTurn, CommentTurn, Escape;
    RunOfTurn(c, s);
    StepIsString(c, s);
    hide Step;
  }

  lemma StepIsString(c: Config, s: State)
    requires s.core.ptr <= |c.text| && s.core.mode.InString?
    ensures Step(c, s) == StringTurn(c, s, At(c.text, s.core.ptr))
  {
  }

  lemma StringReads(c: Config, s: State) returns (s': State)
    requires Seeking(c, s) && Ahead(c, s) && Follows(c, s) && At(c.text, s.core.ptr) == '"' && s.core.ptr < |c.text|
    requires Planned(c, s, Value(c.text, c.comments, s.core.ptr))
    ensures ReadsValue(c, s, Value(c.text, c.comments, s.core.ptr), s')
  {
    hide Run, Finish, ReadsValue, Body, Completes, Seeking, Quoting, Value, Laid;
    var p, n := s.core.ptr, |s.nodes|;
    var t := Body(c.text, p + 1);
    StringIs(c.text, c.comments, p);
    QuotingFits(c, s, if t.Text? then t.content else "");
    OpensString(c, s);
    StringRuns(c, Quoting(c, s));
    if t.Text? && |t.content| <= LIMIT {
      var s1 := Closing(c.first, Quoting(c, s), t);
      BodyCloses(c.text, p + 1);
      ClosesText(c, s1, t.content);
      var w := s1.nodes[n].(length := |t.content|, text := if c.first then "" else t.content);
      var s2 := s1.(core := s1.core.(mode := Normal), nodes := s1.nodes[n := w], buf := "");
      QuotedCompletes(c, s, t, s2);
      s' := Completed(c, s, JString(t.content), s2, t.end + 1);
    } else {
      s' := s;
      ValueFails(c, s, s');
    }
  }

  lemma StringIs(text: string, comments: bool, p: nat)
    requires p < |text| && text[p] == '"'
    ensures var t := Body(text, p + 1);
            Value(text, comments, p) ==
              if t.NoText? || |t.content| > LIMIT then No else Got(JString(t.content), t.end + 1)
  {
    hide Body;
  }

  lemma QuotingFits(c: Config, s: State, content: string)
    requires c.first || Laid(true, c.plan, |s.nodes|, JString(content), s.core.top)
    ensures c.first || |s.nodes| < |c.plan|
    ensures var s0 := Quoting(c, s);
            && s0.core == s.core.(ptr := s.core.ptr + 1, top := |s.nodes|, seek := false, mode := InString(false),
                                  len := 0)
            && |s0.nodes| == |s.nodes| + 1 && s0.nodes[|s.nodes|].kind == String && s0.buf == ""
  {
  }

  lemma QuotedCompletes(c: Config, s: State, t: Text, s': State)
    requires Seeking(c, s) && t.Text? && (c.first || Laid(true, c.plan, |s.nodes|, JString(t.content), s.core.top))
    requires c.first || |s.nodes| < |c.plan|
    requires var s1 := Closing(c.first, Quoting(c, s), t);
             var w := s1.nodes[|s.nodes|].(length := |t.content|, text := if c.first then "" else t.content);
             s' == s1.(core := s1.core.(mode := Normal), nodes := s1.nodes[|s.nodes| := w], buf := "")
    ensures Completes(c, s, JString(t.content), s')
  {
  }

  lemma {:induction false} BodyCloses(text: string, p: nat)
    requires Body(text, p).Text?
    ensures text[Body(text, p).end] == '"'
    decreases |text| - p
  {
    if text[p] == '\\' {
      BodyCloses(text, Escaped(text, p + 1).end);
    } else if text[p] != '"' {
      BodyCloses(text, p + 1);
    }
  }

  // ----- containers -----

  /** What a container becomes when it gets the values vs, which lie from n on. */
  predicate Filled(first: bool, v: Node, w: Node, n: nat, vs: Jsons, names: seq<string>) {
    && w.kind == v.kind && w.parent == v.parent && w.integer == v.integer && w.text == v.text
    && w.length == v.length + Count(vs)
    && (first || (w.slots == v.slots + Starts(n, vs) && w.keys == v.keys + names))
  }

  /** The state at the closing bracket, after the values vs were read into the
      container at the top. */
  predicate HasFilled(c: Config, s: State, vs: Jsons, names: seq<string>, e: nat, s': State) {
    var n, t := |s.nodes|, s.core.top;
    && 0 <= t < n && 0 < e <= |c.text|
    && s'.core == s.core.(ptr := e - 1, needComma := s'.core.needComma, len := s'.core.len)
    && |s'.nodes| == n + SizeAll(vs) && s'.nodes[..n] == s.nodes[t := s'.nodes[t]]
    && Filled(c.first, s.nodes[t], s'.nodes[t], n, vs, names) && LaidAll(c.first, s'.nodes, n, vs, t)
  }

  predicate ReadsItems(c: Config, s: State, g: Got<Jsons>, s': State)
    requires s.core.ptr <= |c.text|
  {
    match g
    case No => c.first ==> Run(c, s) == Fail
    case Got(vs, e) => HasFilled(c, s, vs, [], e, s') && Run(c, s) == Run(c, s') && c.text[e - 1] == ']'
  }

  predicate PlannedAll(c: Config, s: State, g: Got<Jsons>) {
    c.first || (g.Got? && LaidAll(true, c.plan, |s.nodes|, g.v, s.core.top))
  }

  /** Nothing more is read. */
  lemma FilledNot(c: Config, s: State, p: nat, e: nat)
    requires 0 <= s.core.top < |s.nodes| && e == p + 1 <= |c.text|
    ensures HasFilled(c, s, Nil, [], e, Moved(s, p))
  {
    var t := s.core.top;
    assert s.nodes[t := s.nodes[t]] == s.nodes;
  }

  /** The cursor and the comma at the start do not matter. */
  lemma FilledFrom(c: Config, s: State, r: State, vs: Jsons, names: seq<string>, e: nat, s': State)
    requires HasFilled(c, r, vs, names, e, s') && r.nodes == s.nodes
    requires r.core == s.core.(ptr := r.core.ptr, needComma := r.core.needComma)
    ensures HasFilled(c, s, vs, names, e, s')
  {
  }

  /** One value, perhaps behind a name, and then the others. */
  lemma FilledMore(c: Config, s: State, r: State, name: seq<string>, v: Json, p: nat, s1: State, vs: Jsons,
                   names: seq<string>, e: nat, s': State)
    requires HasRead(c, r, v, p, s1) && HasFilled(c, s1, vs, names, e, s')
    requires 0 <= s.core.top < |s.nodes| == |r.nodes| && r.core.top == s.core.top
    requires r.nodes == s.nodes[s.core.top := r.nodes[s.core.top]]
    requires Filled(c.first, s.nodes[s.core.top], r.nodes[s.core.top], |s.nodes|, Nil, name)
    requires Container(r.nodes[s.core.top].kind)
    requires s1.core == s.core.(ptr := s1.core.ptr, needComma := s1.core.needComma, len := s1.core.len)
    ensures HasFilled(c, s, Cons(v, vs), name + names, e, s')
  {
    hide Laid, LaidAll, Filled;
    var n, t := |s.nodes|, s.core.top;
    assert s1.nodes[..n][t] == s1.nodes[t] == Grown(c.first, r.nodes[t], n);
    assert s'.nodes[..n] == s'.nodes[..|s1.nodes|][..n];
    assert s'.nodes[..n] == s.nodes[t := s'.nodes[t]];
    assert forall k | n <= k < |s1.nodes| :: s'.nodes[..|s1.nodes|][k] == s'.nodes[k];
    LaidSame(c.first, s1.nodes, s'.nodes, n, v, t);
    FilledTwice(c.first, s.nodes[t], r.nodes[t], s1.nodes[t], s'.nodes[t], n, name, v, vs, names);
    LaidCons(c.first, s'.nodes, n, v, vs, t);
  }

  lemma LaidCons(first: bool, nodes: seq<Node>, n: nat, v: Json, vs: Jsons, parent: int)
    requires Laid(first, nodes, n, v, parent) && LaidAll(first, nodes, n + Size(v), vs, parent)
    ensures LaidAll(first, nodes, n, Cons(v, vs), parent)
  {
  }

  lemma FilledTwice(first: bool, a: Node, b: Node, d: Node, e: Node, n: nat, name: seq<string>, v: Json, vs: Jsons,
                    names: seq<string>)
    requires Filled(first, a, b, n, Nil, name) && d == Grown(first, b, n) && Container(b.kind)
    requires Filled(first, d, e, n + Size(v), vs, names)
    ensures Filled(first, a, e, n, Cons(v, vs), name + names)
  {
    hide Starts, Size, Count;
    CountIs(v, vs);
    if !first {
      StartsCons(a.slots, n, v, vs);
      KeysRegroup(a.keys, name, names);
    }
  }

  lemma {:induction false} CountIs(v: Json, vs: Jsons)
    ensures Count(Nil) == 0 && Count(Cons(v, vs)) == 1 + Count(vs)
  {
    hide Size;
  }

  lemma KeysRegroup(a: seq<string>, b: seq<string>, c: seq<string>)
    ensures a + b + c == a + (b + c)
  {
  }

  lemma {:induction false} StartsCons(slots: seq<nat>, n: nat, v: Json, vs: Jsons)
    ensures slots + Starts(n, Nil) == slots && slots + [n] + Starts(n + Size(v), vs) == slots + Starts(n, Cons(v, vs))
  {
    hide Starts, Size;
    StartsIs(n, v, vs);
    Regroup(slots, [n], Starts(n + Size(v), vs));
  }

  lemma {:induction false} StartsIs(n: nat, v: Json, vs: Jsons)
    ensures Starts(n, Nil) == [] && Starts(n, Cons(v, vs)) == [n] + Starts(n + Size(v), vs)
  {
    hide Size;
  }

  lemma Regroup(a: seq<nat>, b: seq<nat>, c: seq<nat>)
    ensures a + [] == a && a + b + c == a + (b + c)
  {
  }

  lemma ItemsStart(c: Config, s: State, q: nat)
    requires 0 <= s.core.top < |s.nodes|
    ensures Filled(c.first, s.nodes[s.core.top], Moved(s, q).nodes[s.core.top], |s.nodes|, Nil, [])
  {
  }

  // ----- arrays -----

  /** Inside an array, between elements. */
  predicate InArray(c: Config, s: State) {
    && s.core.ptr <= |c.text| && s.core.mode == Normal && s.core.seek && !s.core.done && !s.core.needColon
    && TopIs(s, Array)
  }

  lemma CommaRuns(c: Config, s: State)
    requires InArray(c, s) && s.core.needComma && !White(At(c.text, s.core.ptr))
    requires !(c.comments && At(c.text, s.core.ptr) == '/')
    requires At(c.text, s.core.ptr) != ']'
    ensures if At(c.text, s.core.ptr) == ',' then
              && s.core.ptr < |c.text|
              && Run(c, s) == Run(c, s.(core := s.core.(ptr := s.core.ptr + 1, needComma := false)))
            else Run(c, s) == Fail
  {
    hide Run, ValueTurn, Finish, StringTurn, ObjectTurn, NumberTurn;
    RunOfTurn(c, s);
  }

  lemma ArrayCloses(c: Config, s: State)
    requires InArray(c, s) && s.core.ptr < |c.text| && c.text[s.core.ptr] == ']'
    ensures var s1 := s.(core := s.core.(needComma := false, seek := false));
            Run(c, s) == After(c, Finish(c, s1, s.core.ptr + 1))
  {
    hide Run, ValueTurn, Finish, StringTurn, ObjectTurn, NumberTurn;
    RunOfTurn(c, s);
  }

  /** An opening bracket: the new container, empty and at the top. */
  function Opened(c: Config, s: State, kind: Kind): State
    requires c.first || |s.nodes| < |c.plan|
  {
    var v := if c.first then Node(kind, s.core.top, 0, 0, 0, 0, [], [], "") else Emptied(c.plan[|s.nodes|]);
    s.(core := s.core.(ptr := s.core.ptr + 1, top := |s.nodes|, seek := kind == Array), nodes := s.nodes + [v])
  }

  function KindOf(v: Json): Kind { if v.JArray? then Array else Object }

  lemma Opens(c: Config, s: State)
    requires Seeking(c, s) && Ahead(c, s) && Follows(c, s) && s.core.ptr < |c.text|
    requires c.text[s.core.ptr] == '[' || c.text[s.core.ptr] == '{'
    requires c.first || |s.nodes| < |c.plan|
    ensures var s0 := Opened(c, s, if c.text[s.core.ptr] == '[' then Array else Object);
            Run(c, s) == Run(c, s0) && Follows(c, s0)
  {
    hide Run;
    SeeksValue(c, s);
    RunOfTurn(c, s);
  }

  /** The container that was opened is complete. */
  lemma Fills(c: Config, s: State, v: Json, e: nat, s1: State)
    requires Seeking(c, s) && (v.JArray? || v.JObject?) && (c.first || Laid(true, c.plan, |s.nodes|, v, s.core.top))
    requires c.first || |s.nodes| < |c.plan|
    requires HasFilled(c, Opened(c, s, KindOf(v)), v.items, if v.JObject? then v.names else [], e, s1)
    ensures Completes(c, s, v, s1.(core := s1.core.(needComma := false, seek := false)))
  {
    var n, s0 := |s.nodes|, Opened(c, s, KindOf(v));
    assert s1.nodes[..n] == s1.nodes[..n + 1][..n];
    assert s0.nodes[n := s1.nodes[n]][..n] == s.nodes;
    assert [] + Starts(n + 1, v.items) == Starts(n + 1, v.items);
    assert v.JObject? ==> [] + v.names == v.names;
  }

  lemma Fitting(c: Config, s: State, v: Json)
    requires (v.JArray? || v.JObject?) && (c.first || Laid(true, c.plan, |s.nodes|, v, s.core.top))
    ensures c.first || (|s.nodes| < |c.plan| && LaidAll(true, c.plan, |s.nodes| + 1, v.items, |s.nodes|))
    ensures (c.first || |s.nodes| < |c.plan|) && TopIs(Opened(c, s, KindOf(v)), KindOf(v))
  {
  }

  lemma {:induction false} ArrayReads(c: Config, s: State) returns (s': State)
    requires Seeking(c, s) && Ahead(c, s) && Follows(c, s) && s.core.ptr < |c.text| && c.text[s.core.ptr] == '['
    requires Planned(c, s, Value(c.text, c.comments, s.core.ptr))
    ensures ReadsValue(c, s, Value(c.text, c.comments, s.core.ptr), s')
    decreases |c.text| - s.core.ptr, 0
  {
    hide Run, Finish, ReadsValue, HasFilled, Laid, LaidAll, Completes, Value, Items;
    var p := s.core.ptr;
    var g := Items(c.text, c.comments, p + 1, 0);
    ArrayIs(c.text, c.comments, p);
    Fitting(c, s, JArray(if g.Got? then g.v else Nil));
    Opens(c, s);
    var s0 := Opened(c, s, Array);
    s' := ItemsRun(c, s0);
    if g.No? {
      ValueFails(c, s, s');
    } else {
      var s1 := s';
      FilledFacts(c, s0, g.v, [], g.end, s1);
      ArrayCloses(c, s1);
      Fills(c, s, JArray(g.v), g.end, s1);
      s' := Completed(c, s, JArray(g.v), s1.(core := s1.core.(needComma := false, seek := false)), g.end);
    }
  }

  lemma FilledFacts(c: Config, s: State, vs: Jsons, names: seq<string>, e: nat, s': State)
    requires HasFilled(c, s, vs, names, e, s')
    ensures s'.core == s.core.(ptr := e - 1, needComma := s'.core.needComma, len := s'.core.len) && 0 < e <= |c.text|
    ensures 0 <= s.core.top < |s'.nodes| && s'.nodes[s.core.top].kind == s.nodes[s.core.top].kind
  {
  }

  lemma {:induction false} ItemsRun(c: Config, s: State) returns (s': State)
    requires InArray(c, s) && !s.core.needComma && Follows(c, s)
    requires PlannedAll(c, s, Items(c.text, c.comments, s.core.ptr, s.nodes[s.core.top].length))
    ensures ReadsItems(c, s, Items(c.text, c.comments, s.core.ptr, s.nodes[s.core.top].length), s')
    decreases |c.text| - s.core.ptr, 2
  {
    hide Run, ReadsValue, HasFilled, HasRead, Filled, Laid, LaidAll, Items, MoreItems, Value, Skip;
    var p, n := s.core.ptr, s.nodes[s.core.top].length;
    ItemsIs(c.text, c.comments, p, n);
    SkipRuns(c, s);
    var q := Skip(c.text, c.comments, p);
    s' := s;
    if q.Place? {
      var r := Moved(s, q.p);
      if At(c.text, q.p) == ']' {
        FilledNot(c, s, q.p, q.p + 1);
        s' := r;
      } else {
        SkipStops(c, s);
        var g := Value(c.text, c.comments, q.p);
        PlannedFirst(c, s, r);
        var s1 := ValueRuns(c, r);
        if g.Got? && n + 1 <= LIMIT {
          ValueRead(c, r, g, s1);
          s' := MoreItemsRun(c, s1);
          var h := MoreItems(c.text, c.comments, g.end, n + 1);
          if h.Got? {
            ItemsStart(c, s, q.p);
            assert s.nodes == s.nodes[s.core.top := s.nodes[s.core.top]];
            FilledMore(c, s, r, [], g.v, g.end, s1, h.v, [], h.end, s');
            NoNames();
          }
        } else {
          ValueNotRead(c, r, g, s1);
        }
      }
    }
  }

  lemma NoNames()
    ensures var none: seq<string> := []; none + none == none
  {
  }

  lemma {:induction false} MoreItemsRun(c: Config, s: State) returns (s': State)
    requires InArray(c, s) && s.core.needComma && Follows(c, s)
    requires PlannedAll(c, s, MoreItems(c.text, c.comments, s.core.ptr, s.nodes[s.core.top].length))
    ensures ReadsItems(c, s, MoreItems(c.text, c.comments, s.core.ptr, s.nodes[s.core.top].length), s')
    decreases |c.text| - s.core.ptr, 1
  {
    hide Run, HasFilled, LaidAll, Items, MoreItems, Skip, Value;
    var p, n := s.core.ptr, s.nodes[s.core.top].length;
    MoreItemsIs(c.text, c.comments, p, n);
    SkipRuns(c, s);
    var q := Skip(c.text, c.comments, p);
    s' := s;
    if q.Place? {
      var r := Moved(s, q.p);
      SkipStops(c, s);
      if At(c.text, q.p) == ']' {
        FilledNot(c, s, q.p, q.p + 1);
        s' := r;
      } else {
        CommaRuns(c, r);
        if At(c.text, q.p) == ',' {
          var r1 := r.(core := r.core.(ptr := q.p + 1, needComma := false));
          s' := ItemsRun(c, r1);
          var g := Items(c.text, c.comments, q.p + 1, n);
          if g.Got? { FilledFrom(c, s, r1, g.v, [], g.end, s'); }
        }
      }
    }
  }

  /** Where spaces and comments end. */
  lemma {:induction false} SkipStops(c: Config, s: State)
    requires s.core.ptr <= |c.text| && Skip(c.text, c.comments, s.core.ptr).Place?
    ensures var b := At(c.text, Skip(c.text, c.comments, s.core.ptr).p); !White(b) && !(c.comments && b == '/')
    decreases |c.text| - s.core.ptr
  {
    var p := s.core.ptr;
    if p < |c.text| {
      if c.comments && c.text[p] == '/' {
        SkipStops(c, Moved(s, CommentEnd(c.text, p).p));
      } else if White(c.text[p]) {
        SkipStops(c, Moved(s, p + 1));
      }
    }
  }

  /** The plan of the elements begins with the plan of the first one. */
  lemma PlannedFirst(c: Config, s: State, r: State)
    requires InArray(c, s) && Skip(c.text, c.comments, s.core.ptr) == Place(r.core.ptr) && At(c.text, r.core.ptr) != ']'
    requires r.nodes == s.nodes && r.core.top == s.core.top
    requires PlannedAll(c, s, Items(c.text, c.comments, s.core.ptr, s.nodes[s.core.top].length))
    ensures var g, n := Value(c.text, c.comments, r.core.ptr), s.nodes[s.core.top].length;
            && Planned(c, r, g)
            && (!c.first ==>
                 && n + 1 <= LIMIT
                 && var h := MoreItems(c.text, c.comments, g.end, n + 1);
                    h.Got? && LaidAll(true, c.plan, |s.nodes| + Size(g.v), h.v, s.core.top))
  {
    hide Value, MoreItems, Laid;
  }

  lemma ValueRead(c: Config, s: State, g: Got<Json>, s': State)
    requires s.core.ptr <= |c.text| && ReadsValue(c, s, g, s') && g.Got? && !Full(s)
    ensures HasRead(c, s, g.v, g.end, s') && Run(c, s) == Run(c, s') && s'.core.ptr == g.end <= |c.text|
    ensures |s'.nodes| == |s.nodes| + Size(g.v)
    ensures s'.core == s.core.(ptr := g.end, needComma := true, seek := TopIs(s, Array), done := s.core.top < 0,
                               top := if s.core.top < 0 then 0 else s.core.top, len := s'.core.len)
    ensures 0 <= s.core.top < |s.nodes| ==>
              && s'.nodes[s.core.top].kind == s.nodes[s.core.top].kind
              && s'.nodes[s.core.top].length == s.nodes[s.core.top].length + 1
  {
    var n, t := |s.nodes|, s.core.top;
    if t >= 0 { assert s'.nodes[..n][t] == s'.nodes[t]; }
  }

  lemma ValueNotRead(c: Config, s: State, g: Got<Json>, s': State)
    requires s.core.ptr <= |c.text| && ReadsValue(c, s, g, s') && (g.No? || Full(s))
    ensures c.first ==> Run(c, s) == Fail
  {
  }

  lemma {:induction false} ValueRuns(c: Config, s: State) returns (s': State)
    requires Seeking(c, s) && Ahead(c, s) && Follows(c, s)
    requires Planned(c, s, Value(c.text, c.comments, s.core.ptr))
    ensures ReadsValue(c, s, Value(c.text, c.comments, s.core.ptr), s')
    decreases |c.text| - s.core.ptr, 1
  {
    hide Run, ReadsValue, Laid, Body, Magnitude;
    var p := s.core.ptr;
    var b := At(c.text, p);
    if p == |c.text| {
      s' := s;
      NoValue(c, s);
      ValueFails(c, s, s');
    } else if b == '[' {
      s' := ArrayReads(c, s);
    } else if b == '{' {
      s' := ObjectReads(c, s);
    } else if b == '"' {
      s' := StringReads(c, s);
    } else if b in "tfn" {
      s' := LiteralReads(c, s);
    } else if Digit(b) || b == '-' {
      if c.first { s' := FirstNumberReads(c, s); } else { s' := SecondNumberReads(c, s); }
    } else {
      s' := s;
      NoValue(c, s);
      ValueFails(c, s, s');
    }
  }

  lemma NoValue(c: Config, s: State)
    requires Seeking(c, s) && Ahead(c, s)
    requires var b := At(c.text, s.core.ptr); b !in "[{\"tfn-" && !Digit(b)
    ensures Run(c, s) == Fail && Value(c.text, c.comments, s.core.ptr) == No
  {
    hide Run, JsonGrammar.Literal, Magnitude, Items, Members, Quoted;
    SeeksValue(c, s);
    RunOfTurn(c, s);
  }

  // ----- objects -----

  /** Inside an object, between members. */
  predicate InObject(c: Config, s: State) {
    && s.core.ptr <= |c.text| && s.core.mode == Normal && !s.core.seek && !s.core.done && !s.core.needColon
    && TopIs(s, Object)
  }

  predicate ReadsMembers(c: Config, s: State, g: Got<Named>, s': State)
    requires s.core.ptr <= |c.text|
  {
    match g
    case No => c.first ==> Run(c, s) == Fail
    case Got(m, e) => HasFilled(c, s, m.items, m.names, e, s') && Run(c, s) == Run(c, s') && c.text[e - 1] == '}'
  }

  predicate PlannedMembers(c: Config, s: State, g: Got<Named>) {
    c.first || (g.Got? && LaidAll(true, c.plan, |s.nodes|, g.v.items, s.core.top))
  }

  /** What the turns between members do. */
  lemma ObjectTurns(c: Config, s: State)
    requires InObject(c, s)
    requires var b := At(c.text, s.core.ptr); !White(b) && !(c.comments && b == '/')
    ensures var b, p := At(c.text, s.core.ptr), s.core.ptr;
            if b == '}' then
              && p < |c.text|
              && Run(c, s) == After(c, Finish(c, s.(core := s.core.(needComma := false)), p + 1))
            else if b == '"' && !s.core.needComma then
              && p < |c.text|
              && Run(c, s) == Run(c, s.(core := s.core.(mode := InString(false), len := 0, ptr := p + 1), buf := ""))
            else if b == ',' && s.core.needComma then
              p < |c.text| && Run(c, s) == Run(c, s.(core := s.core.(needComma := false, ptr := p + 1)))
            else Run(c, s) == Fail
  {
    hide Run, Finish, StringTurn, SeekTurn, NumberTurn;
    RunOfTurn(c, s);
  }

  lemma {:induction false} ObjectReads(c: Config, s: State) returns (s': State)
    requires Seeking(c, s) && Ahead(c, s) && Follows(c, s) && s.core.ptr < |c.text| && c.text[s.core.ptr] == '{'
    requires Planned(c, s, Value(c.text, c.comments, s.core.ptr))
    ensures ReadsValue(c, s, Value(c.text, c.comments, s.core.ptr), s')
    decreases |c.text| - s.core.ptr, 0
  {
    hide Run, Finish, ReadsValue, HasFilled, Laid, LaidAll, Completes, Value, Members;
    var p := s.core.ptr;
    var g := Members(c.text, c.comments, p + 1, 0);
    ObjectIs(c.text, c.comments, p);
    Fitting(c, s, if g.Got? then JObject(g.v.names, g.v.items) else JObject([], Nil));
    Opens(c, s);
    var s0 := Opened(c, s, Object);
    s' := MembersRun(c, s0);
    if g.No? {
      ValueFails(c, s, s');
    } else {
      var s1, v := s', JObject(g.v.names, g.v.items);
      FilledFacts(c, s0, v.items, v.names, g.end, s1);
      ObjectTurns(c, s1);
      Fills(c, s, v, g.end, s1);
      s' := Completed(c, s, v, s1.(core := s1.core.(needComma := false, seek := false)), g.end);
    }
  }

  /** A name, up to where its colon is sought. */
  predicate HasName(c: Config, s: State, name: string, e: nat, s': State) {
    var t := s.core.top;
    && 0 <= t < |s.nodes| == |s'.nodes| && e <= |c.text|
    && s'.core == s.core.(ptr := e, seek := true, needColon := true, len := s'.core.len)
    && s'.nodes == s.nodes[t := s'.nodes[t]]
    && Filled(c.first, s.nodes[t], s'.nodes[t], |s.nodes|, Nil, [name])
  }

  /** The closing quote of a name. */
  lemma ClosesName(c: Config, s: State)
    requires s.core.ptr < |c.text| && c.text[s.core.ptr] == '"' && s.core.mode == InString(false) && s.core.len <= LIMIT
    requires TopIs(s, Object) && Follows(c, s)
    ensures var t := s.core.top;
            var s1 := s.(core := s.core.(mode := Normal, seek := true, needColon := true, ptr := s.core.ptr + 1),
                         nodes := s.nodes[t := JsonSpec.Named(c.first, s.nodes[t], s)], buf := "");
            Run(c, s) == Run(c, s1)
  {
    hide Run, Finish, SeekTurn, ObjectTurn, NumberTurn, CommentTurn, Escape;
    RunOfTurn(c, s);
    StepIsString(c, s);
    hide Step;
  }

  lemma NameRuns(c: Config, s: State) returns (s': State)
    requires InObject(c, s) && !s.core.needComma && Follows(c, s) && s.core.ptr < |c.text| && c.text[s.core.ptr] == '"'
    ensures match Quoted(c.text, s.core.ptr + 1)
            case No => c.first ==> Run(c, s) == Fail
            case Got(name, e) => HasName(c, s, name, e, s') && Run(c, s) == Run(c, s')
  {
    hide Run, Body;
    var p := s.core.ptr;
    ObjectTurns(c, s);
    var s0 := s.(core := s.core.(mode := InString(false), len := 0, ptr := p + 1), buf := "");
    StringRuns(c, s0);
    var t := Body(c.text, p + 1);
    s' := s;
    if t.Text? && |t.content| <= LIMIT {
      var s1 := Closing(c.first, s0, t);
      BodyCloses(c.text, p + 1);
      ClosesName(c, s1);
      var k := s.core.top;
      s' := s1.(core := s1.core.(mode := Normal, seek := true, needColon := true, ptr := t.end + 1),
                nodes := s.nodes[k := JsonSpec.Named(c.first, s.nodes[k], s1)], buf := "");
      assert s.nodes[k].slots + [] == s.nodes[k].slots && "" + t.content == t.content;
    }
  }

  lemma ColonRuns(c: Config, s: State)
    requires s.core.ptr <= |c.text| && s.core.mode == Normal && s.core.seek && s.core.needColon && !s.core.needComma
    requires !s.core.done && TopIs(s, Object)
    ensures match Colon(c.text, c.comments, s.core.ptr)
            case Nowhere => Run(c, s) == Fail
            case Place(q) => Run(c, s) == Run(c, s.(core := s.core.(ptr := q, needColon := false)))
  {
    hide Run, Skip;
    SkipRuns(c, s);
    var q := Skip(c.text, c.comments, s.core.ptr);
    if q.Place? {
      SkipStops(c, s);
      ColonTurn(c, Moved(s, q.p));
      if At(c.text, q.p) == ':' { SkipRuns(c, s.(core := s.core.(ptr := q.p + 1, needColon := false))); }
    }
  }

  lemma ColonTurn(c: Config, s: State)
    requires s.core.ptr <= |c.text| && s.core.mode == Normal && s.core.seek && s.core.needColon && !s.core.needComma
    requires !s.core.done && TopIs(s, Object)
    requires var b := At(c.text, s.core.ptr); !White(b) && !(c.comments && b == '/')
    ensures if At(c.text, s.core.ptr) == ':' then
              && s.core.ptr < |c.text|
              && Run(c, s) == Run(c, s.(core := s.core.(ptr := s.core.ptr + 1, needColon := false)))
            else Run(c, s) == Fail
  {
    hide Run, ValueTurn, Finish, StringTurn, ObjectTurn, NumberTurn;
    RunOfTurn(c, s);
  }

  lemma {:induction false} MembersRun(c: Config, s: State) returns (s': State)
    requires InObject(c, s) && !s.core.needComma && Follows(c, s)
    requires PlannedMembers(c, s, Members(c.text, c.comments, s.core.ptr, s.nodes[s.core.top].length))
    ensures ReadsMembers(c, s, Members(c.text, c.comments, s.core.ptr, s.nodes[s.core.top].length), s')
    decreases |c.text| - s.core.ptr, 2
  {
    hide Run, HasFilled, HasName, Filled, LaidAll, Member, Members, Quoted, Skip;
    var p, n := s.core.ptr, s.nodes[s.core.top].length;
    MembersIs(c.text, c.comments, p, n);
    SkipRuns(c, s);
    var q := Skip(c.text, c.comments, p);
    s' := s;
    if q.Place? {
      var r := Moved(s, q.p);
      SkipStops(c, s);
      if At(c.text, q.p) == '}' {
        FilledNot(c, s, q.p, q.p + 1);
        s' := r;
      } else {
        ObjectTurns(c, r);
        if At(c.text, q.p) == '"' {
          var s1 := NameRuns(c, r);
          var g := Quoted(c.text, q.p + 1);
          if g.Got? {
            NamedFacts(c, r, g.v, g.end, s1);
            s' := MemberRun(c, s, r, g.v, g.end, s1);
          }
        }
      }
    }
  }

  /** The rest of a member and the members behind it, once its name n was read. */
  predicate ReadsMember(c: Config, s: State, s1: State, g: Got<Named>, s': State)
    requires s1.core.ptr <= |c.text|
  {
    match g
    case No => c.first ==> Run(c, s1) == Fail
    case Got(m, e) => HasFilled(c, s, m.items, m.names, e, s') && Run(c, s1) == Run(c, s') && c.text[e - 1] == '}'
  }

  lemma {:induction false} MemberRun(c: Config, s: State, r: State, name: string, e: nat, s1: State) returns (s': State)
    requires InObject(c, s) && !s.core.needComma && r == Moved(s, r.core.ptr) && HasName(c, r, name, e, s1)
    requires s1.core.ptr <= |c.text| && Follows(c, s1)
    requires PlannedMembers(c, s, Member(c.text, c.comments, e, s.nodes[s.core.top].length, name))
    ensures ReadsMember(c, s, s1, Member(c.text, c.comments, e, s.nodes[s.core.top].length, name), s')
    decreases |c.text| - e, 3
  {
    hide Run, ReadsValue, HasFilled, HasRead, Filled, Laid, LaidAll, Member, MoreMembers, Value, Colon;
    var n, t := s.nodes[s.core.top].length, s.core.top;
    MemberIs(c.text, c.comments, e, n, name);
    NamedFacts(c, r, name, e, s1);
    ColonRuns(c, s1);
    var q := Colon(c.text, c.comments, e);
    s' := s;
    if q.Place? {
      ColonStops(c, s1);
      var r2 := s1.(core := s1.core.(ptr := q.p, needColon := false));
      PlannedValue(c, s, r2, e, name);
      var g := Value(c.text, c.comments, q.p);
      var s2 := ValueRuns(c, r2);
      if g.Got? && n + 1 <= LIMIT {
        ValueRead(c, r2, g, s2);
        s' := MoreMembersRun(c, s2);
        var h := MoreMembers(c.text, c.comments, g.end, n + 1);
        if h.Got? { FilledMore(c, s, r2, [name], g.v, g.end, s2, h.v.items, h.v.names, h.end, s'); }
      } else {
        ValueNotRead(c, r2, g, s2);
      }
    }
  }

  lemma NamedFacts(c: Config, s: State, name: string, e: nat, s': State)
    requires HasName(c, s, name, e, s')
    ensures s'.core == s.core.(ptr := e, seek := true, needColon := true, len := s'.core.len) && |s'.nodes| == |s.nodes|
    ensures 0 <= s.core.top < |s.nodes| && s'.nodes[s.core.top].kind == s.nodes[s.core.top].kind
    ensures s'.nodes[s.core.top].length == s.nodes[s.core.top].length
  {
  }

  lemma ColonStops(c: Config, s: State)
    requires s.core.ptr <= |c.text| && Colon(c.text, c.comments, s.core.ptr).Place?
    ensures var b := At(c.text, Colon(c.text, c.comments, s.core.ptr).p); !White(b) && !(c.comments && b == '/')
  {
    hide Skip;
    SkipStops(c, Moved(s, Skip(c.text, c.comments, s.core.ptr).p + 1));
  }

  lemma PlannedValue(c: Config, s: State, r: State, e: nat, name: string)
    requires e <= |c.text| && Colon(c.text, c.comments, e) == Place(r.core.ptr) && 0 <= s.core.top < |s.nodes|
    requires |r.nodes| == |s.nodes| && r.core.top == s.core.top
    requires PlannedMembers(c, s, Member(c.text, c.comments, e, s.nodes[s.core.top].length, name))
    ensures var g, n := Value(c.text, c.comments, r.core.ptr), s.nodes[s.core.top].length;
            && Planned(c, r, g)
            && (!c.first ==>
                 && n + 1 <= LIMIT
                 && var h := MoreMembers(c.text, c.comments, g.end, n + 1);
                    h.Got? && LaidAll(true, c.plan, |s.nodes| + Size(g.v), h.v.items, s.core.top))
  {
    hide Value, MoreMembers, Laid, Colon;
  }

  lemma {:induction false} MoreMembersRun(c: Config, s: State) returns (s': State)
    requires InObject(c, s) && s.core.needComma && Follows(c, s)
    requires PlannedMembers(c, s, MoreMembers(c.text, c.comments, s.core.ptr, s.nodes[s.core.top].length))
    ensures ReadsMembers(c, s, MoreMembers(c.text, c.comments, s.core.ptr, s.nodes[s.core.top].length), s')
    decreases |c.text| - s.core.ptr, 1
  {
    hide Run, HasFilled, LaidAll, Items, MoreItems, Skip, Value;
    var p, n := s.core.ptr, s.nodes[s.core.top].length;
    MoreItemsIs(c.text, c.comments, p, n);
    SkipRuns(c, s);
    var q := Skip(c.text, c.comments, p);
    s' := s;
    if q.Place? {
      var r := Moved(s, q.p);
      SkipStops(c, s);
      if At(c.text, q.p) == '}' {
        FilledNot(c, s, q.p, q.p + 1);
        s' := r;
      } else {
        ObjectTurns(c, r);
        if At(c.text, q.p) == ',' {
          var r1 := r.(core := r.core.(ptr := q.p + 1, needComma := false));
          s' := MembersRun(c, r1);
          var g := Members(c.text, c.comments, q.p + 1, n);
          if g.Got? { FilledFrom(c, s, r1, g.v.items, g.v.names, g.end, s'); }
        }
      }
    }
  }

  // ----- whole texts -----

  lemma DoneReads(c: Config, s: State)
    requires s.core.ptr <= |c.text| && s.core.mode == Normal && s.core.done
    ensures match Skip(c.text, c.comments, s.core.ptr)
            case Nowhere => Run(c, s) == Fail
            case Place(q) => Run(c, s) == if At(c.text, q) == 0 as char then Done(Moved(s, q)) else Fail
  {
    hide Skip;
    SkipRuns(c, s);
    var q := Skip(c.text, c.comments, s.core.ptr);
    if q.Place? {
      SkipStops(c, s);
      RunOfTurn(c, Moved(s, q.p));
      hide Run;
    }
  }

  /** A pass accepts exactly the texts of the grammar, and ends with their values. */
  lemma DocumentRuns(c: Config)
    requires Follows(c, START)
    requires var g := Document(c.text, c.comments); c.first || (g.Got? && Laid(true, c.plan, 0, g.v, -1))
    ensures match Document(c.text, c.comments)
            case No => c.first ==> Run(c, START) == Fail
            case Got(v, _) =>
              && Run(c, START).Done?
              && var nodes := Run(c, START).final.nodes; |nodes| == Size(v) && Laid(c.first, nodes, 0, v, -1)
  {
    hide Run, Skip, Value, ReadsValue, Laid;
    SkipRuns(c, START);
    var q := Skip(c.text, c.comments, 0);
    if q.Place? {
      SkipStops(c, START);
      var s := Moved(START, q.p);
      var g := Value(c.text, c.comments, q.p);
      var s1 := ValueRuns(c, s);
      if g.Got? {
        ValueRead(c, s, g, s1);
        DoneReads(c, s1);
      } else {
        ValueNotRead(c, s, g, s1);
      }
    }
  }

  // ----- reading the tree back -----

  /** Following slots, names and texts from node k on, one finds the value v. */
  predicate Denotes(nodes: seq<Node>, k: nat, v: Json)
    decreases v
  {
    k < |nodes| &&
    var w := nodes[k];
    match v
    case JNull => w.kind == Null
    case JBool(b) => w.kind == Boolean && w.integer == (if b then 1 else 0)
    case JInt(i) => w.kind == Integer && w.integer == i
    case JDouble => w.kind == Double
    case JString(s) => w.kind == String && w.text == s
    case JArray(vs) => w.kind == Array && DenotesAll(nodes, w.slots, vs)
    case JObject(names, vs) => w.kind == Object && w.keys == names && DenotesAll(nodes, w.slots, vs)
  }

  predicate DenotesAll(nodes: seq<Node>, slots: seq<nat>, vs: Jsons)
    decreases vs
  {
    match vs
    case Nil => slots == []
    case Cons(v, rest) => |slots| > 0 && Denotes(nodes, slots[0], v) && DenotesAll(nodes, slots[1..], rest)
  }

  lemma {:induction false} LaidDenotes(nodes: seq<Node>, n: nat, v: Json, parent: int)
    requires Laid(false, nodes, n, v, parent)
    ensures Denotes(nodes, n, v)
    decreases v
  {
    if v.JArray? || v.JObject? { LaidAllDenotes(nodes, n + 1, v.items, n); }
  }

  lemma {:induction false} LaidAllDenotes(nodes: seq<Node>, n: nat, vs: Jsons, parent: int)
    requires LaidAll(false, nodes, n, vs, parent)
    ensures DenotesAll(nodes, Starts(n, vs), vs)
    decreases vs
  {
    if vs.Cons? {
      LaidDenotes(nodes, n, vs.head, parent);
      LaidAllDenotes(nodes, n + Size(vs.head), vs.tail, parent);
      assert Starts(n, vs)[1..] == Starts(n + Size(vs.head), vs.tail);
    }
  }

  /** The parser accepts exactly the texts of the grammar; what its second pass
      leaves is the tree of the text, and nothing besides. */
  lemma ParserIsGrammar(text: string, comments: bool)
    ensures Run(First(text, comments), START).Done? <==> Document(text, comments).Got?
    ensures Run(First(text, comments), START).Done? ==>
              var o := Run(Second(text, comments, Run(First(text, comments), START).final.nodes), START);
              var v := Document(text, comments).v;
              o.Done? && |o.final.nodes| == Size(v) && Denotes(o.final.nodes, 0, v)
  {
    hide Run, Document, Laid, Denotes, Built;
    var c := First(text, comments);
    DocumentRuns(c);
    if Run(c, START).Done? {
      PassesAgree(text, comments);
      var d := Second(text, comments, Run(c, START).final.nodes);
      DocumentRuns(d);
      LaidDenotes(Run(d, START).final.nodes, 0, Document(text, comments).v, -1);
    }
  }
}
