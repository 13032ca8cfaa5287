/** The parser reads what the grammar says: whatever a piece of the text is by the
    grammar, the turns of a pass over it lead to the state that stands for it, and
    where the grammar fails the first pass does. */
module JsonReads {
  import opened JsonSpec
  import opened JsonSecond
  import opened JsonAgree
  import opened JsonValues
  import opened JsonGrammar

  function Moved(s: State, p: nat): State { s.(core := s.core.(ptr := p)) }

  // ----- spaces and comments -----

  /** Where spaces and comments may stand. */
  predicate Between(s: State) { s.core.mode == Normal && (s.core.done || s.core.seek || TopIs(s, Object)) }

  lemma {:induction false} LineRuns(c: Config, s: State)
    requires c.comments && s.core.ptr <= |c.text| && s.core.mode == LineComment
    ensures Run(c, s) == Run(c, s.(core := s.core.(mode := Normal, ptr := LineEnd(c.text, s.core.ptr))))
    decreases |c.text| - s.core.ptr
  {
    hide StringTurn, SeekTurn, ObjectTurn, NumberTurn;
    RunOfTurn(c, s);
    if LineEnd(c.text, s.core.ptr) > s.core.ptr {
      var s' := Moved(s, s.core.ptr + 1);
      assert Step(c, s) == Next(s');
      LineRuns(c, s');
    }
  }

  lemma {:induction false} BlockRuns(c: Config, s: State)
    requires c.comments && s.core.ptr <= |c.text| && s.core.mode == BlockComment
    ensures match BlockEnd(c.text, s.core.ptr)
            case Nowhere => Run(c, s) == Fail
            case Place(q) => Run(c, s) == Run(c, s.(core := s.core.(mode := Normal, ptr := q)))
    decreases |c.text| - s.core.ptr
  {
    hide StringTurn, SeekTurn, ObjectTurn, NumberTurn;
    RunOfTurn(c, s);
    var p := s.core.ptr;
    if p < |c.text| && c.text[p] != 0 as char && !(c.text[p] == '*' && p + 1 < |c.text| && c.text[p + 1] == '/') {
      var s' := Moved(s, p + 1);
      assert Step(c, s) == Next(s');
      BlockRuns(c, s');
    }
  }

  lemma CommentRuns(c: Config, s: State)
    requires c.comments && s.core.ptr < |c.text| && Between(s) && c.text[s.core.ptr] == '/'
    ensures match CommentEnd(c.text, s.core.ptr)
            case Nowhere => Run(c, s) == Fail
            case Place(q) => Run(c, s) == Run(c, Moved(s, q))
  {
    hide BlockEnd, LineEnd;
    var p := s.core.ptr;
    RunOfTurn(c, s);
    if p + 1 < |c.text| && c.text[p + 1] == '/' {
      var s' := s.(core := s.core.(mode := LineComment, ptr := p + 2));
      assert Step(c, s) == Next(s');
      LineRuns(c, s');
    } else if p + 1 < |c.text| && c.text[p + 1] == '*' {
      var s' := s.(core := s.core.(mode := BlockComment, ptr := p + 2));
      assert Step(c, s) == Next(s');
      BlockRuns(c, s');
    }
  }

  lemma WhiteRuns(c: Config, s: State)
    requires s.core.ptr < |c.text| && Between(s) && White(c.text[s.core.ptr])
    ensures Run(c, s) == Run(c, Moved(s, s.core.ptr + 1))
  {
    RunOfTurn(c, s);
    hide ValueTurn, Finish;
    assert Step(c, s) == Next(Moved(s, s.core.ptr + 1));
  }

  lemma {:induction false} SkipRuns(c: Config, s: State)
    requires s.core.ptr <= |c.text| && Between(s)
    ensures match Skip(c.text, c.comments, s.core.ptr)
            case Nowhere => Run(c, s) == Fail
            case Place(q) => Run(c, s) == Run(c, Moved(s, q))
    decreases |c.text| - s.core.ptr
  {
    hide Run, CommentEnd;
    var p := s.core.ptr;
    if p < |c.text| {
      if c.comments && c.text[p] == '/' {
        CommentRuns(c, s);
        var e := CommentEnd(c.text, p);
        if e.Place? { SkipRuns(c, Moved(s, e.p)); }
      } else if White(c.text[p]) {
        WhiteRuns(c, s);
        SkipRuns(c, Moved(s, p + 1));
      }
    }
  }

  // ----- strings -----

  /** A pass that can be followed: the first, or a second one that accepts. */
  predicate Follows(c: Config, s: State)
    requires s.core.ptr <= |c.text|
  {
    c.first || Run(c, s).Done?
  }

  /** The pass does not accept; a first one rejects. */
  predicate Rejects(c: Config, s: State)
    requires s.core.ptr <= |c.text|
  {
    !Run(c, s).Done? && (c.first ==> Run(c, s) == Fail)
  }

  /** The state at the closing quote of the body t. */
  function Closing(first: bool, s: State, t: Text): State
    requires t.Text?
  {
    s.(core := s.core.(ptr := t.end, len := s.core.len + |t.content|, mode := InString(false)),
       buf := if first then s.buf else s.buf + t.content)
  }

  function Appended(first: bool, s: State, w: string, p: nat): State {
    s.(core := s.core.(ptr := p, len := s.core.len + |w|, mode := InString(false)),
       buf := if first then s.buf else s.buf + w)
  }

  lemma ClosingHere(first: bool, s: State)
    requires s.core.mode == InString(false)
    ensures Closing(first, s, Text("", s.core.ptr)) == s
  {
  }

  lemma ClosingMoves(first: bool, s: State, w: string, p: nat, t: Text)
    requires t.Text?
    ensures Closing(first, Appended(first, s, w, p), t) == Closing(first, s, Prepended(w, t))
  {
    assert s.buf + w + t.content == s.buf + (w + t.content);
  }

  /** One character or one escape of a string. */
  lemma CharRuns(c: Config, s: State)
    requires s.core.ptr < |c.text| && s.core.mode == InString(false) && s.core.len <= LIMIT && Follows(c, s)
    requires var b := c.text[s.core.ptr]; b != 0 as char && b != '"' && b != '\\'
    ensures var s' := Appended(c.first, s, [c.text[s.core.ptr]], s.core.ptr + 1);
            Run(c, s) == Run(c, s') && Follows(c, s')
  {
    RunOfTurn(c, s);
  }

  /** The escape behind a backslash. */
  lemma EscapeTurn(c: Config, s: State)
    requires s.core.ptr <= |c.text| && s.core.mode == InString(true) && s.core.len <= LIMIT && Follows(c, s)
    ensures var p := s.core.ptr;
            if p == |c.text| || c.text[p] == 0 as char || Escaped(c.text, p).NoText? then Rejects(c, s)
            else
              var e := Escaped(c.text, p);
              var s' := Appended(c.first, s, e.content, e.end);
              Run(c, s) == Run(c, s') && Follows(c, s')
  {
    hide PointAt, Utf8, Utf8Length, Plain, SeekTurn, CommentTurn, ObjectTurn, NumberTurn, EndString, Run;
    RunOfTurn(c, s);
    var p := s.core.ptr;
    if p < |c.text| && c.text[p] == 'u' && PointAt(c.text, p).Point? { Utf8Counts(PointAt(c.text, p).u); }
    PlainIsOne(At(c.text, p));
  }

  lemma EscapeRuns(c: Config, s: State)
    requires s.core.ptr < |c.text| && s.core.mode == InString(false) && s.core.len <= LIMIT && Follows(c, s)
    requires c.text[s.core.ptr] == '\\'
    ensures var p := s.core.ptr + 1;
            if p == |c.text| || c.text[p] == 0 as char || Escaped(c.text, p).NoText? then Rejects(c, s)
            else
              var e := Escaped(c.text, p);
              var s' := Appended(c.first, s, e.content, e.end);
              Run(c, s) == Run(c, s') && Follows(c, s')
  {
    hide Escaped, SeekTurn, CommentTurn, ObjectTurn, NumberTurn, EndString, Escape, Run;
    RunOfTurn(c, s);
    var s1 := s.(core := s.core.(mode := InString(true), ptr := s.core.ptr + 1));
    assert Step(c, s) == Next(s1);
    EscapeTurn(c, s1);
  }

  lemma PlainIsOne(b: char)
    ensures |Plain(b)| == 1
  {
  }

  lemma StringStops(c: Config, s: State)
    requires s.core.ptr <= |c.text| && s.core.mode == InString(false)
    requires s.core.ptr == |c.text| || c.text[s.core.ptr] == 0 as char || s.core.len > LIMIT
    ensures Rejects(c, s)
  {
    RunOfTurn(c, s);
  }

  /** A string is read up to its closing quote, unless it has none or is too long. */
  lemma {:induction false} StringRuns(c: Config, s: State)
    requires s.core.ptr <= |c.text| && s.core.mode == InString(false) && Follows(c, s)
    ensures var t := Body(c.text, s.core.ptr);
            if t.Text? && s.core.len + |t.content| <= LIMIT then Run(c, s) == Run(c, Closing(c.first, s, t))
            else Rejects(c, s)
    decreases |c.text| - s.core.ptr
  {
    hide Run, Escaped, Closing;
    var p := s.core.ptr;
    if p == |c.text| || c.text[p] == 0 as char || s.core.len > LIMIT {
      StringStops(c, s);
    } else if c.text[p] == '"' {
      ClosingHere(c.first, s);
    } else if c.text[p] == '\\' {
      EscapeRuns(c, s);
      if p + 1 < |c.text| && c.text[p + 1] != 0 as char && Escaped(c.text, p + 1).Text? {
        var e := Escaped(c.text, p + 1);
        StringRuns(c, Appended(c.first, s, e.content, e.end));
        if Body(c.text, e.end).Text? { ClosingMoves(c.first, s, e.content, e.end, Body(c.text, e.end)); }
      }
    } else {
      CharRuns(c, s);
      StringRuns(c, Appended(c.first, s, [c.text[p]], p + 1));
      if Body(c.text, p + 1).Text? { ClosingMoves(c.first, s, [c.text[p]], p + 1, Body(c.text, p + 1)); }
    }
  }

  // ----- numbers, in the first pass -----

  /** How the pass goes on after a turn that ended like this. */
  function After(c: Config, o: Outcome): Outcome {
    if o.Next? && o.s.core.ptr <= |c.text| then Run(c, o.s) else o
  }

  /** The value at the top lies in a container, or is the first. */
  predicate Under(s: State) {
    0 <= s.core.top < |s.nodes| &&
    var p := s.nodes[s.core.top].parent; p < 0 || (p < s.core.top && Container(s.nodes[p].kind))
  }

  /** A first pass inside a number. */
  predicate Counting(c: Config, s: State) { c.first && InNumber(s) && s.core.ptr <= |c.text| && Under(s) }

  /** How the pass goes on after a character of the number. */
  predicate GoesOn(c: Config, s: State, r: Scan)
    requires s.core.ptr <= |c.text|
  {
    match r
    case Read(on) => on.core.ptr <= |c.text| && Run(c, s) == Run(c, on)
    case Bad => Run(c, s) == Fail
    case End(ended) => Run(c, s) == After(c, Finish(c, ended, s.core.ptr))
  }

  lemma NumberRun1(c: Config, s: State)
    requires Counting(c, s)
    ensures var b := At(c.text, s.core.ptr);
            if c.comments && b == '/' then Run(c, s) == Fail else GoesOn(c, s, NumberScan(s, b))
  {
    hide NumberScan, Finish, StringTurn, SeekTurn, ObjectTurn;
    RunOfTurn(c, s);
    hide Run;
  }

  /** Nothing that could belong to the number may follow it. */
  lemma NumberMustStop(c: Config, s: State, e: nat)
    requires c.first && Under(s) && s.core.mode == Normal && !s.core.seek && !s.core.done && e <= |c.text|
    requires NumberChar(At(c.text, e)) || (At(c.text, e) == '/' && !c.comments)
    ensures After(c, Finish(c, s, e)) == Fail
  {
    var o := Finish(c, s, e);
    if o.Next? {
      RunOfTurn(c, o.s);
      hide Run;
    }
  }

  /** Only the number at the top and the cursor differ. */
  predicate SameBut(s: State, s': State) {
    && s'.core == s.core.(ptr := s'.core.ptr) && s'.buf == s.buf
    && 0 <= s.core.top < |s.nodes| == |s'.nodes| && s'.nodes == s.nodes[s.core.top := s'.nodes[s.core.top]]
    && var v, v' := s.nodes[s.core.top], s'.nodes[s.core.top]; v' == v.(kind := v'.kind, integer := v'.integer)
  }

  predicate SpellsNumber(v: Node, j: Json) {
    (j == JDouble && v.kind == Double) || (j.JInt? && v.kind == Integer && v.integer == j.i)
  }

  /** The first pass reads the number that the grammar has, up to state s', or
      rejects. */
  predicate ReadsNumber(c: Config, s: State, g: Got<Json>, s': State)
    requires s.core.ptr <= |c.text|
  {
    match g
    case No => Run(c, s) == Fail
    case Got(v, e) =>
      && SameBut(s, s') && SpellsNumber(s'.nodes[s.core.top], v) && s'.core.ptr == e <= |c.text|
      && Run(c, s) == After(c, Finish(c, s', e))
  }

  lemma EndRuns(c: Config, s: State, v: Json) returns (s': State)
    requires Counting(c, s) && NumberScan(s, At(c.text, s.core.ptr)).End?
    requires SpellsNumber(NumberScan(s, At(c.text, s.core.ptr)).ended.nodes[s.core.top], v)
    ensures ReadsNumber(c, s, Ends(c.text, s.core.ptr, v), s')
  {
    var b := At(c.text, s.core.ptr);
    NumberRun1(c, s);
    s' := NumberScan(s, b).ended;
    if NumberChar(b) || (b == '/' && !c.comments) { NumberMustStop(c, s', s.core.ptr); }
    hide Run, Finish;
  }

  lemma {:induction false} DoubleDigits(c: Config, s: State) returns (s': State)
    requires Counting(c, s) && s.nodes[s.core.top].kind == Double
    ensures var j := DigitsEnd(c.text, s.core.ptr);
            && Counting(c, s') && SameBut(s, s') && s'.core.ptr == j && s'.nodes == s.nodes && Run(c, s) == Run(c, s')
            && s'.num.digits == s.num.digits + (j - s.core.ptr) && s'.num.e == s.num.e
            && s'.num.negative == s.num.negative
            && s'.num.eSign == (s.num.eSign || (s.num.e && j > s.core.ptr))
    decreases |c.text| - s.core.ptr
  {
    var p := s.core.ptr;
    s' := s;
    if p < |c.text| && Digit(c.text[p]) {
      NumberRun1(c, s);
      var s1 := NumberScan(s, c.text[p]).on;
      hide Run;
      s' := DoubleDigits(c, s1);
    }
  }

  /** The state inside a number that may get an exponent here. */
  predicate AtExponent(c: Config, s: State, v: Json) {
    && Counting(c, s) && !s.num.e && !s.num.eSign && !Digit(At(c.text, s.core.ptr))
    && var w := s.nodes[s.core.top];
       if w.kind == Double then s.num.digits > 0 && v == JDouble
       else At(c.text, s.core.ptr) != '.' && v == JInt(if s.num.negative then -w.integer else w.integer)
  }

  lemma ExponentRuns(c: Config, s: State, v: Json) returns (s': State)
    requires AtExponent(c, s, v)
    ensures ReadsNumber(c, s, Exponent(c.text, s.core.ptr, v), s')
  {
    hide Run, Finish, ReadsNumber, DigitsEnd;
    var p := s.core.ptr;
    if At(c.text, p) != 'e' && At(c.text, p) != 'E' {
      s' := EndRuns(c, s, v);
    } else {
      NumberRun1(c, s);
      var s1 := NumberScan(s, At(c.text, p)).on;
      s' := PowerRuns(c, s1);
      Shifted(c, s, s1, Power(c.text, p + 1), s');
    }
  }

  lemma PowerRuns(c: Config, s: State) returns (s': State)
    requires Counting(c, s) && s.nodes[s.core.top].kind == Double && s.num.e && !s.num.eSign && s.num.digits == 0
    ensures ReadsNumber(c, s, Power(c.text, s.core.ptr), s')
  {
    hide Run, Finish, ReadsNumber, DigitsEnd, Ends;
    var s1 := SignRuns(c, s);
    s' := DoubleDigits(c, s1);
    if s'.core.ptr == s1.core.ptr {
      NumberRun1(c, s');
      Rejected(c, s, Power(c.text, s.core.ptr), s');
    } else {
      var s2 := s';
      s' := EndRuns(c, s2, JDouble);
      Shifted(c, s, s2, Ends(c.text, s2.core.ptr, JDouble), s');
    }
  }

  lemma SignRuns(c: Config, s: State) returns (s': State)
    requires Counting(c, s) && s.nodes[s.core.top].kind == Double && s.num.e && !s.num.eSign && s.num.digits == 0
    ensures Counting(c, s') && SameBut(s, s') && s'.nodes == s.nodes && Run(c, s) == Run(c, s')
    ensures s'.num.e && s'.num.digits == 0
    ensures var b, p := At(c.text, s.core.ptr), s.core.ptr; s'.core.ptr == if b == '+' || b == '-' then p + 1 else p
    ensures s'.num.eSign <==> s'.core.ptr > s.core.ptr
  {
    s' := s;
    if At(c.text, s.core.ptr) == '+' || At(c.text, s.core.ptr) == '-' {
      NumberRun1(c, s);
      s' := NumberScan(s, At(c.text, s.core.ptr)).on;
    }
    hide Run;
  }

  lemma Rejected(c: Config, s: State, g: Got<Json>, s': State)
    requires s.core.ptr <= |c.text| && g.No? && Run(c, s) == Fail
    ensures ReadsNumber(c, s, g, s')
  {
  }

  lemma Shifted(c: Config, s: State, s1: State, g: Got<Json>, s': State)
    requires s.core.ptr <= |c.text| && s1.core.ptr <= |c.text| && Run(c, s) == Run(c, s1) && SameBut(s, s1)
    requires ReadsNumber(c, s1, g, s')
    ensures ReadsNumber(c, s, g, s')
  {
    hide Run, Finish;
  }

  lemma {:induction false} DigitsFrom(text: string, from: nat, p: nat)
    requires from <= p <= |text| && AllDigits(text[from..p])
    ensures DigitsEnd(text, from) == DigitsEnd(text, p)
    decreases p - from
  {
    if from < p {
      assert text[from..p][0] == text[from] && text[from + 1..p] == text[from..p][1..];
      DigitsFrom(text, from + 1, p);
    }
  }

  lemma {:induction false} DecimalGrows(text: string, from: nat, p: nat, q: nat)
    requires from <= p <= q <= |text|
    ensures Decimal(text[from..p]) <= Decimal(text[from..q])
    decreases q - p
  {
    if p < q {
      DecimalGrows(text, from, p, q - 1);
      assert text[from..q][..q - from - 1] == text[from..q - 1];
    }
  }

  /** All digits of the integer part are read; past 63 bits the number is a double. */
  predicate ReadsDigits(c: Config, s: State, from: nat, s': State)
    requires from <= |c.text| && s.core.ptr <= |c.text|
  {
    var i := DigitsEnd(c.text, from);
    if i > from + 1 && c.text[from] == '0' then Run(c, s) == Fail
    else
      && Counting(c, s') && SameBut(s, s') && s'.core.ptr == i && Run(c, s) == Run(c, s')
      && s'.num.negative == s.num.negative && !s'.num.e && !s'.num.eSign
      && if Decimal(c.text[from..i]) <= INT_MAX then ReadsInteger(c.text, s', from)
         else s'.nodes[s.core.top].kind == Double && s'.num.digits > 0
  }

  lemma {:induction false} IntegerDigits(c: Config, s: State, from: nat) returns (s': State)
    requires Counting(c, s) && ReadsInteger(c.text, s, from) && !s.num.eSign
    ensures ReadsDigits(c, s, from, s')
    decreases |c.text| - s.core.ptr
  {
    hide Run, Decimal, DigitsEnd, Finish, AllDigits;
    var p := s.core.ptr;
    s' := s;
    DigitsFrom(c.text, from, p);
    DigitsStop(c.text, p);
    if p < |c.text| && Digit(c.text[p]) {
      NumberRun1(c, s);
      var r := NumberScan(s, c.text[p]);
      if r.Read? && r.on.nodes[s.core.top].kind == Integer {
        ReadsOn(c.text, s, from);
        s' := IntegerDigits(c, r.on, from);
      } else if r.Read? {
        Overflows(c, s, from);
        s' := DoubleDigits(c, r.on);
      }
    }
  }

  lemma DigitsStop(text: string, p: nat)
    requires p <= |text|
    ensures DigitsEnd(text, p) == if p < |text| && Digit(text[p]) then DigitsEnd(text, p + 1) else p
  {
  }

  lemma Overflows(c: Config, s: State, from: nat)
    requires Counting(c, s) && ReadsInteger(c.text, s, from) && s.core.ptr < |c.text| && Digit(c.text[s.core.ptr])
    requires var r := NumberScan(s, c.text[s.core.ptr]); r.Read? && r.on.nodes[s.core.top].kind == Double
    ensures Decimal(c.text[from..DigitsEnd(c.text, from)]) > INT_MAX && s.num.digits > 0 && c.text[from] != '0'
  {
    hide Decimal, DigitsEnd, AllDigits, WouldOverflow;
    var p := s.core.ptr;
    DigitsFrom(c.text, from, p);
    DigitsStop(c.text, p);
    assert c.text[from..p + 1] == c.text[from..p] + [c.text[p]];
    DecimalSnoc(c.text[from..p], c.text[p]);
    OverflowIsExact(Decimal(c.text[from..p]), DigitValue(c.text[p]));
    DecimalGrows(c.text, from, p + 1, DigitsEnd(c.text, from));
    assert c.text[from..from] == [];
    NoDigits();
  }

  /** A number of the first pass, from behind its sign. */
  lemma MagnitudeRuns(c: Config, s: State) returns (s': State)
    requires Counting(c, s) && s.num == FRESH.(negative := s.num.negative)
    requires s.nodes[s.core.top].kind == Integer && s.nodes[s.core.top].integer == 0
    ensures ReadsNumber(c, s, Magnitude(c.text, s.core.ptr, s.num.negative), s')
  {
    hide Run, Finish, ReadsNumber, DigitsEnd, Exponent, Decimal;
    var p := s.core.ptr;
    assert c.text[p..p] == [] && Decimal([]) == 0 by { NoDigits(); }
    s' := IntegerDigits(c, s, p);
    var i := DigitsEnd(c.text, p);
    if i > p + 1 && c.text[p] == '0' {
      Rejected(c, s, Magnitude(c.text, p, s.num.negative), s');
    } else {
      var s1 := s';
      s' := FractionRuns(c, s1, p);
      Shifted(c, s, s1, Magnitude(c.text, p, s.num.negative), s');
    }
  }

  lemma NoDigits()
    ensures Decimal([]) == 0
  {
  }

  /** The number from the end of its integer part on. */
  lemma FractionRuns(c: Config, s: State, from: nat) returns (s': State)
    requires from <= |c.text| && s.core.ptr == DigitsEnd(c.text, from) && ReadsDigits(c, s, from, s)
    requires !(s.core.ptr > from + 1 && c.text[from] == '0')
    ensures ReadsNumber(c, s, Magnitude(c.text, from, s.num.negative), s')
  {
    hide Run, Finish, ReadsNumber, Exponent, Decimal;
    var i := s.core.ptr;
    var n := Decimal(c.text[from..i]);
    if At(c.text, i) == '.' && n <= INT_MAX {
      NumberRun1(c, s);
      if i == from {
        s' := s;
        Rejected(c, s, Magnitude(c.text, from, s.num.negative), s');
      } else {
        var s1 := NumberScan(s, '.').on;
        s' := DoubleDigits(c, s1);
        if s'.core.ptr == i + 1 {
          NumberRun1(c, s');
          Rejected(c, s, Magnitude(c.text, from, s.num.negative), s');
        } else {
          var s2 := s';
          s' := ExponentRuns(c, s2, JDouble);
          Shifted(c, s, s2, Exponent(c.text, s2.core.ptr, JDouble), s');
        }
      }
    } else {
      s' := ExponentRuns(c, s, if n > INT_MAX then JDouble else JInt(if s.num.negative then 0 - n else n));
    }
  }
}
