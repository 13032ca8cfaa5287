/** The first pass: what every turn of the loop keeps, and that it never touches
    memory it does not have. */
module JsonFirst {
  import opened JsonSpec

  // ----- the tree so far -----

  predicate ParentAt(nodes: seq<Node>, k: int) {
    0 <= k < |nodes| ==>
      && -1 <= nodes[k].parent < k && (nodes[k].parent < 0 <==> k == 0)
      && (k > 0 ==> Container(nodes[nodes[k].parent].kind))
  }

  /** Every value but the first lies in a container that came before it. */
  ghost predicate Parents(nodes: seq<Node>) { forall k :: ParentAt(nodes, k) }

  /** k is a proper ancestor of t. */
  predicate Above(nodes: seq<Node>, k: int, t: int)
    decreases t
  {
    0 <= t < |nodes| && 0 <= nodes[t].parent < t && (k == nodes[t].parent || Above(nodes, k, nodes[t].parent))
  }

  lemma {:induction false} AboveIsBelow(nodes: seq<Node>, k: int, t: int)
    requires Above(nodes, k, t)
    ensures 0 <= k < t
    decreases t
  {
    if k != nodes[t].parent { AboveIsBelow(nodes, k, nodes[t].parent); }
  }

  predicate SameParents(a: seq<Node>, b: seq<Node>, n: int) {
    n <= |a| && n <= |b| && forall i | 0 <= i < n :: a[i].parent == b[i].parent
  }

  lemma {:induction false} AboveSame(a: seq<Node>, b: seq<Node>, k: int, t: int)
    requires SameParents(a, b, t + 1)
    ensures Above(a, k, t) == Above(b, k, t)
    decreases t
  {
    if 0 <= t && 0 <= a[t].parent < t { AboveSame(a, b, k, a[t].parent); }
  }

  /** An object whose latest name still waits for its value. */
  predicate Waits(s: State, k: int) { Above(s.nodes, k, s.core.top) || (k == s.core.top && s.core.seek) }

  predicate NamesAt(s: State, k: int) {
    0 <= k < |s.nodes| && s.nodes[k].kind == Object ==>
      && s.nodes[k].names == s.nodes[k].length + (if Waits(s, k) then 1 else 0)
      && (s.nodes[k].names == 0 ==> s.nodes[k].nameBytes == 0)
  }

  /** Names and values of an object go in step. */
  ghost predicate Names(s: State) { forall k :: NamesAt(s, k) }

  /** Which flags go with which value at the top. */
  predicate Shape(s: State) {
    var core := s.core;
    && -1 <= core.top < |s.nodes| && (core.top < 0 <==> |s.nodes| == 0)
    && if core.top < 0 then !core.mode.InString? && core.seek && !core.needComma && !core.needColon && !core.done
       else
         var k := s.nodes[core.top].kind;
         if core.done then core.top == 0 && !core.seek && !core.needColon && !core.mode.InString?
         else if core.mode.InString? then
           !core.seek && !core.needColon && (k == Object || (k == String && s.nodes[core.top].length == 0))
         else if core.seek then Container(k) && (core.needColon ==> k == Object)
         else !core.needColon && (k == Object || (core.mode == Normal && Number(k)))
  }

  ghost predicate Good(s: State) { Parents(s.nodes) && Shape(s) && Names(s) }

  predicate CommentsOn(c: Config, s: State) { s.core.mode.LineComment? || s.core.mode.BlockComment? ==> c.comments }

  ghost predicate Keeps(c: Config, o: Outcome) {
    && !o.Fault?
    && (o.Next? ==> Good(o.s) && CommentsOn(c, o.s))
    && (o.Done? ==> Good(o.final) && o.final.core.done)
  }

  // ----- the two moves -----

  lemma FinishGood(c: Config, s: State, ptr: nat)
    requires c.first && Parents(s.nodes) && Names(s) && 0 <= s.core.top < |s.nodes|
    requires !s.core.seek && !s.core.needColon && !s.core.done && s.core.mode == Normal
    ensures Keeps(c, Finish(c, s, ptr))
  {
    var o, t := Finish(c, s, ptr), s.core.top;
    assert ParentAt(s.nodes, t);
    var p := s.nodes[t].parent;
    if p < 0 {
      forall k ensures NamesAt(o.s, k) { assert NamesAt(s, k); }
    } else if o.Next? {
      forall k ensures ParentAt(o.s.nodes, k) { assert ParentAt(s.nodes, k); }
      forall k ensures NamesAt(o.s, k) {
        assert NamesAt(s, k);
        AboveSame(s.nodes, o.s.nodes, k, p);
        if k == p && Above(s.nodes, p, p) { AboveIsBelow(s.nodes, p, p); }
      }
    }
  }

  lemma NewGood(c: Config, s: State, kind: Kind, value: int)
    requires c.first && Parents(s.nodes) && Names(s) && Shape(s)
    requires s.core.seek && !s.core.needColon && !s.core.done && s.core.mode == Normal
    ensures var o := New(c, s, kind, value);
            && o.Next? && Parents(o.s.nodes) && Names(o.s) && TopIs(o.s, kind)
            && o.s.core.top == |s.nodes| && o.s.nodes[o.s.core.top].length == 0
  {
    var o, n, t := New(c, s, kind, value), |s.nodes|, s.core.top;
    forall k ensures ParentAt(o.s.nodes, k) { assert ParentAt(s.nodes, k); }
    forall k ensures NamesAt(o.s, k) {
      assert NamesAt(s, k);
      if k == n {
        if Above(o.s.nodes, n, n) { AboveIsBelow(o.s.nodes, n, n); }
      } else if t >= 0 {
        AboveSame(s.nodes, o.s.nodes, k, t);
      }
    }
  }

  /** A turn that leaves the tree, the top and the search alone. */
  lemma SameNames(s: State, s': State)
    requires Names(s) && s'.nodes == s.nodes && s'.core.top == s.core.top && s'.core.seek == s.core.seek
    ensures Names(s')
  {
    forall k ensures NamesAt(s', k) { assert NamesAt(s, k); }
  }

  /** A leaf at the top may change, as long as it stays a leaf. */
  lemma LeafChanges(s: State, v: Node)
    requires Parents(s.nodes) && Names(s) && 0 <= s.core.top < |s.nodes|
    requires var w := s.nodes[s.core.top]; !Container(w.kind) && !Container(v.kind) && v.parent == w.parent
    ensures Parents(SetTop(s, v).nodes) && Names(SetTop(s, v))
  {
    var s' := SetTop(s, v);
    forall k ensures ParentAt(s'.nodes, k) { assert ParentAt(s.nodes, k); }
    forall k ensures NamesAt(s', k) {
      assert NamesAt(s, k);
      AboveSame(s.nodes, s'.nodes, k, s.core.top);
    }
  }

  // ----- the turns -----

  lemma NameGood(c: Config, s: State)
    requires c.first && Good(s) && s.core.mode.InString? && !s.core.done && TopIs(s, Object)
    ensures Keeps(c, EndString(c, s))
  {
    var o, t := EndString(c, s), s.core.top;
    forall k ensures ParentAt(o.s.nodes, k) { assert ParentAt(s.nodes, k); }
    forall k ensures NamesAt(o.s, k) {
      assert NamesAt(s, k);
      AboveSame(s.nodes, o.s.nodes, k, t);
      if k == t && Above(s.nodes, t, t) { AboveIsBelow(s.nodes, t, t); }
    }
  }

  lemma EndStringGood(c: Config, s: State)
    requires c.first && Good(s) && s.core.mode.InString? && !s.core.done
    ensures Keeps(c, EndString(c, s))
  {
    if TopIs(s, Object) {
      NameGood(c, s);
    } else {
      hide Finish, Above;
      var v := s.nodes[s.core.top];
      var s1 := s.(core := s.core.(mode := Normal), buf := "");
      SameNames(s, s1);
      LeafChanges(s1, v.(length := s.core.len, text := ""));
      FinishGood(c, SetTop(s1, v.(length := s.core.len, text := "")), s.core.ptr + 1);
    }
  }

  lemma StringGood(c: Config, s: State, b: char)
    requires c.first && Good(s) && s.core.mode.InString? && !s.core.done
    ensures Keeps(c, StringTurn(c, s, b))
  {
    hide EndString, Above, Utf8, PointAt;
    EndStringGood(c, s);
    var o := StringTurn(c, s, b);
    if o.Next? && o.s.nodes == s.nodes && o.s.core.top == s.core.top && o.s.core.seek == s.core.seek {
      SameNames(s, o.s);
    }
  }

  lemma CommentGood(c: Config, s: State, b: char)
    requires c.comments && Good(s) && !s.core.mode.InString? && (s.core.mode != Normal || b == '/')
    ensures Keeps(c, CommentTurn(c, s, b))
  {
    hide Above;
    var o := CommentTurn(c, s, b);
    if o.Next? { SameNames(s, o.s); }
  }

  lemma ObjectGood(c: Config, s: State, b: char)
    requires c.first && Good(s) && TopIs(s, Object) && !s.core.seek && !s.core.done && s.core.mode == Normal
    ensures Keeps(c, ObjectTurn(c, s, b))
  {
    hide Finish, Above;
    var o := ObjectTurn(c, s, b);
    if b == '}' {
      var s1 := s.(core := s.core.(needComma := false));
      SameNames(s, s1);
      FinishGood(c, s1, s.core.ptr + 1);
    } else if o.Next? {
      SameNames(s, o.s);
    }
  }

  lemma LiteralGood(c: Config, s: State, kind: Kind, value: int, ptr: nat)
    requires c.first && Good(s) && s.core.seek && !s.core.needColon && !s.core.done && s.core.mode == Normal
    ensures Keeps(c, Literal(c, s, kind, value, ptr))
  {
    hide Above, Finish;
    NewGood(c, s, kind, value);
    FinishGood(c, New(c, s, kind, value).s, ptr);
  }

  lemma ValueGood(c: Config, s: State, b: char)
    requires c.first && Good(s) && s.core.ptr <= |c.text|
    requires s.core.seek && !s.core.needComma && !s.core.needColon && !s.core.done && s.core.mode == Normal
    ensures Keeps(c, ValueTurn(c, s, b))
  {
    hide Above, Literal;
    var p := s.core.ptr;
    LiteralGood(c, s, Boolean, 1, p + 4);
    LiteralGood(c, s, Boolean, 0, p + 5);
    LiteralGood(c, s, Null, 0, p + 4);
    var kind := if b == '{' then Object else if b == '[' then Array else if b == '"' then String else Integer;
    var s1 := s.(core := s.core.(ptr := if b == '-' || kind != Integer then p + 1 else p),
                 num := if kind == Integer then FRESH.(negative := b == '-') else s.num);
    SameNames(s, s1);
    NewGood(c, s1, kind, 0);
    var s2, o := New(c, s1, kind, 0).s, ValueTurn(c, s, b);
    if b == '"' { SameNames(s2, o.s); }
    if b == '[' { ArrayNames(s2, o.s); }
  }

  lemma ArrayNames(s: State, s': State)
    requires Names(s) && TopIs(s, Array) && s'.nodes == s.nodes && s'.core.top == s.core.top
    ensures Names(s')
  {
    forall k ensures NamesAt(s', k) { assert NamesAt(s, k); }
  }

  lemma SeekGood(c: Config, s: State, b: char)
    requires c.first && Good(s) && s.core.ptr <= |c.text| && s.core.seek && !s.core.done && s.core.mode == Normal
    ensures Keeps(c, SeekTurn(c, s, b))
  {
    hide ValueTurn, Above, Finish;
    var o := SeekTurn(c, s, b);
    if b == ']' && TopIs(s, Array) {
      var s1 := s.(core := s.core.(needComma := false, seek := false));
      ArrayNames(s, s1);
      FinishGood(c, s1, s.core.ptr + 1);
    } else if !White(b) && b != ']' && !s.core.needComma && !s.core.needColon {
      ValueGood(c, s, b);
    } else if o.Next? {
      SameNames(s, o.s);
    }
  }

  lemma NumberGood(c: Config, s: State, b: char)
    requires c.first && Good(s) && 0 <= s.core.top && Number(s.nodes[s.core.top].kind)
    requires !s.core.seek && !s.core.done && s.core.mode == Normal
    ensures Keeps(c, NumberTurn(c, s, b))
  {
    hide Above, Finish;
    match NumberScan(s, b) {
      case Read(s') =>
        LeafChanges(s, s'.nodes[s.core.top]);
        SameNames(SetTop(s, s'.nodes[s.core.top]), s');
      case Bad =>
      case End(s') =>
        LeafChanges(s, s'.nodes[s.core.top]);
        FinishGood(c, s', s.core.ptr);
    }
  }

  /** Every turn of the first pass keeps the invariant and is free of faults. */
  lemma StepGood(c: Config, s: State)
    requires c.first && Good(s) && s.core.ptr <= |c.text| && CommentsOn(c, s)
    ensures Keeps(c, Step(c, s))
  {
    hide Above, StringTurn, CommentTurn, SeekTurn, ObjectTurn, NumberTurn;
    var b, core := At(c.text, s.core.ptr), s.core;
    if core.mode.InString? {
      StringGood(c, s, b);
    } else if c.comments && (core.mode != Normal || b == '/') {
      CommentGood(c, s, b);
    } else if core.done {
      var o := Step(c, s);
      if o.Next? { SameNames(s, o.s); }
    } else if core.seek {
      SeekGood(c, s, b);
    } else if s.nodes[core.top].kind == Object {
      ObjectGood(c, s, b);
    } else {
      NumberGood(c, s, b);
    }
  }

  /** For every text: the first pass ends, it never faults, and when it accepts,
      names and values of every object match. */
  lemma {:induction false} RunGood(c: Config, s: State)
    requires c.first && Good(s) && s.core.ptr <= |c.text| && CommentsOn(c, s)
    ensures Keeps(c, Run(c, s))
    decreases |c.text| - s.core.ptr, Rank(s.core), TopOf(s), IntegerBit(s)
  {
    hide Step, Good, CommentsOn;
    StepGood(c, s);
    StepForward(c, s);
    var o := Step(c, s);
    if o.Next? { RunGood(c, o.s); }
  }

  lemma FirstPassIsSafe(text: string, comments: bool)
    ensures Keeps(First(text, comments), Run(First(text, comments), START))
  {
    RunGood(First(text, comments), START);
  }
}
