/** The second pass follows the first, turn by turn; a number is one turn for it
    and many for the first. */
module JsonSecond {
  import opened JsonSpec
  import opened JsonFirst
  import opened JsonPasses

  function KeyBytes(keys: seq<string>): nat {
    if |keys| == 0 then 0 else KeyBytes(keys[..|keys| - 1]) + |keys[|keys| - 1]| + 1
  }

  /** A node of the second pass: the plan's, filled as far as the first pass had
      counted at the same point of the text. */
  predicate RelAt(a: seq<Node>, b: seq<Node>, plan: seq<Node>, k: int) {
    0 <= k < |a| && k < |b| && k < |plan| ==>
      && b[k].kind == plan[k].kind && b[k].parent == plan[k].parent && b[k].integer == plan[k].integer
      && b[k].length == a[k].length && b[k].nameBytes == a[k].nameBytes && b[k].names == a[k].names
      && |b[k].slots| == (if Container(b[k].kind) then b[k].length else 0)
      && |b[k].keys| == b[k].names && KeyBytes(b[k].keys) == b[k].nameBytes
      && (b[k].kind == String ==> |b[k].text| == b[k].length)
  }

  ghost predicate RelNodes(a: seq<Node>, b: seq<Node>, plan: seq<Node>) {
    |a| == |b| <= |plan| && forall k :: RelAt(a, b, plan, k)
  }

  ghost predicate Rel(s: State, r: State, plan: seq<Node>) {
    r.core == s.core && RelNodes(s.nodes, r.nodes, plan) && (r.core.mode.InString? ==> |r.buf| == r.core.len)
  }

  /** The second pass goes on as the first does. */
  ghost predicate Follows(o: Outcome, q: Outcome, plan: seq<Node>) { o.Next? ==> q.Next? && Rel(o.s, q.s, plan) }

  predicate Passes(c: Config, d: Config) { c.first && !d.first && d.text == c.text && d.comments == c.comments }

  // ----- the two moves -----

  lemma FinishFollows(c: Config, d: Config, s: State, r: State, ptr: nat)
    requires Passes(c, d) && Rel(s, r, d.plan) && Parents(s.nodes) && 0 <= s.core.top < |s.nodes|
    requires s.core.mode == Normal
    requires var o := Finish(c, s, ptr); o.Next? ==> Ext(o.s.nodes, d.plan)
    ensures Follows(Finish(c, s, ptr), Finish(d, r, ptr), d.plan)
  {
    var o, q, t := Finish(c, s, ptr), Finish(d, r, ptr), s.core.top;
    if o.Next? {
      var p := s.nodes[t].parent;
      assert ParentAt(s.nodes, t) && RelAt(s.nodes, r.nodes, d.plan, t) && ExtAt(o.s.nodes, d.plan, t);
      if p >= 0 {
        assert RelAt(s.nodes, r.nodes, d.plan, p) && ExtAt(o.s.nodes, d.plan, p);
        forall k ensures RelAt(o.s.nodes, q.s.nodes, d.plan, k) { assert RelAt(s.nodes, r.nodes, d.plan, k); }
      }
    }
  }

  lemma NewFollows(c: Config, d: Config, s: State, r: State, kind: Kind, value: int)
    requires Passes(c, d) && Rel(s, r, d.plan) && s.core.mode == Normal
    requires Ext(New(c, s, kind, value).s.nodes, d.plan)
    ensures Follows(New(c, s, kind, value), New(d, r, kind, value), d.plan)
  {
    var o, q := New(c, s, kind, value), New(d, r, kind, value);
    forall k ensures RelAt(o.s.nodes, q.s.nodes, d.plan, k) {
      assert RelAt(s.nodes, r.nodes, d.plan, k) && ExtAt(o.s.nodes, d.plan, k);
    }
  }

  lemma LiteralFollows(c: Config, d: Config, s: State, r: State, kind: Kind, value: int, ptr: nat)
    requires Passes(c, d) && Rel(s, r, d.plan) && Good(s)
    requires s.core.seek && !s.core.needColon && !s.core.done && s.core.mode == Normal
    requires var o := Literal(c, s, kind, value, ptr); o.Next? ==> Ext(o.s.nodes, d.plan)
    ensures Follows(Literal(c, s, kind, value, ptr), Literal(d, r, kind, value, ptr), d.plan)
  {
    var o := New(c, s, kind, value);
    NewGood(c, s, kind, value);
    FinishExt(c, o.s, ptr);
    if Finish(c, o.s, ptr).Next? {
      hide Finish, Ext, Rel, Parents;
      ExtTransitive(o.s.nodes, Finish(c, o.s, ptr).s.nodes, d.plan);
      NewFollows(c, d, s, r, kind, value);
      FinishFollows(c, d, o.s, New(d, r, kind, value).s, ptr);
    }
  }

  // ----- strings -----

  predicate PlanAt(plan: seq<Node>, k: int) {
    0 <= k < |plan| && plan[k].kind == Object ==>
      plan[k].names == plan[k].length && (plan[k].names == 0 ==> plan[k].nameBytes == 0)
  }

  ghost predicate PlanOk(plan: seq<Node>) { forall k :: PlanAt(plan, k) }

  lemma Utf8Counts(u: nat)
    requires u < 0x20_0000
    ensures |Utf8(u)| == Utf8Length(u)
  {
  }

  lemma TopKind(s: State, r: State, o: seq<Node>, plan: seq<Node>)
    requires Rel(s, r, plan) && 0 <= s.core.top < |s.nodes| && !Number(s.nodes[s.core.top].kind)
    requires Ext(o, plan) && s.core.top < |o| && o[s.core.top].kind == s.nodes[s.core.top].kind
    ensures r.nodes[s.core.top].kind == s.nodes[s.core.top].kind == plan[s.core.top].kind
  {
    assert RelAt(s.nodes, r.nodes, plan, s.core.top) && ExtAt(o, plan, s.core.top);
  }

  lemma AddFollows(c: Config, d: Config, s: State, r: State, bytes: string, count: nat, ptr: nat)
    requires Passes(c, d) && Rel(s, r, d.plan) && Shape(s) && s.core.mode.InString? && !s.core.done && PlanOk(d.plan)
    requires |bytes| == count && Ext(s.nodes, d.plan) && InBound(Add(c, s, bytes, count, ptr).s, d.plan)
    ensures Follows(Add(c, s, bytes, count, ptr), Add(d, r, bytes, count, ptr), d.plan)
  {
    var t := s.core.top;
    TopKind(s, r, s.nodes, d.plan);
    assert RelAt(s.nodes, r.nodes, d.plan, t) && PlanAt(d.plan, t);
  }

  lemma EscapeFollows(c: Config, d: Config, s: State, r: State, b: char)
    requires Passes(c, d) && Rel(s, r, d.plan) && Shape(s) && s.core.mode.InString? && !s.core.done && PlanOk(d.plan)
    requires var o := Escape(c, s, b); o.Next? ==> Ext(o.s.nodes, d.plan) && InBound(o.s, d.plan)
    ensures Follows(Escape(c, s, b), Escape(d, r, b), d.plan)
  {
    hide Rel, Utf8, Utf8Length, PointAt, PlanOk, Shape, InBound;
    var p := s.core.ptr;
    RelCore(s, r, d.plan);
    if Escape(c, s, b).Next? {
      AddKeepsNodes(c, s, b);
      if b != 'u' {
        AddFollows(c, d, s, r, Plain(b), 1, p + 1);
      } else {
        var x := PointAt(c.text, p);
        Utf8Counts(x.u);
        AddFollows(c, d, s, r, Utf8(x.u), Utf8Length(x.u), x.end);
      }
    }
  }

  lemma RelCore(s: State, r: State, plan: seq<Node>)
    requires Rel(s, r, plan)
    ensures r.core == s.core
  {
  }

  lemma AddKeepsNodes(c: Config, s: State, b: char)
    requires c.first && Escape(c, s, b).Next?
    ensures Escape(c, s, b).s.nodes == s.nodes
  {
    hide Utf8, Utf8Length, PointAt;
  }

  lemma NameFollows(c: Config, d: Config, s: State, r: State)
    requires Passes(c, d) && Rel(s, r, d.plan) && Good(s) && s.core.mode.InString? && !s.core.done && PlanOk(d.plan)
    requires TopIs(s, Object) && InBound(s, d.plan)
    requires var o := EndString(c, s); o.Next? && Ext(o.s.nodes, d.plan)
    ensures Follows(EndString(c, s), EndString(d, r), d.plan)
  {
    var o, q, t := EndString(c, s), EndString(d, r), s.core.top;
    TopKind(s, r, o.s.nodes, d.plan);
    assert RelAt(s.nodes, r.nodes, d.plan, t) && PlanAt(d.plan, t) && ExtAt(o.s.nodes, d.plan, t) && NamesAt(s, t);
    if Above(s.nodes, t, t) { AboveIsBelow(s.nodes, t, t); }
    assert q.Next?;
    assert q.s.nodes[t].keys[..r.nodes[t].names] == r.nodes[t].keys;
    forall k ensures RelAt(o.s.nodes, q.s.nodes, d.plan, k) { assert RelAt(s.nodes, r.nodes, d.plan, k); }
  }

  lemma TextFollows(c: Config, d: Config, s: State, r: State)
    requires Passes(c, d) && Rel(s, r, d.plan) && Good(s) && s.core.mode.InString? && !s.core.done
    requires TopIs(s, String) && InBound(s, d.plan)
    requires var o := EndString(c, s); o.Next? ==> Ext(o.s.nodes, d.plan)
    ensures Follows(EndString(c, s), EndString(d, r), d.plan)
  {
    var t, p := s.core.top, s.core.ptr;
    var v, w := s.nodes[t], r.nodes[t];
    var s1 := s.(core := s.core.(mode := Normal), nodes := s.nodes[t := v.(length := s.core.len, text := "")],
                 buf := "");
    var r1 := r.(core := r.core.(mode := Normal), nodes := r.nodes[t := w.(length := s.core.len, text := r.buf)],
                 buf := "");
    assert EndString(c, s) == Finish(c, s1, p + 1);
    if Finish(c, s1, p + 1).Next? {
      var n := Finish(c, s1, p + 1).s.nodes;
      assert ParentAt(s.nodes, t) && n[t].kind == String;
      TopKind(s, r, n, d.plan);
      assert RelAt(s.nodes, r.nodes, d.plan, t);
      assert EndString(d, r) == Finish(d, r1, p + 1);
      forall k ensures RelAt(s1.nodes, r1.nodes, d.plan, k) { assert RelAt(s.nodes, r.nodes, d.plan, k); }
      forall k ensures ParentAt(s1.nodes, k) { assert ParentAt(s.nodes, k); }
      FinishFollows(c, d, s1, r1, p + 1);
    }
  }

  lemma StringFollows(c: Config, d: Config, s: State, r: State, b: char)
    requires Passes(c, d) && Rel(s, r, d.plan) && Good(s) && s.core.mode.InString? && !s.core.done && PlanOk(d.plan)
    requires InBound(s, d.plan)
    requires var o := StringTurn(c, s, b); o.Next? ==> Ext(o.s.nodes, d.plan) && InBound(o.s, d.plan)
    ensures Follows(StringTurn(c, s, b), StringTurn(d, r, b), d.plan)
  {
    hide Escape, EndString, Names, Parents, PlanOk, Ext, InBound, RelNodes;
    if !StringTurn(c, s, b).Next? {
    } else if s.core.mode.escaped {
      EscapeFollows(c, d, s, r, b);
    } else if b == '"' {
      if TopIs(s, Object) { NameFollows(c, d, s, r); } else { TextFollows(c, d, s, r); }
    } else if b != '\\' {
      AddFollows(c, d, s, r, [b], 1, s.core.ptr + 1);
    }
  }

  // ----- the other turns -----

  lemma CommentFollows(c: Config, d: Config, s: State, r: State, b: char)
    requires Passes(c, d) && Rel(s, r, d.plan) && Shape(s) && !s.core.mode.InString?
    requires s.core.mode != Normal || b == '/'
    requires Ext(s.nodes, d.plan)
    ensures Follows(CommentTurn(c, s, b), CommentTurn(d, r, b), d.plan)
  {
    if TopIs(s, Object) { TopKind(s, r, s.nodes, d.plan); }
  }

  lemma ObjectFollows(c: Config, d: Config, s: State, r: State, b: char)
    requires Passes(c, d) && Rel(s, r, d.plan) && Good(s) && TopIs(s, Object) && !s.core.done && s.core.mode == Normal
    requires var o := ObjectTurn(c, s, b); o.Next? ==> Ext(o.s.nodes, d.plan)
    ensures Follows(ObjectTurn(c, s, b), ObjectTurn(d, r, b), d.plan)
  {
    hide Finish, Ext, Parents, Names, RelNodes;
    if b == '}' {
      FinishFollows(c, d, s.(core := s.core.(needComma := false)), r.(core := r.core.(needComma := false)),
                    s.core.ptr + 1);
    }
  }

  lemma ValueFollows(c: Config, d: Config, s: State, r: State, b: char)
    requires Passes(c, d) && Rel(s, r, d.plan) && Good(s) && s.core.ptr <= |c.text| && !Digit(b) && b != '-'
    requires s.core.seek && !s.core.needComma && !s.core.needColon && !s.core.done && s.core.mode == Normal
    requires var o := ValueTurn(c, s, b); o.Next? ==> Ext(o.s.nodes, d.plan)
    ensures Follows(ValueTurn(c, s, b), ValueTurn(d, r, b), d.plan)
  {
    hide Literal, Ext, Parents, Names, RelNodes;
    var p := s.core.ptr;
    var s1, r1 := s.(core := s.core.(ptr := p + 1)), r.(core := r.core.(ptr := p + 1));
    if ValueTurn(c, s, b).Next? {
      if b == '{' { NewFollows(c, d, s1, r1, Object, 0); }
      else if b == '[' { NewFollows(c, d, s1, r1, Array, 0); }
      else if b == '"' { NewFollows(c, d, s1, r1, String, 0); }
      else if b == 't' { LiteralFollows(c, d, s, r, Boolean, 1, p + 4); }
      else if b == 'f' { LiteralFollows(c, d, s, r, Boolean, 0, p + 5); }
      else { LiteralFollows(c, d, s, r, Null, 0, p + 4); }
    }
  }

  lemma SeekFollows(c: Config, d: Config, s: State, r: State, b: char)
    requires Passes(c, d) && Rel(s, r, d.plan) && Good(s) && s.core.ptr <= |c.text| && s.core.seek && !s.core.done
    requires s.core.mode == Normal
    requires Digit(b) || b == '-' ==> s.core.needComma || s.core.needColon
    requires var o := SeekTurn(c, s, b); o.Next? ==> Ext(o.s.nodes, d.plan)
    requires Ext(s.nodes, d.plan)
    ensures Follows(SeekTurn(c, s, b), SeekTurn(d, r, b), d.plan)
  {
    if b == ']' && TopIs(s, Array) { TopKind(s, r, s.nodes, d.plan); }
    hide Finish, ValueTurn, Ext, Parents, Names, RelNodes;
    if b == ']' {
      if TopIs(s, Array) {
        FinishFollows(c, d, s.(core := s.core.(needComma := false, seek := false)),
                      r.(core := r.core.(needComma := false, seek := false)), s.core.ptr + 1);
      }
    } else if !White(b) && !s.core.needComma && !s.core.needColon {
      ValueFollows(c, d, s, r, b);
    }
  }
}
