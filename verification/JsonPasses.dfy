/** The two passes agree: what the first accepted, the second builds, inside the
    memory that the first counted. */
module JsonPasses {
  import opened JsonSpec
  import opened JsonFirst

  // ----- the counts only grow -----

  predicate ExtAt(a: seq<Node>, b: seq<Node>, k: int) {
    0 <= k < |a| ==>
      && k < |b| && b[k].parent == a[k].parent
      && (if Number(a[k].kind) then Number(b[k].kind) else b[k].kind == a[k].kind)
      && a[k].length <= b[k].length && a[k].nameBytes <= b[k].nameBytes && a[k].names <= b[k].names
  }

  ghost predicate Ext(a: seq<Node>, b: seq<Node>) { |a| <= |b| && forall k :: ExtAt(a, b, k) }

  lemma ExtTransitive(a: seq<Node>, b: seq<Node>, c: seq<Node>)
    requires Ext(a, b) && Ext(b, c)
    ensures Ext(a, c)
  {
    forall k ensures ExtAt(a, c, k) { assert ExtAt(a, b, k) && ExtAt(b, c, k); }
  }

  lemma ExtSame(a: seq<Node>)
    ensures Ext(a, a)
  {
  }

  lemma ExtUpdate(a: seq<Node>, t: nat, v: Node)
    requires t < |a| && ExtAt(a, a[t := v], t)
    ensures Ext(a, a[t := v])
  {
    var b := a[t := v];
    assert forall k :: ExtAt(a, b, k);
  }

  lemma FinishExt(c: Config, s: State, ptr: nat)
    ensures Finish(c, s, ptr).Next? ==> Ext(s.nodes, Finish(c, s, ptr).s.nodes)
  {
    var o := Finish(c, s, ptr);
    if o.Next? {
      var p := s.nodes[s.core.top].parent;
      if p < 0 { ExtSame(s.nodes); } else { ExtUpdate(s.nodes, p, o.s.nodes[p]); }
    }
  }

  lemma NewExt(c: Config, s: State, kind: Kind, value: int)
    ensures New(c, s, kind, value).Next? ==> Ext(s.nodes, New(c, s, kind, value).s.nodes)
  {
  }

  lemma LiteralExt(c: Config, s: State, kind: Kind, value: int, ptr: nat)
    ensures Literal(c, s, kind, value, ptr).Next? ==> Ext(s.nodes, Literal(c, s, kind, value, ptr).s.nodes)
  {
    hide Finish, New, Ext;
    NewExt(c, s, kind, value);
    var o := New(c, s, kind, value);
    if o.Next? {
      FinishExt(c, o.s, ptr);
      var o2 := Finish(c, o.s, ptr);
      if o2.Next? { ExtTransitive(s.nodes, o.s.nodes, o2.s.nodes); }
    }
  }

  lemma StringExt(c: Config, s: State, b: char)
    requires Shape(s) && s.core.mode.InString? && !s.core.done
    ensures StringTurn(c, s, b).Next? ==> Ext(s.nodes, StringTurn(c, s, b).s.nodes)
  {
    hide Finish, Ext, Utf8, PointAt, Utf8Length;
    var o := StringTurn(c, s, b);
    if o.Next? {
      if s.core.mode.escaped || b != '"' {
        ExtSame(s.nodes);
      } else if TopIs(s, Object) {
        ExtUpdate(s.nodes, s.core.top, o.s.nodes[s.core.top]);
      } else {
        var t := s.core.top;
        var v := s.nodes[t].(length := s.core.len, text := if c.first then "" else s.buf);
        var s1 := s.(core := s.core.(mode := Normal), nodes := s.nodes[t := v], buf := "");
        ExtUpdate(s.nodes, t, v);
        FinishExt(c, s1, s.core.ptr + 1);
        ExtTransitive(s.nodes, s1.nodes, o.s.nodes);
      }
    }
  }

  lemma ValueExt(c: Config, s: State, b: char)
    requires s.core.ptr <= |c.text|
    ensures ValueTurn(c, s, b).Next? ==> Ext(s.nodes, ValueTurn(c, s, b).s.nodes)
  {
    hide Literal, Ext, New;
    var p := s.core.ptr;
    var s1 := s.(core := s.core.(ptr := p + 1));
    var s2 := s.(core := s.core.(ptr := if b == '-' then p + 1 else p), num := FRESH.(negative := b == '-'));
    NewExt(c, s1, Object, 0);
    NewExt(c, s1, Array, 0);
    NewExt(c, s1, String, 0);
    NewExt(c, s2, Integer, 0);
    LiteralExt(c, s, Boolean, 1, p + 4);
    LiteralExt(c, s, Boolean, 0, p + 5);
    LiteralExt(c, s, Null, 0, p + 4);
    LiteralExt(c, s, Integer, 0, SkipEnd(c.text, p));
  }

  lemma NumberExt(c: Config, s: State, b: char)
    requires 0 <= s.core.top < |s.nodes| && Number(s.nodes[s.core.top].kind)
    ensures NumberTurn(c, s, b).Next? ==> Ext(s.nodes, NumberTurn(c, s, b).s.nodes)
  {
    hide Finish, Ext;
    var t := s.core.top;
    match NumberScan(s, b) {
      case Read(s') =>
        ExtUpdate(s.nodes, t, s'.nodes[t]);
        assert s'.nodes == s.nodes[t := s'.nodes[t]];
      case Bad =>
      case End(s') =>
        ExtUpdate(s.nodes, t, s'.nodes[t]);
        FinishExt(c, s', s.core.ptr);
        var o := Finish(c, s', s.core.ptr);
        if o.Next? { ExtTransitive(s.nodes, s'.nodes, o.s.nodes); }
    }
  }

  lemma StepExt(c: Config, s: State)
    requires s.core.ptr <= |c.text| && Shape(s)
    ensures Step(c, s).Next? ==> Ext(s.nodes, Step(c, s).s.nodes)
  {
    hide Ext, StringTurn, ValueTurn, NumberTurn, Finish;
    var b, core, p := At(c.text, s.core.ptr), s.core, s.core.ptr;
    ExtSame(s.nodes);
    if core.mode.InString? {
      StringExt(c, s, b);
    } else if c.comments && (core.mode != Normal || b == '/') {
    } else if core.done {
    } else if core.seek {
      ValueExt(c, s, b);
      FinishExt(c, s.(core := core.(needComma := false, seek := false)), p + 1);
    } else if 0 <= core.top < |s.nodes| {
      FinishExt(c, s.(core := core.(needComma := false)), p + 1);
      if Number(s.nodes[core.top].kind) { NumberExt(c, s, b); }
    }
  }

  // ----- the bytes that are still to come -----

  /** The final counts leave room for the string that is being read. */
  predicate InBound(s: State, plan: seq<Node>) {
    s.core.mode.InString? && 0 <= s.core.top < |s.nodes| && s.core.top < |plan| ==>
      && (TopIs(s, String) ==> s.core.len <= plan[s.core.top].length)
      && (TopIs(s, Object) ==> s.nodes[s.core.top].nameBytes + s.core.len + 1 <= plan[s.core.top].nameBytes)
  }

  lemma StepInBound(c: Config, s: State, plan: seq<Node>)
    requires c.first && s.core.ptr <= |c.text| && Good(s) && Step(c, s).Next?
    requires Ext(Step(c, s).s.nodes, plan) && InBound(Step(c, s).s, plan)
    ensures InBound(s, plan)
  {
    if s.core.mode.InString? {
      var s' := Step(c, s).s;
      var t := s.core.top;
      assert ExtAt(s'.nodes, plan, t);
      hide PointAt, Utf8;
      assert ParentAt(s.nodes, t);
    }
  }

  /** A first pass that accepts ends with at least what it had counted. */
  lemma {:induction false} RunBound(c: Config, s: State)
    requires c.first && s.core.ptr <= |c.text| && Good(s) && CommentsOn(c, s) && Run(c, s).Done?
    ensures Ext(s.nodes, Run(c, s).final.nodes) && InBound(s, Run(c, s).final.nodes)
    decreases |c.text| - s.core.ptr, Rank(s.core), TopOf(s), IntegerBit(s)
  {
    StepGood(c, s);
    StepForward(c, s);
    StepExt(c, s);
    var o := Step(c, s);
    if o.Next? {
      hide Step, Good, Ext, InBound, CommentsOn;
      RunBound(c, o.s);
      StepInBound(c, s, Run(c, s).final.nodes);
      ExtTransitive(s.nodes, o.s.nodes, Run(c, s).final.nodes);
    } else {
      ExtSame(s.nodes);
      StepDone(c, s);
    }
  }

  lemma StepDone(c: Config, s: State)
    requires s.core.ptr <= |c.text| && Step(c, s).Done?
    ensures Step(c, s).final == s && s.core.done && !s.core.mode.InString?
  {
    hide StringTurn, CommentTurn, SeekTurn, ObjectTurn, NumberTurn;
  }

  // ----- how many values a first pass makes -----

  /** A value begins at p. */
  predicate ValueAt(text: string, p: nat) {
    var b := At(text, p);
    || b == '{' || b == '[' || b == '"' || b == '-' || Digit(b)
    || (b == 't' && Word(text, p, "true")) || (b == 'f' && Word(text, p, "false"))
    || (b == 'n' && Word(text, p, "null"))
  }

  /** The turn reaches new_value, whatever becomes of it. */
  predicate Makes(c: Config, s: State) {
    && s.core.mode == Normal && !s.core.done && s.core.seek && !s.core.needComma && !s.core.needColon
    && ValueAt(c.text, s.core.ptr)
  }

  /** How many values the rest of the pass makes, also where it fails. */
  function Made(c: Config, s: State): nat
    requires s.core.ptr <= |c.text|
    decreases |c.text| - s.core.ptr, Rank(s.core), TopOf(s), IntegerBit(s)
  {
    StepForward(c, s);
    (if Makes(c, s) then 1 else 0) + (if Step(c, s).Next? then Made(c, Step(c, s).s) else 0)
  }

  lemma MadeOfTurn(c: Config, s: State)
    requires s.core.ptr <= |c.text|
    ensures Forward(c, s, Step(c, s))
    ensures Made(c, s) == (if Makes(c, s) then 1 else 0) + (if Step(c, s).Next? then Made(c, Step(c, s).s) else 0)
  {
    hide Step, Makes;
    StepForward(c, s);
  }

  predicate AddsNodes(s: State, o: Outcome, n: nat) { o.Next? ==> |o.s.nodes| == |s.nodes| + n }

  lemma StringAdds(c: Config, s: State, b: char)
    requires s.core.mode.InString?
    ensures AddsNodes(s, StringTurn(c, s, b), 0)
  {
    hide Utf8, PointAt, Utf8Length;
  }

  lemma SeekAdds(c: Config, s: State)
    requires c.first && s.core.ptr <= |c.text| && s.core.seek && s.core.mode == Normal && !s.core.done
    ensures AddsNodes(s, SeekTurn(c, s, At(c.text, s.core.ptr)), if Makes(c, s) then 1 else 0)
  {
    hide Word, SkipEnd;
  }

  lemma NumberAdds(c: Config, s: State, b: char)
    requires 0 <= s.core.top < |s.nodes|
    ensures AddsNodes(s, NumberTurn(c, s, b), 0)
  {
  }

  /** A turn makes one value or none. */
  lemma StepAdds(c: Config, s: State)
    requires c.first && s.core.ptr <= |c.text| && CommentsOn(c, s)
    ensures AddsNodes(s, Step(c, s), if Makes(c, s) then 1 else 0)
  {
    hide StringTurn, SeekTurn, NumberTurn, Word;
    var b := At(c.text, s.core.ptr);
    if s.core.mode.InString? {
      StringAdds(c, s, b);
    } else if s.core.mode == Normal && !s.core.done && s.core.seek {
      SeekAdds(c, s);
    } else if 0 <= s.core.top < |s.nodes| {
      NumberAdds(c, s, b);
    }
  }

  /** All the values made are in the tree of a text that is accepted. */
  lemma {:induction false} MadeIsNodes(c: Config, s: State)
    requires c.first && Good(s) && s.core.ptr <= |c.text| && CommentsOn(c, s) && Run(c, s).Done?
    ensures |Run(c, s).final.nodes| == |s.nodes| + Made(c, s)
    decreases |c.text| - s.core.ptr, Rank(s.core), TopOf(s), IntegerBit(s)
  {
    hide Step, Good, CommentsOn, ValueAt;
    RunOfTurn(c, s);
    StepGood(c, s);
    StepAdds(c, s);
    if Step(c, s).Next? { MadeIsNodes(c, Step(c, s).s); } else { StepDone(c, s); }
  }
}
