/** The passes of the JSON parser from end to end. */
module JsonAgree {
  import opened JsonSpec
  import opened JsonFirst
  import opened JsonPasses
  import opened JsonSecond

  /** The first pass is inside a number. */
  predicate InNumber(s: State) {
    && !s.core.seek && !s.core.done && s.core.mode == Normal
    && 0 <= s.core.top < |s.nodes| && Number(s.nodes[s.core.top].kind)
  }

  /** The next turn of the first pass begins a number. */
  predicate Begins(c: Config, s: State) {
    var b := At(c.text, s.core.ptr);
    && s.core.mode == Normal && !s.core.done && s.core.seek && !s.core.needComma && !s.core.needColon
    && (Digit(b) || b == '-')
  }

  // ----- outside numbers -----

  lemma FinishLeaves(c: Config, s: State, ptr: nat)
    requires Parents(s.nodes) && 0 <= s.core.top < |s.nodes|
    ensures Finish(c, s, ptr).Next? ==> !InNumber(Finish(c, s, ptr).s)
  {
    assert ParentAt(s.nodes, s.core.top);
  }

  lemma StringLeaves(c: Config, s: State, b: char)
    requires Good(s) && s.core.mode.InString? && !s.core.done
    ensures StringTurn(c, s, b).Next? ==> !InNumber(StringTurn(c, s, b).s)
  {
    var t := s.core.top;
    var v := s.nodes[t].(length := s.core.len, text := if c.first then "" else s.buf);
    var s1 := s.(core := s.core.(mode := Normal), nodes := s.nodes[t := v], buf := "");
    if TopIs(s, String) {
      forall k ensures ParentAt(s1.nodes, k) { assert ParentAt(s.nodes, k); }
      FinishLeaves(c, s1, s.core.ptr + 1);
    }
    hide Finish, PointAt, Utf8, Parents, Names;
  }

  lemma LiteralLeaves(c: Config, s: State, kind: Kind, value: int, ptr: nat)
    requires c.first && Good(s) && s.core.seek && !s.core.needColon && !s.core.done && s.core.mode == Normal
    ensures Literal(c, s, kind, value, ptr).Next? ==> !InNumber(Literal(c, s, kind, value, ptr).s)
  {
    NewGood(c, s, kind, value);
    FinishLeaves(c, New(c, s, kind, value).s, ptr);
  }

  lemma SeekLeaves(c: Config, s: State)
    requires c.first && Good(s) && s.core.ptr <= |c.text| && s.core.seek && !s.core.done && s.core.mode == Normal
    requires !Begins(c, s)
    ensures var o := SeekTurn(c, s, At(c.text, s.core.ptr)); o.Next? ==> !InNumber(o.s)
  {
    var p := s.core.ptr;
    if !s.core.needColon {
      LiteralLeaves(c, s, Boolean, 1, p + 4);
      LiteralLeaves(c, s, Boolean, 0, p + 5);
      LiteralLeaves(c, s, Null, 0, p + 4);
    }
    if 0 <= s.core.top < |s.nodes| { FinishLeaves(c, s.(core := s.core.(needComma := false, seek := false)), p + 1); }
    hide Finish, Literal, Parents, Names;
  }

  lemma StepLeaves(c: Config, s: State)
    requires c.first && Good(s) && s.core.ptr <= |c.text| && CommentsOn(c, s) && !InNumber(s) && !Begins(c, s)
    ensures Step(c, s).Next? ==> !InNumber(Step(c, s).s)
  {
    var b := At(c.text, s.core.ptr);
    if s.core.mode.InString? {
      hide StringTurn, Parents, Names;
      StringLeaves(c, s, b);
    } else if c.comments && (s.core.mode != Normal || b == '/') {
      hide Parents, Names;
    } else if s.core.done {
    } else if s.core.seek {
      hide SeekTurn, Parents, Names;
      SeekLeaves(c, s);
    } else {
      FinishLeaves(c, s.(core := s.core.(needComma := false)), s.core.ptr + 1);
      hide Finish, Parents, Names;
    }
  }

  /** Outside numbers the passes go turn by turn. */
  lemma StepFollows(c: Config, d: Config, s: State, r: State)
    requires Passes(c, d) && Rel(s, r, d.plan) && Good(s) && CommentsOn(c, s) && s.core.ptr <= |c.text|
    requires PlanOk(d.plan)
    requires !InNumber(s) && !Begins(c, s) && Ext(s.nodes, d.plan) && InBound(s, d.plan)
    requires var o := Step(c, s); o.Next? ==> Ext(o.s.nodes, d.plan) && InBound(o.s, d.plan)
    ensures Follows(Step(c, s), Step(d, r), d.plan)
  {
    var b, core := At(c.text, s.core.ptr), s.core;
    if core.top >= 0 && !Number(s.nodes[core.top].kind) { TopKind(s, r, s.nodes, d.plan); }
    hide StringTurn, CommentTurn, SeekTurn, ObjectTurn, NumberTurn, Parents, Names, RelNodes, Ext, PlanOk, InBound;
    if core.mode.InString? {
      StringFollows(c, d, s, r, b);
    } else if c.comments && (core.mode != Normal || b == '/') {
      CommentFollows(c, d, s, r, b);
    } else if core.done {
    } else if core.seek {
      SeekFollows(c, d, s, r, b);
    } else {
      ObjectFollows(c, d, s, r, b);
    }
  }

  // ----- numbers -----

  /** The first pass is inside the number at which the second pass still stands;
      from either place the same run of number characters ends. */
  ghost predicate NumRel(c: Config, s: State, r: State, plan: seq<Node>) {
    var n := |s.nodes| - 1;
    && InNumber(s) && s.core.top == n && s.core.ptr <= |c.text| && r.core.ptr <= |c.text|
    && r.core == s.core.(ptr := r.core.ptr, seek := true, top := s.nodes[n].parent)
    && !s.core.needComma && !s.core.needColon && Begins(c, r)
    && SkipEnd(c.text, r.core.ptr) == SkipEnd(c.text, s.core.ptr)
    && |r.nodes| == n && n < |plan| && (forall k :: RelAt(s.nodes, r.nodes, plan, k))
    && s.nodes[n].length == 0 && s.nodes[n].nameBytes == 0 && s.nodes[n].names == 0
  }

  lemma NumberBegins(c: Config, d: Config, s: State, r: State)
    requires Passes(c, d) && Rel(s, r, d.plan) && Shape(s) && s.core.ptr <= |c.text| && Begins(c, s)
    requires Step(c, s).Next? && Ext(Step(c, s).s.nodes, d.plan)
    ensures NumRel(c, Step(c, s).s, r, d.plan)
  {
    var s' := Step(c, s).s;
    forall k ensures RelAt(s'.nodes, r.nodes, d.plan, k) { assert RelAt(s.nodes, r.nodes, d.plan, k); }
  }

  lemma NumberReads(c: Config, d: Config, s: State, r: State)
    requires Passes(c, d) && NumRel(c, s, r, d.plan)
    requires NumberScan(s, At(c.text, s.core.ptr)).Read?
    ensures NumRel(c, NumberScan(s, At(c.text, s.core.ptr)).on, r, d.plan)
  {
    var b := At(c.text, s.core.ptr);
    var s' := NumberScan(s, b).on;
    forall k ensures RelAt(s'.nodes, r.nodes, d.plan, k) { assert RelAt(s.nodes, r.nodes, d.plan, k); }
    hide RelAt;
  }

  /** A number that ends before another number character is an error, one turn
      later. */
  lemma NumberCannotStop(c: Config, s: State)
    requires c.first && Good(s) && InNumber(s) && s.core.ptr <= |c.text|
    requires var b := At(c.text, s.core.ptr); NumberChar(b) && NumberScan(s, b).End?
    ensures var o := Finish(c, NumberScan(s, At(c.text, s.core.ptr)).ended, s.core.ptr);
            o.Next? ==> Step(c, o.s) == Fail
  {
    var b := At(c.text, s.core.ptr);
    var s1 := NumberScan(s, b).ended;
    assert ParentAt(s.nodes, s.core.top);
    assert s1.nodes[s.core.top].parent == s.nodes[s.core.top].parent;
  }

  lemma SameFinish(c: Config, s: State, ptr: nat, q: nat)
    ensures Finish(c, s.(core := s.core.(ptr := q)), ptr) == Finish(c, s, ptr)
  {
  }

  lemma NumberEnds(c: Config, d: Config, s: State, r: State)
    requires Passes(c, d) && NumRel(c, s, r, d.plan) && Good(s)
    requires var b := At(c.text, s.core.ptr); !NumberChar(b) && NumberScan(s, b).End?
    requires var o := Finish(c, NumberScan(s, At(c.text, s.core.ptr)).ended, s.core.ptr);
             o.Next? && Ext(o.s.nodes, d.plan)
    ensures Follows(Finish(c, NumberScan(s, At(c.text, s.core.ptr)).ended, s.core.ptr), Step(d, r), d.plan)
  {
    var p, n := s.core.ptr, |s.nodes| - 1;
    var s1 := NumberScan(s, At(c.text, p)).ended;
    var o := Finish(c, s1, p);
    assert Step(d, r) == Literal(d, r, Integer, 0, p);
    var r1 := New(d, r, Integer, 0).s;
    var s2 := s1.(core := s1.core.(ptr := r.core.ptr));
    SameFinish(c, s1, p, r.core.ptr);
    forall k ensures RelAt(s2.nodes, r1.nodes, d.plan, k) {
      assert RelAt(s.nodes, r.nodes, d.plan, k) && ExtAt(o.s.nodes, d.plan, k) && ParentAt(s.nodes, n);
    }
    forall k ensures ParentAt(s2.nodes, k) { assert ParentAt(s.nodes, k); }
    FinishFollows(c, d, s2, r1, p);
  }

  // ----- whole passes -----

  ghost predicate Together(c: Config, s: State, r: State, plan: seq<Node>) {
    (Rel(s, r, plan) && !InNumber(s)) || NumRel(c, s, r, plan)
  }

  lemma NumberStep(c: Config, s: State)
    requires InNumber(s) && s.core.ptr <= |c.text| && Step(c, s).Next?
    ensures var b := At(c.text, s.core.ptr); Step(c, s) == NumberTurn(c, s, b)
  {
    hide NumberTurn;
  }

  /** One turn of the first pass: the second takes the same turn, or waits while
      a number is read. */
  lemma Turn(c: Config, d: Config, s: State, r: State) returns (r': State)
    requires Passes(c, d) && Good(s) && CommentsOn(c, s) && s.core.ptr <= |c.text| && PlanOk(d.plan)
    requires Together(c, s, r, d.plan) && Ext(s.nodes, d.plan) && InBound(s, d.plan)
    requires Step(c, s).Next? && Ext(Step(c, s).s.nodes, d.plan) && InBound(Step(c, s).s, d.plan)
    requires Step(c, s).s.core.ptr <= |c.text| && Step(c, Step(c, s).s) != Fail
    ensures r.core.ptr <= |d.text|
    ensures Together(c, Step(c, s).s, r', d.plan)
    ensures r' == r || (Step(d, r) == Next(r') && Rel(Step(c, s).s, r', d.plan))
  {
    var b, s' := At(c.text, s.core.ptr), Step(c, s).s;
    if NumRel(c, s, r, d.plan) {
      NumberStep(c, s);
      if NumberScan(s, b).Read? {
        NumberReads(c, d, s, r);
        r' := r;
      } else {
        if NumberChar(b) { NumberCannotStop(c, s); }
        NumberEnds(c, d, s, r);
        r' := Step(d, r).s;
        FinishLeavesNumber(c, s, b);
      }
    } else if Begins(c, s) {
      NumberBegins(c, d, s, r);
      r' := r;
    } else {
      StepFollows(c, d, s, r);
      StepLeaves(c, s);
      r' := Step(d, r).s;
    }
  }

  lemma FinishLeavesNumber(c: Config, s: State, b: char)
    requires Good(s) && InNumber(s) && NumberScan(s, b).End?
    ensures var o := Finish(c, NumberScan(s, b).ended, s.core.ptr); o.Next? ==> !InNumber(o.s)
  {
    var s1 := NumberScan(s, b).ended;
    forall k ensures ParentAt(s1.nodes, k) { assert ParentAt(s.nodes, k); }
    FinishLeaves(c, s1, s.core.ptr);
  }

  lemma {:induction false} Simulate(c: Config, d: Config, s: State, r: State)
    requires Passes(c, d) && Good(s) && CommentsOn(c, s) && s.core.ptr <= |c.text| && PlanOk(d.plan)
    requires Run(c, s).Done? && d.plan == Run(c, s).final.nodes && Together(c, s, r, d.plan)
    ensures r.core.ptr <= |d.text| && Run(d, r).Done? && Rel(Run(c, s).final, Run(d, r).final, d.plan)
    decreases |c.text| - s.core.ptr, Rank(s.core), TopOf(s), IntegerBit(s)
  {
    StepGood(c, s);
    StepForward(c, s);
    RunBound(c, s);
    var o := Step(c, s);
    if o.Next? {
      assert Step(c, o.s) != Fail;
      RunBound(c, o.s);
      hide Step, Good, CommentsOn, PlanOk, Ext, InBound, Together, Rel;
      var r' := Turn(c, d, s, r);
      Simulate(c, d, o.s, r');
    } else {
      StepDone(c, s);
      LastTurn(c, d, s, r);
    }
  }

  /** The turn that the second pass takes next, and where the first one is then. */
  lemma {:induction false} NextTogether(c: Config, d: Config, s: State, r: State) returns (s': State)
    requires Passes(c, d) && Good(s) && CommentsOn(c, s) && s.core.ptr <= |c.text| && PlanOk(d.plan)
    requires Run(c, s).Done? && d.plan == Run(c, s).final.nodes && Together(c, s, r, d.plan)
    requires r.core.ptr <= |d.text| && Step(d, r).Next?
    ensures Good(s') && CommentsOn(c, s') && s'.core.ptr <= |c.text| && Run(c, s') == Run(c, s)
    ensures Together(c, s', Step(d, r).s, d.plan)
    decreases |c.text| - s.core.ptr, Rank(s.core), TopOf(s), IntegerBit(s)
  {
    StepGood(c, s);
    StepForward(c, s);
    RunBound(c, s);
    var o := Step(c, s);
    if o.Next? {
      assert Step(c, o.s) != Fail;
      RunBound(c, o.s);
      hide Step, Good, Ext, InBound, CommentsOn, PlanOk, Together;
      var r' := Turn(c, d, s, r);
      if r' == r {
        s' := NextTogether(c, d, o.s, r);
      } else {
        s' := o.s;
      }
    } else {
      StepDone(c, s);
      LastTurn(c, d, s, r);
    }
  }

  lemma LastTurn(c: Config, d: Config, s: State, r: State)
    requires Passes(c, d) && s.core.ptr <= |c.text| && Together(c, s, r, d.plan) && s.core.done && Step(c, s).Done?
    ensures r.core.ptr <= |d.text| && Step(d, r) == Done(r) && Rel(s, r, d.plan)
  {
  }

  // ----- the agreement -----

  lemma DoneIsPlan(s: State)
    requires Good(s) && s.core.done
    ensures PlanOk(s.nodes) && |s.nodes| > 0
  {
    assert ParentAt(s.nodes, 0);
    forall k ensures PlanAt(s.nodes, k) { assert NamesAt(s, k); }
  }

  predicate BuiltAt(plan: seq<Node>, nodes: seq<Node>, k: int) {
    0 <= k < |plan| && k < |nodes| ==>
      var p, v := plan[k], nodes[k];
      && v.kind == p.kind && v.parent == p.parent && v.integer == p.integer
      && v.length == p.length && v.nameBytes == p.nameBytes
      && (Container(v.kind) ==> |v.slots| == p.length)
      && (v.kind == String ==> |v.text| == p.length)
      && (v.kind == Object ==> |v.keys| == p.length && KeyBytes(v.keys) == p.nameBytes)
  }

  /** Value by value, the second pass filled exactly what the first had counted:
      characters, slots, names and the bytes of the names. */
  ghost predicate Built(plan: seq<Node>, nodes: seq<Node>) { |nodes| == |plan| && forall k :: BuiltAt(plan, nodes, k) }

  /** Whatever text the first pass accepts, the second accepts too, without an
      access outside an allocation. */
  lemma PassesAgree(text: string, comments: bool)
    requires Run(First(text, comments), START).Done?
    ensures var plan := Run(First(text, comments), START).final.nodes;
            var o := Run(Second(text, comments, plan), START);
            o.Done? && Built(plan, o.final.nodes)
  {
    var c := First(text, comments);
    var f := Run(c, START).final;
    var plan := f.nodes;
    var d := Second(text, comments, plan);
    FirstPassIsSafe(text, comments);
    DoneIsPlan(f);
    hide Run;
    Simulate(c, d, START, START);
    var g := Run(d, START).final;
    forall k ensures BuiltAt(plan, g.nodes, k) { assert RelAt(plan, g.nodes, plan, k) && PlanAt(plan, k); }
  }
}
