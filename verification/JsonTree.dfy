/** What the second pass builds is a tree: every value but the root lies in
    exactly one slot, that of its parent. */
module JsonTree {
  import opened JsonSpec
  import opened JsonFirst
  import opened JsonPasses
  import opened JsonSecond
  import opened JsonAgree

  /** Values that are not complete yet. */
  predicate Open(nodes: seq<Node>, top: int, k: int) { k == top || Above(nodes, k, top) }

  predicate SlotAt(nodes: seq<Node>, top: int, p: int, i: int) {
    0 <= p < |nodes| && 0 <= i < |nodes[p].slots| ==>
      var k := nodes[p].slots[i]; 0 < k < |nodes| && nodes[k].parent == p && !Open(nodes, top, k)
  }

  predicate ApartAt(nodes: seq<Node>, p: int, i: int, j: int) {
    0 <= p < |nodes| && 0 <= i < j < |nodes[p].slots| ==> nodes[p].slots[i] != nodes[p].slots[j]
  }

  predicate HeldAt(nodes: seq<Node>, top: int, k: int) {
    0 < k < |nodes| && !Open(nodes, top, k) ==> 0 <= nodes[k].parent < |nodes| && k in nodes[nodes[k].parent].slots
  }

  /** The complete values lie in slots, the open ones do not. */
  ghost predicate Tree(nodes: seq<Node>, top: int) {
    && (forall p, i :: SlotAt(nodes, top, p, i))
    && (forall p, i, j :: ApartAt(nodes, p, i, j))
    && (forall k :: HeldAt(nodes, top, k))
  }

  predicate SameSkeleton(a: seq<Node>, b: seq<Node>) {
    |a| == |b| && forall k | 0 <= k < |a| :: a[k].parent == b[k].parent && a[k].slots == b[k].slots
  }

  lemma QuietTree(a: seq<Node>, b: seq<Node>, top: int)
    requires Tree(a, top) && SameSkeleton(a, b)
    ensures Tree(b, top)
  {
    forall k ensures Open(a, top, k) == Open(b, top, k) {
      if top < |a| { AboveSame(a, b, k, top); }
    }
    forall p, i ensures SlotAt(b, top, p, i) { assert SlotAt(a, top, p, i); }
    forall p, i, j ensures ApartAt(b, p, i, j) { assert ApartAt(a, p, i, j); }
    forall k ensures HeldAt(b, top, k) { assert HeldAt(a, top, k); }
  }

  lemma FinishTree(d: Config, r: State, ptr: nat)
    requires !d.first && Tree(r.nodes, r.core.top) && Parents(r.nodes) && 0 <= r.core.top < |r.nodes|
    ensures var o := Finish(d, r, ptr); o.Next? ==> Tree(o.s.nodes, o.s.core.top)
  {
    var o, t := Finish(d, r, ptr), r.core.top;
    assert ParentAt(r.nodes, t);
    var p := r.nodes[t].parent;
    if o.Next? && p >= 0 {
      var a, b := r.nodes, o.s.nodes;
      assert b[p].slots == a[p].slots + [t];
      forall k ensures Open(a, t, k) == (k == t || Open(b, p, k)) && !Open(b, p, t) {
        AboveSame(a, b, k, p);
        if Above(b, t, p) { AboveIsBelow(b, t, p); }
      }
      forall q, i ensures SlotAt(b, p, q, i) {
        assert SlotAt(a, t, q, i);
      }
      forall q, i, j ensures ApartAt(b, q, i, j) { assert ApartAt(a, q, i, j) && SlotAt(a, t, q, i); }
      forall k ensures HeldAt(b, p, k) { assert HeldAt(a, t, k); }
    }
  }

  lemma NewTree(d: Config, r: State, kind: Kind, value: int)
    requires !d.first && Tree(r.nodes, r.core.top) && -1 <= r.core.top < |r.nodes|
    requires |r.nodes| < |d.plan| ==> d.plan[|r.nodes|].parent == r.core.top
    ensures var o := New(d, r, kind, value); o.Next? ==> Tree(o.s.nodes, o.s.core.top)
  {
    var o, n, t := New(d, r, kind, value), |r.nodes|, r.core.top;
    if o.Next? {
      var a, b := r.nodes, o.s.nodes;
      forall k | k != n ensures Open(b, n, k) == Open(a, t, k) || k < 0 {
        if t >= 0 { AboveSame(a, b, k, t); }
      }
      forall p, i ensures SlotAt(b, n, p, i) { assert SlotAt(a, t, p, i); }
      forall p, i, j ensures ApartAt(b, p, i, j) { assert ApartAt(a, p, i, j); }
      forall k ensures HeldAt(b, n, k) { assert HeldAt(a, t, k); }
    }
  }

  // ----- the turns of the second pass -----

  predicate Planned(nodes: seq<Node>, plan: seq<Node>) {
    && |nodes| <= |plan|
    && forall k | 0 <= k < |nodes| :: nodes[k].kind == plan[k].kind && nodes[k].parent == plan[k].parent
  }

  lemma PlannedParents(nodes: seq<Node>, plan: seq<Node>)
    requires Planned(nodes, plan) && Parents(plan)
    ensures Parents(nodes)
  {
    forall k ensures ParentAt(nodes, k) { assert ParentAt(plan, k); }
  }

  /** The tree, as far as it is built, and the next value's place in it. */
  ghost predicate Grows(d: Config, r: State) {
    && !d.first && Tree(r.nodes, r.core.top) && -1 <= r.core.top < |r.nodes|
    && Planned(r.nodes, d.plan) && Parents(d.plan)
  }

  predicate Roots(d: Config, r: State) { |r.nodes| < |d.plan| ==> d.plan[|r.nodes|].parent == r.core.top }

  ghost predicate Stays(o: Outcome) { o.Next? ==> Tree(o.s.nodes, o.s.core.top) }

  lemma FinishStays(d: Config, r: State, ptr: nat)
    requires Grows(d, r) && 0 <= r.core.top
    ensures Stays(Finish(d, r, ptr))
  {
    PlannedParents(r.nodes, d.plan);
    FinishTree(d, r, ptr);
  }

  lemma LiteralStays(d: Config, r: State, kind: Kind, value: int, ptr: nat)
    requires Grows(d, r) && Roots(d, r)
    ensures Stays(Literal(d, r, kind, value, ptr))
  {
    NewTree(d, r, kind, value);
    if New(d, r, kind, value).Next? {
      hide Tree, Finish;
      FinishStays(d, New(d, r, kind, value).s, ptr);
    }
  }

  lemma StringStays(d: Config, r: State, b: char)
    requires Grows(d, r) && r.core.mode.InString?
    ensures Stays(StringTurn(d, r, b))
  {
    hide Tree, Finish, PointAt, Utf8, Utf8Length, Parents;
    var t, o := r.core.top, StringTurn(d, r, b);
    if o.Next? {
      if TopIs(r, String) && b == '"' && !r.core.mode.escaped {
        var v := r.nodes[t].(length := r.core.len, text := r.buf);
        var r1 := r.(core := r.core.(mode := Normal), nodes := r.nodes[t := v], buf := "");
        QuietTree(r.nodes, r1.nodes, t);
        FinishStays(d, r1, r.core.ptr + 1);
      } else {
        assert SameSkeleton(r.nodes, o.s.nodes);
        QuietTree(r.nodes, o.s.nodes, t);
      }
    }
  }

  lemma ValueStays(d: Config, r: State, b: char)
    requires Grows(d, r) && Roots(d, r) && r.core.ptr <= |d.text|
    ensures Stays(ValueTurn(d, r, b))
  {
    hide Tree, Literal, Parents, Planned, New;
    var p := r.core.ptr;
    var r1 := r.(core := r.core.(ptr := p + 1));
    NewTree(d, r1, Object, 0);
    NewTree(d, r1, Array, 0);
    NewTree(d, r1, String, 0);
    LiteralStays(d, r, Boolean, 1, p + 4);
    LiteralStays(d, r, Boolean, 0, p + 5);
    LiteralStays(d, r, Null, 0, p + 4);
    LiteralStays(d, r, Integer, 0, SkipEnd(d.text, p));
  }

  lemma StepStays(d: Config, r: State)
    requires Grows(d, r) && r.core.ptr <= |d.text| && Step(d, r).Next?
    requires |Step(d, r).s.nodes| > |r.nodes| ==> Roots(d, r)
    requires !r.core.seek && !r.core.done && r.core.mode == Normal ==> TopIs(r, Object)
    requires CommentsOn(d, r)
    ensures Stays(Step(d, r))
  {
    var b, core, p := At(d.text, r.core.ptr), r.core, r.core.ptr;
    hide Tree, StringTurn, ValueTurn, Finish, Planned, Parents;
    if core.mode.InString? {
      StringStays(d, r, b);
    } else if d.comments && (core.mode != Normal || b == '/') {
    } else if core.done {
    } else if core.seek {
      if b == ']' && TopIs(r, Array) { FinishStays(d, r.(core := core.(needComma := false, seek := false)), p + 1); }
      if Roots(d, r) { ValueStays(d, r, b); } else { SameCountStays(d, r, b); }
    } else {
      if b == '}' { FinishStays(d, r.(core := core.(needComma := false)), p + 1); }
    }
  }

  lemma SameCountStays(d: Config, r: State, b: char)
    requires r.core.ptr <= |d.text|
    ensures var o := ValueTurn(d, r, b); o.Next? ==> |o.s.nodes| > |r.nodes|
  {
  }

  // ----- along both passes -----

  lemma GrowsUnderTop(c: Config, s: State)
    requires c.first && s.core.ptr <= |c.text| && Step(c, s).Next? && |Step(c, s).s.nodes| > |s.nodes|
    ensures |Step(c, s).s.nodes| == |s.nodes| + 1 && Step(c, s).s.nodes[|s.nodes|].parent == s.core.top
  {
    hide PointAt, Utf8, Utf8Length;
  }

  lemma TogetherGrows(c: Config, d: Config, s: State, r: State)
    requires Passes(c, d) && Good(s) && CommentsOn(c, s) && Together(c, s, r, d.plan) && Ext(s.nodes, d.plan)
    requires Tree(r.nodes, r.core.top) && Parents(d.plan)
    ensures Grows(d, r) && CommentsOn(d, r)
    ensures !r.core.seek && !r.core.done && r.core.mode == Normal ==> TopIs(r, Object)
  {
    forall k | 0 <= k < |r.nodes|
      ensures k < |d.plan| && r.nodes[k].kind == d.plan[k].kind && r.nodes[k].parent == d.plan[k].parent
    {
      assert RelAt(s.nodes, r.nodes, d.plan, k);
    }
    assert ParentAt(s.nodes, |s.nodes| - 1);
    if !NumRel(c, s, r, d.plan) && s.core.top >= 0 { assert ExtAt(s.nodes, d.plan, s.core.top); }
  }

  lemma NextRoots(c: Config, d: Config, s: State, r: State, r': State)
    requires Passes(c, d) && s.core.ptr <= |c.text| && r.core.ptr <= |d.text| && Together(c, s, r, d.plan)
    requires Ext(s.nodes, d.plan)
    requires Step(c, s).Next? && Ext(Step(c, s).s.nodes, d.plan) && Rel(Step(c, s).s, r', d.plan)
    requires |r'.nodes| > |r.nodes|
    ensures Roots(d, r)
  {
    var n := |r.nodes|;
    if NumRel(c, s, r, d.plan) {
      assert ExtAt(s.nodes, d.plan, n);
    } else {
      hide Step;
      GrowsUnderTop(c, s);
      assert ExtAt(Step(c, s).s.nodes, d.plan, n);
    }
  }

  lemma {:induction false} SimulateTree(c: Config, d: Config, s: State, r: State)
    requires Passes(c, d) && Good(s) && CommentsOn(c, s) && s.core.ptr <= |c.text| && PlanOk(d.plan)
    requires Run(c, s).Done? && d.plan == Run(c, s).final.nodes && Together(c, s, r, d.plan)
    requires Tree(r.nodes, r.core.top) && Parents(d.plan)
    ensures r.core.ptr <= |d.text| && Run(d, r).Done? && Tree(Run(d, r).final.nodes, Run(d, r).final.core.top)
    decreases |c.text| - s.core.ptr, Rank(s.core), TopOf(s), IntegerBit(s)
  {
    StepGood(c, s);
    StepForward(c, s);
    RunBound(c, s);
    var o := Step(c, s);
    if o.Next? {
      assert Step(c, o.s) != Fail;
      RunBound(c, o.s);
      hide Step, Good, CommentsOn, PlanOk, Ext, InBound, Together, Rel, Tree, Parents;
      var r' := Turn(c, d, s, r);
      if r' != r {
        TogetherGrows(c, d, s, r);
        if |r'.nodes| > |r.nodes| { NextRoots(c, d, s, r, r'); }
        StepStays(d, r);
      }
      SimulateTree(c, d, o.s, r');
    } else {
      StepDone(c, s);
      LastTurn(c, d, s, r);
    }
  }

  // ----- the finished tree -----

  predicate SlotOk(nodes: seq<Node>, p: int, i: int) {
    0 <= p < |nodes| && 0 <= i < |nodes[p].slots| ==>
      0 < nodes[p].slots[i] < |nodes| && nodes[nodes[p].slots[i]].parent == p
  }

  predicate ValueOk(nodes: seq<Node>, k: int) {
    0 <= k < |nodes| ==>
      && -1 <= nodes[k].parent < k && (nodes[k].parent < 0 <==> k == 0)
      && (k > 0 ==> k in nodes[nodes[k].parent].slots)
      && |nodes[k].slots| == (if Container(nodes[k].kind) then nodes[k].length else 0)
  }

  /** Parent links and slots agree, and every value but the root has one slot. */
  ghost predicate IsTree(nodes: seq<Node>) {
    && |nodes| > 0
    && (forall k :: ValueOk(nodes, k))
    && (forall p, i :: SlotOk(nodes, p, i))
    && (forall p, i, j :: ApartAt(nodes, p, i, j))
  }

  lemma ParsedIsTree(text: string, comments: bool)
    requires Run(First(text, comments), START).Done?
    ensures var plan := Run(First(text, comments), START).final.nodes;
            var o := Run(Second(text, comments, plan), START);
            o.Done? && IsTree(o.final.nodes)
  {
    var c := First(text, comments);
    var f := Run(c, START).final;
    var plan := f.nodes;
    var d := Second(text, comments, plan);
    FirstPassIsSafe(text, comments);
    DoneIsPlan(f);
    assert Tree(START.nodes, START.core.top);
    hide Run;
    Simulate(c, d, START, START);
    SimulateTree(c, d, START, START);
    FinishedTree(f, Run(d, START).final);
  }

  lemma FinishedTree(f: State, g: State)
    requires Good(f) && f.core.done && Rel(f, g, f.nodes) && Tree(g.nodes, g.core.top)
    ensures IsTree(g.nodes)
  {
    var nodes := g.nodes;
    assert RelAt(f.nodes, nodes, f.nodes, 0) && ParentAt(f.nodes, 0);
    forall k ensures ValueOk(nodes, k) {
      assert RelAt(f.nodes, nodes, f.nodes, k) && ParentAt(f.nodes, k) && HeldAt(nodes, 0, k);
    }
    forall p, i ensures SlotOk(nodes, p, i) { assert SlotAt(nodes, 0, p, i); }
  }
}
