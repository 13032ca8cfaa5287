/** Freeing a parsed value without recursion: the walk counts the lengths down
    and climbs by the parent links. */
module JsonFree {
  import opened JsonSpec
  import opened JsonFirst
  import opened JsonTree

  /** What a parsed tree holds on the heap. */
  datatype Block = Value(k: nat) | Chars(k: nat) | Slots(k: nat)

  /** The blocks of one value, in the order in which they are freed. */
  function BlocksOf(nodes: seq<Node>, k: nat): seq<Block>
    requires k < |nodes|
  {
    (if nodes[k].kind == String then [Chars(k)] else if |nodes[k].slots| > 0 then [Slots(k)] else []) + [Value(k)]
  }

  /** One slot during the walk: freed behind the cursor, untouched before it, and
      on the way down at it. */
  predicate SlotState(nodes: seq<Node>, len: seq<nat>, rest: set<nat>, v: int, k: int, i: int) {
    0 <= k < |nodes| == |len| && 0 <= i < |nodes[k].slots| ==>
      var ch := nodes[k].slots[i];
      if k !in rest then ch !in rest
      else if i < len[k] then ch in rest && !Open(nodes, v, ch)
      else if i > len[k] || k == v then ch !in rest
      else Open(nodes, v, ch)
  }

  predicate Cursor(nodes: seq<Node>, len: seq<nat>, rest: set<nat>, v: int, k: int) {
    0 <= k < |nodes| == |len| ==>
      && len[k] <= |nodes[k].slots|
      && (Open(nodes, v, k) ==> k in rest)
      && (k in rest && !Open(nodes, v, k) ==> len[k] == |nodes[k].slots|)
  }

  ghost predicate Walking(nodes: seq<Node>, len: seq<nat>, rest: set<nat>, v: int) {
    && |len| == |nodes| && -1 <= v < |nodes| && (v < 0 ==> 0 !in rest)
    && (forall k, i :: SlotState(nodes, len, rest, v, k, i))
    && (forall k :: Cursor(nodes, len, rest, v, k))
  }

  lemma OpenUp(nodes: seq<Node>, v: int, k: int)
    requires IsTree(nodes) && 0 <= v < |nodes|
    ensures Open(nodes, v, k) <==> k == v || (nodes[v].parent >= 0 && Open(nodes, nodes[v].parent, k))
    ensures Open(nodes, v, k) ==> 0 <= k <= v
  {
    assert ValueOk(nodes, v);
    if Above(nodes, k, v) { AboveIsBelow(nodes, k, v); }
  }

  lemma Descend(nodes: seq<Node>, len: seq<nat>, rest: set<nat>, v: int)
    requires IsTree(nodes) && Walking(nodes, len, rest, v) && v >= 0 && len[v] > 0
    ensures Cursor(nodes, len, rest, v, v) && len[v] <= |nodes[v].slots|
    ensures var n := len[v] - 1;
            v < nodes[v].slots[n] && Walking(nodes, len[v := n], rest, nodes[v].slots[n])
  {
    assert Cursor(nodes, len, rest, v, v);
    var n := len[v] - 1;
    var len', ch := len[v := n], nodes[v].slots[n];
    assert SlotOk(nodes, v, n) && ValueOk(nodes, ch) && SlotState(nodes, len, rest, v, v, n);
    forall k ensures Open(nodes, ch, k) <==> k == ch || Open(nodes, v, k) { OpenUp(nodes, ch, k); }
    forall k ensures Cursor(nodes, len', rest, ch, k) { assert Cursor(nodes, len, rest, v, k); }
    forall k, i ensures SlotState(nodes, len', rest, ch, k, i) {
      assert SlotState(nodes, len, rest, v, k, i) && SlotOk(nodes, k, i) && ApartAt(nodes, v, i, n)
             && Cursor(nodes, len, rest, v, k) && ValueOk(nodes, k);
    }
  }

  lemma Climb(nodes: seq<Node>, len: seq<nat>, rest: set<nat>, v: int)
    requires IsTree(nodes) && Walking(nodes, len, rest, v) && v >= 0 && len[v] == 0
    ensures v in rest && Walking(nodes, len, rest - {v}, nodes[v].parent)
  {
    var p, rest' := nodes[v].parent, rest - {v};
    assert ValueOk(nodes, v) && Cursor(nodes, len, rest, v, v);
    forall k ensures Open(nodes, v, k) <==> k == v || (p >= 0 && Open(nodes, p, k)) { OpenUp(nodes, v, k); }
    if p >= 0 { OpenUp(nodes, p, v); }
    forall k ensures Cursor(nodes, len, rest', p, k) { assert Cursor(nodes, len, rest, v, k); }
    forall k, i ensures SlotState(nodes, len, rest', p, k, i) {
      assert SlotState(nodes, len, rest, v, k, i) && SlotOk(nodes, k, i) && ValueOk(nodes, k);
      if 0 <= k < |nodes| && 0 <= i < |nodes[k].slots| {
        assert ValueOk(nodes, nodes[k].slots[i]);
        if p >= 0 { OpenUp(nodes, p, nodes[k].slots[i]); }
      }
    }
  }

  lemma {:induction false} AllFreed(nodes: seq<Node>, len: seq<nat>, rest: set<nat>, k: nat)
    requires IsTree(nodes) && Walking(nodes, len, rest, -1) && k < |nodes|
    ensures k !in rest
  {
    if k > 0 {
      assert ValueOk(nodes, k);
      var p := nodes[k].parent;
      AllFreed(nodes, len, rest, p);
      var i :| 0 <= i < |nodes[p].slots| && nodes[p].slots[i] == k;
      assert SlotState(nodes, len, rest, -1, p, i);
    }
  }

  lemma StartWalking(nodes: seq<Node>, len: seq<nat>, rest: set<nat>)
    requires IsTree(nodes) && |len| == |nodes|
    requires forall k | 0 <= k < |nodes| ::
               len[k] == (if Container(nodes[k].kind) then nodes[k].length else 0) && k in rest
    ensures |nodes| > 0 && Walking(nodes, len, rest, 0)
  {
    forall k ensures Cursor(nodes, len, rest, 0, k) { assert ValueOk(nodes, k); }
    forall k ensures Open(nodes, 0, k) <==> k == 0 { OpenUp(nodes, 0, k); assert ValueOk(nodes, 0); }
    forall k, i ensures SlotState(nodes, len, rest, 0, k, i) { assert SlotOk(nodes, k, i) && ValueOk(nodes, k); }
  }

  // ----- what was freed -----

  predicate Once(log: seq<Block>, i: int, j: int) { 0 <= i < j < |log| ==> log[i] != log[j] }

  ghost predicate NoDouble(log: seq<Block>) { forall i, j :: Once(log, i, j) }

  predicate Owned(nodes: seq<Node>, b: Block) { b.k < |nodes| && b in BlocksOf(nodes, b.k) }

  /** Value k is freed if there is one, its characters if it is a string, and its slots
      if it is a container that is not empty. */
  predicate FreedAt(nodes: seq<Node>, log: seq<Block>, k: nat) {
    && (Value(k) in log <==> k < |nodes|)
    && (Chars(k) in log <==> k < |nodes| && nodes[k].kind == String)
    && (Slots(k) in log <==> k < |nodes| && Container(nodes[k].kind) && nodes[k].length > 0)
  }

  lemma OwnedIs(nodes: seq<Node>, log: seq<Block>, k: nat)
    requires IsTree(nodes) && forall b :: b in log <==> Owned(nodes, b)
    ensures FreedAt(nodes, log, k)
  {
    if k < |nodes| { assert ValueOk(nodes, k); }
  }

  predicate LogState(nodes: seq<Node>, rest: set<nat>, log: seq<Block>, b: Block) {
    b in log <==> Owned(nodes, b) && b.k !in rest
  }

  /** So far exactly the blocks of the freed values were freed, each once. */
  ghost predicate Logged(nodes: seq<Node>, rest: set<nat>, log: seq<Block>) {
    NoDouble(log) && forall b :: LogState(nodes, rest, log, b)
  }

  lemma LogMore(nodes: seq<Node>, rest: set<nat>, log: seq<Block>, k: nat)
    requires Logged(nodes, rest, log) && k < |nodes| && k in rest
    ensures Logged(nodes, rest - {k}, log + BlocksOf(nodes, k))
    ensures forall b | b in BlocksOf(nodes, k) :: b !in log
  {
    var more := BlocksOf(nodes, k);
    forall b | b in more ensures b !in log { assert LogState(nodes, rest, log, b); }
    forall b ensures LogState(nodes, rest - {k}, log + more, b) { assert LogState(nodes, rest, log, b); }
    var all := log + more;
    forall i, j ensures Once(all, i, j) {
      assert Once(log, i, j);
      if 0 <= i < |log| <= j < |all| { assert all[i] in log && all[j] in more; }
    }
  }

  function Below(n: nat): (r: set<nat>)
    ensures forall k: nat :: k in r <==> k < n
  {
    if n == 0 then {} else Below(n - 1) + {n - 1}
  }

  lemma NothingLogged(nodes: seq<Node>)
    ensures Logged(nodes, Below(|nodes|), [])
  {
    forall b ensures LogState(nodes, Below(|nodes|), [], b) { }
  }

  lemma WalkingInside(nodes: seq<Node>, len: seq<nat>, rest: set<nat>, v: int)
    requires Walking(nodes, len, rest, v)
    ensures -1 <= v < |nodes|
  {
  }

  lemma LeafEmpty(nodes: seq<Node>, len: seq<nat>, rest: set<nat>, v: int)
    requires IsTree(nodes) && Walking(nodes, len, rest, v) && 0 <= v
    ensures len[v] <= |nodes[v].slots|
    ensures !Container(nodes[v].kind) ==> nodes[v].slots == []
  {
    assert ValueOk(nodes, v) && Cursor(nodes, len, rest, v, v);
  }

  /** The walk never stands on freed memory. */
  lemma CursorAlive(nodes: seq<Node>, len: seq<nat>, rest: set<nat>, v: int, log: seq<Block>)
    requires Walking(nodes, len, rest, v) && 0 <= v && Logged(nodes, rest, log)
    ensures Value(v) !in log && Slots(v) !in log && Chars(v) !in log
  {
    assert Cursor(nodes, len, rest, v, v);
    assert LogState(nodes, rest, log, Value(v)) && LogState(nodes, rest, log, Slots(v));
    assert LogState(nodes, rest, log, Chars(v));
  }

  lemma Complete(nodes: seq<Node>, len: seq<nat>, rest: set<nat>, log: seq<Block>)
    requires IsTree(nodes) && Walking(nodes, len, rest, -1) && Logged(nodes, rest, log)
    ensures NoDouble(log) && forall b :: b in log <==> Owned(nodes, b)
  {
    forall b ensures b in log <==> Owned(nodes, b) {
      assert LogState(nodes, rest, log, b);
      if b.k < |nodes| { AllFreed(nodes, len, rest, b.k); }
    }
  }

  /** json_value_free_ex: on every tree the walk ends, no block is freed twice,
      none is left, and the value at the cursor has not been freed. */
  method FreeWalk(nodes: seq<Node>) returns (log: seq<Block>)
    requires IsTree(nodes)
    ensures NoDouble(log)
    ensures forall b :: b in log <==> Owned(nodes, b)
    ensures forall k: nat :: FreedAt(nodes, log, k)
  {
    hide IsTree, Walking, Logged, NoDouble, FreedAt;
    var len := new nat[|nodes|](k requires 0 <= k < |nodes| => if Container(nodes[k].kind) then nodes[k].length else 0);
    var v := 0;
    log := [];
    ghost var rest := Below(|nodes|);
    StartWalking(nodes, len[..], rest);
    NothingLogged(nodes);
    while v >= 0
      invariant len.Length == |nodes| && Walking(nodes, len[..], rest, v) && -1 <= v < |nodes|
      invariant Logged(nodes, rest, log)
      decreases rest, |nodes| - v
    {
      CursorAlive(nodes, len[..], rest, v, log);
      assert (Container(nodes[v].kind) || len[v] == 0) by { LeafEmpty(nodes, len[..], rest, v); }
      if Container(nodes[v].kind) && len[v] != 0 {
        Descend(nodes, len[..], rest, v);
        ghost var before := len[..];
        len[v] := len[v] - 1;
        assert len[..] == before[v := before[v] - 1];
        v := nodes[v].slots[len[v]];
        WalkingInside(nodes, len[..], rest, v);
      } else {
        Climb(nodes, len[..], rest, v);
        LogMore(nodes, rest, log, v);
        ghost var before := log;
        if Container(nodes[v].kind) && |nodes[v].slots| > 0 {
          log := log + [Slots(v)];
        } else if nodes[v].kind == String {
          log := log + [Chars(v)];
        }
        var cur := v;
        v := nodes[v].parent;
        log := log + [Value(cur)];
        assert log == before + BlocksOf(nodes, cur) by { LeafEmpty(nodes, len[..], rest, cur); }
        rest := rest - {cur};
        WalkingInside(nodes, len[..], rest, v);
      }
    }
    Complete(nodes, len[..], rest, log);
    forall k: nat ensures FreedAt(nodes, log, k) { OwnedIs(nodes, log, k); }
  }
}
