/** The memory that the second pass writes: for every value a block of exactly the
    size that the first pass counted. */
module JsonMemory {
  import opened JsonSpec
  import opened JsonFirst

  /** A slot of a container: a value and, in an object, where its name begins
      among the name bytes and how long it is. */
  datatype Cell = Cell(at: nat, size: nat, value: nat)

  /** What one block holds: slots, and bytes behind them. */
  datatype Area = Area(cells: seq<Cell>, bytes: string)

  const NUL := 0 as char

  function CellCount(v: Node): nat { if Container(v.kind) then v.length else 0 }

  function ByteCount(v: Node): nat {
    match v.kind
    case String => v.length + 1
    case Object => if v.length > 0 then v.nameBytes else 0
    case _ => 0
  }

  class Store {
    var cells: seq<array<Cell>>
    var bytes: seq<array<char>>
    ghost var view: seq<Area>
    ghost var repr: set<object>

    ghost predicate Valid()
      reads this, repr
    {
      && |cells| == |bytes| == |view| && this !in repr
      && (forall k | 0 <= k < |cells| :: cells[k] in repr && cells[k][..] == view[k].cells)
      && (forall k | 0 <= k < |bytes| :: bytes[k] in repr && bytes[k][..] == view[k].bytes)
      && (forall j, k | 0 <= j < k < |cells| :: cells[j] != cells[k])
      && (forall j, k | 0 <= j < k < |bytes| :: bytes[j] != bytes[k])
    }

    constructor ()
      ensures Valid() && view == [] && fresh(repr)
    {
      cells, bytes, view, repr := [], [], [], {};
    }

    /** Forgets the blocks of an earlier pass. */
    method Clear()
      modifies this
      ensures Valid() && view == [] && repr == {}
    {
      cells, bytes, view, repr := [], [], [], {};
    }

    /** A new block of n slots and m bytes; what is in it is not known. */
    method Allocate(n: nat, m: nat)
      requires Valid()
      modifies this
      ensures Valid() && fresh(repr - old(repr)) && old(repr) <= repr
      ensures |view| == |old(view)| + 1 && view[..|old(view)|] == old(view)
      ensures |view[|old(view)|].cells| == n && |view[|old(view)|].bytes| == m
    {
      var c, b := new Cell[n], new char[m];
      cells, bytes := cells + [c], bytes + [b];
      view, repr := view + [Area(c[..], b[..])], repr + {c, b};
    }

    method Write(k: nat, i: nat, x: char)
      requires Valid() && k < |view| && i < |view[k].bytes|
      modifies this`view, repr
      ensures Valid() && view == old(view)[k := old(view[k]).(bytes := old(view[k]).bytes[i := x])]
    {
      var b := bytes[k];
      b[i] := x;
      view := view[k := view[k].(bytes := view[k].bytes[i := x])];
    }

    method SetCell(k: nat, j: nat, x: Cell)
      requires Valid() && k < |view| && j < |view[k].cells|
      modifies this`view, repr
      ensures Valid() && view == old(view)[k := old(view[k]).(cells := old(view[k]).cells[j := x])]
    {
      var c := cells[k];
      c[j] := x;
      view := view[k := view[k].(cells := view[k].cells[j := x])];
    }

    /** Writes the bytes one after the other, from offset `at` on. */
    method WriteAll(k: nat, at: nat, t: string)
      requires Valid() && k < |view| && at + |t| <= |view[k].bytes|
      modifies this`view, repr
      ensures Valid() && view == old(view)[k := old(view[k]).(bytes := Poured(old(view[k]).bytes, at, t))]
    {
      ghost var was := view;
      assert Poured(was[k].bytes, at, t[..0]) == was[k].bytes;
      for i := 0 to |t|
        invariant Valid() && |view| == |was| && view == was[k := was[k].(bytes := Poured(was[k].bytes, at, t[..i]))]
      {
        Write(k, at + i, t[i]);
        PouredOne(was[k].bytes, at, t, i);
      }
      assert t[..|t|] == t;
    }
  }

  /** The bytes of t at offset `at`. */
  function Poured(b: string, at: nat, t: string): (r: string)
    requires at + |t| <= |b|
    ensures |r| == |b|
  {
    b[..at] + t + b[at + |t|..]
  }

  lemma PouredOne(b: string, at: nat, t: string, i: nat)
    requires at + |t| <= |b| && i < |t|
    ensures Poured(b, at, t[..i])[at + i := t[i]] == Poured(b, at, t[..i + 1])
  {
  }

  // ----- what the memory holds -----

  /** Name j of an object stands among its name bytes, with a NUL behind it. */
  predicate KeyOk(a: Area, v: Node, j: int) {
    0 <= j < |v.keys| && j < |a.cells| ==>
      var c := a.cells[j];
      && c.at + c.size < v.nameBytes <= |a.bytes|
      && a.bytes[c.at..c.at + c.size] == v.keys[j] && a.bytes[c.at + c.size] == NUL
  }

  predicate SlotOk(a: Area, v: Node, j: int) {
    0 <= j < |v.slots| && j < |a.cells| ==> a.cells[j].value == v.slots[j]
  }

  /** Only containers have slots, only objects names, only strings a text. */
  predicate PartsOk(v: Node) {
    && v.names == |v.keys| && (v.kind != Object ==> v.keys == [])
    && (!Container(v.kind) ==> v.slots == []) && (v.kind != String ==> v.text == "")
  }

  /** The block has the planned size and holds what the value has so far; the text
      of a string counts once it is closed. */
  ghost predicate AreaOk(a: Area, p: Node, v: Node, open: bool) {
    && v.kind == p.kind && v.parent == p.parent && |a.cells| == CellCount(p) && |a.bytes| == ByteCount(p) && PartsOk(v)
    && (Container(v.kind) ==> |v.slots| == v.length <= |a.cells| && forall j :: SlotOk(a, v, j))
    && (v.kind == Object ==> |v.keys| <= |a.cells| && v.nameBytes <= |a.bytes| && forall j :: KeyOk(a, v, j))
    && (v.kind == String && !open ==> v.length < |a.bytes| && a.bytes[..v.length] == v.text && a.bytes[v.length] == NUL)
  }

  ghost predicate AreaAt(mem: seq<Area>, plan: seq<Node>, nodes: seq<Node>, open: int, k: int) {
    0 <= k < |nodes| && k < |mem| && k < |plan| ==> AreaOk(mem[k], plan[k], nodes[k], k == open)
  }

  ghost predicate MemOk(mem: seq<Area>, plan: seq<Node>, nodes: seq<Node>, open: int) {
    |mem| == |nodes| <= |plan| && forall k :: AreaAt(mem, plan, nodes, open, k)
  }

  /** Where the string that is being read begins in its block. */
  function From(v: Node): nat { if v.kind == Object then v.nameBytes else 0 }

  predicate PartOk(a: Area, v: Node, len: nat, buf: string) {
    && (v.kind == Object || v.kind == String)
    && |buf| == len && From(v) + len <= |a.bytes| && a.bytes[From(v)..From(v) + len] == buf
  }

  function Reading(core: Core): int { if core.mode.InString? then core.top else -1 }

  /** The memory of the second pass holds what its state says. */
  ghost predicate Holds(mem: seq<Area>, plan: seq<Node>, s: State) {
    && MemOk(mem, plan, s.nodes, Reading(s.core))
    && (s.core.mode.InString? ==>
          0 <= s.core.top < |mem| && PartOk(mem[s.core.top], s.nodes[s.core.top], s.core.len, s.buf))
  }

  // ----- what the writes keep -----

  lemma MemAdds(mem: seq<Area>, plan: seq<Node>, nodes: seq<Node>, a: Area)
    requires MemOk(mem, plan, nodes, -1) && |nodes| < |plan|
    requires |a.cells| == CellCount(plan[|nodes|]) && |a.bytes| == ByteCount(plan[|nodes|])
    ensures var v := Emptied(plan[|nodes|]);
            MemOk(mem + [a], plan, nodes + [v], if v.kind == String then |nodes| else -1)
  {
    var n, v := |nodes|, Emptied(plan[|nodes|]);
    var mem', nodes', open := mem + [a], nodes + [v], if v.kind == String then n else -1;
    forall k ensures AreaAt(mem', plan, nodes', open, k) {
      assert AreaAt(mem, plan, nodes, -1, k);
    }
  }

  /** One block and one value change; the others stay as they are. */
  lemma MemSets(mem: seq<Area>, plan: seq<Node>, nodes: seq<Node>, open: int, k: nat, a: Area, v: Node, open': int)
    requires MemOk(mem, plan, nodes, open) && k < |nodes| && AreaOk(a, plan[k], v, k == open')
    requires open == -1 || open == k
    requires open' == -1 || open' == k
    ensures MemOk(mem[k := a], plan, nodes[k := v], open')
  {
    var mem', nodes' := mem[k := a], nodes[k := v];
    forall j ensures AreaAt(mem', plan, nodes', open', j) {
      assert AreaAt(mem, plan, nodes, open, j);
    }
  }

  lemma PartGrows(a: Area, p: Node, v: Node, len: nat, buf: string, t: string)
    requires AreaOk(a, p, v, true) && PartOk(a, v, len, buf) && From(v) + len + |t| <= |a.bytes|
    ensures var b := a.(bytes := Poured(a.bytes, From(v) + len, t));
            AreaOk(b, p, v, true) && PartOk(b, v, len + |t|, buf + t)
  {
    var b := a.(bytes := Poured(a.bytes, From(v) + len, t));
    forall j ensures KeyOk(b, v, j) && SlotOk(b, v, j) {
      assert v.kind == Object ==> KeyOk(a, v, j);
      assert Container(v.kind) ==> SlotOk(a, v, j);
      if 0 <= j < |v.keys| && j < |a.cells| && v.kind == Object {
        var c := a.cells[j];
        assert b.bytes[c.at..c.at + c.size] == a.bytes[c.at..c.at + c.size];
      }
    }
  }

  lemma TextCloses(a: Area, p: Node, v: Node, len: nat, buf: string)
    requires AreaOk(a, p, v, true) && v.kind == String && PartOk(a, v, len, buf) && len < |a.bytes|
    ensures AreaOk(a.(bytes := a.bytes[len := NUL]), p, v.(length := len, text := buf), false)
  {
    assert a.bytes[len := NUL][..len] == a.bytes[..len];
  }

  lemma NameCloses(a: Area, p: Node, v: Node, len: nat, buf: string)
    requires AreaOk(a, p, v, true) && v.kind == Object && PartOk(a, v, len, buf)
    requires v.nameBytes + len < |a.bytes| && |v.keys| == v.length < |a.cells|
    ensures var at := v.nameBytes;
            AreaOk(Area(a.cells[v.length := Cell(at, len, a.cells[v.length].value)], a.bytes[at + len := NUL]), p,
                   v.(nameBytes := at + len + 1, names := v.names + 1, keys := v.keys + [buf]), false)
  {
    var at := v.nameBytes;
    var b := Area(a.cells[v.length := Cell(at, len, a.cells[v.length].value)], a.bytes[at + len := NUL]);
    var w := v.(nameBytes := at + len + 1, names := v.names + 1, keys := v.keys + [buf]);
    forall j ensures KeyOk(b, w, j) && SlotOk(b, w, j) {
      assert KeyOk(a, v, j) && SlotOk(a, v, j);
      if 0 <= j < |w.keys| {
        var c := b.cells[j];
        assert b.bytes[c.at..c.at + c.size] == a.bytes[c.at..c.at + c.size];
      }
    }
  }

  lemma SlotFills(a: Area, p: Node, v: Node, open: bool, child: nat)
    requires AreaOk(a, p, v, open) && Container(v.kind) && v.length < |a.cells|
    ensures AreaOk(a.(cells := a.cells[v.length := a.cells[v.length].(value := child)]), p,
                   v.(length := v.length + 1, slots := v.slots + [child]), open)
  {
    var b := a.(cells := a.cells[v.length := a.cells[v.length].(value := child)]);
    var w := v.(length := v.length + 1, slots := v.slots + [child]);
    forall j ensures SlotOk(b, w, j) && (v.kind == Object ==> KeyOk(b, w, j)) {
      assert SlotOk(a, v, j) && (v.kind == Object ==> KeyOk(a, v, j));
    }
  }

  lemma AreaHere(mem: seq<Area>, plan: seq<Node>, nodes: seq<Node>, open: int, k: nat)
    requires MemOk(mem, plan, nodes, open) && k < |nodes|
    ensures |mem| == |nodes| <= |plan| && AreaOk(mem[k], plan[k], nodes[k], k == open)
  {
    assert AreaAt(mem, plan, nodes, open, k);
  }

  /** The size and the kind of a block in which a string is read. */
  lemma AreaFacts(a: Area, p: Node, v: Node, open: bool)
    requires AreaOk(a, p, v, open)
    ensures v.kind == p.kind && v.parent == p.parent && |a.cells| == CellCount(p) && |a.bytes| == ByteCount(p)
    ensures Container(v.kind) ==> |v.slots| == v.length
    ensures v.kind == Object ==> v.nameBytes <= |a.bytes|
  {
  }

  /** The first pass has no memory. */
  ghost predicate InMemory(first: bool, mem: seq<Area>, plan: seq<Node>, s: State) {
    first || (Holds(mem, plan, s) && Parents(plan))
  }

  /** Outside strings, flags and cursors do not matter to the memory ... */
  lemma QuietMemory(first: bool, mem: seq<Area>, plan: seq<Node>, s: State, s': State)
    requires InMemory(first, mem, plan, s) && s'.nodes == s.nodes
    requires !s.core.mode.InString? && !s'.core.mode.InString?
    ensures InMemory(first, mem, plan, s')
  {
    hide MemOk, Parents;
  }

  /** ... and inside a string only its place and length do. */
  lemma QuietString(first: bool, mem: seq<Area>, plan: seq<Node>, s: State, s': State)
    requires InMemory(first, mem, plan, s) && s'.nodes == s.nodes && s'.buf == s.buf
    requires s.core.mode.InString? && s'.core.mode.InString? && s'.core.top == s.core.top && s'.core.len == s.core.len
    ensures InMemory(first, mem, plan, s')
  {
    hide MemOk, Parents;
  }

  /** A name begins at the end of the name bytes so far. */
  lemma NameBegins(first: bool, mem: seq<Area>, plan: seq<Node>, s: State, s': State)
    requires InMemory(first, mem, plan, s) && !s.core.mode.InString? && TopIs(s, Object)
    requires s'.nodes == s.nodes && s'.buf == "" && s'.core.mode.InString? && s'.core.top == s.core.top
    requires s'.core.len == 0
    ensures InMemory(first, mem, plan, s')
  {
    if !first {
      var t := s.core.top;
      AreaHere(mem, plan, s.nodes, -1, t);
      MemSets(mem, plan, s.nodes, -1, t, mem[t], s.nodes[t], t);
      assert mem[t := mem[t]] == mem && s.nodes[t := s.nodes[t]] == s.nodes;
    }
  }

  /** The next value takes the next block. */
  lemma BlockAdded(mem: seq<Area>, plan: seq<Node>, s: State, mem': seq<Area>, s': State)
    requires Holds(mem, plan, s) && !s.core.mode.InString? && |s.nodes| < |plan|
    requires |mem'| == |mem| + 1 && mem'[..|mem|] == mem && s'.nodes == s.nodes + [Emptied(plan[|s.nodes|])]
    requires |mem'[|mem|].cells| == CellCount(plan[|s.nodes|]) && |mem'[|mem|].bytes| == ByteCount(plan[|s.nodes|])
    requires s'.core.top == |s.nodes| && (s'.core.mode.InString? <==> plan[|s.nodes|].kind == String)
    requires s'.core.mode.InString? ==> s'.core.len == 0 && s'.buf == ""
    ensures Holds(mem', plan, s')
  {
    MemAdds(mem, plan, s.nodes, mem'[|mem|]);
    assert mem' == mem + [mem'[|mem|]];
  }

  /** More bytes of the string. */
  lemma StringMemory(mem: seq<Area>, plan: seq<Node>, s: State, bytes: string)
    requires Holds(mem, plan, s) && s.core.mode.InString? && Room(plan, s.nodes, s.core.top, s.core.len + |bytes|)
    ensures var t := s.core.top;
            var at := From(s.nodes[t]) + s.core.len;
            && t < |mem| && at + |bytes| <= |mem[t].bytes|
            && Holds(mem[t := mem[t].(bytes := Poured(mem[t].bytes, at, bytes))], plan,
                     s.(core := s.core.(len := s.core.len + |bytes|, mode := InString(false)), buf := s.buf + bytes))
  {
    hide AreaOk, MemOk;
    var t := s.core.top;
    AreaHere(mem, plan, s.nodes, t, t);
    AreaFacts(mem[t], plan[t], s.nodes[t], true);
    PartGrows(mem[t], plan[t], s.nodes[t], s.core.len, s.buf, bytes);
    MemSets(mem, plan, s.nodes, t, t, mem[t].(bytes := Poured(mem[t].bytes, From(s.nodes[t]) + s.core.len, bytes)),
            s.nodes[t], t);
    assert s.nodes[t := s.nodes[t]] == s.nodes;
  }

  /** The block after the closing quote. */
  function Closed(a: Area, v: Node, len: nat): Area
    requires From(v) + len < |a.bytes| && (v.kind == Object ==> v.length < |a.cells|)
  {
    var b := a.(bytes := a.bytes[From(v) + len := NUL]);
    if v.kind == Object then b.(cells := b.cells[v.length := b.cells[v.length].(at := v.nameBytes, size := len)]) else b
  }

  /** What a value becomes at the closing quote of its text or of a name. */
  function ClosedValue(first: bool, s: State, v: Node): Node {
    if v.kind == Object then Named(first, v, s) else v.(length := s.core.len, text := if first then "" else s.buf)
  }

  lemma ClosedMemory(mem: seq<Area>, plan: seq<Node>, s: State)
    requires Holds(mem, plan, s) && s.core.mode.InString? && KeyNext(s)
    requires Room(plan, s.nodes, s.core.top, s.core.len + 1)
    requires s.nodes[s.core.top].kind == Object ==> s.nodes[s.core.top].length < plan[s.core.top].length
    ensures var t := s.core.top;
            var w := ClosedValue(false, s, s.nodes[t]);
            && t < |mem| == |s.nodes| && From(s.nodes[t]) + s.core.len < |mem[t].bytes|
            && (s.nodes[t].kind == Object ==> s.nodes[t].length < |mem[t].cells|)
            && MemOk(mem[t := Closed(mem[t], s.nodes[t], s.core.len)], plan, s.nodes[t := w], -1)
  {
    hide AreaOk, MemOk;
    var t := s.core.top;
    var v := s.nodes[t];
    AreaHere(mem, plan, s.nodes, t, t);
    AreaFacts(mem[t], plan[t], v, true);
    if v.kind == Object {
      NameCloses(mem[t], plan[t], v, s.core.len, s.buf);
    } else {
      TextCloses(mem[t], plan[t], v, s.core.len, s.buf);
    }
    MemSets(mem, plan, s.nodes, t, t, Closed(mem[t], v, s.core.len), ClosedValue(false, s, v), -1);
  }

  /** The next slot of the parent. */
  lemma SlotMemory(mem: seq<Area>, plan: seq<Node>, s: State, t: nat)
    requires Holds(mem, plan, s) && Parents(plan) && !s.core.mode.InString? && t < |s.nodes| && s.nodes[t].parent >= 0
    ensures var p := s.nodes[t].parent;
            && p < t < |plan| && p < |mem| && Container(s.nodes[p].kind) && |mem[p].cells| == plan[p].length
            && var v := s.nodes[p];
               v.length < plan[p].length ==>
                 var a := mem[p].(cells := mem[p].cells[v.length := mem[p].cells[v.length].(value := t)]);
                 MemOk(mem[p := a], plan, s.nodes[p := Grown(false, v, t)], -1)
  {
    hide AreaOk, MemOk;
    AreaHere(mem, plan, s.nodes, -1, t);
    AreaFacts(mem[t], plan[t], s.nodes[t], false);
    assert ParentAt(plan, t);
    var p := s.nodes[t].parent;
    var v := s.nodes[p];
    AreaHere(mem, plan, s.nodes, -1, p);
    AreaFacts(mem[p], plan[p], v, false);
    if v.length < plan[p].length {
      SlotFills(mem[p], plan[p], v, false, t);
      var a := mem[p].(cells := mem[p].cells[v.length := mem[p].cells[v.length].(value := t)]);
      MemSets(mem, plan, s.nodes, -1, p, a, Grown(false, v, t), -1);
    }
  }

  /** Names and values of the object whose name is being read are in step. */
  predicate KeyNext(s: State) {
    s.core.mode.InString? && TopIs(s, Object) ==> |s.nodes[s.core.top].keys| == s.nodes[s.core.top].length
  }

  predicate StartsValue(b: char) { b in "{[\"tfn-" || Digit(b) }
}
