/** Four-level page tables (4-level paging, section 4.5 of the Intel SDM,
    volume 3A) as frames of 512 entries, and the map they stand for. */
module PageTree {
  import opened Basics

  const SLOTS: nat := 512
  const PPN_LIMIT: nat := 0x1000_0000      // page_ppn has 28 bits

  /** `rest` stands for the bits no function here looks at. */
  datatype Entry = Entry(present: bool, writeable: bool, user: bool, cacheDisabled: bool,
                         noExecute: bool, ppn: nat, rest: nat)

  const ZERO := Entry(false, false, false, false, false, 0, 0)

  function Blank(n: nat): (t: seq<Entry>)
    ensures |t| == n && forall i | 0 <= i < n :: t[i] == ZERO
  {
    if n == 0 then [] else Blank(n - 1) + [ZERO]
  }

  type Table = t: seq<Entry> | |t| == SLOTS witness Blank(SLOTS)

  type Index = x: nat | x < SLOTS

  /** The four table indices of a virtual address. */
  datatype Path = Path(top: Index, third: Index, second: Index, leaf: Index)

  function PathOf(addr: nat): Path {
    var leaf := addr / PAGE;
    var second := leaf / SLOTS;
    var third := second / SLOTS;
    var top := third / SLOTS;
    Path(top % SLOTS, third % SLOTS, second % SLOTS, leaf % SLOTS)
  }

  /** Two addresses have the same path exactly when they lie on the same page
      of the 48-bit address space. */
  lemma PathIsPage(a: nat, b: nat)
    ensures PathOf(a) == PathOf(b) <==> a / PAGE % 0x10_0000_0000 == b / PAGE % 0x10_0000_0000
  {
    hide PathOf, Digits;
    PathDigits(a);
    PathDigits(b);
    if Digits(PathOf(a)) == Digits(PathOf(b)) { SameDigits(PathOf(a), PathOf(b)); }
  }

  lemma SameDigits(p: Path, q: Path)
    requires Digits(p) == Digits(q)
    ensures p == q
  {
    LastDigit((p.top * SLOTS + p.third) * SLOTS + p.second, p.leaf, (q.top * SLOTS + q.third) * SLOTS + q.second,
              q.leaf);
    LastDigit(p.top * SLOTS + p.third, p.second, q.top * SLOTS + q.third, q.second);
    LastDigit(p.top, p.third, q.top, q.third);
  }

  lemma LastDigit(x: nat, i: Index, y: nat, j: Index)
    requires x * SLOTS + i == y * SLOTS + j
    ensures x == y && i == j
  {
  }

  function Digits(p: Path): nat {
    ((p.top * SLOTS + p.third) * SLOTS + p.second) * SLOTS + p.leaf
  }

  lemma PathDigits(a: nat)
    ensures a / PAGE % 0x10_0000_0000 == Digits(PathOf(a))
  {
    var leaf := a / PAGE;
    var second := leaf / SLOTS;
    var third := second / SLOTS;
    var top := third / SLOTS;
    assert leaf == 0x10_0000_0000 * (top / SLOTS) + Digits(PathOf(a));
    Remainder(leaf, top / SLOTS, Digits(PathOf(a)));
  }

  lemma Remainder(v: nat, k: nat, d: nat)
    requires v == 0x10_0000_0000 * k + d && d < 0x10_0000_0000
    ensures v % 0x10_0000_0000 == d
  {
  }

  // ----- walking the tables -----

  type Tables = map<nat, Table>

  function Child(t: Tables, f: nat, i: Index): Option<nat> {
    if f in t && t[f][i].present then Some(t[f][i].ppn) else None
  }

  function ChildOf(t: Tables, f: Option<nat>, i: Index): Option<nat> {
    match f
    case None => None
    case Some(g) => Child(t, g, i)
  }

  /** The frame of the leaf table that a path goes through. */
  function LeafTable(t: Tables, root: nat, p: Path): Option<nat> {
    ChildOf(t, ChildOf(t, Child(t, root, p.top), p.third), p.second)
  }

  /** What the tables say about a page: its entry, if it is mapped. */
  function Lookup(t: Tables, root: nat, p: Path): Option<Entry> {
    match LeafTable(t, root, p)
    case None => None
    case Some(f) => if f in t && t[f][p.leaf].present then Some(t[f][p.leaf]) else None
  }

  // ----- what a walk allows -----

  datatype Rights = Rights(write: bool, user: bool, execute: bool)

  const ALL := Rights(true, true, true)

  /** A right needs every level. */
  function Meet(a: Rights, b: Rights): Rights {
    Rights(a.write && b.write, a.user && b.user, a.execute && b.execute)
  }

  function EntryRights(e: Entry): Rights { Rights(e.writeable, e.user, !e.noExecute) }

  /** What entry i of a table above the leaf tables allows; one that is not there
      yet takes nothing away but what its execution bit will. */
  function Passes(t: Tables, f: Option<nat>, i: Index): Rights {
    if f.None? || f.value !in t then ALL
    else if t[f.value][i].present then EntryRights(t[f.value][i])
    else ALL.(execute := !t[f.value][i].noExecute)
  }

  /** What the three levels above the leaf tables allow on the way to a page. */
  function Above(t: Tables, root: nat, p: Path): Rights {
    var x := Child(t, root, p.top);
    Meet(Passes(t, Some(root), p.top), Meet(Passes(t, x, p.third), Passes(t, ChildOf(t, x, p.third), p.second)))
  }

  /** The rights of a page: those of its entry that all levels above allow. */
  function PageRights(t: Tables, root: nat, p: Path): Option<Rights> {
    match Lookup(t, root, p)
    case None => None
    case Some(e) => Some(Meet(Above(t, root, p), EntryRights(e)))
  }

  // ----- the tables form trees -----

  /** The place of a table: in which address space it sits and under which
      indices.  Leaf tables can be shared by address spaces, so only their
      indices are fixed. */
  datatype Slot = Top(root: nat)
                | Third(root: nat, a: Index)
                | Second(root: nat, a: Index, b: Index)
                | Leaf(a: Index, b: Index, c: Index)

  function Below(s: Slot, i: Index): Slot
    requires !s.Leaf?
  {
    match s
    case Top(r) => Third(r, i)
    case Third(r, a) => Second(r, a, i)
    case Second(_, a, b) => Leaf(a, b, i)
  }

  type Owners = map<nat, Slot>

  predicate EntryOk(t: Tables, o: Owners, f: nat, i: Index)
    requires f in o && f in t
  {
    t[f][i].present && !o[f].Leaf? ==> t[f][i].ppn in o && o[t[f][i].ppn] == Below(o[f], i)
  }

  ghost predicate TableOk(t: Tables, o: Owners, f: nat)
    requires f in o
  {
    f in t && (forall i: Index :: EntryOk(t, o, f, i)) && (o[f].Top? ==> o[f].root == f)
  }

  /** Every table has its own place, and its entries lead to the places below. */
  ghost predicate Trees(t: Tables, o: Owners) { forall f | f in o :: TableOk(t, o, f) }

  predicate IsRoot(o: Owners, r: nat) { r in o && o[r] == Top(r) }

  /** Where a walk can get to. */
  lemma WalkSlots(t: Tables, o: Owners, r: nat, p: Path)
    requires Trees(t, o) && IsRoot(o, r)
    ensures var x := Child(t, r, p.top);
            x.Some? ==>
              && x.value in o && o[x.value] == Third(r, p.top)
              && var y := Child(t, x.value, p.third);
                 y.Some? ==> y.value in o && o[y.value] == Second(r, p.top, p.third)
    ensures var l := LeafTable(t, r, p);
            l.Some? ==> l.value in o && o[l.value] == Leaf(p.top, p.third, p.second)
  {
    assert TableOk(t, o, r) && EntryOk(t, o, r, p.top);
    var x := Child(t, r, p.top);
    if x.Some? {
      assert TableOk(t, o, x.value) && EntryOk(t, o, x.value, p.third);
      var y := Child(t, x.value, p.third);
      if y.Some? {
        assert TableOk(t, o, y.value) && EntryOk(t, o, y.value, p.second);
      }
    }
  }

  // ----- adding an empty table -----

  /** A fresh frame becomes the table below entry i of table f. */
  function Attach(t: Tables, f: nat, i: Index, nf: nat): Tables
    requires f in t
  {
    t[nf := Blank(SLOTS)][f := t[f][i := t[f][i].(ppn := nf, present := true, writeable := true, user := true)]]
  }

  ghost predicate CanAttach(t: Tables, o: Owners, f: nat, i: Index, nf: nat) {
    && Trees(t, o) && f in o && !o[f].Leaf? && f in t && !t[f][i].present && nf !in o && nf != f
  }

  lemma AttachKeepsTrees(t: Tables, o: Owners, f: nat, i: Index, nf: nat)
    requires CanAttach(t, o, f, i, nf)
    ensures Trees(Attach(t, f, i, nf), o[nf := Below(o[f], i)])
  {
    var t', o' := Attach(t, f, i, nf), o[nf := Below(o[f], i)];
    forall g | g in o' ensures TableOk(t', o', g) {
      if g != nf { assert TableOk(t, o, g); }
      forall j: Index ensures EntryOk(t', o', g, j) {
        if g != nf { assert EntryOk(t, o, g, j); }
      }
    }
  }

  lemma AttachChild(t: Tables, o: Owners, f: nat, i: Index, nf: nat, g: nat, j: Index)
    requires CanAttach(t, o, f, i, nf)
    ensures g in o && !(g == f && j == i) ==> Child(Attach(t, f, i, nf), g, j) == Child(t, g, j)
    ensures Child(t, f, i) == None && Child(Attach(t, f, i, nf), f, i) == Some(nf)
    ensures Child(Attach(t, f, i, nf), nf, j) == None
  {
  }

  /** No address space sees an empty table: all translations stay the same. */
  lemma AttachKeepsLookup(t: Tables, o: Owners, f: nat, i: Index, nf: nat, r: nat, p: Path)
    requires CanAttach(t, o, f, i, nf) && IsRoot(o, r)
    ensures Lookup(Attach(t, f, i, nf), r, p) == Lookup(t, r, p)
    ensures LeafTable(t, r, p).Some? ==> LeafTable(Attach(t, f, i, nf), r, p) == LeafTable(t, r, p)
    ensures LeafTable(t, r, p).None? ==>
              var l := LeafTable(Attach(t, f, i, nf), r, p);
              || l.None?
              || (&& l == Some(nf) && Below(o[f], i) == Leaf(p.top, p.third, p.second)
                  && o[f].Second? && o[f].root == r)
  {
    var t' := Attach(t, f, i, nf);
    hide Attach;
    WalkSlots(t, o, r, p);
    AttachChild(t, o, f, i, nf, r, p.top);
    AttachChild(t, o, f, i, nf, r, p.third);
    AttachChild(t, o, f, i, nf, r, p.second);
    var x := Child(t, r, p.top);
    if x.Some? {
      AttachChild(t, o, f, i, nf, x.value, p.third);
      var y := Child(t, x.value, p.third);
      if y.Some? {
        AttachChild(t, o, f, i, nf, y.value, p.second);
      }
    }
    AttachLeafEntries(t, o, f, i, nf, r, p);
  }

  lemma AttachLeafEntries(t: Tables, o: Owners, f: nat, i: Index, nf: nat, r: nat, p: Path)
    requires CanAttach(t, o, f, i, nf) && IsRoot(o, r)
    ensures var t' := Attach(t, f, i, nf);
            && nf in t' && !t'[nf][p.leaf].present
            && var l := LeafTable(t, r, p);
               l.Some? ==> l.value in t && l.value in t' && t'[l.value] == t[l.value]
  {
    WalkSlots(t, o, r, p);
    var l := LeafTable(t, r, p);
    if l.Some? { assert TableOk(t, o, l.value); }
  }

  lemma AttachPasses(t: Tables, o: Owners, f: nat, i: Index, nf: nat, g: nat, j: Index)
    requires CanAttach(t, o, f, i, nf)
    ensures g in o ==> Passes(Attach(t, f, i, nf), Some(g), j) == Passes(t, Some(g), j)
    ensures Passes(Attach(t, f, i, nf), Some(nf), j) == ALL
  {
  }

  /** A new table takes no right away, on no page of no address space. */
  lemma AttachKeepsRights(t: Tables, o: Owners, f: nat, i: Index, nf: nat, r: nat, p: Path)
    requires CanAttach(t, o, f, i, nf) && IsRoot(o, r)
    ensures Above(Attach(t, f, i, nf), r, p) == Above(t, r, p)
  {
    var t' := Attach(t, f, i, nf);
    hide Attach, Passes;
    WalkSlots(t, o, r, p);
    AttachChild(t, o, f, i, nf, r, p.top);
    AttachChild(t, o, f, i, nf, r, p.third);
    AttachPasses(t, o, f, i, nf, r, p.top);
    AttachPasses(t, o, f, i, nf, r, p.third);
    AttachPasses(t, o, f, i, nf, r, p.second);
    NonePasses(t, p);
    NonePasses(t', p);
    var x := Child(t, r, p.top);
    if x.Some? {
      AttachChild(t, o, f, i, nf, x.value, p.third);
      AttachPasses(t, o, f, i, nf, x.value, p.third);
      var y := Child(t, x.value, p.third);
      if y.Some? { AttachPasses(t, o, f, i, nf, y.value, p.second); }
    }
  }

  lemma NonePasses(t: Tables, p: Path)
    ensures Passes(t, None, p.third) == ALL && Passes(t, None, p.second) == ALL
  {
  }

  // ----- writing a leaf entry -----

  function Put(t: Tables, l: nat, i: Index, e: Entry): Tables
    requires l in t
  {
    t[l := t[l][i := e]]
  }

  ghost predicate IsLeaf(t: Tables, o: Owners, l: nat, p: Path) {
    l in t && l in o && o[l] == Leaf(p.top, p.third, p.second)
  }

  lemma PutKeepsTrees(t: Tables, o: Owners, l: nat, p: Path, e: Entry)
    requires Trees(t, o) && IsLeaf(t, o, l, p)
    ensures Trees(Put(t, l, p.leaf, e), o)
  {
    var t' := Put(t, l, p.leaf, e);
    forall g | g in o ensures TableOk(t', o, g) {
      assert TableOk(t, o, g);
      forall j: Index ensures EntryOk(t', o, g, j) {
        assert EntryOk(t, o, g, j);
      }
    }
  }

  /** A leaf entry is seen by one page only, in the address spaces that go
      through that leaf table. */
  lemma PutLookup(t: Tables, o: Owners, l: nat, p: Path, e: Entry, r: nat, q: Path)
    requires Trees(t, o) && IsLeaf(t, o, l, p) && IsRoot(o, r)
    ensures LeafTable(Put(t, l, p.leaf, e), r, q) == LeafTable(t, r, q)
    ensures Lookup(Put(t, l, p.leaf, e), r, q) ==
            if q == p && LeafTable(t, r, q) == Some(l) then (if e.present then Some(e) else None)
            else Lookup(t, r, q)
    ensures Above(Put(t, l, p.leaf, e), r, q) == Above(t, r, q)
  {
    WalkSlots(t, o, r, q);
  }

  // ----- copying the upper levels -----

  /** t' has the tables of t, unchanged, and possibly more. */
  ghost predicate Extends(t: Tables, t': Tables, o: Owners) {
    forall f | f in o && f in t :: f in t' && t'[f] == t[f]
  }

  lemma ExtendsKeepsLookup(t: Tables, t': Tables, o: Owners, r: nat, p: Path)
    requires Trees(t, o) && Extends(t, t', o) && IsRoot(o, r)
    ensures LeafTable(t', r, p) == LeafTable(t, r, p) && Lookup(t', r, p) == Lookup(t, r, p)
    ensures Above(t', r, p) == Above(t, r, p)
  {
    assert TableOk(t, o, r);
    WalkSlots(t, o, r, p);
    var x := Child(t, r, p.top);
    if x.Some? {
      assert TableOk(t, o, x.value);
      var y := Child(t, x.value, p.third);
      if y.Some? {
        assert TableOk(t, o, y.value);
        var z := Child(t, y.value, p.second);
        if z.Some? { assert TableOk(t, o, z.value); }
      }
    }
  }

  /** Entry j of table x leads to a copy of what entry j of table y leads to. */
  predicate CopiedEntry(t: Tables, x: nat, y: nat, j: Index)
    requires x in t && y in t
  {
    && t[x][j] == t[y][j].(ppn := t[x][j].ppn)
    && (t[y][j].present ==> t[x][j].ppn in t && t[y][j].ppn in t && t[t[x][j].ppn] == t[t[y][j].ppn])
  }

  ghost predicate CopiedTable(t: Tables, x: nat, y: nat) {
    x in t && y in t && forall j: Index :: CopiedEntry(t, x, y, j)
  }

  /** Entry i of the new top table: absent, or leading to a copy. */
  ghost predicate CopiedTop(t: Tables, n: nat, f: nat, i: Index)
    requires n in t && f in t
  {
    && (t[n][i].present <==> t[f][i].present)
    && (t[f][i].present ==> t[n][i] == t[f][i].(ppn := t[n][i].ppn) && CopiedTable(t, t[n][i].ppn, t[f][i].ppn))
  }

  /** The two upper levels are copied, the leaf tables are shared. */
  ghost predicate Duplicated(t: Tables, n: nat, f: nat, start: nat, end: nat) {
    && n in t && f in t
    && (forall i: Index | start <= i < end :: CopiedTop(t, n, f, i))
    && (forall i: Index | !t[n][i].present :: t[n][i] == ZERO)
    && (forall i: Index | !(start <= i < end) :: !t[n][i].present)
  }

  /** A copy translates the addresses below its slots as the father does, with the
      same rights, and no other address. */
  lemma DuplicateTranslates(t: Tables, o: Owners, n: nat, f: nat, start: nat, end: nat, p: Path)
    requires Trees(t, o) && IsRoot(o, f) && Duplicated(t, n, f, start, end)
    ensures LeafTable(t, n, p) == if start <= p.top < end then LeafTable(t, f, p) else None
    ensures Lookup(t, n, p) == if start <= p.top < end then Lookup(t, f, p) else None
    ensures Above(t, n, p) == if start <= p.top < end && t[f][p.top].present then Above(t, f, p) else ALL
    ensures PageRights(t, n, p) == if start <= p.top < end then PageRights(t, f, p) else None
  {
    if start <= p.top < end {
      assert CopiedTop(t, n, f, p.top);
      if t[f][p.top].present {
        var x, y := t[n][p.top].ppn, t[f][p.top].ppn;
        assert CopiedEntry(t, x, y, p.third);
      }
    }
  }

  // ----- which tables are there -----

  predicate OfRoot(s: Slot, root: nat) { s.Leaf? || s.root == root }

  /** The table at a place of the address space `root`. */
  function TableAt(t: Tables, root: nat, s: Slot): Option<nat> {
    match s
    case Top(_) => Some(root)
    case Third(_, a) => Child(t, root, a)
    case Second(_, a, b) => ChildOf(t, Child(t, root, a), b)
    case Leaf(a, b, c) => ChildOf(t, ChildOf(t, Child(t, root, a), b), c)
  }

  /** The places of the tables a walk along p goes through. */
  function Places(root: nat, p: Path): set<Slot> {
    {Third(root, p.top), Second(root, p.top, p.third), Leaf(p.top, p.third, p.second)}
  }

  /** The places of `s` that have no table: each needs a frame. */
  ghost function Missing(t: Tables, root: nat, s: set<Slot>): set<Slot> { set x | x in s && TableAt(t, root, x).None? }

  /** `root` got tables at the places of `s` that had none, and no others. */
  ghost predicate Adds(t: Tables, t': Tables, root: nat, s: set<Slot>) {
    forall x | OfRoot(x, root) :: TableAt(t', root, x).Some? <==> TableAt(t, root, x).Some? || x in s
  }

  lemma AddsNothing(t: Tables, root: nat)
    ensures Adds(t, t, root, {}) && |Missing(t, root, {})| == 0
  {
  }

  /** Frames are counted once: what `s` added is not missing for `more` any more. */
  lemma MissingSplits(t: Tables, t1: Tables, root: nat, s: set<Slot>, more: set<Slot>)
    requires Adds(t, t1, root, s) && forall x | x in more :: OfRoot(x, root)
    ensures |Missing(t, root, s + more)| == |Missing(t, root, s)| + |Missing(t1, root, more)|
  {
    hide TableAt;
    var a, b := Missing(t, root, s), Missing(t1, root, more);
    assert Missing(t, root, s + more) == a + b;
    assert a !! b;
  }

  lemma AddsTrans(t: Tables, t1: Tables, t2: Tables, root: nat, s: set<Slot>, more: set<Slot>)
    requires Adds(t, t1, root, s) && Adds(t1, t2, root, more)
    ensures Adds(t, t2, root, s + more)
  {
  }

  lemma MissingGrows(t: Tables, root: nat, s: set<Slot>, s': set<Slot>)
    requires s <= s'
    ensures |Missing(t, root, s)| <= |Missing(t, root, s')|
  {
    var a, b := Missing(t, root, s), Missing(t, root, s');
    assert b == a + (b - a);
  }

  lemma MissingOne(t: Tables, root: nat, x: Slot)
    ensures |Missing(t, root, {x})| == if TableAt(t, root, x).None? then 1 else 0
  {
    assert Missing(t, root, {x}) == if TableAt(t, root, x).None? then {x} else {};
  }

  /** Entry i of table f leads to table g, which is new and empty if the entry led
      nowhere before; no other entry of a table of a tree changed. */
  ghost predicate Stepped(t: Tables, o: Owners, t': Tables, f: nat, i: Index, g: nat) {
    && Child(t', f, i) == Some(g)
    && (Child(t, f, i).Some? ==> t' == t)
    && (Child(t, f, i).None? ==> g !in o && forall j: Index :: Child(t', g, j) == None)
    && forall h, j: Index | h in o && (h, j) != (f, i) :: Child(t', h, j) == Child(t, h, j)
  }

  lemma StepAdds(t: Tables, o: Owners, t': Tables, root: nat, f: nat, i: Index, g: nat, x: Slot)
    requires Trees(t, o) && IsRoot(o, root) && f in o && !o[f].Leaf? && o[f].root == root
    requires TableAt(t, root, o[f]) == Some(f) && Stepped(t, o, t', f, i, g) && OfRoot(x, root)
    ensures TableAt(t', root, x) == if x == Below(o[f], i) then Some(g) else TableAt(t, root, x)
  {
    hide Trees;
    var p := match x
             case Top(_) => Path(0, 0, 0, 0)
             case Third(_, a) => Path(a, 0, 0, 0)
             case Second(_, a, b) => Path(a, b, 0, 0)
             case Leaf(a, b, c) => Path(a, b, c, 0);
    WalkSlots(t, o, root, p);
  }

  lemma StepAddsOne(t: Tables, o: Owners, t': Tables, root: nat, f: nat, i: Index, g: nat)
    requires Trees(t, o) && IsRoot(o, root) && f in o && !o[f].Leaf? && o[f].root == root
    requires TableAt(t, root, o[f]) == Some(f) && Stepped(t, o, t', f, i, g)
    ensures Adds(t, t', root, {Below(o[f], i)})
    ensures TableAt(t', root, Below(o[f], i)) == Some(g)
  {
    hide Trees, TableAt, Stepped;
    forall x | OfRoot(x, root)
      ensures TableAt(t', root, x).Some? <==> TableAt(t, root, x).Some? || x in {Below(o[f], i)}
    {
      StepAdds(t, o, t', root, f, i, g, x);
    }
    StepAdds(t, o, t', root, f, i, g, Below(o[f], i));
  }

  lemma PutAddsNothing(t: Tables, o: Owners, l: nat, p: Path, e: Entry, root: nat)
    requires Trees(t, o) && IsLeaf(t, o, l, p) && IsRoot(o, root)
    ensures Adds(t, Put(t, l, p.leaf, e), root, {})
  {
    hide Trees;
    forall x | OfRoot(x, root) ensures TableAt(Put(t, l, p.leaf, e), root, x) == TableAt(t, root, x) {
      var q := match x
               case Top(_) => Path(0, 0, 0, 0)
               case Third(_, a) => Path(a, 0, 0, 0)
               case Second(_, a, b) => Path(a, b, 0, 0)
               case Leaf(a, b, c) => Path(a, b, c, 0);
      WalkSlots(t, o, root, q);
    }
  }
}
