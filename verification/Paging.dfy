/** Mapping, unmapping, protecting and duplicating address spaces, on page
    tables built from frames of the page bitmap. */
module Paging {
  import opened Basics
  import opened PageTree
  import B = PageBitmap

  // permission bits, as callers pass them
  const WRITE: nat := 1
  const USER: nat := 2
  const NO_EXECUTE: nat := 4
  const CACHE_DISABLE: nat := 8

  predicate HasBit(flags: nat, bit: nat)
    requires bit > 0
  {
    flags / bit % 2 == 1
  }

  function WithPerms(e: Entry, flags: nat): Entry {
    e.(writeable := HasBit(flags, WRITE), user := HasBit(flags, USER),
       noExecute := HasBit(flags, NO_EXECUTE), cacheDisabled := HasBit(flags, CACHE_DISABLE))
  }

  function Perms(e: Entry): nat {
    (if e.writeable then WRITE else 0) + (if e.user then USER else 0)
    + (if e.noExecute then NO_EXECUTE else 0) + (if e.cacheDisabled then CACHE_DISABLE else 0)
  }

  /** What was asked for is what is set, bit by bit, and what is read back. */
  lemma PermsRoundTrip(e: Entry, flags: nat)
    ensures var w := WithPerms(e, flags);
            && (w.writeable <==> flags % 2 == 1) && (w.user <==> flags / 2 % 2 == 1)
            && (w.noExecute <==> flags / 4 % 2 == 1) && (w.cacheDisabled <==> flags / 8 % 2 == 1)
            && w.present == e.present && w.ppn == e.ppn && w.rest == e.rest
    ensures Perms(WithPerms(e, flags)) == flags % 16
  {
    FourBits(flags);
  }

  lemma FourBits(x: nat)
    ensures x % 16 == x % 2 + 2 * (x / 2 % 2) + 4 * (x / 4 % 2) + 8 * (x / 8 % 2)
  {
    var a, b, c := x / 2, x / 4, x / 8;
    assert b == a / 2 && c == b / 2;
    assert x == 16 * (c / 2) + (8 * (c % 2) + 4 * (b % 2) + 2 * (a % 2) + x % 2);
  }

  /** Frame f is marked in the bitmap, or not one of its pages. */
  predicate Withheld(base: nat, total: nat, locked: set<nat>, f: nat) {
    base <= f <= base + total ==> f - base in locked
  }

  // ----- how the tables may change -----

  ghost predicate SameOwners(o: Owners, o': Owners) { forall f | f in o :: f in o' && o'[f] == o[f] }

  /** A leaf table stays where it is; where there was none, `root` may get a new one. */
  ghost predicate LeafKept(t: Tables, o: Owners, t': Tables, root: nat, r: nat, p: Path) {
    var l, l' := LeafTable(t, r, p), LeafTable(t', r, p);
    l' == l || (r == root && l.None? && l'.value !in o)
  }

  /** On the way to every page of the address spaces the same rights pass. */
  ghost predicate SameAbove(t: Tables, o: Owners, t': Tables) {
    forall r, p | IsRoot(o, r) :: Above(t', r, p) == Above(t, r, p)
  }

  /** Only empty tables were added, all of them below `root`. */
  ghost predicate Grows(t: Tables, o: Owners, t': Tables, o': Owners, root: nat) {
    && Trees(t', o') && SameOwners(o, o')
    && (forall r, p | IsRoot(o, r) :: Lookup(t', r, p) == Lookup(t, r, p))
    && (forall r, p | IsRoot(o, r) :: LeafKept(t, o, t', root, r, p))
    && SameAbove(t, o, t')
  }

  /** Every new table sits in a frame that was not in use. */
  ghost predicate FreshOwners(o: Owners, o': Owners, keep: iset<nat>) { forall h | h in o' && h !in o :: h !in keep }

  lemma GrowsRefl(t: Tables, o: Owners, root: nat)
    requires Trees(t, o)
    ensures Grows(t, o, t, o, root)
  {
  }

  lemma GrowsTrans(t: Tables, o: Owners, t': Tables, o': Owners, t'': Tables, o'': Owners, root: nat)
    requires Grows(t, o, t', o', root) && Grows(t', o', t'', o'', root)
    ensures Grows(t, o, t'', o'', root)
  {
    forall r, p | IsRoot(o, r) ensures LeafKept(t, o, t'', root, r, p) {
      assert LeafKept(t, o, t', root, r, p) && LeafKept(t', o', t'', root, r, p);
    }
  }

  lemma LeafGrown(t: Tables, o: Owners, t': Tables, o': Owners, root: nat, p: Path)
    requires Grows(t, o, t', o', root) && IsRoot(o, root) && LeafTable(t', root, p).Some?
    ensures var l := LeafTable(t', root, p);
            && IsLeaf(t', o', l.value, p)
            && (LeafTable(t, root, p) == l || (LeafTable(t, root, p).None? && l.value !in o))
  {
    WalkSlots(t', o', root, p);
    assert TableOk(t', o', LeafTable(t', root, p).value);
    assert LeafKept(t, o, t', root, root, p);
  }

  lemma AttachGrows(t: Tables, o: Owners, f: nat, i: Index, nf: nat)
    requires CanAttach(t, o, f, i, nf)
    ensures Grows(t, o, Attach(t, f, i, nf), o[nf := Below(o[f], i)], o[f].root)
  {
    hide Attach, Trees, LeafTable, Lookup, Above;
    AttachKeepsTrees(t, o, f, i, nf);
    forall r, p | IsRoot(o, r)
      ensures Above(Attach(t, f, i, nf), r, p) == Above(t, r, p)
      ensures Lookup(Attach(t, f, i, nf), r, p) == Lookup(t, r, p)
      ensures LeafKept(t, o, Attach(t, f, i, nf), o[f].root, r, p)
    {
      AttachKeepsLookup(t, o, f, i, nf, r, p);
      AttachKeepsRights(t, o, f, i, nf, r, p);
    }
  }

  lemma AttachStepped(t: Tables, o: Owners, f: nat, i: Index, nf: nat)
    requires CanAttach(t, o, f, i, nf)
    ensures Stepped(t, o, Attach(t, f, i, nf), f, i, nf)
  {
    hide Attach, Trees;
    forall h, j: Index
      ensures h in o && (h, j) != (f, i) ==> Child(Attach(t, f, i, nf), h, j) == Child(t, h, j)
      ensures Child(Attach(t, f, i, nf), nf, j) == None
    {
      AttachChild(t, o, f, i, nf, h, j);
    }
    AttachChild(t, o, f, i, nf, f, i);
  }

  function OneIf(b: bool): nat { if b then 1 else 0 }

  /** What the first two steps down from the root cost is part of the whole cost. */
  lemma TwoSteps(t0: Tables, t1: Tables, root: nat, p: Path)
    requires Adds(t0, t1, root, {Third(root, p.top)})
    ensures OneIf(TableAt(t0, root, Third(root, p.top)).None?)
          + OneIf(TableAt(t1, root, Second(root, p.top, p.third)).None?) <= |Missing(t0, root, Places(root, p))|
  {
    hide TableAt, Adds, Missing;
    var a, b := {Third(root, p.top)}, {Second(root, p.top, p.third)};
    MissingSplits(t0, t1, root, a, b);
    MissingOne(t0, root, Third(root, p.top));
    MissingOne(t1, root, Second(root, p.top, p.third));
    MissingGrows(t0, root, a + b, Places(root, p));
  }

  lemma FirstStep(t0: Tables, root: nat, p: Path)
    ensures OneIf(TableAt(t0, root, Third(root, p.top)).None?) <= |Missing(t0, root, Places(root, p))|
  {
    hide TableAt, Missing;
    MissingOne(t0, root, Third(root, p.top));
    MissingGrows(t0, root, {Third(root, p.top)}, Places(root, p));
  }

  /** Three steps down from the root: which tables they add. */
  lemma ThreeSteps(t0: Tables, t1: Tables, t2: Tables, t3: Tables, root: nat, p: Path)
    requires Adds(t0, t1, root, {Third(root, p.top)})
    requires Adds(t1, t2, root, {Second(root, p.top, p.third)})
    requires Adds(t2, t3, root, {Leaf(p.top, p.third, p.second)})
    ensures Adds(t0, t3, root, Places(root, p))
  {
    hide TableAt, Adds;
    var a, b, c := {Third(root, p.top)}, {Second(root, p.top, p.third)}, {Leaf(p.top, p.third, p.second)};
    AddsTrans(t0, t1, t2, root, a, b);
    AddsTrans(t0, t2, t3, root, a + b, c);
    assert a + b + c == Places(root, p);
  }

  lemma ThreeCosts(t0: Tables, t1: Tables, t2: Tables, root: nat, p: Path)
    requires Adds(t0, t1, root, {Third(root, p.top)})
    requires Adds(t1, t2, root, {Second(root, p.top, p.third)})
    ensures |Missing(t0, root, Places(root, p))| ==
              OneIf(TableAt(t0, root, Third(root, p.top)).None?)
            + OneIf(TableAt(t1, root, Second(root, p.top, p.third)).None?)
            + OneIf(TableAt(t2, root, Leaf(p.top, p.third, p.second)).None?)
  {
    hide TableAt, Adds, Missing;
    var a, b, c := {Third(root, p.top)}, {Second(root, p.top, p.third)}, {Leaf(p.top, p.third, p.second)};
    AddsTrans(t0, t1, t2, root, a, b);
    assert a + b + c == Places(root, p);
    MissingSplits(t0, t1, root, a, b);
    MissingSplits(t0, t2, root, a + b, c);
    MissingOne(t0, root, Third(root, p.top));
    MissingOne(t1, root, Second(root, p.top, p.third));
    MissingOne(t2, root, Leaf(p.top, p.third, p.second));
  }

  /** The page of path p in address space `root` now has entry e (None: it is not
      mapped any more), and this is seen nowhere else, except on the very same
      page of an address space that shares the leaf table. */
  ghost predicate Remapped(t: Tables, o: Owners, t': Tables, o': Owners, root: nat, p: Path, e: Option<Entry>) {
    && Trees(t', o') && SameOwners(o, o')
    && Lookup(t', root, p) == e
    && (forall r, q | IsRoot(o, r) && q != p :: Lookup(t', r, q) == Lookup(t, r, q))
    && (forall r | IsRoot(o, r) && r != root ::
          Lookup(t', r, p) == if SharedLeaf(t, r, root, p) then e else Lookup(t, r, p))
    && (forall r, q | IsRoot(o, r) :: LeafKept(t, o, t', root, r, q))
    && SameAbove(t, o, t')
  }

  ghost predicate SharedLeaf(t: Tables, r: nat, root: nat, p: Path) {
    LeafTable(t, r, p).Some? && LeafTable(t, r, p) == LeafTable(t, root, p)
  }

  lemma PutRemaps(t: Tables, o: Owners, t1: Tables, o1: Owners, root: nat, p: Path, l: nat, e: Entry)
    requires Trees(t, o) && IsRoot(o, root) && Grows(t, o, t1, o1, root)
    requires LeafTable(t1, root, p) == Some(l) && IsLeaf(t1, o1, l, p)
    ensures Remapped(t, o, Put(t1, l, p.leaf, e), o1, root, p, if e.present then Some(e) else None)
  {
    hide LeafTable, Lookup, Put, Trees, Above;
    var t' := Put(t1, l, p.leaf, e);
    GrowsTrees(t, o, t1, o1, root);
    PutKeepsTrees(t1, o1, l, p, e);
    forall r, q | IsRoot(o, r)
      ensures LeafKept(t, o, t', root, r, q)
      ensures q != p ==> Lookup(t', r, q) == Lookup(t, r, q)
      ensures Above(t', r, q) == Above(t, r, q)
    {
      PutLookup(t1, o1, l, p, e, r, q);
      assert LeafKept(t, o, t1, root, r, q);
    }
    PutLookup(t1, o1, l, p, e, root, p);
    forall r | IsRoot(o, r) && r != root
      ensures Lookup(t', r, p) ==
              if SharedLeaf(t, r, root, p) then (if e.present then Some(e) else None) else Lookup(t, r, p)
    {
      PutLookup(t1, o1, l, p, e, r, p);
      assert LeafKept(t, o, t1, root, r, p) && LeafKept(t, o, t1, root, root, p);
      LeafIsOwned(t, o, r, p);
    }
  }

  lemma NothingRemaps(t: Tables, o: Owners, root: nat, p: Path)
    requires Trees(t, o) && LeafTable(t, root, p).None?
    ensures Remapped(t, o, t, o, root, p, None)
  {
  }

  /** The rights that callers ask for. */
  function Asked(flags: nat): Rights { Rights(flags % 2 == 1, flags / 2 % 2 == 1, flags / 4 % 2 == 0) }

  lemma RemappedRights(t: Tables, o: Owners, t': Tables, o': Owners, root: nat, p: Path, e: Option<Entry>)
    requires Remapped(t, o, t', o', root, p, e) && IsRoot(o, root)
    ensures PageRights(t', root, p) == if e.Some? then Some(Meet(Above(t, root, p), EntryRights(e.value))) else None
  {
    hide Lookup, LeafTable, Above;
  }

  lemma RemappedFacts(t: Tables, o: Owners, t': Tables, o': Owners, root: nat, p: Path, e: Option<Entry>)
    requires Remapped(t, o, t', o', root, p, e)
    ensures SameOwners(o, o') && Lookup(t', root, p) == e && SameAbove(t, o, t')
  {
  }

  lemma InTrees(t: Tables, o: Owners, f: nat)
    requires Trees(t, o) && f in o
    ensures TableOk(t, o, f)
  {
  }

  lemma GrowsTrees(t: Tables, o: Owners, t1: Tables, o1: Owners, root: nat)
    requires Grows(t, o, t1, o1, root)
    ensures Trees(t1, o1) && SameOwners(o, o1)
  {
  }

  lemma LeafIsOwned(t: Tables, o: Owners, r: nat, p: Path)
    requires Trees(t, o) && IsRoot(o, r)
    ensures LeafTable(t, r, p).Some? ==> LeafTable(t, r, p).value in o
  {
    WalkSlots(t, o, r, p);
  }

  function Protected(e: Option<Entry>, flags: nat): Option<Entry> {
    if e.Some? then Some(WithPerms(e.value, flags)) else None
  }

  /** The k-th page from the one `address` lies on. */
  function PageAt(address: nat, k: nat): nat { address / PAGE * PAGE + k * PAGE }

  /** The number of pages that [address, address + size) overlaps. */
  function PageCount(address: nat, size: nat): nat { (address + size + PAGE - 1) / PAGE - address / PAGE }

  /** They are all the pages that have a byte of the range, in order. */
  lemma PageCountIsOverlap(address: nat, size: nat, k: nat)
    requires size > 0
    ensures PageAt(address, 0) <= address < PageAt(address, 1)
    ensures k < PageCount(address, size) <==> PageAt(address, k) < address + size
    ensures PageCount(address, 0) <= 1
  {
    var a, b := address / PAGE, (address + size + PAGE - 1) / PAGE;
    assert a * PAGE <= address < a * PAGE + PAGE;
    assert b * PAGE <= address + size + PAGE - 1 < b * PAGE + PAGE;
    assert PageAt(address, k) == (a + k) * PAGE;
  }

  ghost predicate InPages(address: nat, n: nat, q: Path) {
    exists k: nat :: k < n && PathOf(PageAt(address, k)) == q
  }

  lemma NextPage(address: nat, n: nat, q: Path)
    ensures InPages(address, n + 1, q) <==> InPages(address, n, q) || PathOf(PageAt(address, n)) == q
  {
    hide PathOf;
  }

  /** The places of all tables that the first n pages from `address` go through. */
  ghost function RangePlaces(root: nat, address: nat, n: nat): set<Slot> {
    if n == 0 then {} else RangePlaces(root, address, n - 1) + Places(root, PathOf(PageAt(address, n - 1)))
  }

  lemma {:induction false} RangePlacesGrow(root: nat, address: nat, m: nat, n: nat)
    requires m <= n
    ensures RangePlaces(root, address, m) <= RangePlaces(root, address, n)
    decreases n
  {
    hide PathOf, Places;
    if m < n { RangePlacesGrow(root, address, m, n - 1); }
  }

  /** What one more page costs, after the pages of `s`. */
  lemma OnePageMore(t: Tables, t1: Tables, root: nat, s: set<Slot>, p: Path)
    requires Adds(t, t1, root, s)
    ensures |Missing(t, root, s + Places(root, p))| == |Missing(t, root, s)| + |Missing(t1, root, Places(root, p))|
  {
    MissingSplits(t, t1, root, s, Places(root, p));
  }

  /** Since t0, other address spaces see what happened to the first n pages from
      `address` where they share the leaf table with `root`, and nothing else. */
  ghost predicate OthersFollow(t0: Tables, o: Owners, t: Tables, root: nat, address: nat, n: nat) {
    forall r, q | IsRoot(o, r) && r != root ::
      && (SharedLeaf(t, r, root, q) <==> SharedLeaf(t0, r, root, q))
      && Lookup(t, r, q) ==
         if InPages(address, n, q) && SharedLeaf(t0, r, root, q) then Lookup(t, root, q) else Lookup(t0, r, q)
  }

  lemma OthersStart(t: Tables, o: Owners, root: nat, address: nat)
    ensures OthersFollow(t, o, t, root, address, 0)
  {
  }

  lemma OthersStep(t0: Tables, o0: Owners, t: Tables, o: Owners, t': Tables, o': Owners, root: nat, address: nat,
                   n: nat, e: Option<Entry>)
    requires OthersFollow(t0, o0, t, root, address, n) && SameOwners(o0, o) && Trees(t, o) && IsRoot(o, root)
    requires Remapped(t, o, t', o', root, PathOf(PageAt(address, n)), e)
    ensures OthersFollow(t0, o0, t', root, address, n + 1)
  {
    hide PathOf, Lookup, LeafTable, Trees, SharedLeaf, InPages;
    var p := PathOf(PageAt(address, n));
    forall r, q | IsRoot(o0, r) && r != root
      ensures SharedLeaf(t', r, root, q) <==> SharedLeaf(t0, r, root, q)
      ensures Lookup(t', r, q) ==
              if InPages(address, n + 1, q) && SharedLeaf(t0, r, root, q) then Lookup(t', root, q) else Lookup(t0, r, q)
    {
      SharingStays(Space(t, o), Remap(root, p, e), Space(t', o'), r, root, q);
      NextPage(address, n, q);
    }
  }

  /** Page k of the direct map at `base` leads to physical page k. */
  ghost predicate DirectAt(t: Tables, root: nat, base: nat, k: nat) {
    var e := Lookup(t, root, PathOf(PageAt(base, k)));
    e.Some? && e.value.ppn == k && Perms(e.value) == WRITE
  }

  lemma DirectPagesDiffer(base: nat, j: nat, k: nat)
    requires j < k < PPN_LIMIT
    ensures PathOf(PageAt(base, j)) != PathOf(PageAt(base, k))
  {
    hide PathOf;
    PathIsPage(PageAt(base, j), PageAt(base, k));
    var b := base / PAGE;
    assert PageAt(base, j) / PAGE == b + j && PageAt(base, k) / PAGE == b + k;
  }

  lemma DirectStep(t: Tables, o: Owners, t': Tables, o': Owners, root: nat, base: nat, n: nat, e: Entry)
    requires Remapped(t, o, t', o', root, PathOf(PageAt(base, n)), Some(e)) && IsRoot(o, root)
    requires n < PPN_LIMIT && e.ppn == n && Perms(e) == WRITE && forall k: nat | k < n :: DirectAt(t, root, base, k)
    ensures forall k: nat | k < n + 1 :: DirectAt(t', root, base, k)
  {
    hide PathOf, Lookup, LeafTable, Trees;
    forall k: nat | k < n + 1 ensures DirectAt(t', root, base, k) {
      if k < n {
        assert DirectAt(t, root, base, k);
        DirectPagesDiffer(base, k, n);
      }
    }
  }

  /** Outside the first n pages from `start`, `root` translates as before. */
  ghost predicate OnlyPages(t: Tables, t': Tables, root: nat, start: nat, n: nat) {
    forall q | !InPages(start, n, q) :: Lookup(t', root, q) == Lookup(t, root, q)
  }

  lemma OnlyPagesStep(t: Tables, t1: Tables, o1: Owners, t': Tables, o': Owners, root: nat, start: nat, n: nat,
                      e: Option<Entry>)
    requires OnlyPages(t, t1, root, start, n) && IsRoot(o1, root)
    requires Remapped(t1, o1, t', o', root, PathOf(PageAt(start, n)), e)
    ensures OnlyPages(t, t', root, start, n + 1)
  {
    hide PathOf, Lookup, LeafTable;
    forall q | !InPages(start, n + 1, q) ensures Lookup(t', root, q) == Lookup(t, root, q) {
      NextPage(start, n, q);
    }
  }

  lemma OnlyPagesStart(t: Tables, root: nat, start: nat)
    ensures OnlyPages(t, t, root, start, 0)
  {
  }

  lemma NextCount(t: Table, n: nat)
    requires n < SLOTS
    ensures PresentCount(t, 0) == 0 && PresentCount(t, n + 1) == PresentCount(t, n) + (if t[n].present then 1 else 0)
    ensures PresentCount(t, n + 1) <= PresentCount(t, SLOTS)
  {
    PresentCountGrows(t, n + 1, SLOTS);
  }

  // ----- duplicating -----

  /** Slot i of the new top table n is finished. */
  ghost predicate SlotDone(t: Tables, o: Owners, n: nat, f: nat, i: Index) {
    && n in t && f in t && CopiedTop(t, n, f, i) && (!t[n][i].present ==> t[n][i] == ZERO)
    && (t[n][i].present ==> t[n][i].ppn in o && o[t[n][i].ppn] == Third(n, i))
  }

  lemma SlotStaysDone(t: Tables, o: Owners, t': Tables, o': Owners, n: nat, f: nat, i: Index)
    requires Trees(t, o) && IsRoot(o, f) && Extends(t, t', o) && SameOwners(o, o')
    requires SlotDone(t, o, n, f, i) && n in t' && t'[n][i] == t[n][i]
    ensures SlotDone(t', o', n, f, i)
  {
    assert TableOk(t, o, f) && EntryOk(t, o, f, i);
    if t[f][i].present {
      var x, y := t[n][i].ppn, t[f][i].ppn;
      assert TableOk(t, o, x) && TableOk(t, o, y);
      forall j: Index ensures CopiedEntry(t', x, y, j) {
        assert CopiedEntry(t, x, y, j) && EntryOk(t, o, x, j) && EntryOk(t, o, y, j);
        if t[y][j].present {
          assert TableOk(t, o, t[x][j].ppn) && TableOk(t, o, t[y][j].ppn);
        }
      }
    }
  }

  ghost predicate EntryDone(t: Tables, o: Owners, x: nat, y: nat, s: Slot, c: Index)
    requires x in t && y in t && !s.Leaf?
  {
    && CopiedEntry(t, x, y, c)
    && (t[x][c].present ==> t[x][c].ppn in o && o[t[x][c].ppn] == Below(s, c))
  }

  /** Entries below j of table x have their own copies, the others are still
      those of table y.  Table x is not yet part of a tree; s is its place. */
  ghost predicate HalfCopied(t: Tables, o: Owners, x: nat, y: nat, s: Slot, j: nat) {
    && x !in o && x in t && y in t && y in o && s.Third?
    && (forall c: Index | c < j :: EntryDone(t, o, x, y, s, c))
    && (forall c: Index | c >= j :: t[x][c] == t[y][c])
  }

  lemma CopyOneEntry(t: Tables, o: Owners, x: nat, y: nat, s: Slot, j: Index, npt: nat)
    requires Trees(t, o) && HalfCopied(t, o, x, y, s, j)
    requires o[y].Third? && o[y].a == s.a && t[y][j].present && npt !in o && npt != x
    ensures var pt := t[y][j].ppn;
            && pt in t
            && var o', t' := o[npt := Below(s, j)], t[npt := t[pt]][x := t[x][j := t[y][j].(ppn := npt)]];
               Trees(t', o') && HalfCopied(t', o', x, y, s, j + 1)
  {
    hide Trees;
    InTrees(t, o, y);
    assert EntryOk(t, o, y, j);
    var pt := t[y][j].ppn;
    InTrees(t, o, pt);
    SecondCopyOk(t, o, pt, npt, s.root);
    var o', t1 := o[npt := Below(s, j)], t[npt := t[pt]];
    OutsideTrees(t1, o', x, t[x][j := t[y][j].(ppn := npt)]);
    var t' := t1[x := t[x][j := t[y][j].(ppn := npt)]];
    forall c: Index | c < j + 1 ensures EntryDone(t', o', x, y, s, c) {
      if c < j {
        assert EntryDone(t, o, x, y, s, c) && EntryOk(t, o, y, c);
      }
    }
  }

  /** The number of present entries among the first n of a table. */
  function PresentCount(t: Table, n: nat): nat
    requires n <= SLOTS
  {
    if n == 0 then 0 else PresentCount(t, n - 1) + OneIf(t[n - 1].present)
  }

  lemma {:induction false} PresentCountGrows(t: Table, m: nat, n: nat)
    requires m <= n <= SLOTS
    ensures PresentCount(t, m) <= PresentCount(t, n)
    decreases n
  {
    if m < n { PresentCountGrows(t, m, n - 1); }
  }

  /** Frames for a copy of what slot i of the top table f leads to: one for the
      third-level table and one for each table right below it. */
  function SlotCost(t: Tables, f: nat, i: Index): nat {
    if f in t && t[f][i].present && t[f][i].ppn in t then 1 + PresentCount(t[t[f][i].ppn], SLOTS) else 0
  }

  function SlotsCost(t: Tables, f: nat, start: nat, end: nat): nat
    requires end <= SLOTS
  {
    if end <= start then 0 else SlotsCost(t, f, start, end - 1) + SlotCost(t, f, end - 1)
  }

  lemma {:induction false} SlotsCostGrows(t: Tables, f: nat, start: nat, m: nat, n: nat)
    requires m <= n <= SLOTS
    ensures SlotsCost(t, f, start, m) <= SlotsCost(t, f, start, n)
    decreases n
  {
    if m < n { SlotsCostGrows(t, f, start, m, n - 1); }
  }

  lemma SlotCostKept(t: Tables, o: Owners, t': Tables, f: nat, i: Index)
    requires Trees(t, o) && IsRoot(o, f) && Extends(t, t', o)
    ensures SlotCost(t', f, i) == SlotCost(t, f, i)
  {
    hide PresentCount;
    assert TableOk(t, o, f) && EntryOk(t, o, f, i);
    if t[f][i].present { assert TableOk(t, o, t[f][i].ppn); }
  }

  lemma HalfCopiedFacts(t: Tables, o: Owners, x: nat, y: nat, s: Slot, j: nat)
    requires HalfCopied(t, o, x, y, s, j)
    ensures x !in o && x in t && y in t && y in o && s.Third?
  {
  }

  /** Since (t, o), only fresh frames and table x were written. */
  ghost predicate OnlyFresh(t: Tables, o: Owners, t': Tables, o': Owners, keep: iset<nat>, x: nat) {
    && SameOwners(o, o')
    && (forall h | h in t && h in keep && h != x :: h in t' && t'[h] == t[h])
    && (forall h | h in o' && h !in o :: h !in keep)
  }

  lemma OnlyFreshStep(t: Tables, o: Owners, t1: Tables, o1: Owners, keep: iset<nat>, x: nat, npt: nat, s: Slot,
                      a: Table, b: Table)
    requires OnlyFresh(t, o, t1, o1, keep, x) && npt !in keep && npt !in o1
    ensures OnlyFresh(t, o, t1[npt := a][x := b], o1[npt := s], keep, x)
  {
  }

  lemma OnlyFreshFacts(t: Tables, o: Owners, t': Tables, o': Owners, keep: iset<nat>, x: nat, y: nat)
    requires OnlyFresh(t, o, t', o', keep, x) && y in t && y in keep && y != x && y in o
    ensures y in t' && t'[y] == t[y] && y in o' && o'[y] == o[y]
  {
  }

  lemma OnlyFreshRefl(t: Tables, o: Owners, keep: iset<nat>, x: nat)
    ensures OnlyFresh(t, o, t, o, keep, x)
  {
  }

  lemma SkipEntry(t: Tables, o: Owners, x: nat, y: nat, s: Slot, j: Index)
    requires HalfCopied(t, o, x, y, s, j) && !t[y][j].present
    ensures HalfCopied(t, o, x, y, s, j + 1)
  {
  }

  /** Slots [start, i) of the new top table n are finished, the others empty. */
  ghost predicate TopCopied(t: Tables, o: Owners, n: nat, f: nat, start: nat, i: nat) {
    && n !in o && n in t && f in t && IsRoot(o, f)
    && (forall c: Index | start <= c < i :: SlotDone(t, o, n, f, c))
    && (forall c: Index | !(start <= c < i) :: t[n][c] == ZERO)
  }

  lemma TopCopiedStep(t: Tables, o: Owners, t': Tables, o': Owners, n: nat, f: nat, start: nat, i: Index)
    requires Trees(t, o) && TopCopied(t, o, n, f, start, i) && start <= i
    requires Extends(t, t', o) && SameOwners(o, o') && n !in o' && n in t'
    requires forall c: Index | c != i :: t'[n][c] == t[n][c]
    requires SlotDone(t', o', n, f, i)
    ensures TopCopied(t', o', n, f, start, i + 1)
  {
    forall c: Index | start <= c < i + 1 ensures SlotDone(t', o', n, f, c) {
      if c < i {
        assert SlotDone(t, o, n, f, c);
        SlotStaysDone(t, o, t', o', n, f, c);
      }
    }
  }

  lemma TopCopiedFacts(t: Tables, o: Owners, n: nat, f: nat, start: nat, i: nat)
    requires TopCopied(t, o, n, f, start, i)
    ensures n !in o && n in t && f in t && IsRoot(o, f) && (i < SLOTS ==> !t[n][i].present)
  {
  }

  lemma NothingCopied(t: Tables, o: Owners, n: nat, f: nat, start: nat)
    requires n !in o && n in t && f in t && IsRoot(o, f) && t[n] == Blank(SLOTS)
    ensures TopCopied(t, o, n, f, start, start)
  {
  }

  lemma SkipSlot(t: Tables, o: Owners, n: nat, f: nat, start: nat, i: Index)
    requires TopCopied(t, o, n, f, start, i) && start <= i && !t[f][i].present
    ensures TopCopied(t, o, n, f, start, i + 1)
  {
    forall c: Index | start <= c < i + 1 ensures SlotDone(t, o, n, f, c) {
    }
  }

  /** A plain copy of the father's third-level table, linked into the new top table. */
  lemma StartCopy(t: Tables, o: Owners, x: nat, y: nat, n: nat, i: Index, e: Entry)
    requires Trees(t, o) && x !in o && n !in o && x != n && n in t && y in o && y in t
    ensures var t' := t[x := t[y]][n := t[n][i := e]];
            Trees(t', o) && HalfCopied(t', o, x, y, Third(n, i), 0)
  {
    hide Trees;
    OutsideTrees(t, o, x, t[y]);
    OutsideTrees(t[x := t[y]], o, n, t[n][i := e]);
  }

  /** The finished third-level table takes its place below the new top table. */
  lemma SlotFinished(t: Tables, o: Owners, n: nat, f: nat, i: Index, x: nat, y: nat)
    requires Trees(t, o) && HalfCopied(t, o, x, y, Third(n, i), SLOTS)
    requires n in t && f in t && t[f][i].present && t[f][i].ppn == y && t[n][i] == t[f][i].(ppn := x)
    ensures Trees(t, o[x := Third(n, i)]) && SlotDone(t, o[x := Third(n, i)], n, f, i)
  {
    hide Trees;
    forall j: Index
      ensures t[x][j].present ==> t[x][j].ppn in o && o[t[x][j].ppn] == Second(n, i, j)
      ensures CopiedEntry(t, x, y, j)
    {
      assert EntryDone(t, o, x, y, Third(n, i), j);
    }
    AddOwner(t, o, x, Third(n, i));
  }

  /** The finished top table becomes the root of an address space. */
  lemma RootFinished(t: Tables, o: Owners, n: nat, f: nat, start: nat, end: nat)
    requires Trees(t, o) && TopCopied(t, o, n, f, start, end)
    ensures Trees(t, o[n := Top(n)]) && Duplicated(t, n, f, start, end)
  {
    hide Trees;
    forall c: Index | t[n][c].present ensures t[n][c].ppn in o && o[t[n][c].ppn] == Third(n, c) {
      assert SlotDone(t, o, n, f, c);
    }
    AddOwner(t, o, n, Top(n));
    forall c: Index | !t[n][c].present ensures t[n][c] == ZERO {
      if start <= c < end { assert SlotDone(t, o, n, f, c); }
    }
    forall c: Index | start <= c < end ensures CopiedTop(t, n, f, c) {
      assert SlotDone(t, o, n, f, c);
    }
  }

  /** A copy of a second-level table is one itself: it leads to the same leaves. */
  lemma SecondCopyOk(t: Tables, o: Owners, y: nat, npt: nat, n: nat)
    requires Trees(t, o) && y in o && o[y].Second? && npt !in o
    ensures y in t && Trees(t[npt := t[y]], o[npt := Second(n, o[y].a, o[y].b)])
  {
    assert TableOk(t, o, y);
    var t', o' := t[npt := t[y]], o[npt := Second(n, o[y].a, o[y].b)];
    forall g | g in o' ensures TableOk(t', o', g) {
      if g != npt { assert TableOk(t, o, g); }
      forall j: Index ensures EntryOk(t', o', g, j) {
        assert EntryOk(t, o, if g == npt then y else g, j);
      }
    }
  }

  /** Adding a table whose entries all lead to the right places. */
  lemma AddOwner(t: Tables, o: Owners, x: nat, s: Slot)
    requires Trees(t, o) && x !in o && x in t && !s.Leaf? && (s.Top? ==> s.root == x)
    requires forall j: Index | t[x][j].present :: t[x][j].ppn in o && o[t[x][j].ppn] == Below(s, j)
    ensures Trees(t, o[x := s])
  {
    var o' := o[x := s];
    forall g | g in o' ensures TableOk(t, o', g) {
      if g != x { assert TableOk(t, o, g); }
      forall j: Index ensures EntryOk(t, o', g, j) {
        if g != x { assert EntryOk(t, o, g, j); }
      }
    }
  }

  /** Tables outside the trees can be rewritten freely. */
  lemma OutsideTrees(t: Tables, o: Owners, x: nat, table: Table)
    requires Trees(t, o) && x !in o
    ensures Trees(t[x := table], o)
  {
    var t' := t[x := table];
    forall g | g in o ensures TableOk(t', o, g) {
      assert TableOk(t, o, g);
      forall j: Index ensures EntryOk(t', o, g, j) {
        assert EntryOk(t, o, g, j);
      }
    }
  }

  /** Right after duplicating: the copy shows the father's slots and nothing
      else, and every older address space is as before. */
  lemma CopyShowsFather(t: Tables, o: Owners, t': Tables, o': Owners, n: nat, f: nat, start: nat, end: nat, p: Path)
    requires Trees(t, o) && IsRoot(o, f) && Trees(t', o') && SameOwners(o, o') && Extends(t, t', o)
    requires Duplicated(t', n, f, start, end)
    ensures Lookup(t', n, p) == if start <= p.top < end then Lookup(t, f, p) else None
    ensures PageRights(t', n, p) == if start <= p.top < end then PageRights(t, f, p) else None
    ensures forall r | IsRoot(o, r) :: Lookup(t', r, p) == Lookup(t, r, p) && Above(t', r, p) == Above(t, r, p)
  {
    hide Lookup, LeafTable, Trees, Duplicated, Above;
    forall r | IsRoot(o, r) ensures Lookup(t', r, p) == Lookup(t, r, p) && Above(t', r, p) == Above(t, r, p) {
      ExtendsKeepsLookup(t, t', o, r, p);
    }
    DuplicateTranslates(t', o', n, f, start, end, p);
  }

  // ----- later mappings -----

  datatype Space = Space(tables: Tables, owners: Owners)

  /** One page of one address space is mapped, unmapped or protected, or another
      address space is made. */
  datatype Change = Remap(root: nat, p: Path, e: Option<Entry>) | Duplicate

  ghost predicate Changes(s: Space, c: Change, s': Space) {
    match c
    case Remap(root, p, e) => IsRoot(s.owners, root) && Remapped(s.tables, s.owners, s'.tables, s'.owners, root, p, e)
    case Duplicate =>
      Trees(s'.tables, s'.owners) && SameOwners(s.owners, s'.owners) && Extends(s.tables, s'.tables, s.owners)
  }

  /** The address spaces at the end of a run of changes. */
  ghost predicate IsRun(s: Space, changes: seq<Change>, s': Space)
    decreases |changes|
  {
    if changes == [] then s' == s
    else exists s1 :: Changes(s, changes[0], s1) && IsRun(s1, changes[1..], s')
  }

  /** No change makes two address spaces share a leaf table, or ends that they do. */
  lemma SharingStays(s: Space, c: Change, s': Space, f: nat, n: nat, p: Path)
    requires Trees(s.tables, s.owners) && Changes(s, c, s') && IsRoot(s.owners, f) && IsRoot(s.owners, n) && f != n
    ensures Trees(s'.tables, s'.owners) && IsRoot(s'.owners, f) && IsRoot(s'.owners, n)
    ensures SharedLeaf(s'.tables, f, n, p) <==> SharedLeaf(s.tables, f, n, p)
  {
    hide LeafTable, Lookup, Trees;
    var t, o, t' := s.tables, s.owners, s'.tables;
    LeafIsOwned(t, o, f, p);
    LeafIsOwned(t, o, n, p);
    match c
    case Remap(root, q, e) =>
      assert LeafKept(t, o, t', root, f, p) && LeafKept(t, o, t', root, n, p);
    case Duplicate =>
      ExtendsKeepsLookup(t, t', o, f, p);
      ExtendsKeepsLookup(t, t', o, n, p);
  }

  /** No change takes a right away on the way to a page, or adds one. */
  lemma {:induction false} AboveStaysForever(s: Space, changes: seq<Change>, s': Space, r: nat, p: Path)
    requires Trees(s.tables, s.owners) && IsRun(s, changes, s') && IsRoot(s.owners, r)
    ensures Trees(s'.tables, s'.owners) && IsRoot(s'.owners, r)
    ensures Above(s'.tables, r, p) == Above(s.tables, r, p)
    decreases |changes|
  {
    if changes != [] {
      var s1 :| Changes(s, changes[0], s1) && IsRun(s1, changes[1..], s');
      assert Trees(s1.tables, s1.owners) && IsRoot(s1.owners, r) && Above(s1.tables, r, p) == Above(s.tables, r, p) by {
        hide Lookup, LeafTable, Above, Trees;
        if changes[0].Duplicate? { ExtendsKeepsLookup(s.tables, s1.tables, s.owners, r, p); }
      }
      AboveStaysForever(s1, changes[1..], s', r, p);
    }
  }

  /** However many changes came before: where the tables on the way took nothing away
      at the start, a page has exactly the rights that it is mapped with. */
  lemma MappedWithRights(s: Space, changes: seq<Change>, s1: Space, s2: Space, r: nat, p: Path, e: Entry, flags: nat)
    requires Trees(s.tables, s.owners) && IsRoot(s.owners, r) && Above(s.tables, r, p) == ALL && IsRun(s, changes, s1)
    requires Remapped(s1.tables, s1.owners, s2.tables, s2.owners, r, p, Some(e)) && e == WithPerms(e, flags)
    ensures PageRights(s2.tables, r, p) == Some(Asked(flags))
  {
    hide Lookup, LeafTable, Above, Trees, IsRun, Remapped;
    AboveStaysForever(s, changes, s1, r, p);
    RemappedRights(s1.tables, s1.owners, s2.tables, s2.owners, r, p, Some(e));
    PermsRoundTrip(e, flags);
  }

  lemma {:induction false} SharingStaysForever(s: Space, changes: seq<Change>, s': Space, f: nat, n: nat, p: Path)
    requires Trees(s.tables, s.owners) && IsRun(s, changes, s') && IsRoot(s.owners, f) && IsRoot(s.owners, n) && f != n
    ensures Trees(s'.tables, s'.owners) && IsRoot(s'.owners, f) && IsRoot(s'.owners, n)
    ensures SharedLeaf(s'.tables, f, n, p) <==> SharedLeaf(s.tables, f, n, p)
    decreases |changes|
  {
    if changes != [] {
      var s1 :| Changes(s, changes[0], s1) && IsRun(s1, changes[1..], s');
      SharingStays(s, changes[0], s1, f, n, p);
      SharingStaysForever(s1, changes[1..], s', f, n, p);
    }
  }

  /** However many changes lie between: a mapping in the copy n reaches the father
      f on that same page only, and exactly when the father had a leaf table for
      it at the time s of the copy. */
  lemma MappingReachesFather(s: Space, changes: seq<Change>, s1: Space, s2: Space, n: nat, f: nat, start: nat, end: nat,
                             p: Path, e: Option<Entry>, q: Path)
    requires Trees(s.tables, s.owners) && IsRoot(s.owners, f) && IsRoot(s.owners, n) && n != f
    requires Duplicated(s.tables, n, f, start, end) && IsRun(s, changes, s1)
    requires Remapped(s1.tables, s1.owners, s2.tables, s2.owners, n, p, e)
    ensures Lookup(s2.tables, f, q) ==
            if q == p && start <= p.top < end && LeafTable(s.tables, f, p).Some? then e else Lookup(s1.tables, f, q)
  {
    hide Lookup, LeafTable, Trees, Duplicated, IsRun;
    SharingStaysForever(s, changes, s1, f, n, p);
    DuplicateTranslates(s.tables, s.owners, n, f, start, end, p);
  }

  class AddressSpaces {
    const pmm: B.Bitmap
    var tables: Tables
    ghost var owners: Owners

    ghost predicate PmmValid()
      reads pmm, pmm.bitfield
    {
      && pmm.Valid() && pmm.cursor >= 1
      && pmm.firstAddr % PAGE == 0 && pmm.firstAddr / PAGE + pmm.total < PPN_LIMIT
    }

    /** The frames the bitmap will not hand out: marked, or not among its pages. */
    ghost function Reserved(): iset<nat>
      requires PmmValid()
      reads pmm, pmm.bitfield
    {
      iset f: nat | Withheld(pmm.firstAddr / PAGE, pmm.total, pmm.Locked(), f)
    }

    ghost predicate Valid()
      reads this, pmm, pmm.bitfield
    {
      PmmValid() && Trees(tables, owners) && (forall f | f in owners :: f in Reserved())
    }

    /** Starts from the tables the boot loader left. */
    constructor (bitmap: B.Bitmap, boot: Tables, ghost slots: Owners)
      requires bitmap.Valid() && bitmap.cursor >= 1
      requires bitmap.firstAddr % PAGE == 0 && bitmap.firstAddr / PAGE + bitmap.total < PPN_LIMIT
      requires Trees(boot, slots)
      requires forall f | f in slots :: Withheld(bitmap.firstAddr / PAGE, bitmap.total, bitmap.Locked(), f)
      ensures Valid() && pmm == bitmap && tables == boot && owners == slots
    {
      pmm, tables, owners := bitmap, boot, slots;
    }

    /** The number of frames left to hand out. */
    ghost function FramesLeft(): nat
      requires PmmValid()
      reads pmm, pmm.bitfield
    {
      |pmm.FreeFrom(1)|
    }

    /** None is a panic: no page left. */
    method RequestFrame() returns (f: Option<nat>)
      requires PmmValid()
      modifies pmm`cursor, pmm.bitfield
      ensures f.Some? <==> old(FramesLeft()) > 0
      ensures f.Some? ==> PmmValid() && FramesLeft() == old(FramesLeft()) - 1
      ensures f.Some? ==> PmmValid() && old(Reserved()) <= Reserved()
      ensures f.Some? ==> f.value <= pmm.firstAddr / PAGE + pmm.total < PPN_LIMIT
      ensures f.Some? ==> f.value !in old(Reserved()) && f.value in Reserved()
    {
      hide B.LockedIn, B.Covers;
      ghost var free := pmm.FreeFrom(1);
      var r;
      ghost var probes;
      r, probes := pmm.RequestPage();
      if r.None? { return None; }
      assert free != {} && pmm.FreeFrom(1) == free - {pmm.cursor};
      f := Some(r.value / PAGE);
      assert f.value == pmm.firstAddr / PAGE + pmm.cursor;
    }

    /** One step down the tables, adding an empty table where there is none. */
    method NextTable(f: nat, i: Index) returns (g: Option<nat>)
      requires Valid() && f in owners && !owners[f].Leaf?
      modifies this`tables, this`owners, pmm`cursor, pmm.bitfield
      ensures g.Some? <==> Child(old(tables), f, i).Some? || old(FramesLeft()) > 0
      ensures g.Some? ==>
                && Valid() && Stepped(old(tables), old(owners), tables, f, i, g.value)
                && FramesLeft() == old(FramesLeft()) - OneIf(Child(old(tables), f, i).None?)
                && g.value in owners && owners[g.value] == Below(old(owners[f]), i)
                && SameOwners(old(owners), owners) && old(Reserved()) <= Reserved()
                && FreshOwners(old(owners), owners, old(Reserved()))
                && Grows(old(tables), old(owners), tables, owners, old(owners[f].root))
    {
      hide Grows, Lookup, LeafTable, Reserved, FramesLeft;
      assert TableOk(tables, owners, f) && EntryOk(tables, owners, f, i);
      var pde := tables[f][i];
      if pde.present {
        GrowsRefl(tables, owners, owners[f].root);
        return Some(pde.ppn);
      }
      g := RequestFrame();
      if g.None? { return; }
      var nf := g.value;
      AttachGrows(tables, owners, f, i, nf);
      AttachKeepsTrees(tables, owners, f, i, nf);
      AttachStepped(tables, owners, f, i, nf);
      owners := owners[nf := Below(owners[f], i)];
      tables := tables[nf := Blank(SLOTS)];
      tables := tables[f := tables[f][i := pde.(ppn := nf % PPN_LIMIT, present := true, writeable := true,
                                                user := true)]];
    }

    /** The leaf table of a path, created with the tables above it if need be. */
    method LeafFor(root: nat, p: Path) returns (l: Option<nat>)
      requires Valid() && IsRoot(owners, root)
      modifies this`tables, this`owners, pmm`cursor, pmm.bitfield
      ensures l.Some? <==> |Missing(old(tables), root, Places(root, p))| <= old(FramesLeft())
      ensures l.Some? ==>
                && Valid() && Adds(old(tables), tables, root, Places(root, p))
                && FramesLeft() == old(FramesLeft()) - |Missing(old(tables), root, Places(root, p))|
      ensures l.Some? ==>
                && Valid() && LeafTable(tables, root, p) == l && IsLeaf(tables, owners, l.value, p)
                && (var l0 := LeafTable(old(tables), root, p); l0 == l || (l0.None? && l.value !in old(owners)))
                && Grows(old(tables), old(owners), tables, owners, root)
                && old(Reserved()) <= Reserved() && FreshOwners(old(owners), owners, old(Reserved()))
    {
      hide Grows, Lookup, Trees, Reserved, FramesLeft, Adds, Missing;
      ghost var t0, o0 := tables, owners;
      FirstStep(t0, root, p);
      var third := NextTable(root, p.top);
      if third.None? { return None; }
      ghost var t1, o1 := tables, owners;
      StepAddsOne(t0, o0, t1, root, root, p.top, third.value);
      TwoSteps(t0, t1, root, p);
      var second := NextTable(third.value, p.third);
      if second.None? { return None; }
      ghost var t2, o2 := tables, owners;
      StepAddsOne(t1, o1, t2, root, third.value, p.third, second.value);
      ThreeCosts(t0, t1, t2, root, p);
      l := NextTable(second.value, p.second);
      if l.None? { return; }
      StepAddsOne(t2, o2, tables, root, second.value, p.second, l.value);
      ThreeSteps(t0, t1, t2, tables, root, p);
      GrowsTrans(t0, o0, t1, o1, t2, o2, root);
      GrowsTrans(t0, o0, t2, o2, tables, owners, root);
      assert Child(tables, root, p.top) == third && Child(tables, third.value, p.third) == second;
      LeafGrown(t0, o0, tables, owners, root, p);
    }

    /** Maps the page at `virt` to the frame at `phys`.  False is a panic: an
        unaligned address, or no frame left for a table. */
    method MapMemory(root: nat, virt: nat, phys: nat, flags: nat) returns (ok: bool, ghost e: Entry)
      requires Valid() && IsRoot(owners, root)
      modifies this`tables, this`owners, pmm`cursor, pmm.bitfield
      ensures ok <==>
                && virt % PAGE == 0 && phys % PAGE == 0
                && |Missing(old(tables), root, Places(root, PathOf(virt)))| <= old(FramesLeft())
      ensures ok ==>
                && Valid() && Adds(old(tables), tables, root, Places(root, PathOf(virt)))
                && FramesLeft() == old(FramesLeft()) - |Missing(old(tables), root, Places(root, PathOf(virt)))|
      ensures ok ==> Remapped(old(tables), old(owners), tables, owners, root, PathOf(virt), Some(e))
      ensures ok ==> e.ppn == phys / PAGE % PPN_LIMIT && e == WithPerms(e, flags) && Perms(e) == flags % 16
      ensures ok ==> PageRights(tables, root, PathOf(virt)) ==
                       Some(Meet(Above(old(tables), root, PathOf(virt)), Asked(flags)))
      ensures ok ==> old(Reserved()) <= Reserved() && FreshOwners(old(owners), owners, old(Reserved()))
    {
      hide Grows, Lookup, LeafTable, Remapped, Trees, PathOf, Reserved, FramesLeft, Adds, Missing, Above, PageRights;
      e := ZERO;
      if virt % PAGE != 0 || phys % PAGE != 0 { return false, e; }
      var p := PathOf(virt);
      ghost var t0, o0 := tables, owners;
      var pt := LeafFor(root, p);
      if pt.None? { return false, e; }
      var pte := tables[pt.value][p.leaf];
      pte := pte.(ppn := phys / PAGE % PPN_LIMIT, present := true);
      PermsRoundTrip(pte, flags);
      pte := pte.(writeable := HasBit(flags, WRITE), user := HasBit(flags, USER),
                  noExecute := HasBit(flags, NO_EXECUTE), cacheDisabled := HasBit(flags, CACHE_DISABLE));
      PutRemaps(t0, o0, tables, owners, root, p, pt.value, pte);
      RemappedRights(t0, o0, Put(tables, pt.value, p.leaf, pte), owners, root, p, Some(pte));
      PutKeepsTrees(tables, owners, pt.value, p, pte);
      GrowsTrees(t0, o0, tables, owners, root);
      PutAddsNothing(tables, owners, pt.value, p, pte, root);
      AddsTrans(t0, tables, Put(tables, pt.value, p.leaf, pte), root, Places(root, p), {});
      assert Places(root, p) + {} == Places(root, p);
      tables := tables[pt.value := tables[pt.value][p.leaf := pte]];
      ok, e := true, pte;
    }

    /** The frame address behind a virtual address, without its page offset. */
    method VirtualToPhysical(root: nat, virt: nat) returns (phys: Option<nat>)
      requires Valid() && IsRoot(owners, root)
      ensures var e := Lookup(tables, root, PathOf(virt));
              phys == if e.Some? then Some(e.value.ppn * PAGE) else None
    {
      var p := PathOf(virt);
      var l := FindLeaf(root, p);
      if l.None? { return None; }
      var pte := tables[l.value][p.leaf];
      if !pte.present { return None; }
      return Some(pte.ppn * PAGE);
    }

    /** Unmaps a page; nothing happens when it has no leaf table. */
    method UnmapMemory(root: nat, virt: nat)
      requires Valid() && IsRoot(owners, root)
      modifies this`tables
      ensures Valid()
      ensures Remapped(old(tables), owners, tables, owners, root, PathOf(virt), None)
    {
      hide Grows, Lookup, Remapped, Trees, PathOf, Reserved;
      var p := PathOf(virt);
      var l := FindLeaf(root, p);
      GrowsRefl(tables, owners, root);
      if l.None? {
        NothingRemaps(tables, owners, root, p);
        return;
      }
      var pte := tables[l.value][p.leaf].(present := false);
      PutRemaps(tables, owners, tables, owners, root, p, l.value, pte);
      PutKeepsTrees(tables, owners, l.value, p, pte);
      tables := tables[l.value := tables[l.value][p.leaf := pte]];
    }

    /** The leaf table of a path, if all tables above it are there. */
    method FindLeaf(root: nat, p: Path) returns (l: Option<nat>)
      requires Valid() && IsRoot(owners, root)
      ensures l == LeafTable(tables, root, p) && (l.Some? ==> IsLeaf(tables, owners, l.value, p))
    {
      WalkSlots(tables, owners, root, p);
      assert TableOk(tables, owners, root);
      var pde := tables[root][p.top];
      if !pde.present { return None; }
      assert TableOk(tables, owners, pde.ppn);
      pde := tables[pde.ppn][p.third];
      if !pde.present { return None; }
      assert TableOk(tables, owners, pde.ppn);
      pde := tables[pde.ppn][p.second];
      if !pde.present { return None; }
      assert TableOk(tables, owners, pde.ppn);
      return Some(pde.ppn);
    }

    /** Changes the permissions of one page; false when a table on the way to its
        entry is absent. */
    method SetPagePerms(root: nat, virt: nat, flags: nat) returns (ok: bool)
      requires Valid() && IsRoot(owners, root)
      modifies this`tables
      ensures Valid() && ok == LeafTable(old(tables), root, PathOf(virt)).Some? && (!ok ==> tables == old(tables))
      ensures Remapped(old(tables), owners, tables, owners, root, PathOf(virt),
                       Protected(Lookup(old(tables), root, PathOf(virt)), flags))
      ensures Lookup(old(tables), root, PathOf(virt)).Some? ==>
                PageRights(tables, root, PathOf(virt)) ==
                  Some(Meet(Above(old(tables), root, PathOf(virt)), Asked(flags)))
    {
      hide Grows, Remapped, Trees, PathOf, Reserved, Above, PageRights;
      var p := PathOf(virt);
      var l := FindLeaf(root, p);
      if l.None? {
        NothingRemaps(tables, owners, root, p);
        return false;
      }
      GrowsRefl(tables, owners, root);
      var pte := tables[l.value][p.leaf];
      pte := pte.(writeable := HasBit(flags, WRITE), user := HasBit(flags, USER),
                  noExecute := HasBit(flags, NO_EXECUTE), cacheDisabled := HasBit(flags, CACHE_DISABLE));
      PermsRoundTrip(pte, flags);
      PutRemaps(tables, owners, tables, owners, root, p, l.value, pte);
      RemappedRights(tables, owners, Put(tables, l.value, p.leaf, pte), owners, root, p,
                     if pte.present then Some(pte) else None);
      PutKeepsTrees(tables, owners, l.value, p, pte);
      tables := tables[l.value := tables[l.value][p.leaf := pte]];
      ok := true;
    }

    /** The permissions of one page; None when a table on the way to its entry is absent. */
    method GetPagePerms(root: nat, virt: nat) returns (flags: Option<nat>)
      requires Valid() && IsRoot(owners, root)
      ensures flags.Some? <==> LeafTable(tables, root, PathOf(virt)).Some?
      ensures forall e | Lookup(tables, root, PathOf(virt)) == Some(e) :: flags == Some(Perms(e))
    {
      var p := PathOf(virt);
      var l := FindLeaf(root, p);
      if l.None? { return None; }
      var pte := tables[l.value][p.leaf];
      flags := Some(Perms(pte));
    }

    /** Changes the permissions of all pages that overlap [address, address + size),
        up to the first one whose tables are absent; `done` counts them. */
    method Mprotect(root: nat, address: nat, size: nat, flags: nat) returns (ok: bool, ghost done: nat)
      requires Valid() && IsRoot(owners, root)
      modifies this`tables
      ensures Valid() && done <= PageCount(address, size) && (ok <==> done == PageCount(address, size))
      ensures forall k: nat | k < done :: LeafTable(old(tables), root, PathOf(PageAt(address, k))).Some?
      ensures !ok ==> LeafTable(old(tables), root, PathOf(PageAt(address, done))).None?
      ensures forall q :: Lookup(tables, root, q) ==
                if InPages(address, done, q) then Protected(Lookup(old(tables), root, q), flags)
                else Lookup(old(tables), root, q)
      ensures OthersFollow(old(tables), owners, tables, root, address, done)
    {
      hide Lookup, LeafTable, PathOf, Trees, Reserved, OthersFollow;
      var start := address / PAGE * PAGE;
      var end := (address + size + 0xfff) / PAGE * PAGE;
      var i := start;
      done := 0;
      OthersStart(tables, owners, root, address);
      while i < end
        invariant Valid() && i == PageAt(address, done) && done <= PageCount(address, size)
        invariant forall q :: LeafTable(tables, root, q) == LeafTable(old(tables), root, q)
        invariant forall k: nat | k < done :: LeafTable(old(tables), root, PathOf(PageAt(address, k))).Some?
        invariant forall q :: Lookup(tables, root, q) ==
                    if InPages(address, done, q) then Protected(Lookup(old(tables), root, q), flags)
                    else Lookup(old(tables), root, q)
        invariant OthersFollow(old(tables), owners, tables, root, address, done)
      {
        ghost var t := tables;
        ok := SetPagePerms(root, i, flags);
        if !ok { return; }
        forall q
          ensures LeafTable(tables, root, q) == LeafTable(t, root, q)
          ensures Lookup(tables, root, q) ==
                  if InPages(address, done + 1, q) then Protected(Lookup(old(tables), root, q), flags)
                  else Lookup(old(tables), root, q)
        {
          assert LeafKept(t, owners, tables, root, root, q);
          LeafIsOwned(tables, owners, root, q);
          NextPage(address, done, q);
        }
        OthersStep(old(tables), owners, t, owners, tables, owners, root, address, done,
                   Protected(Lookup(t, root, PathOf(i)), flags));
        i := i + PAGE;
        done := done + 1;
      }
      ok := true;
    }

    /** The direct map: physical page k appears at base + k * PAGE, for all pages
        below `last`.  Every other page stays as it was.  It fails exactly when
        there are fewer frames left than tables missing. */
    method MapDirect(root: nat, base: nat, last: nat) returns (ok: bool)
      requires Valid() && IsRoot(owners, root) && base % PAGE == 0 && last < PPN_LIMIT * PAGE
      modifies this`tables, this`owners, pmm`cursor, pmm.bitfield
      ensures var places := RangePlaces(root, base, PageCount(0, last));
              && (ok <==> |Missing(old(tables), root, places)| <= old(FramesLeft()))
              && (ok ==> Valid() && FramesLeft() == old(FramesLeft()) - |Missing(old(tables), root, places)|)
      ensures ok ==> IsRoot(owners, root) && SameOwners(old(owners), owners)
      ensures ok ==> forall k: nat | k * PAGE < last :: DirectAt(tables, root, base, k)
      ensures ok ==> OnlyPages(old(tables), tables, root, base, PageCount(0, last))
      ensures ok ==> OthersFollow(old(tables), old(owners), tables, root, base, PageCount(0, last))
    {
      hide Lookup, LeafTable, PathOf, Trees, Reserved, OthersFollow, OnlyPages, DirectAt, Remapped, Places,
           FramesLeft, Adds, Missing;
      var i := 0;
      ghost var n: nat := 0;
      AddsNothing(tables, root);
      OthersStart(tables, owners, root, base);
      OnlyPagesStart(tables, root, base);
      while i < last
        invariant Valid() && IsRoot(owners, root) && SameOwners(old(owners), owners)
        invariant i == n * PAGE && n <= PageCount(0, last)
        invariant Adds(old(tables), tables, root, RangePlaces(root, base, n))
        invariant FramesLeft() == old(FramesLeft()) - |Missing(old(tables), root, RangePlaces(root, base, n))|
        invariant forall k: nat | k < n :: DirectAt(tables, root, base, k)
        invariant OnlyPages(old(tables), tables, root, base, n)
        invariant OthersFollow(old(tables), old(owners), tables, root, base, n)
      {
        ghost var t, o := tables, owners;
        ghost var p := PathOf(PageAt(base, n));
        OnePageMore(old(tables), t, root, RangePlaces(root, base, n), p);
        RangePlacesGrow(root, base, n + 1, PageCount(0, last));
        MissingGrows(old(tables), root, RangePlaces(root, base, n + 1), RangePlaces(root, base, PageCount(0, last)));
        ghost var e;
        ok, e := MapMemory(root, base + i, i, WRITE);
        if !ok { return; }
        RemappedFacts(t, o, tables, owners, root, p, Some(e));
        AddsTrans(old(tables), t, tables, root, RangePlaces(root, base, n), Places(root, p));
        OthersStep(old(tables), old(owners), t, o, tables, owners, root, base, n, Some(e));
        DirectStep(t, o, tables, owners, root, base, n, e);
        OnlyPagesStep(old(tables), t, o, tables, owners, root, base, n, Some(e));
        i := i + PAGE;
        n := n + 1;
      }
      ok := true;
    }

    /** Gives the third-level table x, a plain copy of the father's table y, its
        own copies of the second-level tables; s is the place of x. */
    method CopyBelow(x: nat, y: nat, ghost s: Slot) returns (ok: bool)
      requires Valid() && HalfCopied(tables, owners, x, y, s, 0) && x in Reserved()
      requires owners[y].Third? && owners[y].a == s.a
      modifies this`tables, this`owners, pmm`cursor, pmm.bitfield
      ensures ok <==> PresentCount(old(tables)[y], SLOTS) <= old(FramesLeft())
      ensures ok ==>
                && Valid() && old(Reserved()) <= Reserved()
                && FramesLeft() == old(FramesLeft()) - PresentCount(old(tables)[y], SLOTS)
                && OnlyFresh(old(tables), old(owners), tables, owners, old(Reserved()), x)
                && HalfCopied(tables, owners, x, y, s, SLOTS)
    {
      hide Trees, HalfCopied, Reserved, FramesLeft, OnlyFresh, PresentCount;
      HalfCopiedFacts(tables, owners, x, y, s, 0);
      OnlyFreshRefl(tables, owners, Reserved(), x);
      ghost var father := tables[y];
      NextCount(father, 0);
      ok := true;
      for j := 0 to SLOTS
        invariant Valid() && old(Reserved()) <= Reserved()
        invariant OnlyFresh(old(tables), old(owners), tables, owners, old(Reserved()), x)
        invariant HalfCopied(tables, owners, x, y, s, j)
        invariant FramesLeft() == old(FramesLeft()) - PresentCount(father, j)
      {
        HalfCopiedFacts(tables, owners, x, y, s, j);
        OnlyFreshFacts(old(tables), old(owners), tables, owners, old(Reserved()), x, y);
        NextCount(father, j);
        var pde := tables[y][j];
        if pde.present {
          ghost var t1, o1 := tables, owners;
          var npt := RequestFrame();
          if npt.None? { return false; }
          CopyOneEntry(tables, owners, x, y, s, j, npt.value);
          owners := owners[npt.value := Below(s, j)];
          tables := tables[npt.value := tables[pde.ppn]];
          tables := tables[x := tables[x][j := pde.(ppn := npt.value % PPN_LIMIT)]];
          OnlyFreshStep(old(tables), old(owners), t1, o1, old(Reserved()), x, npt.value, Below(s, j), t1[pde.ppn],
                        tables[x]);
        } else {
          SkipEntry(tables, owners, x, y, s, j);
        }
      }
    }

    /** Copies slot i of the father's top table. */
    method CopySlot(n: nat, father: nat, ghost start: nat, i: Index) returns (ok: bool)
      requires Valid() && n in Reserved() && start <= i && TopCopied(tables, owners, n, father, start, i)
      modifies this`tables, this`owners, pmm`cursor, pmm.bitfield
      ensures ok <==> SlotCost(old(tables), father, i) <= old(FramesLeft())
      ensures ok ==>
                && Valid() && old(Reserved()) <= Reserved()
                && FramesLeft() == old(FramesLeft()) - SlotCost(old(tables), father, i)
                && SameOwners(old(owners), owners) && Extends(old(tables), tables, old(owners))
                && TopCopied(tables, owners, n, father, start, i + 1)
    {
      hide Trees, HalfCopied, TopCopied, SlotDone, Reserved, FramesLeft, PresentCount;
      TopCopiedFacts(tables, owners, n, father, start, i);
      InTrees(tables, owners, father);
      assert EntryOk(tables, owners, father, i);
      var pde := tables[father][i];
      if !pde.present {
        SkipSlot(tables, owners, n, father, start, i);
        return true;
      }
      ghost var t0, o0 := tables, owners;
      var pd := pde.ppn;
      InTrees(tables, owners, pd);
      var npd := RequestFrame();
      if npd.None? { return false; }
      var x := npd.value;
      StartCopy(tables, owners, x, pd, n, i, pde.(ppn := x));
      tables := tables[x := tables[pd]];
      tables := tables[n := tables[n][i := pde.(ppn := x % PPN_LIMIT)]];
      ghost var t1 := tables;
      ok := CopyBelow(x, pd, Third(n, i));
      if !ok { return; }
      HalfCopiedFacts(tables, owners, x, pd, Third(n, i), SLOTS);
      SlotFinished(tables, owners, n, father, i, x, pd);
      owners := owners[x := Third(n, i)];
      TopCopiedStep(t0, o0, tables, owners, n, father, start, i);
    }

    /** A new address space that shows slots [start, end) of the father.  None is a
        panic: fewer frames are left than tables have to be copied. */
    method DuplicatePd(father: nat, start: nat, end: nat) returns (copy: Option<nat>)
      requires Valid() && IsRoot(owners, father) && start <= end <= SLOTS
      modifies this`tables, this`owners, pmm`cursor, pmm.bitfield
      ensures copy.Some? <==> 1 + SlotsCost(old(tables), father, start, end) <= old(FramesLeft())
      ensures copy.Some? ==>
                && Valid() && FramesLeft() == old(FramesLeft()) - 1 - SlotsCost(old(tables), father, start, end)
      ensures copy.Some? ==>
                && Valid() && old(Reserved()) <= Reserved()
                && IsRoot(owners, copy.value) && copy.value !in old(owners)
                && SameOwners(old(owners), owners) && Extends(old(tables), tables, old(owners))
                && Duplicated(tables, copy.value, father, start, end)
    {
      hide Trees, HalfCopied, TopCopied, Duplicated, Reserved, FramesLeft, SlotCost;
      copy := RequestFrame();
      if copy.None? { return; }
      var n := copy.value;
      OutsideTrees(tables, owners, n, Blank(SLOTS));
      InTrees(tables, owners, father);
      tables := tables[n := Blank(SLOTS)];
      NothingCopied(tables, owners, n, father, start);
      for i := start to end
        invariant Valid() && old(Reserved()) <= Reserved() && n in Reserved()
        invariant SameOwners(old(owners), owners) && Extends(old(tables), tables, old(owners))
        invariant TopCopied(tables, owners, n, father, start, i)
        invariant FramesLeft() == old(FramesLeft()) - 1 - SlotsCost(old(tables), father, start, i)
      {
        SlotCostKept(old(tables), old(owners), tables, father, i);
        SlotsCostGrows(old(tables), father, start, i + 1, end);
        var ok := CopySlot(n, father, start, i);
        if !ok { return None; }
      }
      RootFinished(tables, owners, n, father, start, end);
      owners := owners[n := Top(n)];
    }
  }
}
