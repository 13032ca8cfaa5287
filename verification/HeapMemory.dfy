/** The heap as it lies in memory: headers linked by `next` and `last`, payload
    bytes between them.  Every operation relinks headers in place and is proved
    to do on the list of segments what `HeapSpec` says. */
module HeapMemory {
  import opened Basics
  import opened HeapSpec
  import opened HeapLaws

  datatype Header = Header(free: bool, length: nat, next: nat, last: nat)

  function HeaderOf(segs: seq<Segment>, i: nat): Header
    requires i < |segs|
  {
    Header(segs[i].free, segs[i].length,
           if i + 1 < |segs| then segs[i + 1].addr else 0,
           if i > 0 then segs[i - 1].addr else 0)
  }

  /** The headers in memory are the segments, doubly linked. */
  ghost predicate Linked(hdr: map<nat, Header>, segs: seq<Segment>) {
    forall i | 0 <= i < |segs| :: LinkedAt(hdr, segs, i)
  }

  predicate LinkedAt(hdr: map<nat, Header>, segs: seq<Segment>, i: nat)
    requires i < |segs|
  {
    segs[i].addr in hdr && hdr[segs[i].addr] == HeaderOf(segs, i)
  }

  function Addrs(segs: seq<Segment>): set<nat> { set i | 0 <= i < |segs| :: segs[i].addr }

  /** A header outside the list is one that a merging expansion left behind. */
  ghost predicate OthersAreFree(hdr: map<nat, Header>, segs: seq<Segment>) {
    forall a | a in hdr && !hdr[a].free :: a in Addrs(segs)
  }

  predicate Overlap(a: nat, b: nat) { a < b + H && b < a + H }

  /** Writing a header destroys every other header it overlaps ... */
  function Stored(hdr: map<nat, Header>, a: nat, h: Header): map<nat, Header> {
    (map x | x in hdr && !Overlap(x, a) :: hdr[x])[a := h]
  }

  /** ... and the bytes below it; zeroing one leaves no header there. */
  function Clobbered(bytes: map<nat, Byte>, a: nat): map<nat, Byte> {
    map x | x in bytes && !(a <= x < a + H) :: bytes[x]
  }

  ghost predicate SameByte(b: map<nat, Byte>, b': map<nat, Byte>, x: nat) {
    (x in b <==> x in b') && (x in b ==> b[x] == b'[x])
  }

  ghost predicate InHeaders(hs: set<nat>, x: nat) {
    exists a :: a in hs && a <= x < a + H
  }

  ghost predicate KeptOutside(b: map<nat, Byte>, b': map<nat, Byte>, hs: set<nat>) {
    forall x: nat | !InHeaders(hs, x) :: SameByte(b, b', x)
  }

  ghost predicate SameHeader(h: map<nat, Header>, h': map<nat, Header>, a: nat) {
    a in h && a in h' && h[a] == h'[a]
  }

  ghost predicate ClearOfAll(x: nat, hs: set<nat>) { forall a | a in hs :: !Overlap(x, a) }

  /** Memory changed only by writing headers at the addresses `hs`. */
  ghost predicate Frame(h: map<nat, Header>, b: map<nat, Byte>, h': map<nat, Header>, b': map<nat, Byte>,
                        hs: set<nat>) {
    && (forall x | x in h && ClearOfAll(x, hs) :: SameHeader(h, h', x))
    && (forall x | x in h' :: x in hs || SameHeader(h, h', x))
    && KeptOutside(b, b', hs)
  }

  lemma FrameStep(h: map<nat, Header>, b: map<nat, Byte>, h': map<nat, Header>, b': map<nat, Byte>, hs: set<nat>,
                  a: nat, hd: Header, h'': map<nat, Header>, b'': map<nat, Byte>)
    requires Frame(h, b, h', b', hs) && b'' == Clobbered(b', a)
    requires h'' == Stored(h', a, hd) || h'' == Stored(h', a, hd) - {a}
    ensures Frame(h, b, h'', b'', hs + {a})
  {
    forall x | x in h && ClearOfAll(x, hs + {a}) ensures SameHeader(h, h'', x) {
      assert ClearOfAll(x, hs) && a in hs + {a};
    }
    forall x: nat | !InHeaders(hs + {a}, x) ensures SameByte(b, b'', x) {
      assert a in hs + {a};
      assert SameByte(b, b', x);
    }
  }

  lemma FrameTrans(h: map<nat, Header>, b: map<nat, Byte>, h': map<nat, Header>, b': map<nat, Byte>, hs: set<nat>,
                   h'': map<nat, Header>, b'': map<nat, Byte>, hs': set<nat>)
    requires Frame(h, b, h', b', hs) && Frame(h', b', h'', b'', hs')
    ensures Frame(h, b, h'', b'', hs + hs')
  {
    var all := hs + hs';
    forall x | x in h && ClearOfAll(x, all) ensures SameHeader(h, h'', x) {
      assert forall a | a in hs || a in hs' :: a in all;
      assert ClearOfAll(x, hs) && ClearOfAll(x, hs');
    }
    forall x: nat | !InHeaders(all, x) ensures SameByte(b, b'', x) {
      assert forall a | a in hs || a in hs' :: a in all;
      assert SameByte(b, b', x) && SameByte(b', b'', x);
    }
  }

  ghost predicate PayloadKept(b: map<nat, Byte>, b': map<nat, Byte>, blocks: set<(nat, nat)>) {
    forall blk, x: nat | blk in blocks && blk.0 <= x < blk.0 + blk.1 :: SameByte(b, b', x)
  }

  lemma NothingKept(h: Heap, b: map<nat, Byte>)
    requires |h.segs| > 0
    ensures HeapSpec.Malloc(h, 0) == Done(h, 0) && PayloadKept(b, b, Live(h))
  {
  }

  lemma KeptTrans(b: map<nat, Byte>, b': map<nat, Byte>, b'': map<nat, Byte>, blocks: set<(nat, nat)>)
    requires PayloadKept(b, b', blocks) && PayloadKept(b', b'', blocks)
    ensures PayloadKept(b, b'', blocks)
  {
    forall blk, x: nat | blk in blocks && blk.0 <= x < blk.0 + blk.1 ensures SameByte(b, b'', x) {
      assert SameByte(b, b', x) && SameByte(b', b'', x);
    }
  }

  // ----- relinking -----

  ghost predicate Apart(segs: seq<Segment>) {
    forall i, j | 0 <= i < j < |segs| :: segs[j].End() <= segs[i].addr
  }

  lemma GoodIsApart(segs: seq<Segment>)
    requires Good(segs)
    ensures Apart(segs)
  {
    forall i, j | 0 <= i < j < |segs| ensures segs[j].End() <= segs[i].addr {
      Descending(segs, i, j);
    }
  }

  lemma FlagLinked(hdr: map<nat, Header>, segs: seq<Segment>, k: nat, f: bool)
    requires Apart(segs) && Linked(hdr, segs) && k < |segs|
    ensures var a := segs[k].addr;
            LinkedAt(hdr, segs, k) && Linked(Stored(hdr, a, hdr[a].(free := f)), segs[k := segs[k].(free := f)])
  {
    var a, t := segs[k].addr, segs[k := segs[k].(free := f)];
    assert LinkedAt(hdr, segs, k);
    var h' := Stored(hdr, a, hdr[a].(free := f));
    forall j | 0 <= j < |t| ensures LinkedAt(h', t, j) {
      assert LinkedAt(hdr, segs, j);
      if j != k { ClearOf(segs, k, a, j); }
    }
  }

  /** The list after a split, before the new segment is marked as used. */
  function Halves(segs: seq<Segment>, i: nat, size: nat): seq<Segment>
    requires i < |segs| && segs[i].length > size + H
  {
    segs[..i] + [Segment(segs[i].addr + segs[i].length - size, size, true),
                 segs[i].(length := segs[i].length - size - H)] + segs[i + 1..]
  }

  /** Segments [a, c) are replaced by `m`: only the new headers and the two
      headers next to them need a look. */
  lemma Relink(hdr: map<nat, Header>, hdr': map<nat, Header>, segs: seq<Segment>, a: nat, c: nat, m: seq<Segment>,
               t: seq<Segment>)
    requires Linked(hdr, segs) && a <= c <= |segs| && t == segs[..a] + m + segs[c..]
    requires forall k | 0 <= k < a - 1 || c < k < |segs| :: SameHeader(hdr, hdr', segs[k].addr)
    requires forall k | a - 1 <= k <= a + |m| && 0 <= k < |t| :: LinkedAt(hdr', t, k)
    ensures Linked(hdr', t)
  {
    forall k | 0 <= k < |t| ensures LinkedAt(hdr', t, k) {
      if k < a - 1 {
        assert t[k] == segs[k] && t[k + 1] == segs[k + 1] && SameHeader(hdr, hdr', segs[k].addr);
        assert LinkedAt(hdr, segs, k);
      } else if k > a + |m| {
        var j := k - |m| + c - a;
        assert t[k] == segs[j] && t[k - 1] == segs[j - 1] && SameHeader(hdr, hdr', segs[j].addr);
        assert LinkedAt(hdr, segs, j);
      }
    }
  }

  /** No other header of the list overlaps a header put at `n` inside segment `i`. */
  lemma ClearOf(segs: seq<Segment>, i: nat, n: nat, k: nat)
    requires Apart(segs) && i < |segs| && segs[i].addr <= n && n + H <= segs[i].End() && k < |segs| && k != i
    ensures !Overlap(segs[k].addr, n) && !Overlap(n, segs[k].addr)
  {
  }

  lemma NotNull(segs: seq<Segment>, i: nat)
    requires Apart(segs) && i < |segs| && segs[|segs| - 1].addr > 0
    ensures segs[i].addr > 0
  {
  }

  lemma LinkedHere(hdr: map<nat, Header>, segs: seq<Segment>, i: nat)
    requires Linked(hdr, segs) && i < |segs|
    ensures LinkedAt(hdr, segs, i)
  {
  }

  lemma SplitLinked(hdr: map<nat, Header>, b: map<nat, Byte>, hdr': map<nat, Header>, b': map<nat, Byte>,
                    segs: seq<Segment>, i: nat, size: nat)
    requires Apart(segs) && Linked(hdr, segs) && 0 < i < |segs| && segs[i].length > size + H
    requires var a, l := segs[i].addr, segs[i - 1].addr;
             var n := a + segs[i].length - size;
             && Frame(hdr, b, hdr', b', {n, l, a})
             && n in hdr' && hdr'[n] == Header(true, size, a, l)
             && l in hdr' && hdr'[l] == HeaderOf(segs, i - 1).(next := n)
             && a in hdr' && hdr'[a] == HeaderOf(segs, i).(last := n, length := segs[i].length - size - H)
    ensures Linked(hdr', Halves(segs, i, size))
  {
    hide Apart, Linked;
    var t := Halves(segs, i, size);
    var a, l := segs[i].addr, segs[i - 1].addr;
    var n := a + segs[i].length - size;
    forall k | 0 <= k < i - 1 || i < k < |segs| ensures SameHeader(hdr, hdr', segs[k].addr) {
      LinkedHere(hdr, segs, k);
      ClearOf(segs, i, n, k);
      ClearOf(segs, i - 1, l, k);
      ClearOf(segs, i, a, k);
      assert ClearOfAll(segs[k].addr, {n, l, a});
    }
    assert t[i - 1] == segs[i - 1] && (i + 1 < |segs| ==> t[i + 2] == segs[i + 1]);
    assert i > 1 ==> t[i - 2] == segs[i - 2];
    assert i + 2 < |segs| ==> t[i + 3] == segs[i + 2];
    if i + 1 < |segs| { LinkedHere(hdr, segs, i + 1); }
    Relink(hdr, hdr', segs, i, i + 1, t[i..i + 2], t);
  }

  /** Where an operation may write a header: on a header of the list, inside
      free memory, or below the heap. */
  ghost predicate Spot(segs: seq<Segment>, d: nat) {
    exists k :: 0 <= k < |segs| && SpotIn(segs, k, d)
  }

  predicate SpotIn(segs: seq<Segment>, k: nat, d: nat)
    requires k < |segs|
  {
    || d == segs[k].addr
    || (segs[k].free && segs[k].addr <= d && d + H <= segs[k].End())
    || (k == |segs| - 1 && d + H <= segs[k].addr)
  }

  lemma SpotAt(segs: seq<Segment>, k: nat, d: nat)
    requires k < |segs| && SpotIn(segs, k, d)
    ensures Spot(segs, d)
  {
  }

  /** Headers written at such places leave every block in use untouched. */
  lemma PayloadSafe(view: Heap, b: map<nat, Byte>, b': map<nat, Byte>, dirty: set<nat>)
    requires Shape(view.segs) && KeptOutside(b, b', dirty)
    requires forall d | d in dirty :: Spot(view.segs, d)
    ensures PayloadKept(b, b', Live(view))
  {
    forall blk, x: nat | blk in Live(view) && blk.0 <= x < blk.0 + blk.1 ensures SameByte(b, b', x) {
      var i := BlockIndex(view.segs[1..], blk);
      forall d | d in dirty ensures !(d <= x < d + H) {
        SpotIsClear(view.segs, d, i + 1);
      }
    }
  }

  lemma SpotIsClear(segs: seq<Segment>, d: nat, i: nat)
    requires Good(segs) && Spot(segs, d) && i < |segs| && !segs[i].free
    ensures d + H <= segs[i].addr + H || segs[i].End() <= d
  {
    var k :| 0 <= k < |segs| && SpotIn(segs, k, d);
    if i < k { Descending(segs, i, k); }
    if k < i { Descending(segs, k, i); }
  }

  lemma OthersKept(h: map<nat, Header>, b: map<nat, Byte>, h': map<nat, Header>, b': map<nat, Byte>, hs: set<nat>,
                   segs: seq<Segment>, t: seq<Segment>)
    requires Frame(h, b, h', b', hs) && OthersAreFree(h, segs)
    requires forall d | d in h' && (d in hs || d in Addrs(segs)) :: d in Addrs(t)
    ensures OthersAreFree(h', t)
  {
  }

  lemma ApartAnyFlag(t: seq<Segment>, i: nat, f: bool)
    requires Apart(t) && i < |t|
    ensures Apart(t[i := t[i].(free := f)])
  {
    var u := t[i := t[i].(free := f)];
    assert forall k | 0 <= k < |t| :: u[k].addr == t[k].addr && u[k].length == t[k].length;
  }

  /** The list just before the block is marked as used. */
  function Steps(segs: seq<Segment>, i: nat, size: nat): seq<Segment>
    requires i < |segs|
  {
    if segs[i].length > size + H then Halves(segs, i, size) else segs
  }

  lemma StepsAreCut(segs: seq<Segment>, i: nat, size: nat)
    requires i < |segs| && Fits(segs[i], size)
    ensures var t := segs[..i] + Cut(segs[i], size) + segs[i + 1..];
            Steps(segs, i, size) == t[i := t[i].(free := true)] && t == Steps(segs, i, size)[i := t[i]]
  {
  }

  lemma CutInSteps(segs: seq<Segment>, i: nat, size: nat)
    requires Shape(segs) && i < |segs| && Fits(segs[i], size)
    ensures var t := segs[..i] + Cut(segs[i], size) + segs[i + 1..];
            var steps := Steps(segs, i, size);
            && Apart(steps) && i < |steps| && t == steps[i := steps[i].(free := false)]
            && t[i].addr == Cut(segs[i], size)[0].addr == steps[i].addr
            && t[|t| - 1].addr == segs[|segs| - 1].addr && t[0] == segs[0]
  {
    hide Good, Apart;
    var t := segs[..i] + Cut(segs[i], size) + segs[i + 1..];
    CutIsGood(segs, i, size);
    GoodIsApart(t);
    ApartAnyFlag(t, i, true);
    StepsAreCut(segs, i, size);
  }

  lemma TakenSegment(hdr: map<nat, Header>, view: Heap, i: nat, size: nat)
    requires Inv(view) && Linked(hdr, view.segs) && i < |view.segs| && Fits(view.segs[i], size)
    ensures 0 < i && Apart(view.segs) && LinkedAt(hdr, view.segs, i) && view.segs[|view.segs| - 1].addr > 0
    ensures var t, c := Take(view, i, size), Cut(view.segs[i], size)[0].addr;
            && t == Done(t.heap, c + H) && |t.heap.segs| > 0 && t.heap.segs[0] == view.segs[0]
            && t.heap.segs[|t.heap.segs| - 1].addr == view.segs[|view.segs| - 1].addr
            && t.heap.total == view.total && t.heap.supply == view.supply
            && t.heap.used == view.used + size + H && t.heap.freeSize == view.freeSize - size - H
  {
    hide Linked, Good, OnPages, Books, Apart, Steps, Halves;
    GoodIsApart(view.segs);
    LinkedHere(hdr, view.segs, i);
    CutInSteps(view.segs, i, size);
  }

  /** Everything the heap's state must satisfy after a block was taken. */
  lemma TakenIsValid(h: map<nat, Header>, b: map<nat, Byte>, h': map<nat, Header>, b': map<nat, Byte>, dirty: set<nat>,
                     view: Heap, i: nat, size: nat)
    requires Inv(view) && 0 < i < |view.segs| && Fits(view.segs[i], size) && size % 16 == 0
    requires Frame(h, b, h', b', dirty) && OthersAreFree(h, view.segs)
    requires dirty <= {Cut(view.segs[i], size)[0].addr, view.segs[i].addr, view.segs[i - 1].addr}
    ensures Inv(Take(view, i, size).heap)
    ensures OthersAreFree(h', Take(view, i, size).heap.segs)
    ensures PayloadKept(b, b', Live(view))
  {
    hide Sum, LiveSum, Blocks, Good, OnPages, Books, Spot, KeptOutside, PayloadKept, Cut, Fits;
    TakeKeepsInv(view, i, size);
    CutSpots(view.segs, i, size);
    PayloadSafe(view, b, b', dirty);
    OthersKept(h, b, h', b', dirty, view.segs, Take(view, i, size).heap.segs);
  }

  lemma CutSpots(segs: seq<Segment>, i: nat, size: nat)
    requires 0 < i < |segs| && Fits(segs[i], size)
    ensures var t := segs[..i] + Cut(segs[i], size) + segs[i + 1..];
            && Addrs(segs) <= Addrs(t) && Cut(segs[i], size)[0].addr in Addrs(t)
            && segs[i].addr in Addrs(segs) && segs[i - 1].addr in Addrs(segs)
    ensures Spot(segs, segs[i].addr) && Spot(segs, segs[i - 1].addr) && Spot(segs, Cut(segs[i], size)[0].addr)
  {
    var t := segs[..i] + Cut(segs[i], size) + segs[i + 1..];
    forall k | 0 <= k < |segs| ensures segs[k].addr in Addrs(t) {
      if k < i {
        assert t[k] == segs[k];
      } else {
        assert t[k + |t| - |segs|].addr == segs[k].addr;
      }
    }
    assert t[i].addr in Addrs(t);
    assert SpotIn(segs, i, segs[i].addr) && SpotIn(segs, i - 1, segs[i - 1].addr);
    assert SpotIn(segs, i, Cut(segs[i], size)[0].addr);
  }

  // ----- merging two neighbours -----

  /** Segment `i` disappears into the one below it. */
  function JoinTwo(segs: seq<Segment>, i: nat): seq<Segment>
    requires i + 1 < |segs|
  {
    segs[..i] + [segs[i + 1].(length := segs[i + 1].length + segs[i].length + H)] + segs[i + 2..]
  }

  lemma JoinApart(segs: seq<Segment>, i: nat)
    requires Apart(segs) && i + 1 < |segs|
    ensures Apart(JoinTwo(segs, i))
  {
    var t := JoinTwo(segs, i);
    forall j, k | 0 <= j < k < |t| ensures t[k].End() <= t[j].addr {
      var j', k' := if j < i then j else j + 1, if k < i then k else k + 1;
      assert segs[k'].End() <= segs[j'].addr;
      assert k == i ==> segs[i].End() <= segs[j'].addr && segs[i + 1].End() <= segs[i].addr;
    }
  }

  lemma JoinLinked(h: map<nat, Header>, b: map<nat, Byte>, h': map<nat, Header>, b': map<nat, Byte>, hs: set<nat>,
                   segs: seq<Segment>, i: nat)
    requires Apart(segs) && Linked(h, segs) && 0 < i && i + 1 < |segs|
    requires Frame(h, b, h', b', hs) && hs <= {segs[i - 1].addr, segs[i].addr, segs[i + 1].addr}
    requires var c, a := segs[i - 1].addr, segs[i + 1].addr;
             && c in h' && h'[c] == HeaderOf(segs, i - 1).(next := a)
             && a in h' && h'[a] == HeaderOf(segs, i + 1).(last := c, length := segs[i + 1].length + segs[i].length + H)
    ensures Linked(h', JoinTwo(segs, i))
  {
    hide Apart, Linked;
    var t := JoinTwo(segs, i);
    forall k | 0 <= k < i - 1 || i + 2 <= k < |segs| ensures SameHeader(h, h', segs[k].addr) {
      LinkedHere(h, segs, k);
      ClearOf(segs, i - 1, segs[i - 1].addr, k);
      ClearOf(segs, i, segs[i].addr, k);
      ClearOf(segs, i + 1, segs[i + 1].addr, k);
    }
    assert t[i - 1] == segs[i - 1] && (i + 2 < |segs| ==> t[i + 1] == segs[i + 2]);
    assert i > 1 ==> t[i - 2] == segs[i - 2];
    assert i + 3 < |segs| ==> t[i + 2] == segs[i + 3];
    if i + 2 < |segs| { LinkedHere(h, segs, i + 2); }
    Relink(h, h', segs, i, i + 2, t[i..i + 1], t);
  }

  /** A segment and its two neighbours: their headers, and that they do not overlap. */
  lemma Neighbourhood(hdr: map<nat, Header>, segs: seq<Segment>, i: nat)
    requires Apart(segs) && Linked(hdr, segs) && 0 < i && i + 1 < |segs|
    ensures LinkedAt(hdr, segs, i - 1) && LinkedAt(hdr, segs, i) && LinkedAt(hdr, segs, i + 1)
    ensures segs[i].addr + H <= segs[i - 1].addr && segs[i + 1].addr + H <= segs[i].addr
  {
    assert segs[i].End() <= segs[i - 1].addr && segs[i + 1].End() <= segs[i].addr;
  }

  lemma ReleaseWithBoth(segs: seq<Segment>, i: nat)
    requires Good(segs) && 0 < i && i + 1 < |segs| && !segs[i].free && segs[i - 1].free && segs[i + 1].free
    ensures Released(segs, i) == JoinTwo(JoinTwo(segs[i := segs[i].(free := true)], i - 1), i - 1)
  {
    hide LiveSum, Blocks, Sum, Good;
    ReleasedRun(segs, i, i - 1, i + 1);
    var t := JoinTwo(segs[i := segs[i].(free := true)], i - 1);
    assert t == segs[..i - 1] + [Segment(segs[i].addr, segs[i].length + segs[i - 1].length + H, true)] + segs[i + 1..];
    assert t[i - 1 + 2..] == segs[i + 2..] && t[i] == segs[i + 1];
    assert JoinTwo(t, i - 1) == Released(segs, i);
  }

  /** Releasing segment `i`, step by step: mark it, then merge it with its free
      neighbours, the higher one first. */
  lemma ReleaseInSteps(segs: seq<Segment>, i: nat)
    requires Good(segs) && i < |segs| && !segs[i].free
    ensures var s := segs[i := segs[i].(free := true)];
            var lastFree, nextFree := i > 0 && segs[i - 1].free, i + 1 < |segs| && segs[i + 1].free;
            Released(segs, i) == if lastFree && nextFree then JoinTwo(JoinTwo(s, i - 1), i - 1)
                                 else if lastFree then JoinTwo(s, i - 1)
                                 else if nextFree then JoinTwo(s, i)
                                 else s
  {
    hide LiveSum, Blocks, Sum, Good;
    ReleasedRun(segs, i, High(segs, i), Low(segs, i));
    var s := segs[i := segs[i].(free := true)];
    var lastFree, nextFree := i > 0 && segs[i - 1].free, i + 1 < |segs| && segs[i + 1].free;
    if lastFree && nextFree {
      ReleaseWithBoth(segs, i);
    } else if lastFree {
      assert JoinTwo(s, i - 1) == Released(segs, i);
    } else if nextFree {
      assert JoinTwo(s, i) == Released(segs, i);
    } else {
      assert s == Released(segs, i);
    }
  }

  lemma ReleasedAddrs(segs: seq<Segment>, i: nat, d: nat)
    requires i < |segs| && d in Addrs(segs)
    requires d != segs[i].addr || Low(segs, i) == i
    requires i > 0 && d == segs[i - 1].addr ==> High(segs, i) == i
    ensures d in Addrs(Released(segs, i))
  {
    hide Sum;
    var k :| 0 <= k < |segs| && segs[k].addr == d;
    var t, hi, lo := Released(segs, i), High(segs, i), Low(segs, i);
    if k < hi {
      assert t[k] == segs[k];
    } else {
      assert t[k - (lo - hi)].addr == d;
    }
  }

  lemma ReleasedIsJoined(segs: seq<Segment>, i: nat)
    requires i < |segs|
    ensures Released(segs, i) == Joined(segs, High(segs, i), Low(segs, i))
  {
  }

  lemma FreeIsReleased(view: Heap, i: nat)
    requires Inv(view) && 0 < i < |view.segs| && !view.segs[i].free
    ensures var r := HeapSpec.Free(view, view.segs[i].addr + H);
            && r == Done(view.(segs := Released(view.segs, i), used := view.used - view.segs[i].Size(),
                               freeSize := view.freeSize + view.segs[i].Size()), 0)
            && Inv(r.heap) && r.heap.segs[0] == view.segs[0]
            && r.heap.segs[|r.heap.segs| - 1].addr == view.segs[|view.segs| - 1].addr
  {
    hide Sum, LiveSum, Blocks, Good, OnPages, Books, Released, HeapSpec.Free;
    ReleaseKeepsInv(view, i);
    FreeAt(view, i);
    HighIsNotMain(view.segs, i);
    ReleasedRun(view.segs, i, High(view.segs, i), Low(view.segs, i));
    JoinedIsGood(view.segs, High(view.segs, i), Low(view.segs, i));
    ReleasedIsJoined(view.segs, i);
  }

  lemma ReleasedIsValid(h: map<nat, Header>, b: map<nat, Byte>, h': map<nat, Header>, b': map<nat, Byte>, hs: set<nat>,
                        view: Heap, i: nat)
    requires Inv(view) && 0 < i < |view.segs| && !view.segs[i].free
    requires Frame(h, b, h', b', hs) && OthersAreFree(h, view.segs)
    requires hs <= Addrs(view.segs)
    requires High(view.segs, i) < i ==> view.segs[i - 1].addr !in h'
    requires Low(view.segs, i) > i ==> view.segs[i].addr !in h'
    ensures var r := HeapSpec.Free(view, view.segs[i].addr + H);
            && r == Done(view.(segs := Released(view.segs, i), used := view.used - view.segs[i].Size(),
                               freeSize := view.freeSize + view.segs[i].Size()), 0)
            && Inv(r.heap) && r.heap.segs[0] == view.segs[0]
            && r.heap.segs[|r.heap.segs| - 1].addr == view.segs[|view.segs| - 1].addr
    ensures OthersAreFree(h', Released(view.segs, i))
    ensures PayloadKept(b, b', Live(view))
  {
    FreeIsReleased(view, i);
    hide Sum, LiveSum, Blocks, Good, OnPages, Books, Released, Joined, OthersAreFree, HeapSpec.Free;
    forall d | d in h' && d in Addrs(view.segs) ensures d in Addrs(Released(view.segs, i)) {
      ReleasedAddrs(view.segs, i, d);
    }
    OthersKept(h, b, h', b', hs, view.segs, Released(view.segs, i));
    forall d | d in hs ensures Spot(view.segs, d) {
      var k :| 0 <= k < |view.segs| && view.segs[k].addr == d;
      assert SpotIn(view.segs, k, d);
    }
    PayloadSafe(view, b, b', hs);
  }

  lemma MainIsSafe(view: Heap, h: map<nat, Header>, b: map<nat, Byte>, h': map<nat, Header>, b': map<nat, Byte>)
    requires Inv(view) && Frame(h, b, h', b', {view.segs[0].addr})
    ensures PayloadKept(b, b', Live(view))
  {
    hide Sum, LiveSum, Blocks, Good, OnPages, Books;
    SpotAt(view.segs, 0, view.segs[0].addr);
    PayloadSafe(view, b, b', {view.segs[0].addr});
  }

  lemma FreedMain(view: Heap)
    requires Inv(view) && !view.segs[1].free
    ensures HeapSpec.Free(view, MainPayload(view)) ==
            Done(view.(segs := view.segs[0 := view.segs[0].(free := true)],
                       used := view.used - view.segs[0].Size(), freeSize := view.freeSize + view.segs[0].Size()), 0)
  {
    FreeOfMain(view);
    FindIndex(view.segs, 0);
  }

  // ----- growing -----

  /** The segment that ends up above the new last one. */
  function Anchor(segs: seq<Segment>): (k: nat)
    requires |segs| >= 2
    ensures k < |segs|
  {
    if segs[|segs| - 1].free then |segs| - 2 else |segs| - 1
  }

  lemma ExtendedLinked(h: map<nat, Header>, b: map<nat, Byte>, h': map<nat, Header>, b': map<nat, Byte>,
                       segs: seq<Segment>, l: nat)
    requires Apart(segs) && |segs| >= 2 && Linked(h, segs) && H <= l < segs[|segs| - 1].addr
    requires var k, n := Anchor(segs), segs[|segs| - 1].addr - l;
             && Frame(h, b, h', b', {n, segs[k].addr})
             && n in h' && h'[n] == Header(true, l - H + (if k < |segs| - 1 then segs[k + 1].length else 0), 0,
                                           segs[k].addr)
             && segs[k].addr in h' && h'[segs[k].addr] == HeaderOf(segs, k).(next := n)
    ensures Linked(h', Extended(segs, l))
  {
    hide Linked, Apart;
    var k, t := Anchor(segs), Extended(segs, l);
    forall j | 0 <= j < k ensures SameHeader(h, h', segs[j].addr) {
      LinkedHere(h, segs, j);
      ClearOf(segs, k, segs[k].addr, j);
      ClearOf(segs, |segs| - 1, segs[|segs| - 1].addr, j);
      AboveLast(segs, j);
    }
    assert t[k] == segs[k] && |t| == k + 2 && (k > 0 ==> t[k - 1] == segs[k - 1]);
    Relink(h, h', segs, k + 1, |segs|, [t[k + 1]], t);
  }

  lemma AboveLast(segs: seq<Segment>, j: nat)
    requires Apart(segs) && j < |segs| - 1
    ensures segs[|segs| - 1].addr + H <= segs[j].addr
  {
    assert segs[|segs| - 1].End() <= segs[j].addr;
  }

  lemma LastSegments(hdr: map<nat, Header>, view: Heap, l: nat)
    requires Inv(view) && Linked(hdr, view.segs) && CanExpand(view, l) && l >= PAGE
    ensures var segs, n := view.segs, |view.segs|;
            && n >= 2 && Apart(segs) && LinkedAt(hdr, segs, n - 1) && LinkedAt(hdr, segs, n - 2)
            && 0 < segs[n - 1].addr && segs[n - 1].addr + H <= segs[n - 2].addr
    ensures var t := Expand(view, l).segs;
            && t == Extended(view.segs, l) && |t| > 0 && t[0] == view.segs[0]
            && t[|t| - 1].addr == view.segs[|view.segs| - 1].addr - l
  {
    hide Linked, Good, OnPages, Books;
    var segs, n := view.segs, |view.segs|;
    GoodIsApart(segs);
    LinkedHere(hdr, segs, n - 1);
    LinkedHere(hdr, segs, n - 2);
    AboveLast(segs, n - 2);
  }

  lemma ExpandIsValid(h: map<nat, Header>, b: map<nat, Byte>, h': map<nat, Header>, b': map<nat, Byte>, view: Heap,
                      l: nat)
    requires Inv(view) && CanExpand(view, l) && l >= PAGE && l % PAGE == 0
    requires Frame(h, b, h', b', {view.segs[|view.segs| - 1].addr - l, view.segs[Anchor(view.segs)].addr})
    requires OthersAreFree(h, view.segs) && Linked(h, view.segs)
    ensures Inv(Expand(view, l))
    ensures OthersAreFree(h', Expand(view, l).segs)
    ensures PayloadKept(b, b', Live(view))
  {
    hide Linked, Sum, LiveSum, Blocks, Good, OnPages, Books, Spot;
    var segs, k, t := view.segs, Anchor(view.segs), Expand(view, l).segs;
    ExpandKeepsInv(view, l);
    SpotAt(segs, k, segs[k].addr);
    SpotAt(segs, |segs| - 1, segs[|segs| - 1].addr - l);
    PayloadSafe(view, b, b', {segs[|segs| - 1].addr - l, segs[k].addr});
    LinkedHere(h, segs, |segs| - 1);
    forall d | d in h' && !h'[d].free ensures d in Addrs(t) {
      if d == segs[|segs| - 1].addr - l {
        assert t[|t| - 1].addr == d;
      } else if d == segs[k].addr {
        assert t[k].addr == d;
      } else {
        var j :| 0 <= j < |segs| && segs[j].addr == d;
        assert j <= k && t[j] == segs[j];
      }
    }
  }

  /** Rounding is done once: a rounded request rounds to itself. */
  lemma RoundRequestFacts(size: nat)
    requires 0 < size && Served(size)
    ensures var r := RoundRequest(size);
            && r == (if size % 16 > 0 then (size - size % 16 + 16) % WORD else size)
            && (r == 0 <==> size > WORD - 16)
            && r <= MAX_REQUEST && r % 16 == 0 && RoundRequest(r) == r
            && ExpandLength(r) >= PAGE && ExpandLength(r) % PAGE == 0 && ExpandLength(0) == PAGE
  {
    RoundRequestBounds(size);
    ExpandLengthBounds(RoundRequest(size));
  }

  /** The search of `malloc` and what follows it, for a rounded request. */
  lemma MallocByFit(h: Heap, size: nat, r: nat, i: nat)
    requires |h.segs| > 0 && 0 < size && Served(size) && r == RoundRequest(size) && i == FirstFit(h.segs, r, 0)
    ensures r <= MAX_REQUEST && ExpandLength(r) >= PAGE
    ensures i < |h.segs| ==> Malloc(h, size) == Take(h, i, r)
    ensures i == |h.segs| && !CanExpand(h, ExpandLength(r)) ==> Malloc(h, size) == Panic
    ensures i == |h.segs| && CanExpand(h, ExpandLength(r)) ==>
              && |Expand(h, ExpandLength(r)).segs| > 0
              && Malloc(h, size) == Malloc(Expand(h, ExpandLength(r)), r)
  {
    hide Take, RoundRequest, ExpandLength, FirstFit;
    RoundRequestFacts(size);
  }

  lemma FirstFitIs(segs: seq<Segment>, size: nat, i: nat)
    requires i <= |segs| && (forall j | 0 <= j < i :: !Fits(segs[j], size)) && (i < |segs| ==> Fits(segs[i], size))
    ensures FirstFit(segs, size, 0) == i
  {
  }

  lemma NoNext(hdr: map<nat, Header>, segs: seq<Segment>, i: nat)
    requires Shape(segs) && i < |segs| && LinkedAt(hdr, segs, i)
    ensures hdr[segs[i].addr].next == 0 <==> i == |segs| - 1
  {
    GoodIsApart(segs);
    if i + 1 < |segs| { NotNull(segs, i + 1); }
  }

  // ----- copying a payload -----

  /** Bytes [0, n) of `src` now stand at `dst`; nothing else changed. */
  ghost predicate Copied(b: map<nat, Byte>, b': map<nat, Byte>, dst: nat, src: nat, n: nat) {
    && (forall k | 0 <= k < n :: CopiedByte(b, b', dst, src, k))
    && (forall x: nat | !(dst <= x < dst + n) :: SameByte(b, b', x))
  }

  ghost predicate CopiedByte(b: map<nat, Byte>, b': map<nat, Byte>, dst: nat, src: nat, k: nat) {
    (dst + k in b' <==> src + k in b) && (src + k in b ==> b'[dst + k] == b[src + k])
  }

  /** Payload bytes written over [dst, dst + n) wipe out the headers left there. */
  function Wiped(h: map<nat, Header>, dst: nat, n: nat): map<nat, Header> {
    map a | a in h && !(n > 0 && a < dst + n && dst < a + H) :: h[a]
  }

  /** Bytes written inside a block in use destroy no header of the list. */
  lemma WriteKeepsHeap(h: map<nat, Header>, view: Heap, blk: (nat, nat), dst: nat, n: nat)
    requires Shape(view.segs) && blk in Live(view) && blk.0 <= dst && dst + n <= blk.0 + blk.1
    requires Linked(h, view.segs) && OthersAreFree(h, view.segs)
    ensures Linked(Wiped(h, dst, n), view.segs) && OthersAreFree(Wiped(h, dst, n), view.segs)
  {
    hide Linked, Blocks, Good;
    var w := Wiped(h, dst, n);
    forall k | 0 <= k < |view.segs| ensures LinkedAt(w, view.segs, k) {
      LinkedHere(h, view.segs, k);
      LivePayloadHoldsNoHeader(view, blk, k);
    }
    LinkedAll(w, view.segs);
  }

  /** The bytes from `at` on. */
  function Spread(at: nat, data: seq<Byte>): (m: map<nat, Byte>)
    ensures forall x: nat :: x in m <==> at <= x < at + |data|
    ensures forall x: nat | x in m :: m[x] == data[x - at]
    decreases |data|
  {
    if data == [] then map[] else Spread(at + 1, data[1..])[at := data[0]]
  }

  /** The bytes stand from `at` on now; nothing else changed. */
  ghost predicate Written(b: map<nat, Byte>, b': map<nat, Byte>, at: nat, data: seq<Byte>) {
    && (forall i | 0 <= i < |data| :: at + i in b' && b'[at + i] == data[i])
    && (forall x: nat | !(at <= x < at + |data|) :: SameByte(b, b', x))
  }

  lemma OthersUntouched(view: Heap, b: map<nat, Byte>, b': map<nat, Byte>, at: nat, data: seq<Byte>, blk: (nat, nat))
    requires Inv(view) && blk in Live(view) && blk.0 <= at && at + |data| <= blk.0 + blk.1
    requires Written(b, b', at, data)
    ensures PayloadKept(b, b', Live(view) - {blk})
  {
    hide Blocks, Good, Books, OnPages;
    forall o, x: nat | o in Live(view) - {blk} && o.0 <= x < o.0 + o.1 ensures SameByte(b, b', x) {
      LiveBlocksAreApart(view, o, blk);
    }
  }

  lemma LinkedAll(hdr: map<nat, Header>, segs: seq<Segment>)
    requires forall k | 0 <= k < |segs| :: LinkedAt(hdr, segs, k)
    ensures Linked(hdr, segs)
  {
  }

  /** Block `o` was moved to `p`: its first bytes, up to `size`, stand there now,
      and every other block still has its own. */
  ghost predicate Moved(b: map<nat, Byte>, b': map<nat, Byte>, live: set<(nat, nat)>, o: (nat, nat), p: nat,
                        size: nat) {
    && (forall k | 0 <= k < size && k < o.1 :: CopiedByte(b, b', p, o.0, k))
    && PayloadKept(b, b', live - {o})
  }

  /** Copying block `o` to block `p` and releasing it. */
  lemma MovedBytes(b1: map<nat, Byte>, b2: map<nat, Byte>, b3: map<nat, Byte>, view: Heap, o: (nat, nat), p: (nat, nat),
                   size: nat, n: nat)
    requires Inv(view) && o in Live(view) && p in Live(view) && o != p && size <= p.1
    requires n == (if size < o.1 then size else o.1)
    requires Copied(b1, b2, p.0, o.0, n) && PayloadKept(b2, b3, Live(view))
    ensures Moved(b1, b3, Live(view) - {p}, o, p.0, size)
  {
    hide Blocks, Good, Books, OnPages, Sum, LiveSum;
    forall k | 0 <= k < n ensures CopiedByte(b1, b3, p.0, o.0, k) {
      assert CopiedByte(b1, b2, p.0, o.0, k) && SameByte(b2, b3, p.0 + k);
    }
    forall blk, x: nat | blk in Live(view) - {p} - {o} && blk.0 <= x < blk.0 + blk.1 ensures SameByte(b1, b3, x) {
      LiveBlocksAreApart(view, blk, p);
      assert SameByte(b1, b2, x) && SameByte(b2, b3, x);
    }
  }

  lemma MovedFromStart(b0: map<nat, Byte>, b1: map<nat, Byte>, b3: map<nat, Byte>, live: set<(nat, nat)>, o: (nat, nat),
                       p: nat, size: nat)
    requires o in live && PayloadKept(b0, b1, live) && Moved(b1, b3, live, o, p, size)
    ensures Moved(b0, b3, live, o, p, size)
  {
    forall k | 0 <= k < size && k < o.1 ensures CopiedByte(b0, b3, p, o.0, k) {
      assert SameByte(b0, b1, o.0 + k) && CopiedByte(b1, b3, p, o.0, k);
    }
    forall blk, x: nat | blk in live - {o} && blk.0 <= x < blk.0 + blk.1 ensures SameByte(b0, b3, x) {
      assert SameByte(b0, b1, x) && SameByte(b1, b3, x);
    }
  }

  lemma MainIsNoBlock(h: Heap)
    requires Inv(h)
    ensures forall len :: (MainPayload(h), len) !in Live(h)
  {
    hide Blocks, Good, Books, OnPages, Sum, LiveSum;
    forall len ensures (MainPayload(h), len) !in Live(h) {
      if (MainPayload(h), len) in Live(h) { LiveBlocksAreApart(h, (MainPayload(h), len), (MainPayload(h), len)); }
    }
  }

  lemma NoNullBlock(h: Heap)
    requires Inv(h)
    ensures forall len :: (0, len) !in Live(h)
  {
    hide Blocks, Good, Books, OnPages, Sum, LiveSum;
    forall len ensures (0, len) !in Live(h) {
      if (0, len) in Live(h) { LiveBlocksAreApart(h, (0, len), (0, len)); }
    }
  }

  class KernelHeap {
    var hdr: map<nat, Header>
    var bytes: map<nat, Byte>
    var heapEnd: nat
    var mainSegment: nat
    var lastSegment: nat
    var totalSize: int
    var usedSize: int
    var freeSize: int
    var ready: bool
    var supply: nat
    ghost var view: Heap
    // memory at the start of the call, and the headers written since
    ghost var hdr0: map<nat, Header>
    ghost var bytes0: map<nat, Byte>
    ghost var dirty: set<nat>

    ghost predicate Valid()
      reads this
    {
      && Inv(view)
      && Linked(hdr, view.segs)
      && OthersAreFree(hdr, view.segs)
      && mainSegment == view.segs[0].addr
      && lastSegment == view.segs[|view.segs| - 1].addr
      && heapEnd == lastSegment
      && totalSize == view.total && usedSize == view.used && freeSize == view.freeSize
      && supply == view.supply
      && ready
    }

    constructor (end: nat, pages: nat)
      requires end > PAGE && end % PAGE == 0
      ensures Valid() && view == Init(end, pages)
    {
      InitKeepsInv(end, pages);
      var bottom := end - PAGE;
      var main := bottom + (PAGE - H);
      var next := main - PAGE + H;
      hdr := map[main := Header(false, 0, next, 0), next := Header(true, PAGE - H - H, 0, main)];
      bytes := map[];
      heapEnd, mainSegment, lastSegment := bottom, main, next;
      totalSize, usedSize, freeSize := PAGE, 0, PAGE;
      ready := true;
      supply := pages;
      view := Init(end, pages);
    }

    ghost predicate Framed()
      reads this
    {
      Frame(hdr0, bytes0, hdr, bytes, dirty)
    }

    ghost method Snapshot()
      modifies this`hdr0, this`bytes0, this`dirty
      ensures Framed() && hdr0 == hdr && bytes0 == bytes && dirty == {}
    {
      hdr0, bytes0, dirty := hdr, bytes, {};
    }

    method StoreHeader(a: nat, h: Header)
      requires Framed()
      modifies this`hdr, this`bytes, this`dirty
      ensures Framed() && dirty == old(dirty) + {a}
      ensures hdr == Stored(old(hdr), a, h)
    {
      hdr := (map x | x in hdr && !Overlap(x, a) :: hdr[x])[a := h];
      bytes := map x | x in bytes && !(a <= x < a + H) :: bytes[x];
      FrameStep(hdr0, bytes0, old(hdr), old(bytes), dirty, a, h, hdr, bytes);
      dirty := dirty + {a};
    }

    /** memset(header, 0, sizeof): the signature is gone. */
    method ZeroHeader(a: nat)
      requires Framed()
      modifies this`hdr, this`bytes, this`dirty
      ensures Framed() && dirty == old(dirty) + {a}
      ensures hdr == Stored(old(hdr), a, Header(false, 0, 0, 0)) - {a}
    {
      StoreHeader(a, Header(false, 0, 0, 0));
      hdr := hdr - {a};
    }

    method SplitSegment(segment: nat, size: nat, ghost segs: seq<Segment>, ghost i: nat) returns (newSegment: nat)
      requires Apart(segs) && Linked(hdr, segs) && 0 < i < |segs| && segs[i].addr == segment
      requires segs[|segs| - 1].addr > 0
      modifies this`hdr, this`bytes, this`lastSegment, this`hdr0, this`bytes0, this`dirty
      ensures Framed() && hdr0 == old(hdr) && bytes0 == old(bytes)
      ensures segs[i].length <= size + H ==> newSegment == 0 && dirty == {} && lastSegment == old(lastSegment)
      ensures segs[i].length > size + H ==>
                && newSegment == segment + segs[i].length - size
                && Linked(hdr, Halves(segs, i, size))
                && dirty == {newSegment, segs[i - 1].addr, segment}
                && lastSegment == (if i + 1 == |segs| then segment else old(lastSegment))
    {
      hide Frame, Linked;
      Snapshot();
      LinkedHere(hdr, segs, i);
      LinkedHere(hdr, segs, i - 1);
      if hdr[segment].length <= size + H { return 0; }
      NotNull(segs, i - 1);
      if i + 1 < |segs| { NotNull(segs, i + 1); }
      newSegment := segment + hdr[segment].length - size;
      ClearOf(segs, i, segment, i - 1);
      ClearOf(segs, i, newSegment, i - 1);
      hide Apart;
      StoreHeader(newSegment, Header(true, size, segment, hdr[segment].last));
      if hdr[segment].next == 0 { lastSegment := segment; }
      var last := hdr[segment].last;
      if last != 0 {
        StoreHeader(last, hdr[last].(next := newSegment));
      }
      StoreHeader(segment, hdr[segment].(last := newSegment, length := hdr[segment].length - (size + H)));
      assert dirty == {newSegment, last, segment};
      SplitLinked(old(hdr), old(bytes), hdr, bytes, segs, i, size);
    }

    /** Marks the block as used and books it. */
    method MarkUsed(current: nat, size: nat, ghost i: nat)
      requires Inv(view) && 0 < i < |view.segs| && Fits(view.segs[i], size) && size % 16 == 0
      requires Framed() && OthersAreFree(hdr0, view.segs)
      requires Linked(hdr, Steps(view.segs, i, size)) && current == Cut(view.segs[i], size)[0].addr
      requires dirty <= {current, view.segs[i].addr, view.segs[i - 1].addr}
      modifies this`hdr, this`bytes, this`usedSize, this`freeSize, this`view, this`dirty
      ensures view == Take(old(view), i, size).heap && Inv(view)
      ensures Linked(hdr, view.segs) && OthersAreFree(hdr, view.segs)
      ensures PayloadKept(bytes0, bytes, Live(old(view)))
      ensures usedSize == old(usedSize) + size + H && freeSize == old(freeSize) - size - H
    {
      hide Frame, Linked, Apart, Sum, LiveSum, Blocks, Good, OnPages, Books, OthersAreFree, PayloadKept, Stored;
      ghost var segs := view.segs;
      CutInSteps(segs, i, size);
      FlagLinked(hdr, Steps(segs, i, size), i, false);
      StoreHeader(current, hdr[current].(free := false));
      usedSize := usedSize + size + H;
      freeSize := freeSize - (size + H);
      TakenIsValid(hdr0, bytes0, hdr, bytes, dirty, view, i, size);
      view := Take(view, i, size).heap;
    }

    /** Hands out a block from segment `i`, which fits: split it or take it whole. */
    method TakeSegment(segment: nat, size: nat, ghost i: nat) returns (p: nat)
      requires Valid() && i < |view.segs| && segment == view.segs[i].addr
      requires Fits(view.segs[i], size) && size % 16 == 0
      modifies this`hdr, this`bytes, this`freeSize, this`usedSize, this`view, this`hdr0, this`bytes0, this`dirty
      modifies this`lastSegment
      ensures Valid()
      ensures Take(old(view), i, size) == Done(view, p)
      ensures PayloadKept(old(bytes), bytes, Live(old(view)))
    {
      hide Frame, Linked, Apart, Inv, Good, OthersAreFree, PayloadKept, Stored, Halves, Take, Live;
      TakenSegment(hdr, view, i, size);
      var current := segment;
      if hdr[current].length > size + H {
        current := SplitSegment(current, size, view.segs, i);
      } else {
        Snapshot();
      }
      MarkUsed(current, size, i);
      p := current + H;
    }

    method MergeThisToNext(header: nat, ghost segs: seq<Segment>, ghost i: nat)
      requires Apart(segs) && Linked(hdr, segs) && 0 < i && i + 1 < |segs| && header == segs[i].addr
      modifies this`hdr, this`bytes, this`hdr0, this`bytes0, this`dirty
      ensures Apart(JoinTwo(segs, i)) && Linked(hdr, JoinTwo(segs, i)) && header !in hdr
      ensures Frame(old(hdr), old(bytes), hdr, bytes, {segs[i - 1].addr, segs[i].addr, segs[i + 1].addr})
    {
      hide Frame, Linked, Apart;
      Snapshot();
      Neighbourhood(hdr, segs, i);
      var next := hdr[header].next;
      StoreHeader(next, hdr[next].(length := hdr[next].length + (hdr[header].length + H), last := hdr[header].last));
      var last := hdr[header].last;
      StoreHeader(last, hdr[last].(next := next));
      ZeroHeader(header);
      assert dirty == {segs[i - 1].addr, segs[i].addr, segs[i + 1].addr};
      JoinLinked(old(hdr), old(bytes), hdr, bytes, dirty, segs, i);
      JoinApart(segs, i);
    }

    method MergeLastToThis(header: nat, ghost segs: seq<Segment>, ghost i: nat)
      requires Apart(segs) && Linked(hdr, segs) && 0 < i && i + 1 < |segs| && header == segs[i + 1].addr
      modifies this`hdr, this`bytes, this`hdr0, this`bytes0, this`dirty
      ensures Apart(JoinTwo(segs, i)) && Linked(hdr, JoinTwo(segs, i)) && segs[i].addr !in hdr
      ensures Frame(old(hdr), old(bytes), hdr, bytes, {segs[i - 1].addr, segs[i].addr, segs[i + 1].addr})
    {
      hide Frame, Linked, Apart;
      Snapshot();
      Neighbourhood(hdr, segs, i);
      var last := hdr[header].last;
      StoreHeader(header, hdr[header].(length := hdr[header].length + (hdr[last].length + H), last := hdr[last].last));
      var above := hdr[header].last;
      StoreHeader(above, hdr[above].(next := header));
      ZeroHeader(last);
      assert dirty == {segs[i - 1].addr, segs[i].addr, segs[i + 1].addr};
      JoinLinked(old(hdr), old(bytes), hdr, bytes, dirty, segs, i);
      JoinApart(segs, i);
    }

    method MergeLastAndThisToNext(header: nat, ghost segs: seq<Segment>, ghost i: nat)
      requires Apart(segs) && Linked(hdr, segs) && 1 < i && i + 1 < |segs| && header == segs[i].addr
      modifies this`hdr, this`bytes, this`hdr0, this`bytes0, this`dirty
      ensures Linked(hdr, JoinTwo(JoinTwo(segs, i - 1), i - 1)) && header !in hdr && segs[i - 1].addr !in hdr
      ensures Frame(old(hdr), old(bytes), hdr, bytes, {segs[i - 2].addr, segs[i - 1].addr, header, segs[i + 1].addr})
    {
      hide Linked, Apart, KeptOutside, ClearOfAll;
      Neighbourhood(hdr, segs, i - 1);
      Neighbourhood(hdr, segs, i);
      MergeLastToThis(header, segs, i - 1);
      ghost var h1, b1 := hdr, bytes;
      MergeThisToNext(header, JoinTwo(segs, i - 1), i - 1);
      ghost var hs := {segs[i - 2].addr, segs[i - 1].addr, header};
      ghost var hs' := {segs[i - 2].addr, header, segs[i + 1].addr};
      FrameTrans(old(hdr), old(bytes), h1, b1, hs, hdr, bytes, hs');
      assert hs + hs' == {segs[i - 2].addr, segs[i - 1].addr, header, segs[i + 1].addr};
    }

    /** Coalesces the just released segment `i` with its free neighbours. */
    method Coalesce(header: nat, ghost segs: seq<Segment>, ghost i: nat) returns (ghost hs: set<nat>)
      requires Good(segs) && 0 < i < |segs| && !segs[i].free && !segs[0].free && header == segs[i].addr
      requires segs[|segs| - 1].addr > 0
      requires var s := segs[i := segs[i].(free := true)]; Apart(s) && Linked(hdr, s)
      modifies this`hdr, this`bytes, this`hdr0, this`bytes0, this`dirty
      ensures Linked(hdr, Released(segs, i))
      ensures Frame(old(hdr), old(bytes), hdr, bytes, hs) && hs <= Addrs(segs)
      ensures High(segs, i) < i ==> segs[i - 1].addr !in hdr
      ensures Low(segs, i) > i ==> header !in hdr
    {
      hide Frame, Linked, Apart, Good, Released, Sum, JoinTwo;
      ghost var s := segs[i := segs[i].(free := true)];
      ReleaseInSteps(segs, i);
      LinkedHere(hdr, s, i);
      LinkedHere(hdr, s, i - 1);
      NotNull(s, i - 1);
      if i + 1 < |s| {
        LinkedHere(hdr, s, i + 1);
        NotNull(s, i + 1);
      }
      var next, last := hdr[header].next, hdr[header].last;
      if next != 0 && last != 0 && hdr[next].free && hdr[last].free {
        MergeLastAndThisToNext(header, s, i);
        hs := {segs[i - 2].addr, segs[i - 1].addr, header, segs[i + 1].addr};
      } else if last != 0 && hdr[last].free {
        MergeLastToThis(header, s, i - 1);
        hs := {segs[i - 2].addr, segs[i - 1].addr, header};
      } else if next != 0 && hdr[next].free {
        MergeThisToNext(header, s, i);
        hs := {segs[i - 1].addr, header, segs[i + 1].addr};
      } else {
        Snapshot();
        hs := {};
      }
    }

    /** Marks segment `i` as free and books it. */
    method MarkFree(header: nat, ghost segs: seq<Segment>, ghost i: nat)
      requires Apart(segs) && Linked(hdr, segs) && i < |segs| && header == segs[i].addr
      modifies this`hdr, this`bytes, this`freeSize, this`usedSize, this`hdr0, this`bytes0, this`dirty
      ensures var s := segs[i := segs[i].(free := true)]; Apart(s) && Linked(hdr, s)
      ensures Frame(old(hdr), old(bytes), hdr, bytes, {header})
      ensures freeSize == old(freeSize) + segs[i].Size() && usedSize == old(usedSize) - segs[i].Size()
    {
      hide Frame, Linked, Apart, Stored;
      FlagLinked(hdr, segs, i, true);
      ApartAnyFlag(segs, i, true);
      Snapshot();
      StoreHeader(header, hdr[header].(free := true));
      LinkedHere(hdr, segs[i := segs[i].(free := true)], i);
      freeSize := freeSize + (hdr[header].length + H);
      usedSize := usedSize - (hdr[header].length + H);
      assert dirty == {header};
    }

    method Release(header: nat, ghost i: nat)
      requires Valid() && 0 < i < |view.segs| && header == view.segs[i].addr && !view.segs[i].free
      modifies this`hdr, this`bytes, this`freeSize, this`usedSize, this`view, this`hdr0, this`bytes0, this`dirty
      ensures HeapSpec.Free(old(view), header + H).Done?
      ensures Valid() && view == HeapSpec.Free(old(view), header + H).heap
      ensures PayloadKept(old(bytes), bytes, Live(old(view)))
    {
      hide Frame, Linked, Apart, Sum, LiveSum, Blocks, Good, OnPages, Books, Released, PayloadKept, OthersAreFree,
           High, Low, HeapSpec.Free;
      GoodIsApart(view.segs);
      MarkFree(header, view.segs, i);
      ghost var h1, b1 := hdr, bytes;
      ghost var hs := Coalesce(header, view.segs, i);
      FrameTrans(old(hdr), old(bytes), h1, b1, {header}, hdr, bytes, hs);
      ReleasedIsValid(old(hdr), old(bytes), hdr, bytes, {header} + hs, view, i);
      view := HeapSpec.Free(view, header + H).heap;
    }

    /** The main segment has no segment above it: merging it would go through null. */
    method ReleaseMain() returns (ok: bool)
      requires Valid()
      modifies this
      ensures ok == HeapSpec.Free(old(view), MainPayload(old(view))).Done?
      ensures ok ==> view == HeapSpec.Free(old(view), MainPayload(old(view))).heap && Linked(hdr, view.segs)
      ensures ok ==> usedSize == view.used && freeSize == view.freeSize
      ensures ok ==> PayloadKept(old(bytes), bytes, Live(old(view)))
    {
      hide Frame, Linked, Apart, Sum, LiveSum, Blocks, Good, OnPages, Books, PayloadKept, OthersAreFree, HeapSpec.Free;
      ghost var segs := view.segs;
      GoodIsApart(segs);
      FreeOfMain(view);
      MarkFree(mainSegment, segs, 0);
      ghost var s := segs[0 := segs[0].(free := true)];
      LinkedHere(hdr, s, 0);
      LinkedHere(hdr, s, 1);
      NotNull(segs, 1);
      var next := hdr[mainSegment].next;
      if next != 0 && hdr[next].free { return false; }
      MainIsSafe(view, old(hdr), old(bytes), hdr, bytes);
      FreedMain(view);
      view := HeapSpec.Free(view, MainPayload(view)).heap;
      ok := true;
    }

    /** The segment in use in front of `address`, if a header is there that says so. */
    method FindHeader(address: nat) returns (found: bool, ghost i: nat)
      requires Valid() && address != 0
      ensures found == (address >= H && address - H in hdr && !hdr[address - H].free)
      ensures found ==> i < |view.segs| && view.segs[i].addr + H == address && !view.segs[i].free
      ensures found ==> LinkedAt(hdr, view.segs, i)
      ensures !found ==> HeapSpec.Free(view, address).Panic?
    {
      hide Linked, Inv, Good, Sum;
      ghost var segs := view.segs;
      i := Find(segs, address, 0);
      InvHasMain(view);
      if i < |segs| { LinkedHere(hdr, segs, i); }
      found := address >= H && address - H in hdr && !hdr[address - H].free;
      if found {
        assert address - H in Addrs(segs);
        i :| 0 <= i < |segs| && segs[i].addr == address - H;
        LinkedHere(hdr, segs, i);
      }
    }

    /** False means that the kernel panics: no such block, or a double free.  The
        invariant is kept for every address but the one behind the main segment. */
    method Free(address: nat) returns (ok: bool)
      requires Valid()
      modifies this
      ensures ok == HeapSpec.Free(old(view), address).Done?
      ensures ok ==> view == HeapSpec.Free(old(view), address).heap && Linked(hdr, view.segs)
      ensures ok ==> (Valid() <==> address != MainPayload(old(view)))
      ensures ok ==> PayloadKept(old(bytes), bytes, Live(old(view)))
    {
      hide Linked, Inv, HeapSpec.Free, Good, OthersAreFree;
      InvHasMain(view);
      if address == 0 {
        FreeRemovesOneBlock(view, 0);
        return true;
      }
      var found;
      ghost var i;
      found, i := FindHeader(address);
      if !found {
        ready := false;
        return false;
      }
      if address - H == mainSegment {
        FreeOfMain(view);
        ok := ReleaseMain();
        return;
      }
      Release(address - H, i);
      ok := true;
    }

    /** Maps the pages; false when the pages or the address space run out. */
    method MapPages(pages: nat) returns (ok: bool)
      requires heapEnd > 0 && heapEnd % PAGE == 0
      modifies this`heapEnd, this`supply
      ensures ok <==> pages <= old(supply) && pages * PAGE < old(heapEnd)
      ensures ok ==> heapEnd == old(heapEnd) - pages * PAGE && supply == old(supply) - pages
    {
      var i := 0;
      while i < pages
        invariant 0 <= i <= pages && i <= old(supply) && i * PAGE < old(heapEnd)
        invariant heapEnd == old(heapEnd) - i * PAGE && heapEnd % PAGE == 0
        invariant supply == old(supply) - i
      {
        if supply == 0 { return false; }
        supply := supply - 1;
        heapEnd := heapEnd - PAGE;
        if heapEnd == 0 { return false; }
        i := i + 1;
      }
      ok := true;
    }

    /** Writes the header of the new last segment and links it in. */
    method AddLastSegment(newSegment: nat, l: nat)
      requires Inv(view) && Linked(hdr, view.segs) && OthersAreFree(hdr, view.segs)
      requires lastSegment == view.segs[|view.segs| - 1].addr
      requires CanExpand(view, l) && l >= PAGE && l % PAGE == 0 && newSegment == lastSegment - l
      modifies this`hdr, this`bytes, this`view, this`hdr0, this`bytes0, this`dirty, this`lastSegment
      ensures view == Expand(old(view), l) && Inv(view)
      ensures Linked(hdr, view.segs) && OthersAreFree(hdr, view.segs)
      ensures lastSegment == newSegment == view.segs[|view.segs| - 1].addr && view.segs[0] == old(view.segs[0])
      ensures PayloadKept(old(bytes), bytes, Live(old(view)))
    {
      hide Linked, Inv, Apart, Frame, OthersAreFree, PayloadKept, Expand, Extended, Live;
      Snapshot();
      LastSegments(hdr, view, l);
      ghost var segs, n := view.segs, |view.segs|;
      if lastSegment != 0 && hdr[lastSegment].free && hdr[lastSegment].last != 0 {
        var size := hdr[lastSegment].length + l;
        var last := hdr[lastSegment].last;
        StoreHeader(newSegment, Header(true, size - H, 0, last));
        StoreHeader(last, hdr[last].(next := newSegment));
      } else {
        StoreHeader(newSegment, Header(true, l - H, 0, lastSegment));
        if lastSegment != 0 {
          StoreHeader(lastSegment, hdr[lastSegment].(next := newSegment));
        }
      }
      lastSegment := newSegment;
      assert dirty == {newSegment, segs[Anchor(segs)].addr};
      ExtendedLinked(old(hdr), old(bytes), hdr, bytes, segs, l);
      ExpandIsValid(old(hdr), old(bytes), hdr, bytes, view, l);
      view := Expand(view, l);
    }

    /** False when the kernel panics for want of pages or address space. */
    method ExpandHeap(size: nat) returns (ok: bool)
      requires Valid() && size <= MAX_REQUEST && size % 16 == 0
      modifies this
      ensures ExpandLength(size) >= PAGE && ok == CanExpand(old(view), ExpandLength(size))
      ensures ok ==> Valid() && view == Expand(old(view), ExpandLength(size)) && supply < old(supply)
      ensures ok ==> PayloadKept(old(bytes), bytes, Live(old(view)))
    {
      hide Linked, Sum, LiveSum, Blocks, Good, Books, OthersAreFree, PayloadKept, Extended, AllAligned;
      ExpandLengthBounds(size);
      var length := (size + H) % WORD;
      if length % PAGE > 0 {
        length := (length - length % PAGE + PAGE) % WORD;
      }
      assert length == ExpandLength(size) >= PAGE;
      ok := MapPages(length / PAGE);
      if !ok { ready := false; return; }
      AddLastSegment(heapEnd, length);
      totalSize := totalSize + (length + H);
      freeSize := freeSize + (length + H);
    }

    method Malloc(size: nat) returns (ok: bool, p: nat)
      requires Valid() && Served(size)
      modifies this
      ensures ok == HeapSpec.Malloc(old(view), size).Done?
      ensures ok ==> Valid() && HeapSpec.Malloc(old(view), size) == Done(view, p)
      ensures ok ==> PayloadKept(old(bytes), bytes, Live(old(view)))
      ensures size == 0 ==> bytes == old(bytes) && view == old(view)
      decreases supply
    {
      hide Linked, Sum, LiveSum, Blocks, Good, Books, OthersAreFree, OnPages, Take, Expand, RoundRequest, ExpandLength,
           HeapSpec.Malloc, PayloadKept;
      if size == 0 {
        NothingKept(view, bytes);
        return true, 0;
      }
      RoundRequestFacts(size);
      var rounded := if size % 16 > 0 then (size - size % 16 + 16) % WORD else size;
      var current := mainSegment;
      ghost var i := 0;
      while true
        invariant Valid() && view == old(view) && bytes == old(bytes) && supply == old(supply)
        invariant i < |view.segs| && current == view.segs[i].addr
        invariant forall j | 0 <= j < i :: !Fits(view.segs[j], rounded)
        decreases |view.segs| - i
      {
        LinkedHere(hdr, view.segs, i);
        if hdr[current].free && (hdr[current].length > rounded + H || hdr[current].length == rounded) {
          FirstFitIs(view.segs, rounded, i);
          MallocByFit(view, size, rounded, i);
          p := TakeSegment(current, rounded, i);
          return true, p;
        }
        NoNext(hdr, view.segs, i);
        if hdr[current].next == 0 { break; }
        current := hdr[current].next;
        i := i + 1;
      }
      FirstFitIs(view.segs, rounded, |view.segs|);
      MallocByFit(view, size, rounded, |view.segs|);
      ok := ExpandHeap(rounded);
      if !ok { return false, 0; }
      ExpandKeepsInv(old(view), ExpandLength(rounded));
      ghost var b1 := bytes;
      ok, p := Malloc(rounded);
      if ok { KeptTrans(old(bytes), b1, bytes, Live(old(view))); }
    }

    /** A client writes into a block in use: no header, no counter and no other
        block changes. */
    method Write(at: nat, data: seq<Byte>, ghost blk: (nat, nat))
      requires Valid() && blk in Live(view) && blk.0 <= at && at + |data| <= blk.0 + blk.1
      modifies this`hdr, this`bytes
      ensures Valid() && Written(old(bytes), bytes, at, data)
      ensures PayloadKept(old(bytes), bytes, Live(view) - {blk})
    {
      hide Linked, Blocks, Good, Books, OnPages, OthersAreFree;
      WriteKeepsHeap(hdr, view, blk, at, |data|);
      bytes := bytes + Spread(at, data);
      hdr := Wiped(hdr, at, |data|);
      OthersUntouched(view, old(bytes), bytes, at, data, blk);
    }

    /** memcpy between two blocks in use. */
    method CopyBytes(dst: nat, src: nat, n: nat)
      requires src + n <= dst || dst + n <= src || src == dst
      modifies this`hdr, this`bytes
      ensures Copied(old(bytes), bytes, dst, src, n)
      ensures hdr == Wiped(old(hdr), dst, n)
    {
      var i := 0;
      while i < n
        invariant 0 <= i <= n
        invariant Copied(old(bytes), bytes, dst, src, i)
        invariant hdr == Wiped(old(hdr), dst, i)
      {
        ghost var before := bytes;
        assert SameByte(old(bytes), before, src + i);
        if src + i in bytes {
          bytes := bytes[dst + i := bytes[src + i]];
        } else {
          bytes := bytes - {dst + i};
        }
        hdr := map a | a in hdr && !(a <= dst + i < a + H) :: hdr[a];
        forall k | 0 <= k < i + 1 ensures CopiedByte(old(bytes), bytes, dst, src, k) {
          assert k < i ==> CopiedByte(old(bytes), before, dst, src, k);
        }
        forall x: nat | !(dst <= x < dst + i + 1) ensures SameByte(old(bytes), bytes, x) {
          assert SameByte(old(bytes), before, x);
        }
        i := i + 1;
      }
    }

    /** Copies the block of segment i to the new block at p and releases it. */
    method MoveBlock(buffer: nat, p: nat, size: nat, ghost i: nat, ghost r: nat) returns (ok: bool)
      requires Valid() && i < |view.segs| && view.segs[i].addr + H == buffer && !view.segs[i].free
      requires LinkedAt(hdr, view.segs, i) && (p, r) in Live(view) && size <= r
      modifies this
      ensures ok == HeapSpec.Free(old(view), buffer).Done?
      ensures ok ==> view == HeapSpec.Free(old(view), buffer).heap
      ensures ok ==> (Valid() <==> buffer != MainPayload(old(view)))
      ensures ok ==> forall len | (buffer, len) in Live(old(view)) && buffer != p ::
                       Moved(old(bytes), bytes, Live(old(view)) - {(p, r)}, (buffer, len), p, size)
    {
      hide Linked, Blocks, Good, Books, OnPages, Sum, LiveSum, OthersAreFree, Copied, PayloadKept, Moved, HeapSpec.Free,
           Wiped;
      var oldSize := hdr[buffer - H].length;
      if size < oldSize { oldSize := size; }
      ghost var o := (buffer, view.segs[i].length);
      if i > 0 {
        IndexBlock(view.segs[1..], i - 1);
        LiveBlocksAreApart(view, o, (p, r));
      }
      WriteKeepsHeap(hdr, view, (p, r), p, oldSize);
      CopyBytes(p, buffer, oldSize);
      ghost var v, b2 := view, bytes;
      FreeRemovesOneBlock(view, buffer);
      ok := Free(buffer);
      if ok {
        forall len | (buffer, len) in Live(v) && buffer != p
          ensures Moved(old(bytes), bytes, Live(v) - {(p, r)}, (buffer, len), p, size)
        {
          if i == 0 { FreeOfMain(v); }
          OneBlockAt(v, (buffer, len), o);
          MovedBytes(old(bytes), b2, bytes, v, o, (p, r), size, oldSize);
        }
      }
    }

    /** Grows or shrinks the block at `buffer`: a new block with the common prefix,
        and the old block released.  False means that the kernel panics. */
    method Realloc(buffer: nat, size: nat) returns (ok: bool, p: nat)
      requires Valid() && size <= MAX_REQUEST
      modifies this
      ensures ok == Step(old(view), Realloc_(buffer, size)).Done?
      ensures ok ==> Step(old(view), Realloc_(buffer, size)) == Done(view, p)
      ensures ok ==> (Valid() <==> !FreesMain(old(view), Realloc_(buffer, size)))
      ensures ok && size > 0 ==> forall len | (buffer, len) in Live(old(view)) ::
                                   && view.segs != []
                                   && Live(view) == Live(old(view)) - {(buffer, len)} + {(p, RoundRequest(size))}
      ensures ok && size == 0 ==> bytes == old(bytes)
      ensures ok && buffer == 0 ==> PayloadKept(old(bytes), bytes, Live(old(view)))
      ensures ok && size > 0 ==> forall len | (buffer, len) in Live(old(view)) ::
                                   Moved(old(bytes), bytes, Live(old(view)), (buffer, len), p, size)
    {
      hide Linked, Inv, HeapSpec.Malloc, HeapSpec.Free, Live, Moved, PayloadKept, Copied, OthersAreFree, RoundRequest;
      InvHasMain(view);
      ReallocStep(view, buffer, size);
      if buffer != MainPayload(view) { ReallocTradesBlocks(view, buffer, size); } else { MainIsNoBlock(view); }
      MallocAddsOneBlock(view, size);
      NoNullBlock(view);
      ok, p := Malloc(size);
      if !ok || p == 0 || buffer == 0 { return; }
      InvHasMain(view);
      var found;
      ghost var i;
      found, i := FindHeader(buffer);
      if !found {
        ready := false;
        return false, p;
      }
      ghost var v, b1, r := view, bytes, RoundRequest(size);
      ok := MoveBlock(buffer, p, size, i, r);
      if ok {
        forall len | (buffer, len) in Live(old(view))
          ensures Moved(old(bytes), bytes, Live(old(view)), (buffer, len), p, size)
        {
          assert Live(v) - {(p, r)} == Live(old(view));
          MovedFromStart(old(bytes), b1, bytes, Live(old(view)), (buffer, len), p, size);
        }
      }
    }
  }
}
