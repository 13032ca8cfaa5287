/** What every run of the heap keeps, and what its calls undo. */
module HeapLaws {
  import opened Basics
  import opened HeapSpec

  // ----- sums and block sets over a concatenation -----

  lemma {:induction false} Concat(a: seq<Segment>, b: seq<Segment>)
    ensures Sum(a + b) == Sum(a) + Sum(b)
    ensures LiveSum(a + b) == LiveSum(a) + LiveSum(b)
    ensures Blocks(a + b) == Blocks(a) + Blocks(b)
    decreases |a|
  {
    if a == [] {
      assert a + b == b;
    } else {
      Concat(a[1..], b);
      assert (a + b)[1..] == a[1..] + b;
    }
  }

  // ----- order and disjointness -----

  lemma {:induction false} Descending(segs: seq<Segment>, i: nat, j: nat)
    requires Good(segs) && i < j < |segs|
    ensures segs[j].End() <= segs[i].addr
    decreases j
  {
    if i + 1 < j {
      Descending(segs, i, j - 1);
      assert GoodAt(segs, j);
    } else {
      assert GoodAt(segs, j);
    }
  }

  lemma {:induction false} BlockIndex(segs: seq<Segment>, b: (nat, nat)) returns (i: nat)
    requires b in Blocks(segs)
    ensures i < |segs| && !segs[i].free && b == (segs[i].addr + H, segs[i].length)
    decreases |segs|
  {
    if !segs[0].free && b == (segs[0].addr + H, segs[0].length) {
      i := 0;
    } else {
      var k := BlockIndex(segs[1..], b);
      i := k + 1;
    }
  }

  lemma {:induction false} IndexBlock(segs: seq<Segment>, i: nat)
    requires i < |segs| && !segs[i].free
    ensures (segs[i].addr + H, segs[i].length) in Blocks(segs)
    decreases |segs|
  {
    if i > 0 { IndexBlock(segs[1..], i - 1); }
  }

  /** The blocks in use are 16-aligned, lie inside the mapped range below the
      main segment, and do not overlap one another nor any header. */
  lemma LiveBlocksAreApart(h: Heap, b: (nat, nat), c: (nat, nat))
    requires Inv(h) && b in Live(h) && c in Live(h)
    ensures b.0 % 16 == 0 && b.1 % 16 == 0
    ensures h.segs[|h.segs| - 1].addr + H <= b.0 && b.0 + b.1 <= h.segs[0].addr
    ensures b != c ==> b.0 + b.1 + H <= c.0 || c.0 + c.1 + H <= b.0
  {
    hide Sum, LiveSum, Blocks, Good;
    var i := BlockIndex(h.segs[1..], b);
    var j := BlockIndex(h.segs[1..], c);
    assert Aligned(h.segs[i + 1]);
    Descending(h.segs, 0, i + 1);
    if i + 1 < |h.segs| - 1 { Descending(h.segs, i + 1, |h.segs| - 1); }
    if i < j { Descending(h.segs, i + 1, j + 1); }
    if j < i { Descending(h.segs, j + 1, i + 1); }
  }

  /** A block in use shares no byte with any segment header. */
  lemma LivePayloadHoldsNoHeader(h: Heap, b: (nat, nat), k: nat)
    requires Shape(h.segs) && b in Live(h) && k < |h.segs|
    ensures h.segs[k].addr + H <= b.0 || b.0 + b.1 <= h.segs[k].addr
  {
    var i := BlockIndex(h.segs[1..], b);
    if i + 1 < k { Descending(h.segs, i + 1, k); }
    if k < i + 1 { Descending(h.segs, k, i + 1); }
  }

  // ----- every operation keeps the invariant -----

  lemma Splice(a: seq<Segment>, m: seq<Segment>, m': seq<Segment>, c: seq<Segment>)
    requires Good(a + m + c) && Good(m') && |m| > 0 && |m'| > 0
    requires a != [] ==> Neighbours(a[|a| - 1], m'[0])
    requires c != [] ==> Neighbours(m'[|m'| - 1], c[0])
    ensures Good(a + m' + c)
  {
    var s, t := a + m + c, a + m' + c;
    var shift := |m'| - |m|;
    forall i ensures GoodAt(t, i) {
      assert GoodAt(s, i) && GoodAt(s, i - shift) && GoodAt(m', i - |a|);
    }
  }

  /** The list with segments [hi, lo) replaced by `m`: what happens to the
      sums and to the set of blocks.  The main segment is never replaced. */
  lemma Replaced(segs: seq<Segment>, hi: nat, lo: nat, m: seq<Segment>)
    requires Good(segs) && 0 < hi <= lo <= |segs|
    ensures var t := segs[..hi] + m + segs[lo..];
            && Sum(t) == Sum(segs) - Sum(segs[hi..lo]) + Sum(m)
            && LiveSum(t) == LiveSum(segs) - LiveSum(segs[hi..lo]) + LiveSum(m)
            && Blocks(t[1..]) == Blocks(segs[1..]) - Blocks(segs[hi..lo]) + Blocks(m)
  {
    var a, o, c := segs[..hi], segs[hi..lo], segs[lo..];
    var t := a + m + c;
    assert segs == a + o + c && segs[1..] == a[1..] + o + c && t[1..] == a[1..] + m + c;
    Concat(a + o, c); Concat(a, o);
    Concat(a + m, c); Concat(a, m);
    Concat(a[1..] + o, c); Concat(a[1..], o);
    Concat(a[1..] + m, c); Concat(a[1..], m);
    BlocksApart(segs, hi, lo);
  }

  lemma BlocksApart(segs: seq<Segment>, hi: nat, lo: nat)
    requires Good(segs) && 0 < hi <= lo <= |segs|
    ensures Blocks(segs[..hi][1..]) !! Blocks(segs[hi..lo])
    ensures Blocks(segs[lo..]) !! Blocks(segs[hi..lo])
  {
    forall b | b in Blocks(segs[hi..lo])
      ensures b !in Blocks(segs[..hi][1..]) && b !in Blocks(segs[lo..])
    {
      var i := BlockIndex(segs[hi..lo], b);
      if b in Blocks(segs[..hi][1..]) {
        var k := BlockIndex(segs[..hi][1..], b);
        Descending(segs, k + 1, hi + i);
      }
      if b in Blocks(segs[lo..]) {
        var k := BlockIndex(segs[lo..], b);
        Descending(segs, hi + i, lo + k);
      }
    }
  }

  function LiveSize(g: Segment): nat { if g.free then 0 else g.Size() }

  function Block(g: Segment): set<(nat, nat)> { if g.free then {} else {(g.addr + H, g.length)} }

  lemma One(x: Segment)
    ensures Sum([x]) == x.Size() && LiveSum([x]) == LiveSize(x) && Blocks([x]) == Block(x)
  {
    assert [x][1..] == [];
  }

  lemma Nothing()
    ensures Sum([]) == 0 && LiveSum([]) == 0 && Blocks([]) == {}
  {
  }

  lemma Two(x: Segment, y: Segment)
    ensures Sum([x, y]) == x.Size() + y.Size()
    ensures LiveSum([x, y]) == LiveSize(x) + LiveSize(y)
    ensures Blocks([x, y]) == Block(x) + Block(y)
  {
    One(y);
    assert [x, y][1..] == [y];
  }

  lemma InitKeepsInv(heapEnd: nat, supply: nat)
    requires heapEnd > PAGE && heapEnd % PAGE == 0
    ensures Inv(Init(heapEnd, supply)) && Live(Init(heapEnd, supply)) == {}
    ensures var s := Init(heapEnd, supply).segs;
            |s| == 2 && s[0].End() == heapEnd && s[1].End() == s[0].addr && s[1].addr == heapEnd - PAGE && s[1].free
  {
    hide Sum, LiveSum, Blocks, OnPages;
    var h := Init(heapEnd, supply);
    assert h.segs[1..] == [h.segs[1]];
    Two(h.segs[0], h.segs[1]);
    One(h.segs[1]);
    PagesBelow(heapEnd, PAGE);
    PageAligned(heapEnd);
    InitAligned(heapEnd, supply);
  }

  lemma InitAligned(heapEnd: nat, supply: nat)
    requires heapEnd > PAGE && heapEnd % 16 == 0 && (heapEnd - PAGE) % PAGE == 0 && (heapEnd - PAGE) % 16 == 0
    ensures OnPages(Init(heapEnd, supply).segs)
  {
    assert (heapEnd - H) % 16 == 0;
  }

  lemma CutShape(g: Segment, size: nat)
    requires Fits(g, size)
    ensures var cut := Cut(g, size);
            && Good(cut)
            && Sum(cut) == g.Size() && LiveSum(cut) == size + H
            && Blocks(cut) == {(cut[0].addr + H, size)}
            && cut[|cut| - 1].addr == g.addr
            && (cut[|cut| - 1].free ==> g.free)
            && cut[0].End() == g.End()
  {
    var cut := Cut(g, size);
    One(cut[0]);
    if |cut| == 2 {
      Two(cut[0], cut[1]);
      assert cut == [cut[0], cut[1]];
    } else {
      assert cut == [cut[0]];
    }
  }

  lemma CutAligned(segs: seq<Segment>, i: nat, size: nat)
    requires OnPages(segs) && i < |segs| && Fits(segs[i], size) && size % 16 == 0
    ensures OnPages(segs[..i] + Cut(segs[i], size) + segs[i + 1..])
    ensures Aligned(Cut(segs[i], size)[0])
  {
    assert Aligned(segs[i]);
    var t := segs[..i] + Cut(segs[i], size) + segs[i + 1..];
    var shift := |t| - |segs|;
    forall k | 0 <= k < |t| ensures Aligned(t[k]) {
      assert k < i ==> t[k] == segs[k];
      assert k > i + shift ==> t[k] == segs[k - shift];
    }
  }

  lemma CutIsGood(segs: seq<Segment>, i: nat, size: nat)
    requires Shape(segs) && i < |segs| && Fits(segs[i], size)
    ensures Shape(segs[..i] + Cut(segs[i], size) + segs[i + 1..])
  {
    var g, cut := segs[i], Cut(segs[i], size);
    var a, c := segs[..i], segs[i + 1..];
    CutShape(g, size);
    assert segs == a + [g] + c;
    assert GoodAt(segs, i) && GoodAt(segs, i + 1);
    Splice(a, [g], cut, c);
  }

  lemma CutIsNew(segs: seq<Segment>, i: nat, size: nat)
    requires Good(segs) && i < |segs| && Fits(segs[i], size)
    ensures (Cut(segs[i], size)[0].addr + H, size) !in Blocks(segs[1..])
  {
    var b := (Cut(segs[i], size)[0].addr + H, size);
    if b in Blocks(segs[1..]) {
      var k := BlockIndex(segs[1..], b);
      k := k + 1;
      if k < i { Descending(segs, k, i); }
      if i < k { Descending(segs, i, k); }
    }
  }

  lemma TakeBooks(h: Heap, i: nat, size: nat)
    requires Shape(h.segs) && Books(h) && 0 < i < |h.segs| && Fits(h.segs[i], size)
    ensures Books(Take(h, i, size).heap)
    ensures Live(Take(h, i, size).heap) == Live(h) + {(Take(h, i, size).ptr, size)}
  {
    hide Sum, LiveSum, Blocks, Good;
    var g, cut := h.segs[i], Cut(h.segs[i], size);
    CutShape(g, size);
    assert h.segs[i..i + 1] == [g];
    One(g);
    Replaced(h.segs, i, i + 1, cut);
  }

  /** Handing out a block: exactly one block is new, and it was free memory. */
  lemma TakeKeepsInv(h: Heap, i: nat, size: nat)
    requires Inv(h) && i < |h.segs| && Fits(h.segs[i], size) && size % 16 == 0
    ensures var t := Take(h, i, size);
            && Inv(t.heap) && t.heap.segs[0] == h.segs[0]
            && t.ptr % 16 == 0 && t.ptr > 0
            && (t.ptr, size) !in Live(h)
            && Live(t.heap) == Live(h) + {(t.ptr, size)}
  {
    hide Sum, LiveSum, Blocks, Good, OnPages, Books, Aligned, Cut;
    CutIsGood(h.segs, i, size);
    CutAligned(h.segs, i, size);
    HeaderAligned(Cut(h.segs[i], size)[0]);
    TakeBooks(h, i, size);
    CutIsNew(h.segs, i, size);
  }

  lemma HeaderAligned(g: Segment)
    requires Aligned(g)
    ensures (g.addr + H) % 16 == 0
  {
  }

  lemma PageAligned(a: nat)
    requires a % PAGE == 0
    ensures a % 16 == 0
  {
    var q := a / PAGE;
    assert a == 16 * (256 * q);
  }

  lemma PagesBelow(a: nat, l: nat)
    requires a % PAGE == 0 && l % PAGE == 0 && l <= a
    ensures (a - l) % PAGE == 0 && (a - l) % 16 == 0 && l % 16 == 0
  {
    PageAligned(a - l);
    PageAligned(l);
  }

  lemma ExtendedIsGood(segs: seq<Segment>, l: nat)
    requires Shape(segs) && H <= l < segs[|segs| - 1].addr
    ensures Shape(Extended(segs, l)) && Extended(segs, l)[0] == segs[0]
  {
    var n, t := |segs|, Extended(segs, l);
    assert GoodAt(segs, n - 1);
    forall i ensures GoodAt(t, i) {
      assert GoodAt(segs, i);
    }
  }

  lemma LastAligned(last: Segment, l: nat)
    requires Aligned(last) && H <= l <= last.addr && (last.addr - l) % 16 == 0 && l % 16 == 0
    ensures Aligned(Segment(last.addr - l, last.length + l - H, true)) && Aligned(Segment(last.addr - l, l - H, true))
  {
  }

  lemma ExtendedAligned(segs: seq<Segment>, l: nat)
    requires OnPages(segs) && PAGE <= l < segs[|segs| - 1].addr && l % PAGE == 0
    ensures OnPages(Extended(segs, l))
  {
    hide Aligned;
    var t, last := Extended(segs, l), segs[|segs| - 1];
    PagesBelow(last.addr, l);
    LastAligned(last, l);
    forall k | 0 <= k < |t| ensures Aligned(t[k]) {
      assert k < |t| - 1 ==> t[k] == segs[k];
    }
  }

  lemma ExtendedSums(segs: seq<Segment>, l: nat)
    requires Shape(segs) && H <= l < segs[|segs| - 1].addr
    ensures Sum(Extended(segs, l)) == Sum(segs) + l - (if Merges(segs) then H else 0)
    ensures LiveSum(Extended(segs, l)) == LiveSum(segs)
    ensures Blocks(Extended(segs, l)[1..]) == Blocks(segs[1..])
  {
    hide Sum, LiveSum, Blocks, Good;
    var n, t := |segs|, Extended(segs, l);
    var last, top := segs[n - 1], t[|t| - 1];
    Nothing();
    One(last);
    One(top);
    var k := if last.free then n - 1 else n;
    assert segs[k..n] == (if last.free then [last] else []) && segs[n..] == [];
    assert t == segs[..k] + [top] + segs[n..];
    Replaced(segs, k, n, [top]);
  }

  /** The lowest address of the heap. */
  function Lowest(h: Heap): nat
    requires |h.segs| > 0
  {
    h.segs[|h.segs| - 1].addr
  }

  /** The bytes between the ends of the heap that belong to no segment. */
  function Lost(h: Heap): int
    requires |h.segs| > 0
  {
    h.segs[0].End() - Lowest(h) - Sum(h.segs)
  }

  /** An expansion reaches `l` bytes further down.  It loses a header's worth of
      bytes exactly when the last segment was free. */
  lemma ExpandKeepsInv(h: Heap, l: nat)
    requires Inv(h) && CanExpand(h, l) && l >= PAGE && l % PAGE == 0
    ensures var h' := Expand(h, l);
            && Inv(h') && h'.segs[0] == h.segs[0] && Live(h') == Live(h)
            && Lowest(h') == Lowest(h) - l && h'.segs[|h'.segs| - 1].free
            && Lost(h') == Lost(h) + (if h.segs[|h.segs| - 1].free then 48 else 0)
  {
    hide Sum, LiveSum, Blocks, Good, OnPages;
    ExtendedIsGood(h.segs, l);
    ExtendedAligned(h.segs, l);
    ExtendedSums(h.segs, l);
  }

  lemma {:induction false} AllocateKeepsInv(h: Heap, size: nat, l: nat)
    requires Inv(h) && size % 16 == 0 && l >= PAGE && l % PAGE == 0
    ensures var r := Allocate(h, size, l);
            r.Panic? ||
            (&& Inv(r.heap) && r.heap.segs[0] == h.segs[0]
             && r.ptr % 16 == 0 && r.ptr > 0
             && (r.ptr, size) !in Live(h)
             && Live(r.heap) == Live(h) + {(r.ptr, size)})
    decreases h.supply
  {
    var i := FirstFit(h.segs, size, 0);
    if i < |h.segs| {
      TakeKeepsInv(h, i, size);
    } else if CanExpand(h, l) {
      ExpandKeepsInv(h, l);
      AllocateKeepsInv(Expand(h, l), size, l);
    }
  }

  /** `malloc`: unless the pages run out, exactly one block is added, it is new
      and 16-aligned.  It is at least as long as asked for, except for a size
      that wraps: then it has no bytes, or there is no block at all. */
  lemma MallocAddsOneBlock(h: Heap, size: nat)
    requires Inv(h) && Served(size)
    ensures var r := Malloc(h, size);
            && (size == 0 ==> r == Done(h, 0))
            && (r.Done? ==> Inv(r.heap) && r.heap.segs[0] == h.segs[0])
            && (r.Done? && r.ptr != 0 ==>
                && r.ptr % 16 == 0 && r.ptr > 0
                && (r.ptr, RoundRequest(size)) !in Live(h)
                && Live(r.heap) == Live(h) + {(r.ptr, RoundRequest(size))}
                && (size <= RoundRequest(size) <==> size <= MAX_REQUEST)
                && (size <= MAX_REQUEST ==> RoundRequest(size) < size + 16))
            && (r.Done? && r.ptr == 0 ==>
                && Live(r.heap) == Live(h) && (0 < size ==> size > WORD - 16 && FirstFit(h.segs, 0, 0) == |h.segs|))
  {
    hide Sum, LiveSum, Blocks, Good, OnPages, Books;
    RequestArithmeticIsExact(size);
    RoundRequestBounds(size);
    if size > WORD - 16 {
      if FirstFit(h.segs, 0, 0) < |h.segs| {
        TakeKeepsInv(h, FirstFit(h.segs, 0, 0), 0);
      } else if CanExpand(h, PAGE) {
        ExpandKeepsInv(h, PAGE);
      }
    } else if size > 0 {
      AllocateKeepsInv(h, RoundRequest(size), ExpandLength(RoundRequest(size)));
    }
  }

  /** The run of segments that a release turns into one. */
  lemma ReleasedRun(segs: seq<Segment>, i: nat, hi: nat, lo: nat)
    requires Good(segs) && i < |segs| && !segs[i].free && hi == High(segs, i) && lo == Low(segs, i)
    ensures Sum(segs[hi..lo + 1]) ==
            segs[i].Size() + (if hi < i then segs[hi].Size() else 0) + (if i < lo then segs[lo].Size() else 0)
    ensures LiveSum(segs[hi..lo + 1]) == segs[i].Size()
    ensures Blocks(segs[hi..lo + 1]) == {(segs[i].addr + H, segs[i].length)}
    ensures segs[lo].addr + Sum(segs[hi..lo + 1]) <= segs[hi].End()
    ensures hi > 0 ==> !segs[hi - 1].free
    ensures lo + 1 < |segs| ==> !segs[lo + 1].free
  {
    assert segs[hi..lo + 1] == segs[hi..i] + [segs[i]] + segs[i + 1..lo + 1];
    Concat(segs[hi..i] + [segs[i]], segs[i + 1..lo + 1]);
    Concat(segs[hi..i], [segs[i]]);
    One(segs[i]);
    One(segs[hi]);
    One(segs[lo]);
    assert segs[hi..i] == if hi < i then [segs[hi]] else [];
    assert segs[i + 1..lo + 1] == if i < lo then [segs[lo]] else [];
    assert GoodAt(segs, hi) && GoodAt(segs, i) && GoodAt(segs, i + 1) && GoodAt(segs, lo + 1);
  }

  lemma JoinedIsGood(segs: seq<Segment>, hi: nat, lo: nat)
    requires Shape(segs) && 0 < hi <= lo < |segs|
    requires H <= Sum(segs[hi..lo + 1]) <= segs[hi].End() - segs[lo].addr
    requires !segs[hi - 1].free && (lo + 1 < |segs| ==> !segs[lo + 1].free)
    ensures Shape(Joined(segs, hi, lo)) && Joined(segs, hi, lo)[0] == segs[0]
    ensures Joined(segs, hi, lo)[|Joined(segs, hi, lo)| - 1].addr == segs[|segs| - 1].addr
  {
    hide Sum;
    var a, m, c := segs[..hi], segs[hi..lo + 1], segs[lo + 1..];
    var g := Segment(segs[lo].addr, Sum(m) - H, true);
    assert segs == a + m + c;
    assert GoodAt(segs, hi) && GoodAt(segs, lo + 1);
    Splice(a, m, [g], c);
  }

  lemma SumAligned(segs: seq<Segment>)
    requires AllAligned(segs)
    ensures Sum(segs) % 16 == 0
  {
    if segs != [] {
      assert Aligned(segs[0]) && (forall k | 0 <= k < |segs| - 1 :: segs[1..][k] == segs[k + 1]);
      SumAligned(segs[1..]);
    }
  }

  lemma JoinedAligned(segs: seq<Segment>, hi: nat, lo: nat)
    requires OnPages(segs) && hi <= lo < |segs| && Sum(segs[hi..lo + 1]) >= H
    ensures OnPages(Joined(segs, hi, lo))
  {
    hide Sum;
    SumAligned(segs[hi..lo + 1]);
    assert Aligned(segs[lo]);
    var t := Joined(segs, hi, lo);
    forall k | 0 <= k < |t| ensures Aligned(t[k]) {
      assert k < hi ==> t[k] == segs[k];
      assert k > hi ==> t[k] == segs[k + lo - hi];
    }
  }

  lemma FindIndex(segs: seq<Segment>, i: nat)
    requires Good(segs) && i < |segs|
    ensures Find(segs, segs[i].addr + H, 0) == i
  {
    var k := Find(segs, segs[i].addr + H, 0);
    if k < i { Descending(segs, k, i); }
  }

  /** What `free` of segment i amounts to. */
  lemma FreeAt(h: Heap, i: nat)
    requires Good(h.segs) && 0 < i < |h.segs| && !h.segs[i].free
    ensures Free(h, h.segs[i].addr + H) ==
            Done(h.(segs := Released(h.segs, i), used := h.used - h.segs[i].Size(),
                    freeSize := h.freeSize + h.segs[i].Size()), 0)
  {
    hide Sum, Good, Find, Released;
    FindIndex(h.segs, i);
  }

  lemma ReleasedBooks(h: Heap, i: nat)
    requires Shape(h.segs) && Books(h) && 0 < i < |h.segs| && !h.segs[i].free
    ensures var r := Free(h, h.segs[i].addr + H);
            r.Done? && r.heap.segs == Released(h.segs, i) && Books(r.heap)
    ensures Blocks(Released(h.segs, i)[1..]) == Live(h) - {(h.segs[i].addr + H, h.segs[i].length)}
  {
    hide Sum, LiveSum, Blocks, Good, HeapSpec.Free, Joined, High, Low;
    FreeAt(h, i);
    HighIsNotMain(h.segs, i);
    var hi, lo := High(h.segs, i), Low(h.segs, i);
    ReleasedRun(h.segs, i, hi, lo);
    JoinedIsGood(h.segs, hi, lo);
    JoinedBooks(h.segs, hi, lo);
  }

  lemma HighIsNotMain(segs: seq<Segment>, i: nat)
    requires 0 < i < |segs| && !segs[0].free
    ensures High(segs, i) > 0
  {
  }

  lemma JoinedBooks(segs: seq<Segment>, hi: nat, lo: nat)
    requires Good(segs) && 0 < hi <= lo < |segs| && Sum(segs[hi..lo + 1]) >= H
    ensures var t := Joined(segs, hi, lo);
            && Sum(t) == Sum(segs)
            && LiveSum(t) == LiveSum(segs) - LiveSum(segs[hi..lo + 1])
            && Blocks(t[1..]) == Blocks(segs[1..]) - Blocks(segs[hi..lo + 1])
  {
    hide Sum, LiveSum, Blocks, Good;
    var g := Segment(segs[lo].addr, Sum(segs[hi..lo + 1]) - H, true);
    One(g);
    Replaced(segs, hi, lo + 1, [g]);
  }

  lemma ReleaseKeepsInv(h: Heap, i: nat)
    requires Inv(h) && 0 < i < |h.segs| && !h.segs[i].free
    ensures var r := Free(h, h.segs[i].addr + H);
            && r.Done? && Inv(r.heap) && r.heap.segs == Released(h.segs, i)
            && r.heap.segs[0] == h.segs[0]
            && Live(r.heap) == Live(h) - {(h.segs[i].addr + H, h.segs[i].length)}
  {
    hide Sum, LiveSum, Blocks, Good, OnPages, Books;
    ReleasedRun(h.segs, i, High(h.segs, i), Low(h.segs, i));
    JoinedIsGood(h.segs, High(h.segs, i), Low(h.segs, i));
    JoinedAligned(h.segs, High(h.segs, i), Low(h.segs, i));
    ReleasedBooks(h, i);
  }

  /** The address behind the main segment, which `malloc` never returns. */
  function MainPayload(h: Heap): nat
    requires |h.segs| > 0
  {
    h.segs[0].End()
  }

  /** The main segment itself can be freed once, when the segment below it is in
      use; the list then starts with a free segment. */
  lemma FreeOfMain(h: Heap)
    requires Inv(h)
    ensures var r := Free(h, MainPayload(h));
            && (r.Done? <==> !h.segs[1].free)
            && (r.Done? ==> !Inv(r.heap) && r.heap.segs == h.segs[0 := h.segs[0].(free := true)])
            && (r.Done? ==> Live(r.heap) == Live(h))
    ensures forall len :: (MainPayload(h), len) !in Live(h)
  {
    hide LiveSum, Blocks, Good, OnPages, Books;
    FindIndex(h.segs, 0);
    assert h.segs[0..1] == [h.segs[0]];
    One(h.segs[0]);
    var r := Free(h, MainPayload(h));
    if r.Done? {
      assert r.heap.segs == h.segs[0 := h.segs[0].(free := true)];
      assert r.heap.segs[1..] == h.segs[1..];
    }
    forall len ensures (MainPayload(h), len) !in Live(h) {
      if (MainPayload(h), len) in Live(h) {
        var k := BlockIndex(h.segs[1..], (MainPayload(h), len));
        Descending(h.segs, 0, k + 1);
      }
    }
  }

  /** `free`, for every address: it succeeds exactly for null, for a block in use
      and, with the segment below it in use, for the main segment.  A block in
      use goes, and nothing else does; the invariant is kept except in the last
      case. */
  lemma FreeRemovesOneBlock(h: Heap, ptr: nat)
    requires Inv(h)
    ensures var r := Free(h, ptr);
            && (r.Done? <==>
                  ptr == 0 || (exists len :: (ptr, len) in Live(h)) || (ptr == MainPayload(h) && !h.segs[1].free))
            && (ptr == 0 ==> r == Done(h, 0))
            && (r.Done? ==> (Inv(r.heap) <==> ptr != MainPayload(h)))
            && (forall len | (ptr, len) in Live(h) ::
                  r.Done? && r.heap.segs[0] == h.segs[0] && Live(r.heap) == Live(h) - {(ptr, len)})
  {
    hide Sum, LiveSum, Blocks, Good, OnPages, Books, Released;
    if ptr == MainPayload(h) {
      FreeOfMain(h);
    } else {
      var i := Find(h.segs, ptr, 0);
      if ptr != 0 && i < |h.segs| && !h.segs[i].free {
        IndexBlock(h.segs[1..], i - 1);
        ReleaseKeepsInv(h, i);
      }
      forall len | (ptr, len) in Live(h)
        ensures var r := Free(h, ptr);
                r.Done? && r.heap.segs[0] == h.segs[0] && Live(r.heap) == Live(h) - {(ptr, len)}
      {
        var k := BlockIndex(h.segs[1..], (ptr, len));
        ReleaseKeepsInv(h, k + 1);
      }
    }
  }

  // ----- growth -----

  lemma SecondExtensionFits(segs: seq<Segment>, size: nat, l: nat)
    requires Shape(segs) && l >= size + H && l >= PAGE && 2 * l < segs[|segs| - 1].addr
    ensures var t := Extended(Extended(segs, l), l);
            Fits(t[|t| - 1], size) && FirstFit(t, size, 0) < |t|
  {
    var t1 := Extended(segs, l);
    var t2 := Extended(t1, l);
    assert t1[|t1| - 1].free && t1[|t1| - 1].length >= l - H;
    assert t2[|t2| - 1].length == t1[|t1| - 1].length + l - H;
    assert Fits(t2[|t2| - 1], size);
  }

  /** A fresh segment can land in the unusable range (size, size + H], but then
      the next expansion merges with it. */
  lemma AllocateExpandsTwice(h: Heap, size: nat, l: nat)
    requires Inv(h) && size % 16 == 0 && l >= size + H && l >= PAGE && l % PAGE == 0
    ensures var r := Allocate(h, size, l);
            && (r.Done? ==> exists n: nat :: n <= 2 && GrownBy(h, r.heap, l, n))
            && (2 * (l / PAGE) <= h.supply && 2 * l < h.segs[|h.segs| - 1].addr ==> r.Done?)
            && (r.Done? ==> (GrownBy(h, r.heap, l, 0) <==> exists i :: Usable(h.segs, i, size)))
  {
    hide FirstFit, Good, OnPages, Books, Fits, Take, Expand;
    FitIsUsable(h.segs, size);
    if FirstFit(h.segs, size, 0) < |h.segs| {
      TakeGrows(h, h, FirstFit(h.segs, size, 0), size, l, 0);
    } else if CanExpand(h, l) {
      var h1 := Expand(h, l);
      ExpandGrows(h, h, l, 0);
      if FirstFit(h1.segs, size, 0) < |h1.segs| {
        TakeGrows(h, h1, FirstFit(h1.segs, size, 0), size, l, 1);
      } else if CanExpand(h1, l) {
        var h2 := Expand(h1, l);
        ExpandGrows(h, h1, l, 1);
        SecondExtensionFits(h.segs, size, l);
        assert h2.segs == Extended(Extended(h.segs, l), l);
        assert Allocate(h1, size, l) == Allocate(h2, size, l);
        TakeGrows(h, h2, FirstFit(h2.segs, size, 0), size, l, 2);
      }
    }
  }

  /** n rounds of `l` bytes were mapped since h; each round counts one header too
      many. */
  ghost predicate GrownBy(h: Heap, h': Heap, l: nat, n: nat) {
    && |h.segs| > 0 && |h'.segs| > 0 && l > 0
    && Lowest(h') == Lowest(h) - n * l && h'.supply == h.supply - n * (l / PAGE)
    && h'.total == h.total + n * (l + 48) && h'.expansions == h.expansions + n
  }

  /** A free segment that a request can have: of the very size, or with room for
      another header. */
  predicate Usable(segs: seq<Segment>, i: int, size: nat) {
    0 <= i < |segs| && segs[i].free && (segs[i].length == size || segs[i].length > size + 48)
  }

  lemma FitIsUsable(segs: seq<Segment>, size: nat)
    ensures forall i | 0 <= i < FirstFit(segs, size, 0) :: !Usable(segs, i, size)
    ensures FirstFit(segs, size, 0) < |segs| ==> Usable(segs, FirstFit(segs, size, 0), size)
  {
  }

  lemma ExpandGrows(h: Heap, h1: Heap, l: nat, n: nat)
    requires |h1.segs| > 0 && GrownBy(h, h1, l, n) && CanExpand(h1, l) && l >= PAGE
    ensures GrownBy(h, Expand(h1, l), l, n + 1) && Expand(h1, l).segs == Extended(h1.segs, l)
  {
    assert (n + 1) * l == n * l + l && (n + 1) * (l + 48) == n * (l + 48) + (l + 48);
    assert (n + 1) * (l / PAGE) == n * (l / PAGE) + l / PAGE;
  }

  lemma TakeGrows(h: Heap, h1: Heap, i: nat, size: nat, l: nat, n: nat)
    requires i < |h1.segs| && Fits(h1.segs[i], size) && GrownBy(h, h1, l, n)
    ensures Take(h1, i, size).Done? && GrownBy(h, Take(h1, i, size).heap, l, n)
  {
    CutAt(h1.segs, i, size);
  }

  lemma CutAt(segs: seq<Segment>, i: nat, size: nat)
    requires i < |segs| && Fits(segs[i], size)
    ensures var t := segs[..i] + Cut(segs[i], size) + segs[i + 1..];
            |t| > 0 && t[|t| - 1].addr == segs[|segs| - 1].addr
  {
  }

  /** malloc takes the highest usable segment, the block is its upper end, and
      nothing is mapped. */
  lemma MallocPlaces(h: Heap, size: nat, i: nat)
    requires Inv(h) && 0 < size <= MAX_REQUEST && Usable(h.segs, i, RoundRequest(size))
    requires forall j | 0 <= j < i :: !Usable(h.segs, j, RoundRequest(size))
    ensures var r := Malloc(h, size);
            && r.Done? && r.ptr + RoundRequest(size) == h.segs[i].End()
            && r.heap.supply == h.supply && r.heap.total == h.total
  {
    hide RoundRequest, ExpandLength, Inv;
    FitIsUsable(h.segs, RoundRequest(size));
    RequestArithmeticIsExact(size);
  }

  /** No `malloc` expands the heap more than twice, and it expands at all only when
      nothing fits.  Two rounds of pages are therefore always enough. */
  lemma AtMostTwoExpansions(h: Heap, size: nat)
    requires Inv(h) && Served(size)
    ensures var r, rounded := Malloc(h, size), RoundRequest(size);
            var l := ExpandLength(rounded);
            && (size > 0 && r.Done? ==> exists n: nat :: n <= 2 && GrownBy(h, r.heap, l, n))
            && (2 * (l / PAGE) <= h.supply && 2 * l < h.segs[|h.segs| - 1].addr ==> r.Done?)
            && (size > 0 && r.Done? ==> (GrownBy(h, r.heap, l, 0) <==> exists i :: Usable(h.segs, i, rounded)))
  {
    hide FirstFit, Good, OnPages, Books, Fits;
    RequestArithmeticIsExact(size);
    RoundRequestBounds(size);
    if 0 < size <= MAX_REQUEST { AllocateExpandsTwice(h, RoundRequest(size), ExpandLength(RoundRequest(size))); }
    if size > WORD - 16 {
      RequestArithmeticWraps(size);
      NothingGrows(h);
    }
  }

  lemma NothingGrows(h: Heap)
    requires Inv(h)
    ensures var r := AllocateNothing(h);
            && (r.Done? ==> exists n: nat :: n <= 2 && GrownBy(h, r.heap, PAGE, n))
            && (2 <= h.supply && 2 * PAGE < h.segs[|h.segs| - 1].addr ==> r.Done?)
            && (r.Done? ==> (GrownBy(h, r.heap, PAGE, 0) <==> exists i :: Usable(h.segs, i, 0)))
  {
    hide FirstFit, Good, OnPages, Books, Fits, Take, Expand;
    FitIsUsable(h.segs, 0);
    if FirstFit(h.segs, 0, 0) < |h.segs| {
      TakeGrows(h, h, FirstFit(h.segs, 0, 0), 0, PAGE, 0);
    } else if CanExpand(h, PAGE) {
      ExpandGrows(h, h, PAGE, 0);
    }
  }

  /** The heap after the expansions an allocation performs. */
  function Grown(h: Heap, size: nat, l: nat): Heap
    requires |h.segs| > 0 && l >= PAGE
    decreases h.supply
  {
    if FirstFit(h.segs, size, 0) < |h.segs| || !CanExpand(h, l) then h
    else Grown(Expand(h, l), size, l)
  }

  /** Freeing what was just taken gives back the very same heap: same
      segments, same counters. */
  lemma FreeUndoesTake(h: Heap, i: nat, size: nat)
    requires Inv(h) && i < |h.segs| && Fits(h.segs[i], size) && size % 16 == 0
    ensures |Take(h, i, size).heap.segs| > 0
    ensures Free(Take(h, i, size).heap, Take(h, i, size).ptr) == Done(h, 0)
  {
    hide Sum, LiveSum, Blocks, Good, OnPages, Books, Joined;
    var t := Take(h, i, size);
    TakeKeepsInv(h, i, size);
    ReleaseKeepsInv(t.heap, i);
    FindIndex(t.heap.segs, i);
    CutRejoins(h.segs, i, size);
  }

  lemma CutRejoins(segs: seq<Segment>, i: nat, size: nat)
    requires Shape(segs) && 0 < i < |segs| && Fits(segs[i], size)
    ensures Released(segs[..i] + Cut(segs[i], size) + segs[i + 1..], i) == segs
  {
    hide Sum, LiveSum, Blocks;
    var g, cut := segs[i], Cut(segs[i], size);
    var t := segs[..i] + cut + segs[i + 1..];
    CutShape(g, size);
    assert t[i - 1] == segs[i - 1] && GoodAt(segs, i) && GoodAt(segs, i + 1);
    assert High(t, i) == i;
    assert i + 1 < |segs| ==> t[i + |cut|] == segs[i + 1];
    assert Low(t, i) == i + |cut| - 1;
    assert t[i..i + |cut|] == cut && t[i + |cut|..] == segs[i + 1..] && t[..i] == segs[..i];
    assert segs == segs[..i] + [g] + segs[i + 1..];
  }

  lemma {:induction false} FreeUndoesAllocate(h: Heap, size: nat, l: nat)
    requires Inv(h) && size % 16 == 0 && l >= PAGE && l % PAGE == 0
    requires Allocate(h, size, l).Done?
    ensures |Allocate(h, size, l).heap.segs| > 0
    ensures Free(Allocate(h, size, l).heap, Allocate(h, size, l).ptr) == Done(Grown(h, size, l), 0)
    decreases h.supply
  {
    if FirstFit(h.segs, size, 0) < |h.segs| {
      FreeUndoesTake(h, FirstFit(h.segs, size, 0), size);
    } else {
      ExpandKeepsInv(h, l);
      FreeUndoesAllocate(Expand(h, l), size, l);
    }
  }

  /** `free(malloc(n))` leaves only the growth behind. */
  lemma FreeUndoesMalloc(h: Heap, size: nat)
    requires Inv(h) && 0 < size <= MAX_REQUEST && Malloc(h, size).Done?
    ensures |Malloc(h, size).heap.segs| > 0 && ExpandLength(RoundRequest(size)) >= PAGE
    ensures Free(Malloc(h, size).heap, Malloc(h, size).ptr) ==
            Done(Grown(h, RoundRequest(size), ExpandLength(RoundRequest(size))), 0)
  {
    hide Allocate, Grown, HeapSpec.Free, Inv, RoundRequest, ExpandLength;
    RequestArithmeticIsExact(size);
    FreeUndoesAllocate(h, RoundRequest(size), ExpandLength(RoundRequest(size)));
  }

  // ----- whole runs -----

  datatype Op = Malloc_(size: nat) | Free_(ptr: nat) | Realloc_(ptr: nat, size: nat)

  /** The calls whose arithmetic and copying stay in bounds. */
  predicate Defined(op: Op) {
    match op
    case Malloc_(size) => Served(size)
    case Free_(_) => true
    case Realloc_(_, size) => size <= MAX_REQUEST
  }

  function Step(h: Heap, op: Op): Outcome
    requires |h.segs| > 0 && Defined(op)
  {
    match op
    case Malloc_(size) => Malloc(h, size)
    case Free_(ptr) => Free(h, ptr)
    case Realloc_(ptr, size) => Resize(Malloc(h, size), ptr)
  }

  /** The second half of a realloc: the old block goes, the new one stays. */
  function Resize(r: Outcome, old_: nat): Outcome {
    if r.Panic? || r.ptr == 0 || old_ == 0 || |r.heap.segs| == 0 then r
    else match Free(r.heap, old_) case Panic => Panic case Done(h, _) => Done(h, r.ptr)
  }

  /** Why larger sizes are left out of `Defined` for realloc: a size that wraps
      gets a block of no bytes, and all bytes of the old block are copied to it. */
  lemma WrappedReallocOverruns(h: Heap, ptr: nat, len: nat, size: nat)
    requires Inv(h) && WORD - 16 < size < WORD && len < WORD - 16 && (ptr, len) in Live(h)
    requires Malloc(h, size).Done? && Malloc(h, size).ptr != 0
    ensures var copied := if size < len then size else len;
            (Malloc(h, size).ptr, 0) in Live(Malloc(h, size).heap) && (copied > 0 <==> len > 0)
  {
    MallocAddsOneBlock(h, size);
    RoundRequestBounds(size);
  }

  /** The call releases the main segment. */
  predicate FreesMain(h: Heap, op: Op)
    requires |h.segs| > 0 && Defined(op)
  {
    match op
    case Malloc_(_) => false
    case Free_(ptr) => ptr == MainPayload(h)
    case Realloc_(ptr, size) => ptr == MainPayload(h) && size > 0
  }

  /** Every call keeps the invariant, unless it releases the main segment: then it
      does not, if it succeeds at all. */
  lemma StepKeepsInv(h: Heap, op: Op)
    requires Inv(h) && Defined(op) && Step(h, op).Done?
    ensures Inv(Step(h, op).heap) <==> !FreesMain(h, op)
    ensures Step(h, op).heap.segs != [] && (!FreesMain(h, op) ==> MainPayload(Step(h, op).heap) == MainPayload(h))
  {
    hide Inv, HeapSpec.Malloc, HeapSpec.Free;
    InvHasMain(h);
    match op
    case Malloc_(size) =>
      MallocAddsOneBlock(h, size);
      InvHasMain(Malloc(h, size).heap);
    case Free_(ptr) => FreeStep(h, ptr);
    case Realloc_(ptr, size) => ReallocStep(h, ptr, size);
  }

  lemma InvHasMain(h: Heap)
    requires Inv(h)
    ensures |h.segs| >= 2 && Shape(h.segs) && MainPayload(h) == h.segs[0].addr + H
  {
  }

  lemma FreeStep(h: Heap, ptr: nat)
    requires Inv(h) && Free(h, ptr).Done?
    ensures var r := Free(h, ptr);
            && (Inv(r.heap) <==> ptr != MainPayload(h))
            && |r.heap.segs| > 0 && (ptr != MainPayload(h) ==> r.heap.segs[0] == h.segs[0])
  {
    hide Inv, HeapSpec.Free, Live;
    FreeRemovesOneBlock(h, ptr);
    InvHasMain(h);
    if ptr == MainPayload(h) {
      FreeOfMain(h);
    } else if ptr != 0 {
      var len :| (ptr, len) in Live(h);
      InvHasMain(Free(h, ptr).heap);
    }
  }

  lemma ReallocStep(h: Heap, ptr: nat, size: nat)
    requires Inv(h) && size <= MAX_REQUEST
    ensures var r := Resize(Malloc(h, size), ptr);
            r.Done? ==>
              && (Inv(r.heap) <==> !FreesMain(h, Realloc_(ptr, size))) && r.ptr == Malloc(h, size).ptr
              && |r.heap.segs| > 0 && (!FreesMain(h, Realloc_(ptr, size)) ==> r.heap.segs[0] == h.segs[0])
  {
    hide Inv, HeapSpec.Malloc, HeapSpec.Free;
    InvHasMain(h);
    MallocAddsOneBlock(h, size);
    var r := Malloc(h, size);
    if r.Done? {
      InvHasMain(r.heap);
      if r.ptr != 0 && ptr != 0 && Free(r.heap, ptr).Done? { FreeStep(r.heap, ptr); }
    }
  }

  /** realloc trades the old block for one of the new size: the old one is given up,
      every other block stays.  It is malloc for a null pointer, does nothing for
      size 0, and stops the kernel for an address that nobody holds, unless its own
      malloc hands that address out: then the new block is the one given up. */
  lemma ReallocTradesBlocks(h: Heap, ptr: nat, size: nat)
    requires Inv(h) && size <= MAX_REQUEST && ptr != MainPayload(h)
    ensures var m, r := Malloc(h, size), Step(h, Realloc_(ptr, size));
            && (size == 0 ==> r == Done(h, 0))
            && (m.Panic? ==> r.Panic?)
            && (ptr == 0 ==> r == m)
            && (m.Done? && size > 0 && ptr != 0 && ptr == m.ptr ==>
                  r.Done? && r.heap.segs != [] && r.ptr == m.ptr && Live(r.heap) == Live(h))
            && (m.Done? && size > 0 && ptr != 0 && ptr != m.ptr ==>
                  (r.Done? <==> exists len :: (ptr, len) in Live(h)))
            && (m.Done? && size > 0 ==> forall len | (ptr, len) in Live(h) ::
                  && r.Done? && r.heap.segs != [] && r.ptr == m.ptr && r.ptr != ptr
                  && Live(r.heap) == Live(h) - {(ptr, len)} + {(r.ptr, RoundRequest(size))})
  {
    hide Inv, HeapSpec.Malloc, HeapSpec.Free, RoundRequest, Live;
    InvHasMain(h);
    MallocAddsOneBlock(h, size);
    var m := Malloc(h, size);
    if m.Done? && size > 0 {
      InvHasMain(m.heap);
      var b := (m.ptr, RoundRequest(size));
      FreeRemovesOneBlock(m.heap, ptr);
      if ptr != 0 && Free(m.heap, ptr).Done? { FreeStep(m.heap, ptr); }
      forall len | (ptr, len) in Live(m.heap) ensures ptr == m.ptr ==> (ptr, len) == b {
        if ptr == m.ptr { OneBlockAt(m.heap, (ptr, len), b); }
      }
    }
  }

  /** Two blocks at one address are the same block. */
  lemma OneBlockAt(h: Heap, b: (nat, nat), c: (nat, nat))
    requires Inv(h) && b in Live(h) && c in Live(h) && b.0 == c.0
    ensures b == c
  {
    hide Blocks, Good, Books, OnPages, Sum, LiveSum;
    LiveBlocksAreApart(h, b, c);
  }

  /** The states of a run, in which no call stops the kernel. */
  ghost predicate IsRun(h: Heap, ops: seq<Op>, h': Heap)
    decreases |ops|
  {
    && |h.segs| > 0
    && if ops == [] then h' == h
       else Defined(ops[0]) && Step(h, ops[0]).Done? && IsRun(Step(h, ops[0]).heap, ops[1..], h')
  }

  /** No call of the run releases the main segment. */
  predicate SparesMain(top: nat, ops: seq<Op>) {
    forall i | 0 <= i < |ops| && !ops[i].Malloc_? :: ops[i].ptr != top
  }

  lemma {:induction false} EveryRunKeepsInv(heapEnd: nat, supply: nat, ops: seq<Op>, h: Heap)
    requires heapEnd > PAGE && heapEnd % PAGE == 0
    requires IsRun(Init(heapEnd, supply), ops, h) && SparesMain(heapEnd, ops)
    ensures Inv(h)
  {
    InitKeepsInv(heapEnd, supply);
    RunKeepsInv(Init(heapEnd, supply), ops, h);
  }

  lemma {:induction false} RunKeepsInv(h: Heap, ops: seq<Op>, h': Heap)
    requires Inv(h) && IsRun(h, ops, h') && SparesMain(MainPayload(h), ops)
    ensures Inv(h')
    decreases |ops|
  {
    hide Inv, Step;
    if ops != [] {
      StepKeepsInv(h, ops[0]);
      RunKeepsInv(Step(h, ops[0]).heap, ops[1..], h');
    }
  }

  /** The ledger of a reachable heap, spelled out: the free counter exceeds the
      bytes of the free segments by one header for the main segment, one for
      each expansion and one more for each merging expansion. */
  lemma Ledger(h: Heap)
    requires Inv(h)
    ensures h.used + h.freeSize == h.total
    ensures h.used == LiveSum(h.segs[1..])
    ensures h.freeSize == (Sum(h.segs) - LiveSum(h.segs)) + H * (1 + h.expansions + h.merges)
  {
  }
}
