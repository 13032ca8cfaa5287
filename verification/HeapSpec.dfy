/** The kernel heap seen as a list of segments, without its pointers.

    A heap is the list of its segments from the highest address (the main
    segment) down to the lowest one (the last segment).  The operations below
    are the ones of the allocator written on that list: first fit, split at the
    high end, three-way coalescing, growth downwards by whole pages.  The class
    in `KernelHeap` performs the same operations on linked headers. */
module HeapSpec {
  import opened Basics

  const H: nat := 48                // size of a segment header
  const MAX_REQUEST: nat := WORD - PAGE - H

  datatype Segment = Segment(addr: nat, length: nat, free: bool) {
    function End(): nat { addr + H + length }
    function Size(): nat { length + H }
  }

  /** `merges` counts the expansions that merged with a free last segment and
      `expansions` all of them; the allocator keeps neither, but its counters
      drift by H for each.  `supply` is the number of pages it can still get. */
  datatype Heap = Heap(segs: seq<Segment>, used: int, freeSize: int, total: int,
                       merges: nat, expansions: nat, supply: nat)

  datatype Outcome = Done(heap: Heap, ptr: nat) | Panic

  // ----- 64-bit request arithmetic -----

  function RoundRequest(size: nat): nat {
    if size % 16 > 0 then (size - size % 16 + 16) % WORD else size
  }

  function ExpandLength(size: nat): nat {
    var l := (size + H) % WORD;
    if l % PAGE > 0 then (l - l % PAGE + PAGE) % WORD else l
  }

  /** The two round-ups and the two additions a request goes through stay
      within 64 bits for every size up to MAX_REQUEST and for no other. */
  lemma RequestArithmeticIsExact(size: nat)
    requires size < WORD
    ensures size <= MAX_REQUEST <==>
            (size <= RoundRequest(size) && RoundRequest(size) + H <= ExpandLength(RoundRequest(size)))
    ensures size <= MAX_REQUEST ==> RoundRequest(size) % 16 == 0 && RoundRequest(size) < size + 16
    ensures size <= MAX_REQUEST ==> ExpandLength(RoundRequest(size)) < RoundRequest(size) + H + PAGE
    ensures ExpandLength(RoundRequest(size)) % PAGE == 0
  {
    var r := RoundRequest(size);
    RoundRequestBounds(size);
    ExpandLengthBounds(r);
  }

  /** Sizes above MAX_REQUEST.  Up to 2^64 - 48 the expansion maps nothing at all.
      From 2^64 - 63 on the sum with the header has wrapped to less than a header,
      so that the test for a fit passes where nothing fits.  Above 2^64 - 16 the
      request itself becomes 0. */
  lemma RequestArithmeticWraps(size: nat)
    requires MAX_REQUEST < size < WORD
    ensures size > WORD - 16 <==> RoundRequest(size) == 0
    ensures ExpandLength(RoundRequest(size)) == if size > WORD - H then PAGE else 0
    ensures size <= WORD - 16 ==> ((RoundRequest(size) + H) % WORD < H <==> size > WORD - H - 16)
  {
    RoundRequestBounds(size);
    if size <= WORD - 16 {
      RoundRequestNear(size);
      ExpandLengthOfBand(RoundRequest(size));
    }
  }

  lemma RoundRequestNear(size: nat)
    requires size <= WORD - 16
    ensures RoundRequest(size) >= WORD - H <==> size > WORD - H - 16
    ensures RoundRequest(size) > WORD - H <==> size > WORD - H
  {
    assert WORD == 16 * 0x1000_0000_0000_0000 && H == 16 * 3;
  }

  lemma ExpandLengthOfBand(r: nat)
    requires MAX_REQUEST < r <= WORD - 16 && r % 16 == 0
    ensures ExpandLength(r) == if r > WORD - H then PAGE else 0
    ensures (r + H) % WORD == if r >= WORD - H then r + H - WORD else r + H
  {
    assert WORD == PAGE * 0x10_0000_0000_0000;
    if r + H < WORD {
      assert (r + H) / PAGE == 0xF_FFFF_FFFF_FFFF;
    }
  }

  /** A segment that passes the wrapped test would be split past its own end: the
      new header reaches over it, into the neighbour above. */
  lemma WrappedSplitOverruns(g: Segment, r: nat)
    requires WORD - H <= r < WORD && g.length > (r + H) % WORD && g.End() + H < WORD
    ensures var n := (g.addr + g.length + WORD - r) % WORD;
            g.addr < n <= g.End() < n + H
  {
  }

  lemma RoundRequestBounds(size: nat)
    requires size < WORD
    ensures RoundRequest(size) % 16 == 0
    ensures size <= WORD - 16 ==> size <= RoundRequest(size) < size + 16 && RoundRequest(size) < WORD
    ensures size > WORD - 16 ==> RoundRequest(size) == 0
    ensures size <= MAX_REQUEST <==> size == 0 || 0 < RoundRequest(size) <= MAX_REQUEST
  {
    assert WORD == 16 * 0x1000_0000_0000_0000 && MAX_REQUEST % 16 == 0;
  }

  /** Rounding up to whole pages. */
  lemma PageUp(l: nat)
    requires l < WORD
    ensures var e := if l % PAGE > 0 then (l - l % PAGE + PAGE) % WORD else l;
            && e % PAGE == 0
            && if l <= WORD - PAGE then l <= e < l + PAGE else e == 0
  {
    assert WORD == PAGE * 0x10_0000_0000_0000;
    var q, r := l / PAGE, l % PAGE;
    assert l == q * PAGE + r && l - r + PAGE == (q + 1) * PAGE;
    if l > WORD - PAGE { assert q == 0xF_FFFF_FFFF_FFFF; }
  }

  lemma ExpandLengthBounds(size: nat)
    requires size < WORD && size % 16 == 0
    ensures ExpandLength(size) % PAGE == 0
    ensures size + H <= ExpandLength(size) <==> size <= MAX_REQUEST
    ensures size <= MAX_REQUEST ==> ExpandLength(size) < size + H + PAGE
  {
    var l := (size + H) % WORD;
    assert l == if size + H < WORD then size + H else size + H - WORD;
    PageUp(l);
  }

  // ----- the invariant -----

  /** `low` is the segment right below `high`. */
  predicate Neighbours(high: Segment, low: Segment) {
    low.End() <= high.addr && !(high.free && low.free)
  }

  predicate GoodAt(segs: seq<Segment>, i: int) {
    0 < i < |segs| ==> Neighbours(segs[i - 1], segs[i])
  }

  ghost predicate Good(segs: seq<Segment>) { forall i :: GoodAt(segs, i) }

  predicate Aligned(g: Segment) { g.addr % 16 == 0 && g.length % 16 == 0 }

  ghost predicate AllAligned(segs: seq<Segment>) {
    forall i | 0 <= i < |segs| :: Aligned(segs[i])
  }

  function Sum(segs: seq<Segment>): nat {
    if segs == [] then 0 else segs[0].Size() + Sum(segs[1..])
  }

  function LiveSum(segs: seq<Segment>): nat {
    if segs == [] then 0 else (if segs[0].free then 0 else segs[0].Size()) + LiveSum(segs[1..])
  }

  /** The blocks handed out: payload address and length of every segment in use. */
  function Blocks(segs: seq<Segment>): set<(nat, nat)> {
    if segs == [] then {}
    else (if segs[0].free then {} else {(segs[0].addr + H, segs[0].length)}) + Blocks(segs[1..])
  }

  /** The main segment is not a block a client can hold. */
  function Live(h: Heap): set<(nat, nat)>
    requires |h.segs| > 0
  {
    Blocks(h.segs[1..])
  }

  /** Strictly descending, no overlap, no two free neighbours; the main segment
      is first, empty and never free. */
  ghost predicate Shape(segs: seq<Segment>) {
    && |segs| >= 2
    && Good(segs)
    && segs[0].length == 0 && !segs[0].free
    && segs[|segs| - 1].addr > 0
  }

  ghost predicate OnPages(segs: seq<Segment>) {
    AllAligned(segs) && |segs| > 0 && segs[|segs| - 1].addr % PAGE == 0
  }

  /** The counters, and the bytes mapped from the lowest header to the top. */
  ghost predicate Books(h: Heap) {
    && |h.segs| > 0
    && h.used + h.freeSize == h.total
    && h.used == LiveSum(h.segs) - H
    && h.segs[0].End() - h.segs[|h.segs| - 1].addr == Sum(h.segs) + H * h.merges
    && h.total == h.segs[0].End() - h.segs[|h.segs| - 1].addr + H * h.expansions
  }

  ghost predicate Inv(h: Heap) { Shape(h.segs) && OnPages(h.segs) && Books(h) }

  // ----- the operations -----

  function Init(heapEnd: nat, supply: nat): Heap
    requires heapEnd > PAGE
  {
    Heap([Segment(heapEnd - H, 0, false), Segment(heapEnd - PAGE, PAGE - 2 * H, true)],
         0, PAGE, PAGE, 0, 0, supply)
  }

  predicate Fits(g: Segment, size: nat) {
    g.free && (g.length > size + H || g.length == size)
  }

  function FirstFit(segs: seq<Segment>, size: nat, from: nat): (i: nat)
    requires from <= |segs|
    ensures from <= i <= |segs|
    ensures i < |segs| ==> Fits(segs[i], size)
    ensures forall j | from <= j < i :: !Fits(segs[j], size)
    decreases |segs| - from
  {
    if from == |segs| then from
    else if Fits(segs[from], size) then from
    else FirstFit(segs, size, from + 1)
  }

  /** What segment `g` becomes when a block of `size` is cut from it. */
  function Cut(g: Segment, size: nat): (r: seq<Segment>)
    requires Fits(g, size)
    ensures |r| > 0 && r[0].length == size && !r[0].free
  {
    if g.length > size + H
    then [Segment(g.addr + g.length - size, size, false), g.(length := g.length - size - H)]
    else [g.(free := false)]
  }

  function Take(h: Heap, i: nat, size: nat): Outcome
    requires i < |h.segs| && Fits(h.segs[i], size)
  {
    var cut := Cut(h.segs[i], size);
    Done(h.(segs := h.segs[..i] + cut + h.segs[i + 1..],
            used := h.used + size + H, freeSize := h.freeSize - size - H),
         cut[0].addr + H)
  }

  /** `l` bytes of fresh pages can be mapped below the heap. */
  predicate CanExpand(h: Heap, l: nat)
    requires |h.segs| > 0
  {
    l / PAGE <= h.supply && l < h.segs[|h.segs| - 1].addr
  }

  predicate Merges(segs: seq<Segment>) { |segs| > 1 && segs[|segs| - 1].free }

  /** The list after `l` more bytes were mapped below it: a free last segment is
      replaced by a larger one, which is one header short of the new space. */
  function Extended(segs: seq<Segment>, l: nat): seq<Segment>
    requires |segs| > 0 && H <= l < segs[|segs| - 1].addr
  {
    var last := segs[|segs| - 1];
    if Merges(segs)
    then segs[..|segs| - 1] + [Segment(last.addr - l, last.length + l - H, true)]
    else segs + [Segment(last.addr - l, l - H, true)]
  }

  function Expand(h: Heap, l: nat): Heap
    requires |h.segs| > 0 && CanExpand(h, l) && l >= H
  {
    h.(segs := Extended(h.segs, l), total := h.total + l + H, freeSize := h.freeSize + l + H,
       merges := if Merges(h.segs) then h.merges + 1 else h.merges,
       expansions := h.expansions + 1, supply := h.supply - l / PAGE)
  }

  /** Look for a fit; when there is none, map `l` more bytes and start over. */
  function Allocate(h: Heap, size: nat, l: nat): Outcome
    requires |h.segs| > 0 && l >= PAGE
    decreases h.supply
  {
    var i := FirstFit(h.segs, size, 0);
    if i < |h.segs| then Take(h, i, size)
    else if !CanExpand(h, l) then Panic
    else Allocate(Expand(h, l), size, l)
  }

  /** A request that wrapped to 0: a block of no bytes, or, when nothing is free,
      one more page and no block. */
  function AllocateNothing(h: Heap): Outcome
    requires |h.segs| > 0
  {
    var i := FirstFit(h.segs, 0, 0);
    if i < |h.segs| then Take(h, i, 0)
    else if !CanExpand(h, PAGE) then Panic
    else Done(Expand(h, PAGE), 0)
  }

  /** The sizes outside the band in which the expansion arithmetic breaks down. */
  predicate Served(size: nat) { size <= MAX_REQUEST || WORD - 16 < size < WORD }

  function Malloc(h: Heap, size: nat): Outcome
    requires |h.segs| > 0 && Served(size)
  {
    RequestArithmeticIsExact(size);
    if size == 0 then Done(h, 0)
    else if size > WORD - 16 then AllocateNothing(h)
    else Allocate(h, RoundRequest(size), ExpandLength(RoundRequest(size)))
  }

  /** Index of the segment whose payload starts at `ptr`, or the list length. */
  function Find(segs: seq<Segment>, ptr: nat, from: nat): (i: nat)
    requires from <= |segs|
    ensures from <= i <= |segs|
    ensures i < |segs| ==> segs[i].addr + H == ptr
    ensures forall j | from <= j < i :: segs[j].addr + H != ptr
    decreases |segs| - from
  {
    if from == |segs| then from
    else if segs[from].addr + H == ptr then from
    else Find(segs, ptr, from + 1)
  }

  /** The free neighbours of segment `i`, if any, are the one listed before it
      (at the higher address) and the one listed after it. */
  function High(segs: seq<Segment>, i: nat): (hi: nat)
    ensures hi <= i
  {
    if 0 < i <= |segs| && segs[i - 1].free then i - 1 else i
  }

  function Low(segs: seq<Segment>, i: nat): (lo: nat)
    requires i < |segs|
    ensures i <= lo < |segs|
  {
    if i + 1 < |segs| && segs[i + 1].free then i + 1 else i
  }

  /** Segments hi..lo become one free segment at the lowest header. */
  function Joined(segs: seq<Segment>, hi: nat, lo: nat): seq<Segment>
    requires hi <= lo < |segs|
  {
    segs[..hi] + [Segment(segs[lo].addr, Sum(segs[hi..lo + 1]) - H, true)] + segs[lo + 1..]
  }

  /** Segment `i` becomes free together with its free neighbours. */
  function Released(segs: seq<Segment>, i: nat): seq<Segment>
    requires i < |segs|
  {
    Joined(segs, High(segs, i), Low(segs, i))
  }

  /** Merging the main segment with a free one below it goes through the null
      `last` of the main header, which stops the kernel like a panic. */
  function Free(h: Heap, ptr: nat): Outcome
    requires |h.segs| > 0
  {
    if ptr == 0 then Done(h, 0)
    else
      var i := Find(h.segs, ptr, 0);
      if i == |h.segs| || h.segs[i].free || (i == 0 && Low(h.segs, i) > i) then Panic
      else Done(h.(segs := Released(h.segs, i),
                   used := h.used - h.segs[i].Size(),
                   freeSize := h.freeSize + h.segs[i].Size()), 0)
  }
}
