/** Loading the segments of an ELF executable into a new address space
    (System V gABI, chapter 5, Program Header). */
module Loader {
  import opened Basics
  import opened PageTree
  import opened Paging

  const DIRECT: nat := 0xffff_A000_0000_0000   // where physical memory is mapped
  const USERLAND_END: nat := 0x8000_0000_0000
  const PT_LOAD: nat := 1
  const PF_X: nat := 1
  const PF_W: nat := 2

  type Frames = map<nat, seq<Byte>>

  datatype Phdr = Phdr(ptype: nat, flags: nat, offset: nat, vaddr: nat, filesz: nat, memsz: nat) {
    /** Offset of the segment in its first page. */
    function Lead(): nat { vaddr % PAGE }

    function Pages(): nat { (memsz + Lead() + PAGE - 1) / PAGE }

    /** Address of the first page. */
    function Start(base: nat): nat { vaddr - vaddr % PAGE + base }

    /** What byte i of the segment's pages has to be. */
    function ImageByte(file: seq<Byte>, i: nat): Byte
      requires offset + filesz <= |file|
    {
      if Lead() <= i < Lead() + filesz then file[offset + i - Lead()] else 0
    }
  }

  /** The program header describes bytes of the file, and the copy of them stays
      inside the segment's pages. */
  predicate WellFormed(ph: Phdr, size: nat) {
    ph.offset + ph.filesz <= size && ph.Lead() + ph.filesz <= ph.Pages() * PAGE
  }

  predicate InUserland(ph: Phdr, base: nat) {
    base % PAGE == 0 && ph.Start(base) + ph.Pages() * PAGE <= USERLAND_END
  }

  /** Any header with p_filesz <= p_memsz copies inside its pages. */
  lemma MemszCoversFilesz(ph: Phdr)
    requires ph.filesz <= ph.memsz
    ensures ph.Lead() + ph.filesz <= ph.Pages() * PAGE
  {
  }

  // ----- reading memory through the page tables -----

  function ReadByte(t: Tables, data: Frames, root: nat, addr: nat): Option<Byte> {
    var e := Lookup(t, root, PathOf(addr));
    if e.Some? && e.value.ppn in data && |data[e.value.ppn]| == PAGE
    then Some(data[e.value.ppn][addr % PAGE])
    else None
  }

  /** The first `limit` pages of physical memory are mapped at DIRECT. */
  ghost predicate DirectMap(t: Tables, root: nat, limit: nat) {
    forall k: nat | k < limit :: DirectAt(t, root, DIRECT, k)
  }

  /** Page k of the segment is loaded: right frame contents, right permissions. */
  ghost predicate PageLoaded(t: Tables, data: Frames, root: nat, ph: Phdr, file: seq<Byte>, base: nat, k: nat)
    requires ph.offset + ph.filesz <= |file|
  {
    var e := Lookup(t, root, PathOf(PageAt(ph.Start(base), k)));
    && e.Some? && e.value.ppn in data && |data[e.value.ppn]| == PAGE
    && (forall j | 0 <= j < PAGE :: data[e.value.ppn][j] == ph.ImageByte(file, k * PAGE + j))
    && EntryRights(e.value) == SegmentRights(ph)
  }

  /** What the header asks for: user access, writing by bit 1 of the flags, execution
      by bit 0. */
  function SegmentRights(ph: Phdr): Rights { Rights(ph.flags / 2 % 2 == 1, true, ph.flags % 2 == 1) }

  /** No table on the way to a page of `root` takes a right away. */
  ghost predicate Open(t: Tables, root: nat) { forall p :: Above(t, root, p) == ALL }

  /** The pages of the segment have exactly the rights of its header. */
  ghost predicate HasRights(t: Tables, root: nat, ph: Phdr, base: nat) {
    forall k: nat | k < ph.Pages() ::
      PageRights(t, root, PathOf(PageAt(ph.Start(base), k))) == Some(SegmentRights(ph))
  }

  lemma LoadedHasRights(t: Tables, data: Frames, root: nat, ph: Phdr, file: seq<Byte>, base: nat)
    requires SegmentLoaded(t, data, root, ph, file, base) && Open(t, root)
    ensures HasRights(t, root, ph, base)
  {
    hide PathOf, Lookup, Above;
    forall k: nat | k < ph.Pages()
      ensures PageRights(t, root, PathOf(PageAt(ph.Start(base), k))) == Some(SegmentRights(ph))
    {
      assert PageLoaded(t, data, root, ph, file, base, k);
    }
  }

  lemma StaysOpen(t: Tables, o: Owners, t': Tables, root: nat)
    requires SameAbove(t, o, t') && IsRoot(o, root) && Open(t, root)
    ensures Open(t', root)
  {
    hide Above;
  }

  lemma AboveSame(t: Tables, o: Owners)
    ensures SameAbove(t, o, t)
  {
  }

  lemma SameAboveTrans(t: Tables, o: Owners, t1: Tables, o1: Owners, t2: Tables)
    requires SameAbove(t, o, t1) && SameOwners(o, o1) && SameAbove(t1, o1, t2)
    ensures SameAbove(t, o, t2)
  {
    hide Above;
  }

  ghost predicate SegmentLoaded(t: Tables, data: Frames, root: nat, ph: Phdr, file: seq<Byte>, base: nat)
  {
    ph.offset + ph.filesz <= |file| && forall k: nat | k < ph.Pages() :: PageLoaded(t, data, root, ph, file, base, k)
  }

  /** The pages of a segment are those that have a byte of it, and their first byte is
      the address of the header rounded down to its page. */
  lemma SegmentPagesOverlap(ph: Phdr, base: nat, k: nat)
    requires base % PAGE == 0 && ph.memsz > 0
    ensures PageAt(ph.Start(base), 0) <= ph.vaddr + base < PageAt(ph.Start(base), 1)
    ensures k < ph.Pages() <==> PageAt(ph.Start(base), k) < ph.vaddr + base + ph.memsz
  {
    var v, m := ph.vaddr, ph.memsz + ph.vaddr % PAGE;
    assert ph.Start(base) % PAGE == 0;
    assert ph.Start(base) / PAGE * PAGE == ph.Start(base);
    assert PageAt(ph.Start(base), k) == ph.Start(base) + k * PAGE;
    assert k < (m + PAGE - 1) / PAGE <==> k * PAGE < m;
  }

  /** Byte i of the segment, at its own address, is byte i of the file part, and zero
      behind it. */
  lemma SegmentAtItsAddress(t: Tables, data: Frames, root: nat, ph: Phdr, file: seq<Byte>, base: nat, i: nat)
    requires WellFormed(ph, |file|) && base % PAGE == 0 && SegmentLoaded(t, data, root, ph, file, base)
    requires i < ph.memsz
    ensures ReadByte(t, data, root, ph.vaddr + base + i) == Some(if i < ph.filesz then file[ph.offset + i] else 0)
  {
    hide ReadByte, SegmentLoaded;
    SegmentReadsAsFile(t, data, root, ph, file, base, ph.vaddr % PAGE + i);
  }

  lemma {:induction false} SegmentReadsAsFile(t: Tables, data: Frames, root: nat, ph: Phdr, file: seq<Byte>, base: nat,
                                              i: nat)
    requires WellFormed(ph, |file|) && base % PAGE == 0 && SegmentLoaded(t, data, root, ph, file, base)
    requires i < ph.Pages() * PAGE
    ensures ReadByte(t, data, root, ph.Start(base) + i) == Some(ph.ImageByte(file, i))
  {
    hide PathOf, Lookup;
    var k, j := i / PAGE, i % PAGE;
    assert PageLoaded(t, data, root, ph, file, base, k);
    var a := ph.Start(base) + i;
    assert ph.Start(base) % PAGE == 0;
    assert a / PAGE == ph.Start(base) / PAGE + k && a % PAGE == j;
    PathIsPage(a, PageAt(ph.Start(base), k));
  }

  lemma UserPathsDiffer(a: nat, b: nat)
    requires a < USERLAND_END && b < USERLAND_END && a / PAGE != b / PAGE
    ensures PathOf(a) != PathOf(b)
  {
    hide PathOf;
    PathIsPage(a, b);
  }

  lemma UserIsNotDirect(a: nat, k: nat)
    requires a < USERLAND_END && k < PPN_LIMIT
    ensures PathOf(a) != PathOf(PageAt(DIRECT, k))
  {
    hide PathOf;
    PathIsPage(a, PageAt(DIRECT, k));
    assert PageAt(DIRECT, k) / PAGE == DIRECT / PAGE + k;
  }

  // ----- what loading one page changes -----

  ghost predicate SameData(data: Frames, data': Frames) { forall f | f in data :: f in data' && data'[f] == data[f] }

  lemma DirectMapKept(t: Tables, o: Owners, t': Tables, o': Owners, root: nat, current: nat, a: nat, e: Option<Entry>,
                      limit: nat)
    requires Remapped(t, o, t', o', root, PathOf(a), e) && IsRoot(o, current) && a < USERLAND_END
    requires DirectMap(t, current, limit) && limit <= PPN_LIMIT
    ensures DirectMap(t', current, limit)
  {
    hide PathOf, Lookup, LeafTable;
    forall k: nat | k < limit ensures DirectAt(t', current, DIRECT, k) {
      UserIsNotDirect(a, k);
      assert DirectAt(t, current, DIRECT, k);
    }
  }

  lemma DirectFrame(t: Tables, current: nat, limit: nat, f: nat)
    requires DirectMap(t, current, limit) && f < limit <= PPN_LIMIT
    ensures var e := Lookup(t, current, PathOf(DIRECT + f * PAGE)); e.Some? && e.value.ppn == f
  {
    hide PathOf, Lookup;
    assert DirectAt(t, current, DIRECT, f) && DIRECT % PAGE == 0;
  }

  /** Pages loaded earlier stay loaded when another page is mapped and a fresh frame filled. */
  lemma PagesStayLoaded(t: Tables, o: Owners, t': Tables, o': Owners, data: Frames, data': Frames, root: nat,
                        ph: Phdr, file: seq<Byte>, base: nat, a: nat, e: Option<Entry>, k: nat)
    requires WellFormed(ph, |file|) && InUserland(ph, base) && k < ph.Pages()
    requires PageLoaded(t, data, root, ph, file, base, k) && SameData(data, data')
    requires Remapped(t, o, t', o', root, PathOf(a), e) && IsRoot(o, root)
    requires a < USERLAND_END && a / PAGE != PageAt(ph.Start(base), k) / PAGE
    ensures PageLoaded(t', data', root, ph, file, base, k)
  {
    hide PathOf, Lookup, LeafTable;
    UserPathsDiffer(a, PageAt(ph.Start(base), k));
  }

  lemma PageIsLoaded(t: Tables, data: Frames, root: nat, ph: Phdr, file: seq<Byte>, base: nat, buffer: seq<Byte>,
                     i: nat, e: Entry, perms: nat)
    requires WellFormed(ph, |file|) && i < ph.Pages()
    requires |buffer| == ph.Pages() * PAGE && forall j | 0 <= j < |buffer| :: buffer[j] == ph.ImageByte(file, j)
    requires Lookup(t, root, PathOf(PageAt(ph.Start(base), i))) == Some(e) && e == WithPerms(e, perms)
    requires e.ppn in data && data[e.ppn] == buffer[i * PAGE..i * PAGE + PAGE]
    requires Asked(perms) == SegmentRights(ph)
    ensures PageLoaded(t, data, root, ph, file, base, i)
  {
    hide PathOf, Lookup;
    PermsRoundTrip(e, perms);
  }

  /** No page belongs to both segments. */
  predicate PagesApart(x: Phdr, y: Phdr, base: nat) {
    x.Start(base) + x.Pages() * PAGE <= y.Start(base) || y.Start(base) + y.Pages() * PAGE <= x.Start(base)
  }

  lemma SegmentStaysLoaded(t: Tables, t': Tables, data: Frames, data': Frames, root: nat,
                           ph: Phdr, other: Phdr, file: seq<Byte>, base: nat)
    requires WellFormed(ph, |file|) && InUserland(ph, base) && InUserland(other, base) && PagesApart(ph, other, base)
    requires SegmentLoaded(t, data, root, ph, file, base) && SameData(data, data')
    requires OnlyPages(t, t', root, other.Start(base), other.Pages())
    ensures SegmentLoaded(t', data', root, ph, file, base)
  {
    hide PathOf, Lookup;
    forall k: nat | k < ph.Pages() ensures PageLoaded(t', data', root, ph, file, base, k) {
      assert PageLoaded(t, data, root, ph, file, base, k);
      var a := PageAt(ph.Start(base), k);
      forall j: nat | j < other.Pages() ensures PathOf(PageAt(other.Start(base), j)) != PathOf(a) {
        PagesDiffer(ph.Start(base), k, ph.Pages(), other.Start(base), j, other.Pages());
      }
      assert !InPages(other.Start(base), other.Pages(), PathOf(a));
    }
  }

  lemma PagesDiffer(s: nat, k: nat, m: nat, s': nat, j: nat, n: nat)
    requires s % PAGE == 0 && s' % PAGE == 0 && k < m && j < n
    requires s + m * PAGE <= USERLAND_END && s' + n * PAGE <= USERLAND_END
    requires s + m * PAGE <= s' || s' + n * PAGE <= s
    ensures PathOf(PageAt(s', j)) != PathOf(PageAt(s, k))
  {
    hide PathOf;
    UserPathsDiffer(PageAt(s', j), PageAt(s, k));
  }

  // ----- what loading costs -----

  /** The places of the tables that the pages of a segment go through. */
  ghost function SegmentPlaces(root: nat, ph: Phdr, base: nat): set<Slot> {
    if ph.ptype == PT_LOAD then RangePlaces(root, ph.Start(base), ph.Pages()) else {}
  }

  ghost function AllPlaces(root: nat, phs: seq<Phdr>, base: nat): set<Slot> {
    if phs == [] then {} else AllPlaces(root, phs[..|phs| - 1], base) + SegmentPlaces(root, phs[|phs| - 1], base)
  }

  function SegmentPages(ph: Phdr): nat { if ph.ptype == PT_LOAD then ph.Pages() else 0 }

  function AllPages(phs: seq<Phdr>): nat {
    if phs == [] then 0 else AllPages(phs[..|phs| - 1]) + SegmentPages(phs[|phs| - 1])
  }

  /** Frames needed: one for every page, one for every table that is missing. */
  ghost function Cost(t: Tables, root: nat, pages: nat, places: set<Slot>): nat { pages + |Missing(t, root, places)| }

  lemma {:induction false} PlacesOfRoot(root: nat, address: nat, n: nat)
    ensures forall x | x in RangePlaces(root, address, n) :: OfRoot(x, root)
  {
    if n > 0 { PlacesOfRoot(root, address, n - 1); }
  }

  lemma CostOfNothing(t: Tables, root: nat, address: nat)
    ensures Cost(t, root, 0, {}) == 0 && Adds(t, t, root, {}) && RangePlaces(root, address, 0) == {}
  {
    AddsNothing(t, root);
  }

  lemma CostOfPage(t: Tables, root: nat, p: Path)
    ensures Cost(t, root, 1, Places(root, p)) == 1 + |Missing(t, root, Places(root, p))|
  {
  }

  lemma NoPages()
    ensures AllPages([]) == 0
  {
  }

  /** The cost of the first n + 1 pages, with the first n loaded. */
  lemma NextPageCost(t: Tables, t1: Tables, root: nat, address: nat, n: nat)
    requires Adds(t, t1, root, RangePlaces(root, address, n))
    ensures Cost(t, root, n + 1, RangePlaces(root, address, n + 1)) ==
              Cost(t, root, n, RangePlaces(root, address, n)) + 1
            + |Missing(t1, root, Places(root, PathOf(PageAt(address, n))))|
  {
    hide Adds, PathOf, Places;
    OnePageMore(t, t1, root, RangePlaces(root, address, n), PathOf(PageAt(address, n)));
  }

  lemma RangeCostGrows(t: Tables, root: nat, address: nat, m: nat, n: nat)
    requires m <= n
    ensures Cost(t, root, m, RangePlaces(root, address, m)) <= Cost(t, root, n, RangePlaces(root, address, n))
  {
    RangePlacesGrow(root, address, m, n);
    MissingGrows(t, root, RangePlaces(root, address, m), RangePlaces(root, address, n));
  }

  lemma NextSegmentCost(t: Tables, t1: Tables, root: nat, phs: seq<Phdr>, base: nat, n: nat)
    requires n < |phs| && Adds(t, t1, root, AllPlaces(root, phs[..n], base))
    ensures Cost(t, root, AllPages(phs[..n + 1]), AllPlaces(root, phs[..n + 1], base)) ==
              Cost(t, root, AllPages(phs[..n]), AllPlaces(root, phs[..n], base))
            + Cost(t1, root, SegmentPages(phs[n]), SegmentPlaces(root, phs[n], base))
    ensures AllPlaces(root, phs[..n + 1], base) == AllPlaces(root, phs[..n], base) + SegmentPlaces(root, phs[n], base)
  {
    assert phs[..n + 1][..n] == phs[..n];
    PlacesOfRoot(root, phs[n].Start(base), phs[n].Pages());
    MissingSplits(t, t1, root, AllPlaces(root, phs[..n], base), SegmentPlaces(root, phs[n], base));
  }

  lemma {:induction false} AllCostGrows(t: Tables, root: nat, phs: seq<Phdr>, base: nat, m: nat, n: nat)
    requires m <= n <= |phs|
    ensures AllPages(phs[..m]) <= AllPages(phs[..n])
    ensures AllPlaces(root, phs[..m], base) <= AllPlaces(root, phs[..n], base)
    ensures Cost(t, root, AllPages(phs[..m]), AllPlaces(root, phs[..m], base)) <=
            Cost(t, root, AllPages(phs[..n]), AllPlaces(root, phs[..n], base))
    decreases n
  {
    if m < n {
      AllCostGrows(t, root, phs, base, m, n - 1);
      assert phs[..n][..n - 1] == phs[..n - 1];
      MissingGrows(t, root, AllPlaces(root, phs[..m], base), AllPlaces(root, phs[..n], base));
    }
  }

  class Memory {
    const mm: AddressSpaces
    var data: Frames

    ghost predicate Valid()
      reads this, mm, mm.pmm, mm.pmm.bitfield
    {
      && mm.Valid()
      && forall f | f in data :: f in mm.Reserved() && f !in mm.owners && |data[f]| == PAGE
    }

    /** The loader runs in address space `current` and fills `root`; the first
        `limit` pages of physical memory, the bitmap's among them, are mapped. */
    ghost predicate CanLoad(root: nat, current: nat, limit: nat)
      reads this, mm, mm.pmm, mm.pmm.bitfield
    {
      && Valid() && IsRoot(mm.owners, root) && IsRoot(mm.owners, current) && root != current
      && mm.pmm.firstAddr / PAGE + mm.pmm.total < limit <= PPN_LIMIT && DirectMap(mm.tables, current, limit)
    }

    constructor (spaces: AddressSpaces)
      requires spaces.Valid()
      ensures Valid() && mm == spaces && data == map[]
    {
      mm, data := spaces, map[];
    }

    /** Maps a fresh frame, found through the direct map, at a page of `root`.  None
        exactly when there is no frame for the page or for a table above it. */
    method MapFresh(root: nat, current: nat, virt: nat, perms: nat, ghost limit: nat)
      returns (page: Option<nat>, ghost e: Entry)
      requires CanLoad(root, current, limit) && virt % PAGE == 0 && virt < USERLAND_END
      modifies mm`tables, mm`owners, mm.pmm`cursor, mm.pmm.bitfield
      ensures var places := Places(root, PathOf(virt));
              && (page.Some? <==> Cost(old(mm.tables), root, 1, places) <= old(mm.FramesLeft()))
              && (page.Some? ==>
                   && CanLoad(root, current, limit) && Adds(old(mm.tables), mm.tables, root, places)
                   && mm.FramesLeft() == old(mm.FramesLeft()) - Cost(old(mm.tables), root, 1, places))
      ensures page.Some? ==>
                && Remapped(old(mm.tables), old(mm.owners), mm.tables, mm.owners, root, PathOf(virt), Some(e))
                && e.ppn == page.value && e == WithPerms(e, perms)
                && page.value in mm.Reserved() && page.value !in mm.owners && page.value !in data
    {
      hide PathOf, Lookup, LeafTable, Remapped, Trees, AddressSpaces.Reserved, HasBit, DirectMap,
           AddressSpaces.FramesLeft, Adds, Missing, Above, PageRights, Asked, SameAbove;
      e := ZERO;
      page := mm.RequestFrame();
      if page.None? { return; }
      DirectFrame(mm.tables, current, limit, page.value);
      var physical := mm.VirtualToPhysical(current, DIRECT + page.value * PAGE);
      ghost var t, o := mm.tables, mm.owners;
      var ok;
      ok, e := mm.MapMemory(root, virt, physical.value, perms);
      if !ok { return None, e; }
      RemappedFacts(t, o, mm.tables, mm.owners, root, PathOf(virt), Some(e));
      DirectMapKept(t, o, mm.tables, mm.owners, root, current, virt, Some(e), limit);
    }

    /** Loads one page of the segment from the prepared buffer. */
    method LoadPage(root: nat, current: nat, ph: Phdr, file: seq<Byte>, base: nat, buffer: seq<Byte>, i: nat,
                    perms: nat, ghost limit: nat) returns (ok: bool)
      requires CanLoad(root, current, limit)
      requires WellFormed(ph, |file|) && InUserland(ph, base) && i < ph.Pages()
      requires |buffer| == ph.Pages() * PAGE && forall j | 0 <= j < |buffer| :: buffer[j] == ph.ImageByte(file, j)
      requires Asked(perms) == SegmentRights(ph)
      modifies this`data, mm`tables, mm`owners, mm.pmm`cursor, mm.pmm.bitfield
      ensures var places := Places(root, PathOf(PageAt(ph.Start(base), i)));
              && (ok <==> Cost(old(mm.tables), root, 1, places) <= old(mm.FramesLeft()))
              && (ok ==>
                   && CanLoad(root, current, limit) && Adds(old(mm.tables), mm.tables, root, places)
                   && mm.FramesLeft() == old(mm.FramesLeft()) - Cost(old(mm.tables), root, 1, places))
      ensures ok ==>
                && SameOwners(old(mm.owners), mm.owners) && SameData(old(data), data)
                && PageLoaded(mm.tables, data, root, ph, file, base, i)
                && SameAbove(old(mm.tables), old(mm.owners), mm.tables)
                && exists e :: Remapped(old(mm.tables), old(mm.owners), mm.tables, mm.owners, root,
                                        PathOf(PageAt(ph.Start(base), i)), Some(e))
    {
      hide PathOf, Lookup, LeafTable, Remapped, Trees, AddressSpaces.Reserved, DirectMap, AddressSpaces.FramesLeft,
           Adds, Missing, PageLoaded, Above, Asked, SegmentRights, SameAbove, Cost, WithPerms;
      ghost var t, o := mm.tables, mm.owners;
      var page;
      ghost var e;
      page, e := MapFresh(root, current, ph.Start(base) + i * PAGE, perms, limit);
      if page.None? { return false; }
      RemappedFacts(t, o, mm.tables, mm.owners, root, PathOf(PageAt(ph.Start(base), i)), Some(e));
      data := data[page.value := Repeat(0, PAGE)];
      data := data[page.value := buffer[i * PAGE..i * PAGE + PAGE]];
      PageIsLoaded(mm.tables, data, root, ph, file, base, buffer, i, e, perms);
      ok := true;
    }

    /** The pages of a segment, their permissions and their contents. */
    method Prepare(ph: Phdr, file: seq<Byte>) returns (pages: nat, perms: nat, buffer: seq<Byte>)
      requires WellFormed(ph, |file|)
      ensures pages == ph.Pages() && Asked(perms) == SegmentRights(ph)
      ensures |buffer| == pages * PAGE && forall j | 0 <= j < |buffer| :: buffer[j] == ph.ImageByte(file, j)
    {
      var lead := ph.vaddr % PAGE;
      pages := (ph.memsz + lead) / PAGE;
      if (ph.memsz + lead) % PAGE > 0 { pages := pages + 1; }
      perms := USER;
      if HasBit(ph.flags, PF_W) { perms := perms + WRITE; }
      if !HasBit(ph.flags, PF_X) { perms := perms + NO_EXECUTE; }
      buffer := Repeat(0, pages * PAGE);
      buffer := buffer[..lead] + file[ph.offset..ph.offset + ph.filesz] + buffer[lead + ph.filesz..];
    }

    /** Loads one segment: its pages show the file's bytes and zeros elsewhere,
        with the permissions of the header; no other page changes.  It fails
        exactly when there are too few frames for its pages and the tables that
        are missing above them. */
    method AllocateSegment(root: nat, current: nat, ph: Phdr, file: seq<Byte>, base: nat, ghost limit: nat)
      returns (ok: bool)
      requires CanLoad(root, current, limit)
      requires ph.ptype == PT_LOAD ==> WellFormed(ph, |file|) && InUserland(ph, base)
      modifies this`data, mm`tables, mm`owners, mm.pmm`cursor, mm.pmm.bitfield
      ensures var cost := Cost(old(mm.tables), root, SegmentPages(ph), SegmentPlaces(root, ph, base));
              && (ok <==> cost <= old(mm.FramesLeft()))
              && (ok ==>
                   && CanLoad(root, current, limit) && mm.FramesLeft() == old(mm.FramesLeft()) - cost
                   && Adds(old(mm.tables), mm.tables, root, SegmentPlaces(root, ph, base)))
      ensures ok ==> SameOwners(old(mm.owners), mm.owners) && SameData(old(data), data)
      ensures ok ==> SameAbove(old(mm.tables), old(mm.owners), mm.tables)
      ensures ok && ph.ptype == 1 && Open(old(mm.tables), root) ==> HasRights(mm.tables, root, ph, base)
      ensures ok && ph.ptype == 1 ==>
                && SegmentLoaded(mm.tables, data, root, ph, file, base)
                && OnlyPages(old(mm.tables), mm.tables, root, ph.Start(base), ph.Pages())
      ensures ph.ptype != 1 ==> ok && mm.tables == old(mm.tables) && data == old(data)
    {
      hide PathOf, Lookup, LeafTable, Remapped, Trees, AddressSpaces.Reserved, DirectMap, PageLoaded,
           AddressSpaces.FramesLeft, Adds, Missing, Cost, Places, SameAbove, HasRights, Open;
      AboveSame(mm.tables, mm.owners);
      CostOfNothing(mm.tables, root, ph.Start(base));
      if ph.ptype != PT_LOAD { return true; }
      var pages, perms, buffer := Prepare(ph, file);
      hide Asked, SegmentRights;
      for i := 0 to pages
        invariant CanLoad(root, current, limit) && SameOwners(old(mm.owners), mm.owners) && SameData(old(data), data)
        invariant forall k: nat | k < i :: PageLoaded(mm.tables, data, root, ph, file, base, k)
        invariant OnlyPages(old(mm.tables), mm.tables, root, ph.Start(base), i)
        invariant SameAbove(old(mm.tables), old(mm.owners), mm.tables)
        invariant Adds(old(mm.tables), mm.tables, root, RangePlaces(root, ph.Start(base), i))
        invariant mm.FramesLeft() ==
                  old(mm.FramesLeft()) - Cost(old(mm.tables), root, i, RangePlaces(root, ph.Start(base), i))
      {
        ghost var t, o, d := mm.tables, mm.owners, data;
        NextPageCost(old(mm.tables), t, root, ph.Start(base), i);
        RangeCostGrows(old(mm.tables), root, ph.Start(base), i + 1, pages);
        CostOfPage(t, root, PathOf(PageAt(ph.Start(base), i)));
        ok := LoadPage(root, current, ph, file, base, buffer, i, perms, limit);
        if !ok { return; }
        AddsTrans(old(mm.tables), t, mm.tables, root, RangePlaces(root, ph.Start(base), i),
                  Places(root, PathOf(PageAt(ph.Start(base), i))));
        SameAboveTrans(old(mm.tables), old(mm.owners), t, o, mm.tables);
        ghost var e :| Remapped(t, o, mm.tables, mm.owners, root, PathOf(PageAt(ph.Start(base), i)), Some(e));
        OnlyPagesStep(old(mm.tables), t, o, mm.tables, mm.owners, root, ph.Start(base), i, Some(e));
        forall k: nat | k < i + 1 ensures PageLoaded(mm.tables, data, root, ph, file, base, k) {
          if k < i {
            PagesStayLoaded(t, o, mm.tables, mm.owners, d, data, root, ph, file, base, PageAt(ph.Start(base), i),
                            Some(e), k);
          }
        }
      }
      if Open(old(mm.tables), root) {
        StaysOpen(old(mm.tables), old(mm.owners), mm.tables, root);
        LoadedHasRights(mm.tables, data, root, ph, file, base);
      }
      ok := true;
    }

    /** Loads every segment of the program headers: all of them are in place at
        the end, whatever their order.  It fails exactly when the frames do not
        suffice for all pages and all tables missing above them. */
    method LoadSegments(root: nat, current: nat, phs: seq<Phdr>, file: seq<Byte>, base: nat, ghost limit: nat)
      returns (ok: bool)
      requires CanLoad(root, current, limit)
      requires forall i | 0 <= i < |phs| && phs[i].ptype == PT_LOAD ::
                 WellFormed(phs[i], |file|) && InUserland(phs[i], base)
      requires forall i, j | 0 <= i < j < |phs| && phs[i].ptype == PT_LOAD && phs[j].ptype == PT_LOAD ::
                 PagesApart(phs[i], phs[j], base)
      modifies this`data, mm`tables, mm`owners, mm.pmm`cursor, mm.pmm.bitfield
      ensures var cost := Cost(old(mm.tables), root, AllPages(phs), AllPlaces(root, phs, base));
              && (ok <==> cost <= old(mm.FramesLeft()))
              && (ok ==> CanLoad(root, current, limit) && mm.FramesLeft() == old(mm.FramesLeft()) - cost)
      ensures ok ==> SameData(old(data), data)
      ensures ok ==> forall i | 0 <= i < |phs| && phs[i].ptype == PT_LOAD ::
                       SegmentLoaded(mm.tables, data, root, phs[i], file, base)
      ensures ok && Open(old(mm.tables), root) ==>
                forall i | 0 <= i < |phs| && phs[i].ptype == PT_LOAD :: HasRights(mm.tables, root, phs[i], base)
    {
      hide PathOf, Lookup, LeafTable, Remapped, Trees, AddressSpaces.Reserved, DirectMap, SegmentLoaded, WellFormed,
           InUserland, PagesApart, OnlyPages, AddressSpaces.FramesLeft, Adds, Missing, Cost, SegmentPlaces, AllPages,
           SameAbove, HasRights, Open;
      AboveSame(mm.tables, mm.owners);
      CostOfNothing(mm.tables, root, 0);
      assert phs[..0] == [] && phs[..|phs|] == phs;
      assert AllPages([]) == 0 by { NoPages(); }
      for i := 0 to |phs|
        invariant CanLoad(root, current, limit) && SameOwners(old(mm.owners), mm.owners) && SameData(old(data), data)
        invariant Adds(old(mm.tables), mm.tables, root, AllPlaces(root, phs[..i], base))
        invariant SameAbove(old(mm.tables), old(mm.owners), mm.tables)
        invariant mm.FramesLeft() ==
                  old(mm.FramesLeft()) - Cost(old(mm.tables), root, AllPages(phs[..i]), AllPlaces(root, phs[..i], base))
        invariant forall k | 0 <= k < i && phs[k].ptype == PT_LOAD ::
                    SegmentLoaded(mm.tables, data, root, phs[k], file, base)
      {
        ghost var t, o, d := mm.tables, mm.owners, data;
        NextSegmentCost(old(mm.tables), t, root, phs, base, i);
        AllCostGrows(old(mm.tables), root, phs, base, i + 1, |phs|);
        ok := AllocateSegment(root, current, phs[i], file, base, limit);
        if !ok { return; }
        AddsTrans(old(mm.tables), t, mm.tables, root, AllPlaces(root, phs[..i], base),
                  SegmentPlaces(root, phs[i], base));
        SameAboveTrans(old(mm.tables), old(mm.owners), t, o, mm.tables);
        if phs[i].ptype == PT_LOAD {
          forall k | 0 <= k < i && phs[k].ptype == PT_LOAD
            ensures SegmentLoaded(mm.tables, data, root, phs[k], file, base)
          {
            SegmentStaysLoaded(t, mm.tables, d, data, root, phs[k], phs[i], file, base);
          }
        }
      }
      if Open(old(mm.tables), root) {
        StaysOpen(old(mm.tables), old(mm.owners), mm.tables, root);
        forall i | 0 <= i < |phs| && phs[i].ptype == PT_LOAD ensures HasRights(mm.tables, root, phs[i], base) {
          LoadedHasRights(mm.tables, data, root, phs[i], file, base);
        }
      }
      ok := true;
    }
  }
}
