/** The physical page allocator: one bit per page and a cursor that remembers
    where the last search stopped. */
module PageBitmap {
  import opened Basics

  // ----- one byte of the bitfield -----

  function One(k: nat): bv8
    requires k < 8
  {
    (1 as bv8) << k
  }

  function Get(b: bv8, k: nat): bv8
    requires k < 8
  {
    (b & One(k)) >> k
  }

  function Set(b: bv8, k: nat): bv8
    requires k < 8
  {
    b | One(k)
  }

  function Clear(b: bv8, k: nat): bv8
    requires k < 8
  {
    b & !One(k)
  }

  lemma BitValue(b: bv8, k: nat)
    requires k < 8
    ensures Get(b, k) == 0 || Get(b, k) == 1
    ensures Get(0, k) == 0
  {
    if k == 0 {} else if k == 1 {} else if k == 2 {} else if k == 3 {}
    else if k == 4 {} else if k == 5 {} else if k == 6 {} else { assert k == 7; }
  }

  /** Setting or clearing bit k changes what is read at k and nowhere else. */
  lemma ByteBits(b: bv8, k: nat, j: nat)
    requires k < 8 && j < 8
    ensures Get(Set(b, k), j) == if j == k then 1 else Get(b, j)
    ensures Get(Clear(b, k), j) == if j == k then 0 else Get(b, j)
  {
    if k == 0 {} else if k == 1 {} else if k == 2 {} else if k == 3 {}
    else if k == 4 {} else if k == 5 {} else if k == 6 {} else { assert k == 7; }
    if j == 0 {} else if j == 1 {} else if j == 2 {} else if j == 3 {}
    else if j == 4 {} else if j == 5 {} else if j == 6 {} else { assert j == 7; }
  }

  /** Bit of page x in the whole field. */
  function Bit(field: seq<bv8>, x: nat): bv8
    requires x / 8 < |field|
  {
    Get(field[x / 8], x % 8)
  }

  /** Binary digit k of a byte, counted from the lowest one. */
  function Digit(b: bv8, k: nat): bv8
    requires k < 8
  {
    match k
    case 0 => b % 2
    case 1 => b / 2 % 2
    case 2 => b / 4 % 2
    case 3 => b / 8 % 2
    case 4 => b / 16 % 2
    case 5 => b / 32 % 2
    case 6 => b / 64 % 2
    case 7 => b / 128 % 2
  }

  /** Page x is digit x % 8 of byte x / 8. */
  lemma BitIsDigit(field: seq<bv8>, x: nat)
    requires x / 8 < |field|
    ensures Bit(field, x) == Digit(field[x / 8], x % 8)
  {
    hide Get, Digit;
    ByteDigit(field[x / 8], x % 8);
  }

  lemma ByteDigit(b: bv8, k: nat)
    requires k < 8
    ensures Get(b, k) == Digit(b, k)
  {
    if k == 0 {} else if k == 1 {} else if k == 2 {} else if k == 3 {}
    else if k == 4 {} else if k == 5 {} else if k == 6 {} else { assert k == 7; }
  }

  ghost predicate Covers(field: seq<bv8>, total: nat) { total / 8 < |field| }

  ghost function LockedIn(field: seq<bv8>, total: nat): set<nat>
    requires Covers(field, total)
  {
    set x | 0 <= x <= total && Bit(field, x) == 1
  }

  lemma SetPage(field: seq<bv8>, total: nat, x: nat)
    requires Covers(field, total) && x <= total
    ensures LockedIn(field[x / 8 := Set(field[x / 8], x % 8)], total) == LockedIn(field, total) + {x}
    ensures LockedIn(field[x / 8 := Clear(field[x / 8], x % 8)], total) == LockedIn(field, total) - {x}
  {
    hide Get, Set, Clear;
    forall y: nat | y <= total
      ensures Bit(field[x / 8 := Set(field[x / 8], x % 8)], y) == if y == x then 1 else Bit(field, y)
      ensures Bit(field[x / 8 := Clear(field[x / 8], x % 8)], y) == if y == x then 0 else Bit(field, y)
    {
      ByteBits(field[x / 8], x % 8, y % 8);
    }
  }

  // ----- the search -----

  /** The page looked at by the k-th probe of a search that starts at `from`:
      up to the last page, then on from page 1. */
  function Probe(total: nat, from: nat, k: nat): nat {
    if from + k <= total then from + k else from + k - total
  }

  /** From a cursor past page 0, `total` probes look at every page from 1 on
      exactly once. */
  lemma ProbesCover(total: nat, from: nat, x: nat)
    requires 1 <= from <= total && 1 <= x <= total
    ensures exists k :: 0 <= k < total && Probe(total, from, k) == x
    ensures forall j, k | 0 <= j < k < total :: Probe(total, from, j) != Probe(total, from, k)
  {
    var k := if x >= from then x - from else x + total - from;
    assert Probe(total, from, k) == x;
  }

  /** A search upwards from page `from` that ends at page `to` has passed page x. */
  predicate Passed(total: nat, from: nat, to: nat, x: nat) {
    if from <= to then from <= x < to else from <= x <= total || 1 <= x < to
  }

  /** One turn of the search loop at a page whose bit is set: None is a panic.
      `first` is the page before the starting one, modulo 2^64. */
  function Turn(total: nat, first: nat, at: nat): Option<nat> {
    var w := if at >= total then 0 else at;
    if w == first then None else Some(w + 1)
  }

  function First(from: nat): nat { if from == 0 then WORD - 1 else from - 1 }

  /** Where the search stands after n turns, all at pages whose bit is set. */
  function After(total: nat, from: nat, n: nat): Option<nat> {
    if n == 0 then Some(from)
    else
      match After(total, from, n - 1)
      case None => None
      case Some(at) => Turn(total, First(from), at)
  }

  /** A search that starts at page 0 and finds every bit set never ends: after
      any number of turns it has not panicked and stands at a taken page. */
  lemma {:induction false} FullSearchFromZeroNeverEnds(total: nat, locked: set<nat>, n: nat)
    requires 0 < total < WORD && (forall x | 0 <= x <= total :: x in locked)
    ensures After(total, 0, n).Some? && After(total, 0, n).value <= total && After(total, 0, n).value in locked
  {
    if n > 0 { FullSearchFromZeroNeverEnds(total, locked, n - 1); }
  }

  predicate Available(x: nat, total: nat, locked: set<nat>) { x <= total && x !in locked }

  // ----- runs -----

  datatype Event = Request(page: nat) | Release(page: nat)

  function Held(locked: set<nat>, e: Event): set<nat> {
    match e
    case Request(p) => locked + {p}
    case Release(p) => locked - {p}
  }

  /** Each request got a page that was free, each release gave one back; the
      pages of `locked'` are the ones taken at the end. */
  predicate IsRun(locked: set<nat>, events: seq<Event>, locked': set<nat>)
    decreases |events|
  {
    if events == [] then locked' == locked
    else
      && (events[0].Request? <==> events[0].page !in locked)
      && IsRun(Held(locked, events[0]), events[1..], locked')
  }

  lemma RunStarts(locked: set<nat>)
    ensures IsRun(locked, [], locked)
  {
  }

  lemma {:induction false} RunExtends(locked: set<nat>, events: seq<Event>, locked': set<nat>, e: Event)
    requires IsRun(locked, events, locked') && (e.Request? <==> e.page !in locked')
    ensures IsRun(locked, events + [e], Held(locked', e))
    decreases |events|
  {
    if events == [] {
      assert (events + [e])[1..] == [];
    } else {
      RunExtends(Held(locked, events[0]), events[1..], locked', e);
      assert (events + [e])[1..] == events[1..] + [e];
    }
  }

  /** A page handed out at i is not handed out again at j unless it was given
      back in between. */
  ghost predicate BackBetween(events: seq<Event>, i: nat, j: nat) {
    i < j < |events| && events[i].Request? && events[j] == events[i] ==>
      exists m :: i < m < j && events[m] == Release(events[i].page)
  }

  /** No page is handed out twice without being given back in between. */
  lemma {:induction false} NeverHandedOutTwice(locked: set<nat>, events: seq<Event>, locked': set<nat>, i: nat, j: nat)
    requires IsRun(locked, events, locked')
    ensures BackBetween(events, i, j)
    decreases |events|
  {
    if i < j < |events| && events[i].Request? && events[j] == events[i] {
      var p, next := events[i].page, Held(locked, events[0]);
      if i == 0 {
        var m := StaysLocked(next, events[1..], locked', p, j - 1);
        assert events[m + 1] == events[1..][m];
      } else {
        NeverHandedOutTwice(next, events[1..], locked', i - 1, j - 1);
        assert BackBetween(events[1..], i - 1, j - 1);
        var m :| i - 1 < m < j - 1 && events[1..][m] == Release(p);
        assert events[m + 1] == Release(p);
      }
    }
  }

  /** A taken page is requested again only after a release: where that is. */
  lemma {:induction false} StaysLocked(locked: set<nat>, events: seq<Event>, locked': set<nat>, p: nat, j: nat)
    returns (m: nat)
    requires IsRun(locked, events, locked') && p in locked && j < |events| && events[j] == Request(p)
    ensures m < j && events[m] == Release(p)
    decreases |events|
  {
    if events[0] == Release(p) {
      m := 0;
    } else {
      m := StaysLocked(Held(locked, events[0]), events[1..], locked', p, j - 1);
      m := m + 1;
    }
  }

  /** What a caller asks of the allocator. */
  datatype Order = Take | Give(addr: nat)

  class Bitmap {
    const total: nat
    const firstAddr: nat
    const bitfield: array<bv8>
    var cursor: nat

    ghost predicate Valid()
      reads this, bitfield
    {
      Covers(bitfield[..], total) && cursor <= total < WORD
    }

    ghost function Locked(): set<nat>
      requires Covers(bitfield[..], total)
      reads bitfield
    {
      LockedIn(bitfield[..], total)
    }

    constructor (pages: nat, base: nat)
      requires pages < WORD
      ensures Valid() && fresh(bitfield) && total == pages && firstAddr == base && cursor == 0
      ensures Locked() == {}
    {
      total := pages;
      firstAddr := base;
      cursor := 0;
      bitfield := new bv8[pages / 8 + 1](_ => 0);
      new;
      forall x: nat | x <= total ensures Bit(bitfield[..], x) == 0 {
        BitValue(0, x % 8);
      }
    }

    method GetPageBit(x: nat) returns (b: bv8)
      requires Valid() && x <= total
      ensures b == if x in Locked() then 1 else 0
    {
      b := Get(bitfield[x / 8], x % 8);
      BitValue(bitfield[x / 8], x % 8);
      assert b == Bit(bitfield[..], x);
    }

    /** False is a panic: page out of range or already taken. */
    method LockPage(x: nat) returns (ok: bool)
      requires Valid()
      modifies bitfield
      ensures Valid() && ok == (x <= total && x !in old(Locked()))
      ensures Locked() == if ok then old(Locked()) + {x} else old(Locked())
    {
      if x > total { return false; }
      var bit := GetPageBit(x);
      if bit == 1 { return false; }
      SetPage(bitfield[..], total, x);
      ghost var field := bitfield[..];
      bitfield[x / 8] := Set(bitfield[x / 8], x % 8);
      assert bitfield[..] == field[x / 8 := Set(field[x / 8], x % 8)];
      ok := true;
    }

    /** False is a panic: page out of range or not taken. */
    method UnlockPage(x: nat) returns (ok: bool)
      requires Valid()
      modifies bitfield
      ensures Valid() && ok == (x <= total && x in old(Locked()))
      ensures Locked() == if ok then old(Locked()) - {x} else old(Locked())
    {
      if x > total { return false; }
      var bit := GetPageBit(x);
      if bit == 0 { return false; }
      SetPage(bitfield[..], total, x);
      ghost var field := bitfield[..];
      bitfield[x / 8] := Clear(bitfield[x / 8], x % 8);
      assert bitfield[..] == field[x / 8 := Clear(field[x / 8], x % 8)];
      ok := true;
    }

    /** The pages from `low` on that are not taken. */
    ghost function FreeFrom(low: nat): set<nat>
      requires Covers(bitfield[..], total)
      reads bitfield
    {
      set x | low <= x <= total && x !in Locked()
    }

    /** Finds the first free page in probing order.  None is a panic, and it
        happens exactly when every page from 1 on is taken.  No page is looked at
        twice, whether the search succeeds or not. */
    method RequestPage() returns (addr: Option<nat>, ghost probes: nat)
      requires Valid()
      requires cursor >= 1 || FreeFrom(0) != {}
      modifies this`cursor, bitfield
      ensures Valid()
      ensures addr.None? <==> old(cursor) >= 1 && old(FreeFrom(1)) == {}
      ensures addr.None? ==> Locked() == old(Locked()) && probes == total
      ensures addr.Some? ==>
                && cursor !in old(Locked()) && Locked() == old(Locked()) + {cursor}
                && addr.value == firstAddr + cursor * PAGE
                && 1 <= probes <= total + 1 && (old(cursor) >= 1 ==> probes <= total && cursor >= 1)
                && cursor == Probe(total, old(cursor), probes - 1)
                && forall j | 0 <= j < probes - 1 :: Probe(total, old(cursor), j) in old(Locked())
      ensures addr.Some? ==> forall x: nat | Passed(total, old(cursor), cursor, x) :: x in old(Locked())
    {
      hide LockedIn;
      var from := cursor;
      var first := First(from);
      var bit := GetPageBit(cursor);
      probes := 1;
      ghost var someFree: nat;
      if from == 0 { someFree :| someFree in FreeFrom(0); }
      while bit == 1
        invariant 1 <= probes <= total + 1 && cursor == Probe(total, from, probes - 1) && cursor <= total
        invariant bitfield[..] == old(bitfield[..])
        invariant from >= 1 ==> probes <= total
        invariant bit == if cursor in Locked() then 1 else 0
        invariant forall j | 0 <= j < probes - 1 :: Probe(total, from, j) in Locked()
        decreases total - probes
      {
        assert from == 0 ==> someFree == Probe(total, from, someFree) && someFree !in Locked();
        if cursor >= total { cursor := 0; }
        if cursor == first {
          assert from >= 1 && probes == total;
          forall x | 1 <= x <= total ensures x in old(Locked()) {
            ProbesCover(total, from, x);
            var j :| 0 <= j < total && Probe(total, from, j) == x;
          }
          return None, probes;
        }
        cursor := cursor + 1;
        probes := probes + 1;
        bit := GetPageBit(cursor);
      }
      assert from >= 1 ==> cursor in FreeFrom(1);
      var ok := LockPage(cursor);
      addr := Some(firstAddr + cursor * PAGE);
      forall x: nat | Passed(total, from, cursor, x) ensures x in old(Locked()) {
        assert Probe(total, from, if x >= from then x - from else x + total - from) == x;
      }
    }

    /** False is a panic. */
    method FreePage(addr: nat) returns (ok: bool)
      requires Valid()
      modifies bitfield
      ensures Valid()
      ensures var x := (addr - firstAddr) / PAGE; ok == (addr >= firstAddr && x <= total && x in old(Locked()))
      ensures Locked() == if ok then old(Locked()) - {(addr - firstAddr) / PAGE} else old(Locked())
    {
      if addr < firstAddr { return false; }
      ok := UnlockPage((addr - firstAddr) / PAGE);
    }

    /** Marks `pages` pages from `start` on; stops with a panic at the first one
        that is out of range or taken already. */
    method ReservePages(start: nat, pages: nat) returns (ok: bool)
      requires Valid()
      modifies bitfield
      ensures Valid()
      ensures ok == forall x | start <= x < start + pages :: Available(x, total, old(Locked()))
      ensures ok ==> forall x :: x in Locked() <==> x in old(Locked()) || start <= x < start + pages
    {
      for i := 0 to pages
        invariant Valid()
        invariant forall x | start <= x < start + i :: Available(x, total, old(Locked()))
        invariant forall x :: x in Locked() <==> x in old(Locked()) || start <= x < start + i
      {
        ok := LockPage(start + i);
        if !ok {
          assert !Available(start + i, total, old(Locked()));
          return;
        }
      }
      ok := true;
    }

    /** The event with which the allocator meets an order. */
    ghost predicate Meets(order: Order, e: Event) {
      match order
      case Take => e.Request?
      case Give(addr) => addr >= firstAddr && e == Release((addr - firstAddr) / PAGE)
    }

    /** Carries out one order; None is a panic. */
    method ServeOne(order: Order) returns (e: Option<Event>)
      requires Valid() && (cursor >= 1 || FreeFrom(0) != {})
      modifies this`cursor, bitfield
      ensures Valid() && (e.None? <==> (order.Take? ==> old(cursor) >= 1) && Fails(order, old(Locked())))
      ensures Locked() == if e.None? then old(Locked()) else Held(old(Locked()), e.value)
      ensures e.Some? ==> Meets(order, e.value) && (e.value.Request? <==> e.value.page !in old(Locked()))
      ensures e.Some? ==> (if old(cursor) >= 1 then cursor >= 1 else |FreeFrom(0)| >= |old(FreeFrom(0))| - 1)
    {
      hide LockedIn;
      ghost var free := FreeFrom(0);
      assert FreeFrom(1) == {} <==> Fails(Take, Locked()) by {
        assert forall x | 1 <= x <= total :: x in Locked() || x in FreeFrom(1);
      }
      match order
      case Take =>
        var got;
        ghost var probes;
        got, probes := RequestPage();
        if got.None? { return None; }
        e := Some(Request(cursor));
        assert FreeFrom(0) == free - {cursor};
      case Give(addr) =>
        var ok := FreePage(addr);
        if !ok { return None; }
        e := Some(Release((addr - firstAddr) / PAGE));
        assert FreeFrom(0) == free + {e.value.page};
    }

    /** The order panics: nothing left to take, or a page given back that is not taken. */
    ghost predicate Fails(order: Order, locked: set<nat>) {
      match order
      case Take => forall x | 1 <= x <= total :: x in locked
      case Give(addr) => addr < firstAddr || (addr - firstAddr) / PAGE > total || (addr - firstAddr) / PAGE !in locked
    }

    /** Carries out the orders of any number of callers, in turn, up to the first
        panic.  Whatever they order, no page is handed out twice without being
        given back in between. */
    method Serve(orders: seq<Order>) returns (events: seq<Event>)
      requires Valid() && (cursor >= 1 || |orders| <= |FreeFrom(0)|)
      modifies this`cursor, bitfield
      ensures Valid() && |events| <= |orders|
      ensures forall i | 0 <= i < |events| :: Meets(orders[i], events[i])
      ensures IsRun(old(Locked()), events, Locked())
      ensures forall i, j :: BackBetween(events, i, j)
      ensures |events| < |orders| ==> Fails(orders[|events|], Locked())
    {
      hide LockedIn, IsRun, Meets, BackBetween, FreeFrom;
      events := [];
      assert IsRun(Locked(), [], Locked()) by { RunStarts(Locked()); }
      while |events| < |orders|
        invariant Valid() && |events| <= |orders| && (cursor >= 1 || |orders| - |events| <= |FreeFrom(0)|)
        invariant forall i | 0 <= i < |events| :: Meets(orders[i], events[i])
        invariant IsRun(old(Locked()), events, Locked())
        decreases |orders| - |events|
      {
        ghost var before := Locked();
        var e := ServeOne(orders[|events|]);
        if e.None? { break; }
        RunExtends(old(Locked()), events, before, e.value);
        events := events + [e.value];
      }
      forall i: nat, j: nat ensures BackBetween(events, i, j) {
        NeverHandedOutTwice(old(Locked()), events, Locked(), i, j);
      }
    }
  }
}
