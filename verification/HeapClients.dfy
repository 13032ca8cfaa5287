/** The heap under clients that use their memory: whatever is allocated, freed,
    resized and written, a client reads back what it wrote into its own blocks. */
module HeapClients {
  import opened Basics
  import opened HeapSpec
  import opened HeapLaws
  import opened HeapMemory

  datatype Request = Call(op: Op) | Put(at: nat, data: seq<Byte>)

  predicate Inside(blk: (nat, nat), x: nat) { blk.0 <= x < blk.0 + blk.1 }

  /** x belongs to the block in use at ptr. */
  ghost predicate Holds(h: Heap, ptr: nat, x: nat)
    requires |h.segs| > 0
  {
    exists blk :: blk in Live(h) && blk.0 == ptr && Inside(blk, x)
  }

  /** A realloc of an address that belonged to nobody before the call, and that its
      own malloc then hands out. */
  predicate Dangling(h: Heap, op: Op)
    requires |h.segs| > 0 && Defined(op)
  {
    op.Realloc_? && op.ptr != 0 && Malloc(h, op.size).Done? && Malloc(h, op.size).ptr == op.ptr
  }

  /** A client writes only inside a block in use, nobody releases the main segment
      and nobody resizes a dangling address. */
  ghost predicate Fair(h: Heap, r: Request)
    requires |h.segs| > 0
  {
    match r
    case Call(op) => Defined(op) && !FreesMain(h, op) && !Dangling(h, op)
    case Put(at, data) => exists blk :: blk in Live(h) && blk.0 <= at && at + |data| <= blk.0 + blk.1
  }

  ghost function After(h: Heap, r: Request): Outcome
    requires |h.segs| > 0 && Fair(h, r)
  {
    match r
    case Call(op) => Step(h, op)
    case Put(_, _) => Done(h, 0)
  }

  // ----- what clients know -----

  /** The bytes a client has written and still owns, by address. */
  type Known = map<nat, Byte>

  ghost function Forget(h: Heap, k: Known, ptr: nat): Known
    requires |h.segs| > 0
  {
    map x | x in k && !Holds(h, ptr, x) :: k[x]
  }

  /** The first `size` bytes of the block at ptr, as they stand at q. */
  ghost function Shifted(h: Heap, k: Known, ptr: nat, q: nat, size: nat): (m: Known)
    requires |h.segs| > 0
    ensures forall y: nat :: y in m <==> q <= y < q + size && Holds(h, ptr, ptr + y - q) && ptr + y - q in k
    ensures forall y: nat | y in m :: m[y] == k[ptr + y - q]
  {
    if size == 0 then map[]
    else
      var m := Shifted(h, k, ptr, q, size - 1);
      var x := ptr + size - 1;
      if Holds(h, ptr, x) && x in k then m[q + size - 1 := k[x]] else m
  }

  ghost function Learn(h: Heap, k: Known, r: Request): Known
    requires |h.segs| > 0 && Fair(h, r) && After(h, r).Done?
  {
    match r
    case Put(at, data) => k + Spread(at, data)
    case Call(Malloc_(_)) => k
    case Call(Free_(ptr)) => Forget(h, k, ptr)
    case Call(Realloc_(ptr, size)) =>
      if size == 0 then k else Forget(h, k, ptr) + Shifted(h, k, ptr, After(h, r).ptr, size)
  }

  /** Clients know only bytes of blocks in use ... */
  ghost predicate Owned(h: Heap, k: Known)
    requires |h.segs| > 0
  {
    forall x | x in k :: exists blk :: blk in Live(h) && Inside(blk, x)
  }

  /** ... and what they know is in memory. */
  ghost predicate Agrees(b: map<nat, Byte>, k: Known) { forall x | x in k :: x in b && b[x] == k[x] }

  // ----- one request -----

  /** What realloc returns is in use unless the address was dangling: then the new
      block is the one that is released. */
  lemma ResizedIsLiveIff(h: Heap, ptr: nat, size: nat)
    requires Inv(h) && 0 < size <= MAX_REQUEST && ptr != MainPayload(h) && Step(h, Realloc_(ptr, size)).Done?
    ensures var r := Step(h, Realloc_(ptr, size));
            && |r.heap.segs| > 0 && r.ptr != 0
            && ((exists len :: (r.ptr, len) in Live(r.heap)) <==> !Dangling(h, Realloc_(ptr, size)))
            && (!Dangling(h, Realloc_(ptr, size)) ==> exists len :: len >= size && (r.ptr, len) in Live(r.heap))
            && (forall b | b in Live(h) :: b in Live(r.heap) || b.0 == ptr)
  {
    hide Inv, HeapSpec.Malloc, HeapSpec.Free, RoundRequest, Live;
    InvHasMain(h);
    ReallocStep(h, ptr, size);
    MallocAddsOneBlock(h, size);
    var m := Malloc(h, size);
    InvHasMain(m.heap);
    FreeRemovesOneBlock(m.heap, ptr);
    var b := (m.ptr, RoundRequest(size));
    assert b in Live(m.heap);
    if ptr == m.ptr {
      forall len | (ptr, len) in Live(m.heap) ensures (ptr, len) == b { OneBlockAt(m.heap, (ptr, len), b); }
    }
  }

  /** A call keeps the blocks it does not release. */
  lemma BlocksAfter(h: Heap, op: Op)
    requires Inv(h) && Defined(op) && !FreesMain(h, op) && Step(h, op).Done?
    ensures var r := Step(h, op);
            && Inv(r.heap)
            && (forall b | b in Live(h) :: b in Live(r.heap) || (!op.Malloc_? && b.0 == op.ptr))
            && (op.Realloc_? && op.size == 0 ==> r == Done(h, 0))
  {
    hide Inv, HeapSpec.Malloc, HeapSpec.Free, RoundRequest, Live;
    StepKeepsInv(h, op);
    InvHasMain(h);
    match op
    case Malloc_(size) => MallocAddsOneBlock(h, size);
    case Free_(ptr) => FreeRemovesOneBlock(h, ptr);
    case Realloc_(ptr, size) =>
      MallocAddsOneBlock(h, size);
      if size > 0 { ResizedIsLiveIff(h, ptr, size); }
  }

  /** What clients know stays inside the blocks in use. */
  lemma OwnedAfter(h: Heap, k: Known, r: Request)
    requires Inv(h) && Fair(h, r) && After(h, r).Done? && Owned(h, k)
    ensures Inv(After(h, r).heap) && |After(h, r).heap.segs| > 0 && Owned(After(h, r).heap, Learn(h, k, r))
  {
    hide Inv, HeapLaws.Step, Live;
    InvHasMain(h);
    var h', k' := After(h, r).heap, Learn(h, k, r);
    if r.Call? {
      BlocksAfter(h, r.op);
      InvHasMain(h');
      if r.op.Realloc_? && r.op.size > 0 { ResizedIsLiveIff(h, r.op.ptr, r.op.size); }
    }
    forall x | x in k' ensures exists blk :: blk in Live(h') && Inside(blk, x) {
      OwnedByte(h, k, r, x);
    }
  }

  lemma OwnedByte(h: Heap, k: Known, r: Request, x: nat)
    requires |h.segs| > 0 && Fair(h, r) && After(h, r).Done? && Owned(h, k)
    requires var h' := After(h, r).heap;
             && |h'.segs| > 0
             && (forall b | b in Live(h) :: b in Live(h') || (r.Call? && !r.op.Malloc_? && b.0 == r.op.ptr))
             && (r.Call? && r.op.Realloc_? && r.op.size == 0 ==> h' == h)
             && (r.Call? && r.op.Realloc_? && r.op.size > 0 ==>
                   exists len :: len >= r.op.size && (After(h, r).ptr, len) in Live(h'))
    requires x in Learn(h, k, r)
    ensures exists blk :: blk in Live(After(h, r).heap) && Inside(blk, x)
  {
    hide HeapLaws.Step, Live;
    var h' := After(h, r).heap;
    match r
    case Put(at, data) =>
      if x in k {
      } else {
        var blk :| blk in Live(h) && blk.0 <= at && at + |data| <= blk.0 + blk.1;
        assert Inside(blk, x);
      }
    case Call(op) =>
      if x in k && (op.Malloc_? || !Holds(h, op.ptr, x) || (op.Realloc_? && op.size == 0)) {
        var blk :| blk in Live(h) && Inside(blk, x);
        assert blk in Live(h');
      } else {
        var len :| len >= op.size && (After(h, r).ptr, len) in Live(h');
        assert Inside((After(h, r).ptr, len), x);
      }
  }

  // ----- memory agrees with what clients know -----

  lemma KeptAgrees(h: Heap, b: map<nat, Byte>, b': map<nat, Byte>, k: Known)
    requires |h.segs| > 0 && Owned(h, k) && Agrees(b, k) && PayloadKept(b, b', Live(h))
    ensures Agrees(b', k)
  {
    hide Live;
    forall x | x in k ensures x in b' && b'[x] == k[x] {
      var blk :| blk in Live(h) && Inside(blk, x);
      assert SameByte(b, b', x);
    }
  }

  lemma WrittenAgrees(b: map<nat, Byte>, b': map<nat, Byte>, k: Known, at: nat, data: seq<Byte>)
    requires Agrees(b, k) && Written(b, b', at, data)
    ensures Agrees(b', k + Spread(at, data))
  {
    forall x | x in k + Spread(at, data) ensures x in b' && b'[x] == (k + Spread(at, data))[x] {
      if at <= x < at + |data| {
        assert at + (x - at) in b' && b'[at + (x - at)] == data[x - at];
      } else {
        assert SameByte(b, b', x);
      }
    }
  }

  lemma MovedAgrees(h: Heap, b: map<nat, Byte>, b': map<nat, Byte>, k: Known, o: (nat, nat), q: nat, size: nat)
    requires Inv(h) && o in Live(h) && Owned(h, k) && Agrees(b, k) && Moved(b, b', Live(h), o, q, size)
    ensures Agrees(b', Forget(h, k, o.0) + Shifted(h, k, o.0, q, size))
  {
    hide Inv, Live, Holds, Moved, Owned, Shifted, Agrees;
    InvHasMain(h);
    var f, m := Forget(h, k, o.0), Shifted(h, k, o.0, q, size);
    forall x | x in f + m ensures x in b' && b'[x] == (f + m)[x] {
      if x in m {
        assert x in b' && b'[x] == m[x] by { MovedByte(h, b, b', k, o, q, size, x); }
      } else {
        StayingByte(h, b, b', k, o, q, size, x);
      }
    }
    assert Agrees(b', f + m) by { AllAgree(b', f + m); }
  }

  lemma AllAgree(b: map<nat, Byte>, k: Known)
    requires forall x | x in k :: x in b && b[x] == k[x]
    ensures Agrees(b, k)
  {
  }

  lemma MovedByte(h: Heap, b: map<nat, Byte>, b': map<nat, Byte>, k: Known, o: (nat, nat), q: nat, size: nat, x: nat)
    requires Inv(h) && o in Live(h) && Agrees(b, k) && Moved(b, b', Live(h), o, q, size)
    requires q <= x < q + size && Holds(h, o.0, o.0 + x - q) && o.0 + x - q in k
    ensures x in b' && b'[x] == k[o.0 + x - q]
  {
    hide Inv, Live;
    InvHasMain(h);
    var blk :| blk in Live(h) && blk.0 == o.0 && Inside(blk, o.0 + x - q);
    OneBlockAt(h, blk, o);
    assert CopiedByte(b, b', q, o.0, x - q);
  }

  lemma StayingByte(h: Heap, b: map<nat, Byte>, b': map<nat, Byte>, k: Known, o: (nat, nat), q: nat, size: nat, x: nat)
    requires Inv(h) && o in Live(h) && Owned(h, k) && Agrees(b, k) && Moved(b, b', Live(h), o, q, size)
    requires x in k && !Holds(h, o.0, x)
    ensures x in b' && b'[x] == k[x]
  {
    hide Inv, Live;
    InvHasMain(h);
    var blk :| blk in Live(h) && Inside(blk, x);
    assert blk in Live(h) - {o} && SameByte(b, b', x);
  }

  /** A realloc that succeeds had a block to resize. */
  lemma ResizesOwnBlock(h: Heap, ptr: nat, size: nat) returns (len: nat)
    requires Inv(h) && 0 < size <= MAX_REQUEST && ptr != 0 && Step(h, Realloc_(ptr, size)).Done?
    requires ptr != MainPayload(h) && !Dangling(h, Realloc_(ptr, size))
    ensures (ptr, len) in Live(h)
  {
    hide Inv, HeapSpec.Malloc, HeapSpec.Free, RoundRequest, Live;
    InvHasMain(h);
    ReallocStep(h, ptr, size);
    MallocAddsOneBlock(h, size);
    var m := Malloc(h, size);
    InvHasMain(m.heap);
    FreeRemovesOneBlock(m.heap, ptr);
    len :| (ptr, len) in Live(m.heap);
  }

  /** One request.  False means that the kernel panics. */
  method ServeOne(heap: KernelHeap, r: Request, ghost k: Known) returns (ok: bool)
    requires heap.Valid() && Fair(heap.view, r) && Owned(heap.view, k) && Agrees(heap.bytes, k)
    modifies heap
    ensures ok == After(old(heap.view), r).Done?
    ensures ok ==> heap.Valid() && heap.view == After(old(heap.view), r).heap
    ensures ok ==> Agrees(heap.bytes, Learn(old(heap.view), k, r))
  {
    hide Linked, OthersAreFree, Inv, Live, Owned, Agrees, Moved, PayloadKept, HeapSpec.Malloc, HeapSpec.Free, Forget;
    ghost var h, b := heap.view, heap.bytes;
    InvHasMain(h);
    match r
    case Put(at, data) =>
      ghost var blk :| blk in Live(h) && blk.0 <= at && at + |data| <= blk.0 + blk.1;
      heap.Write(at, data, blk);
      WrittenAgrees(b, heap.bytes, k, at, data);
      ok := true;
    case Call(Malloc_(size)) =>
      var p;
      ok, p := heap.Malloc(size);
      if ok { KeptAgrees(h, b, heap.bytes, k); }
    case Call(Free_(ptr)) =>
      ok := heap.Free(ptr);
      if ok {
        KeptAgrees(h, b, heap.bytes, k);
        ForgetAgrees(h, heap.bytes, k, ptr);
      }
    case Call(Realloc_(ptr, size)) =>
      var p;
      ok, p := heap.Realloc(ptr, size);
      if ok && size > 0 {
        if ptr == 0 {
          KeptAgrees(h, b, heap.bytes, k);
          NothingAtNull(h, k, p, size);
        } else {
          ghost var len := ResizesOwnBlock(h, ptr, size);
          MovedAgrees(h, b, heap.bytes, k, (ptr, len), p, size);
        }
      }
  }

  lemma ForgetAgrees(h: Heap, b: map<nat, Byte>, k: Known, ptr: nat)
    requires |h.segs| > 0 && Agrees(b, k)
    ensures Agrees(b, Forget(h, k, ptr))
  {
  }

  lemma NothingAtNull(h: Heap, k: Known, q: nat, size: nat)
    requires Inv(h)
    ensures |h.segs| > 0 && Forget(h, k, 0) + Shifted(h, k, 0, q, size) == k
  {
    hide Inv, Live;
    InvHasMain(h);
    NoNullBlock(h);
    assert forall x: nat :: !Holds(h, 0, x);
  }

  // ----- whole runs -----

  ghost predicate AllFair(h: Heap, reqs: seq<Request>)
    decreases |reqs|
  {
    && |h.segs| > 0
    && (reqs != [] ==> Fair(h, reqs[0]) && (After(h, reqs[0]).Done? ==> AllFair(After(h, reqs[0]).heap, reqs[1..])))
  }

  ghost function Final(h: Heap, reqs: seq<Request>): Outcome
    requires AllFair(h, reqs)
    decreases |reqs|
  {
    if reqs == [] then Done(h, 0)
    else match After(h, reqs[0]) case Panic => Panic case Done(h', _) => Final(h', reqs[1..])
  }

  ghost function Remembered(h: Heap, k: Known, reqs: seq<Request>): Known
    requires AllFair(h, reqs) && Final(h, reqs).Done?
    decreases |reqs|
  {
    if reqs == [] then k else Remembered(After(h, reqs[0]).heap, Learn(h, k, reqs[0]), reqs[1..])
  }

  /** Whatever the clients do with the heap and with their blocks, the heap stays
      sound and every byte that they wrote and still own is in memory. */
  method Serve(heap: KernelHeap, reqs: seq<Request>) returns (ok: bool)
    requires heap.Valid() && AllFair(heap.view, reqs)
    modifies heap
    ensures ok == Final(old(heap.view), reqs).Done?
    ensures ok ==> heap.Valid() && heap.view == Final(old(heap.view), reqs).heap
    ensures ok ==> Agrees(heap.bytes, Remembered(old(heap.view), map[], reqs))
  {
    hide Linked, OthersAreFree, Inv, Live, Fair, After, Learn;
    ghost var k: Known := map[];
    ghost var h := heap.view;
    for i := 0 to |reqs|
      invariant heap.Valid() && AllFair(heap.view, reqs[i..]) && Owned(heap.view, k) && Agrees(heap.bytes, k)
      invariant Final(heap.view, reqs[i..]) == Final(h, reqs)
      invariant Final(h, reqs).Done? ==> Remembered(heap.view, k, reqs[i..]) == Remembered(h, map[], reqs)
    {
      ghost var h1 := heap.view;
      assert reqs[i..][0] == reqs[i] && reqs[i..][1..] == reqs[i + 1..];
      ok := ServeOne(heap, reqs[i], k);
      if !ok { return; }
      OwnedAfter(h1, k, reqs[i]);
      k := Learn(h1, k, reqs[i]);
    }
    ok := true;
  }

  /** The request writes to x or gives up its block. */
  ghost predicate Touches(h: Heap, r: Request, x: nat)
    requires |h.segs| > 0
  {
    match r
    case Put(at, data) => at <= x < at + |data|
    case Call(Malloc_(_)) => false
    case Call(Free_(ptr)) => Holds(h, ptr, x)
    case Call(Realloc_(ptr, size)) => size > 0 && Holds(h, ptr, x)
  }

  ghost predicate LeftAlone(h: Heap, reqs: seq<Request>, x: nat)
    requires AllFair(h, reqs)
    decreases |reqs|
  {
    reqs == [] ||
    (!Touches(h, reqs[0], x) && (After(h, reqs[0]).Done? ==> LeftAlone(After(h, reqs[0]).heap, reqs[1..], x)))
  }

  lemma StepRemembers(h: Heap, k: Known, r: Request, x: nat)
    requires Inv(h) && Fair(h, r) && After(h, r).Done? && Owned(h, k) && x in k && !Touches(h, r, x)
    ensures x in Learn(h, k, r) && Learn(h, k, r)[x] == k[x]
  {
    hide Inv, HeapLaws.Step, Live, Dangling;
    InvHasMain(h);
    if r.Call? && r.op.Realloc_? && r.op.size > 0 {
      var h', q, size := After(h, r).heap, After(h, r).ptr, r.op.size;
      BlocksAfter(h, r.op);
      InvHasMain(h');
      ResizedIsLiveIff(h, r.op.ptr, size);
      NewIsApart(h, r.op.ptr, size, k, x);
    }
  }

  lemma NewIsApart(h: Heap, ptr: nat, size: nat, k: Known, x: nat)
    requires Inv(h) && 0 < size <= MAX_REQUEST && ptr != MainPayload(h) && Step(h, Realloc_(ptr, size)).Done?
    requires Owned(h, k) && x in k
    ensures var q := Step(h, Realloc_(ptr, size)).ptr; !(q <= x < q + size)
  {
    hide Inv, HeapSpec.Malloc, HeapSpec.Free, RoundRequest, Live;
    InvHasMain(h);
    ReallocStep(h, ptr, size);
    MallocAddsOneBlock(h, size);
    var m := Malloc(h, size);
    InvHasMain(m.heap);
    var blk :| blk in Live(h) && Inside(blk, x);
    LiveBlocksAreApart(m.heap, blk, (m.ptr, RoundRequest(size)));
  }

  /** What a client wrote stays there until it is written again or its block goes. */
  lemma {:induction false} WrittenStays(h: Heap, k: Known, reqs: seq<Request>, x: nat)
    requires Inv(h) && AllFair(h, reqs) && Final(h, reqs).Done? && Owned(h, k) && x in k && LeftAlone(h, reqs, x)
    ensures x in Remembered(h, k, reqs) && Remembered(h, k, reqs)[x] == k[x]
    decreases |reqs|
  {
    hide Inv, After, Learn, Fair, Touches;
    if reqs != [] {
      StepRemembers(h, k, reqs[0], x);
      OwnedAfter(h, k, reqs[0]);
      WrittenStays(After(h, reqs[0]).heap, Learn(h, k, reqs[0]), reqs[1..], x);
    }
  }

  /** A client reads back what it wrote. */
  lemma ReadsBack(h: Heap, k: Known, at: nat, data: seq<Byte>, reqs: seq<Request>, i: nat)
    requires Inv(h) && Owned(h, k) && i < |data| && AllFair(h, [Put(at, data)] + reqs)
    requires Final(h, [Put(at, data)] + reqs).Done? && AllFair(h, reqs) && LeftAlone(h, reqs, at + i)
    ensures var m := Remembered(h, k, [Put(at, data)] + reqs); at + i in m && m[at + i] == data[i]
  {
    hide Inv, Fair, Touches, LeftAlone;
    var all := [Put(at, data)] + reqs;
    assert all[1..] == reqs;
    OwnedAfter(h, k, Put(at, data));
    WrittenStays(h, k + Spread(at, data), reqs, at + i);
  }

  /** What a client wrote into a block moves along when the block is resized. */
  lemma PrefixMoves(h: Heap, k: Known, r: Request, k': Known, q: nat, i: nat)
    requires Inv(h) && |h.segs| > 0 && Fair(h, r) && After(h, r).Done?
    requires k' == Learn(h, k, r) && q == After(h, r).ptr && r.Call? && r.op.Realloc_?
    requires i < r.op.size && Holds(h, r.op.ptr, r.op.ptr + i) && r.op.ptr + i in k
    ensures q + i in k' && k'[q + i] == k[r.op.ptr + i]
  {
    hide Inv, HeapLaws.Step, Live, Holds, Shifted;
  }
}
