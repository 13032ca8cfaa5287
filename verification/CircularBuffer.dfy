/** A byte buffer that overwrites its oldest contents: offsets into an array,
    which stand for a bounded queue. */
module CircularBuffer {
  import opened Basics

  // ----- the queue it stands for -----

  /** The last n bytes of s. */
  function Last(s: seq<Byte>, n: nat): (r: seq<Byte>)
    ensures |r| <= n
  {
    if |s| <= n then s else s[|s| - n..]
  }

  function First(s: seq<Byte>, n: nat): seq<Byte> {
    if |s| <= n then s else s[..n]
  }

  /** What stays when there is no room is the end of the bytes, and what comes out
      first is their beginning, as much as there is. */
  lemma LastAndFirst(s: seq<Byte>, n: nat)
    ensures var l, f := Last(s, n), First(s, n);
            && |l| == |f| == (if |s| <= n then |s| else n)
            && s[|s| - |l|..] == l && s[..|f|] == f
  {
  }

  /** Pushing twice is pushing once. */
  lemma PushesAddUp(q: seq<Byte>, a: seq<Byte>, b: seq<Byte>, n: nat)
    ensures Last(Last(q + a, n) + b, n) == Last(q + (a + b), n)
  {
    var s := q + a;
    assert q + (a + b) == s + b;
    if |s| > n { DropThenAppend(s, |s| - n, b, n); }
  }

  function PushAll(q: seq<Byte>, chunks: seq<seq<Byte>>, n: nat): seq<Byte>
    decreases |chunks|
  {
    if |chunks| == 0 then q else PushAll(Last(q + chunks[0], n), chunks[1..], n)
  }

  /** After any run of pushes the buffer holds the last n bytes of everything
      ever pushed, however it was cut up. */
  lemma {:induction false} LastOfAll(q: seq<Byte>, chunks: seq<seq<Byte>>, n: nat)
    requires |q| <= n
    ensures PushAll(q, chunks, n) == Last(q + Flatten(chunks), n)
    decreases |chunks|
  {
    if |chunks| == 0 {
      assert q + [] == q;
    } else {
      LastOfAll(Last(q + chunks[0], n), chunks[1..], n);
      PushesAddUp(q, chunks[0], Flatten(chunks[1..]), n);
    }
  }

  lemma DropThenAppend(s: seq<Byte>, k: nat, b: seq<Byte>, n: nat)
    requires k + n == |s|
    ensures Last(s[k..] + b, n) == Last(s + b, n)
  {
    assert (s[k..] + b)[|b|..] == (s + b)[k + |b|..];
  }

  /** What was pushed into a buffer with room for it comes out again, behind
      what was there. */
  lemma PopsWhatWasPushed(q: seq<Byte>, a: seq<Byte>, n: nat)
    requires |q| + |a| <= n
    ensures First(Last(q + a, n), |q|) == q && Last(q + a, n)[|q|..] == a
  {
  }

  /** The bytes at offsets from, from + 1, ... of the ring, `count` of them. */
  function Ring(data: seq<Byte>, from: nat, count: nat): (r: seq<Byte>)
    requires from < |data| && count <= |data|
    ensures |r| == count
  {
    if from + count <= |data| then data[from..from + count]
    else data[from..] + data[..from + count - |data|]
  }

  function Wrap(n: nat, i: nat): nat { if i < n then i else i - n }

  /** Writing w round the ring, from offset `at` on. */
  function Written(data: seq<Byte>, at: nat, w: seq<Byte>): (r: seq<Byte>)
    requires at <= |data| && |w| <= |data|
    ensures |r| == |data|
  {
    if at + |w| <= |data| then data[..at] + w + data[at + |w|..]
    else w[|data| - at..] + data[at + |w| - |data|..at] + w[..|data| - at]
  }

  function Spliced(data: seq<Byte>, at: nat, src: seq<Byte>): (r: seq<Byte>)
    requires at + |src| <= |data|
    ensures |r| == |data|
  {
    data[..at] + src + data[at + |src|..]
  }

  lemma WrittenAt(data: seq<Byte>, at: nat, w: seq<Byte>, i: nat)
    requires at <= |data| && |w| <= |data| && i < |data|
    ensures Written(data, at, w)[i] == if Gap(|data|, at, i) < |w| then w[Gap(|data|, at, i)] else data[i]
  {
  }

  /** The way round the ring from `at` to i. */
  function Gap(n: nat, at: nat, i: nat): nat
    requires at <= n
  {
    if i >= at then i - at else i + n - at
  }

  /** How many of the oldest bytes make room when `more` bytes join `count`. */
  function Dropped(n: nat, count: nat, more: nat): nat { if count + more > n then count + more - n else 0 }

  /** Where the contents end. */
  function End(n: nat, from: nat, count: nat): nat { if from + count <= n then from + count else from + count - n }

  lemma RingPosition(n: nat, from: nat, count: nat, more: nat, i: nat)
    requires from < n && count <= n && more <= n && i < count + more - Dropped(n, count, more)
    ensures var over := Dropped(n, count, more);
            var pos := Wrap(n, Wrap(n, from + over) + i);
            && Wrap(n, from + over) < n && pos < n && End(n, from, count) <= n && count + more - over <= n
            && if over + i < count then pos == Wrap(n, from + over + i) && Gap(n, End(n, from, count), pos) >= more
               else Gap(n, End(n, from, count), pos) == over + i - count < more
  {
  }

  lemma RingAfterWriteAt(data: seq<Byte>, from: nat, count: nat, w: seq<Byte>, r: seq<Byte>, over: nat, i: nat)
    requires from < |data| && count <= |data| && |w| <= |data|
    requires over == Dropped(|data|, count, |w|) && i < count + |w| - over
    requires End(|data|, from, count) <= |data| && Wrap(|data|, from + over) < |data|
    requires r == Ring(Written(data, End(|data|, from, count), w), Wrap(|data|, from + over), count + |w| - over)
    ensures r[i] == (Ring(data, from, count) + w)[over + i]
  {
    var n := |data|;
    hide Ring, Written, Wrap, End, Gap, Dropped;
    RingPosition(n, from, count, |w|, i);
    RingIs(Written(data, End(n, from, count), w), Wrap(n, from + over), count + |w| - over, i);
    WrittenAt(data, End(n, from, count), w, Wrap(n, Wrap(n, from + over) + i));
    if over + i < count { RingIs(data, from, count, over + i); }
  }

  /** The ring after a write behind its contents: `count` bytes from `from` were
      there, the new head leaves the last |data| bytes of old and new. */
  lemma RingAfterWrite(data: seq<Byte>, from: nat, count: nat, w: seq<Byte>, over: nat)
    requires from < |data| && count <= |data| && |w| <= |data|
    requires over == Dropped(|data|, count, |w|)
    ensures Wrap(|data|, from + over) < |data| && End(|data|, from, count) <= |data|
    ensures Ring(Written(data, End(|data|, from, count), w), Wrap(|data|, from + over), count + |w| - over)
              == Last(Ring(data, from, count) + w, |data|)
  {
    var n := |data|;
    var r := Ring(Written(data, End(n, from, count), w), Wrap(n, from + over), count + |w| - over);
    var c := Ring(data, from, count) + w;
    assert Last(c, n) == c[over..];
    hide Ring, Written, Wrap, End, Dropped, Last;
    forall i | 0 <= i < |r| ensures r[i] == c[over..][i] {
      RingAfterWriteAt(data, from, count, w, r, over, i);
    }
  }

  lemma RingIs(data: seq<Byte>, from: nat, count: nat, i: nat)
    requires from < |data| && count <= |data| && i < count && Wrap(|data|, from + i) < |data|
    ensures Ring(data, from, count)[i] == data[Wrap(|data|, from + i)]
  {
  }

  class Buffer {
    const size: nat
    const buffer: array<Byte>
    var dataSize: int
    var tailOffset: int
    var headOffset: int

    ghost predicate Valid()
      reads this, buffer
    {
      && buffer.Length == size
      && if dataSize == 0 then tailOffset == -1 && (headOffset == -1 || (size == 0 && headOffset == 0))
         else
           && 0 <= headOffset < size && 0 <= tailOffset < size
           && dataSize == if headOffset <= tailOffset then tailOffset - headOffset + 1
                          else size - (headOffset - tailOffset - 1)
    }

    ghost function Contents(): seq<Byte>
      requires Valid()
      reads this, buffer
    {
      if dataSize == 0 then [] else Ring(buffer[..], headOffset, dataSize)
    }

    constructor (capacity: nat)
      ensures Valid() && size == capacity && Contents() == [] && fresh(buffer)
    {
      size := capacity;
      buffer := new Byte[capacity](_ => 0);
      headOffset, tailOffset, dataSize := -1, -1, 0;
    }

    method Reset()
      requires Valid()
      modifies this
      ensures Valid() && Contents() == []
    {
      headOffset := -1;
      tailOffset := -1;
      dataSize := 0;
    }

    /** memcpy into the array. */
    method Copy(at: nat, src: seq<Byte>)
      requires at + |src| <= buffer.Length
      modifies buffer
      ensures buffer[..] == Spliced(old(buffer[..]), at, src)
    {
      for k := 0 to |src|
        invariant buffer[..] == old(buffer[..at]) + src[..k] + old(buffer[at + k..])
      {
        buffer[at + k] := src[k];
      }
    }

    /** Writes behind the contents, round the end of the array where need be, and
        says whether the head was overrun. */
    method Place(w: seq<Byte>) returns (resetHead: bool)
      requires Valid() && |w| <= size && (|w| == 0 ==> size == 0)
      modifies this`tailOffset, buffer
      ensures buffer[..] == Written(old(buffer[..]), old(tailOffset) + 1, w)
      ensures tailOffset == if old(tailOffset) + |w| < size then old(tailOffset) + |w| else old(tailOffset) + |w| - size
      ensures resetHead <==> Dropped(size, dataSize, |w|) > 0
    {
      hide Written, Spliced;
      var n := |w|;
      ghost var data := buffer[..];
      resetHead := false;
      if tailOffset + n < size {
        Copy(tailOffset + 1, w);
        WrittenOnce(data, tailOffset + 1, w);
        if tailOffset < headOffset && tailOffset + n >= headOffset { resetHead := true; }
        tailOffset := tailOffset + n;
      } else {
        var remain := size - tailOffset - 1;
        Copy(tailOffset + 1, w[..remain]);
        var cover := n - remain;
        Copy(0, w[remain..]);
        WrittenTwice(data, tailOffset + 1, w, remain);
        if tailOffset < headOffset {
          resetHead := true;
        } else if cover > headOffset {
          resetHead := true;
        }
        tailOffset := cover - 1;
      }
    }

    /** Copies the first n bytes out, in one or two pieces. */
    method CopyOut(n: nat) returns (out: seq<Byte>)
      requires Valid() && 0 < n <= dataSize
      ensures out == Ring(buffer[..], headOffset, n)
    {
      RingSpan(buffer[..], headOffset, n);
      hide Ring;
      if headOffset <= tailOffset {
        out := buffer[headOffset..headOffset + n];
      } else if headOffset + n <= size {
        out := buffer[headOffset..headOffset + n];
      } else {
        var first := size - headOffset;
        out := buffer[headOffset..headOffset + first];
        var second := n - first;
        out := out + buffer[..second];
      }
    }

    /** Moves the head past n bytes; an emptied buffer starts afresh. */
    method Advance(n: nat)
      requires Valid() && 0 < n <= dataSize
      modifies this
      ensures Valid() && dataSize == old(dataSize) - n
      ensures dataSize > 0 ==> headOffset == Wrap(size, old(headOffset) + n)
    {
      if headOffset <= tailOffset {
        headOffset := headOffset + n;
        if headOffset > tailOffset {
          headOffset := -1;
          tailOffset := -1;
        }
      } else if headOffset + n <= size {
        headOffset := headOffset + n;
        if headOffset == size { headOffset := 0; }
      } else {
        headOffset := n - (size - headOffset);
        if headOffset > tailOffset {
          headOffset := -1;
          tailOffset := -1;
        }
      }
      dataSize := dataSize - n;
    }

    /** The oldest bytes, at most `length` of them; a pop also takes them out. */
    method Take(length: nat, resetHead: bool) returns (out: seq<Byte>)
      requires Valid()
      modifies this
      ensures Valid() && out == First(old(Contents()), length)
      ensures Contents() == if resetHead then old(Contents())[|out|..] else old(Contents())
    {
      hide Ring, First, Wrap;
      ghost var c := Contents();
      if dataSize == 0 || length == 0 { TakeNothing(c, length); return []; }
      var n := length;
      if dataSize < n { n := dataSize; }
      TakeSplits(buffer[..], headOffset, dataSize, length, n);
      out := CopyOut(n);
      assert out == First(c, length);
      if resetHead {
        Advance(n);
        assert Contents() == c[n..];
      }
    }

    method Pop(length: nat) returns (out: seq<Byte>)
      requires Valid()
      modifies this
      ensures Valid() && out == First(old(Contents()), length) && Contents() == old(Contents())[|out|..]
    {
      out := Take(length, true);
    }

    method Read(length: nat) returns (out: seq<Byte>)
      requires Valid()
      modifies this
      ensures Valid() && out == First(Contents(), length) && Contents() == old(Contents())
    {
      out := Take(length, false);
    }

    /** Appends the bytes; when they do not fit, the oldest bytes make room. */
    method Push(src: seq<Byte>)
      requires Valid()
      modifies this, buffer
      ensures Valid() && Contents() == Last(old(Contents()) + src, size)
    {
      hide Ring, Written, Last;
      if |src| == 0 { PushNothing(Contents(), src, size); return; }
      var w := src;
      if |w| > size {
        w := src[|src| - size..];
      }
      ghost var data := buffer[..];
      ghost var from := if dataSize == 0 then 0 else headOffset;
      ghost var over := Dropped(size, dataSize, |w|);
      PushFits(Contents(), src, w, size);
      var resetHead := Place(w);
      if size > 0 {
        RingAfterWrite(data, from, dataSize, w, over);
        RingOfNothing(data, from);
      }
      if headOffset == -1 { headOffset := 0; }
      if resetHead {
        if tailOffset + 1 < size { headOffset := tailOffset + 1; } else { headOffset := 0; }
        dataSize := size;
      } else if tailOffset >= headOffset {
        dataSize := tailOffset - headOffset + 1;
      } else {
        dataSize := size - (headOffset - tailOffset - 1);
      }
      assert size > 0 ==> headOffset == Wrap(size, from + over) && dataSize == old(dataSize) + |w| - over;
    }
  }

  lemma TakeNothing(c: seq<Byte>, length: nat)
    requires |c| == 0 || length == 0
    ensures First(c, length) == [] && c[0..] == c
  {
  }

  lemma TakeSplits(data: seq<Byte>, from: nat, count: nat, length: nat, k: nat)
    requires from < |data| && count <= |data| && k == if count < length then count else length
    ensures First(Ring(data, from, count), length) == Ring(data, from, k)
    ensures Ring(data, from, count)[k..] == Ring(data, Wrap(|data|, from + k), count - k)
  {
    hide Ring;
    RingFront(data, from, count, k);
    RingBack(data, from, count, k);
  }

  lemma RingFront(data: seq<Byte>, from: nat, count: nat, k: nat)
    requires from < |data| && k <= count <= |data|
    ensures Ring(data, from, count)[..k] == Ring(data, from, k)
  {
    hide Ring;
    forall i | 0 <= i < k ensures Ring(data, from, count)[i] == Ring(data, from, k)[i] {
      RingIs(data, from, count, i);
      RingIs(data, from, k, i);
    }
  }

  lemma RingBack(data: seq<Byte>, from: nat, count: nat, k: nat)
    requires from < |data| && k <= count <= |data|
    ensures Wrap(|data|, from + k) < |data|
    ensures Ring(data, from, count)[k..] == Ring(data, Wrap(|data|, from + k), count - k)
  {
    hide Ring;
    forall i | 0 <= i < count - k
      ensures Ring(data, from, count)[k..][i] == Ring(data, Wrap(|data|, from + k), count - k)[i]
    {
      RingIs(data, from, count, k + i);
      RingIs(data, Wrap(|data|, from + k), count - k, i);
    }
  }

  lemma RingSpan(data: seq<Byte>, from: nat, count: nat)
    requires from < |data| && count <= |data|
    ensures from + count <= |data| ==> Ring(data, from, count) == data[from..from + count]
    ensures from + count > |data| ==>
              Ring(data, from, count) == data[from..from + (|data| - from)] + data[..from + count - |data|]
  {
  }

  lemma RingOfNothing(data: seq<Byte>, from: nat)
    requires from < |data|
    ensures Ring(data, from, 0) == []
  {
  }

  lemma PushNothing(q: seq<Byte>, src: seq<Byte>, n: nat)
    requires |src| == 0 && |q| <= n
    ensures Last(q + src, n) == q
  {
  }

  /** Dropping what cannot fit beforehand makes no difference. */
  lemma PushFits(q: seq<Byte>, src: seq<Byte>, w: seq<Byte>, n: nat)
    requires w == (if |src| > n then src[|src| - n..] else src)
    ensures Last(q + w, n) == Last(q + src, n)
  {
  }

  lemma WrittenOnce(data: seq<Byte>, at: nat, w: seq<Byte>)
    requires at + |w| <= |data|
    ensures Spliced(data, at, w) == Written(data, at, w)
  {
  }

  lemma WrittenTwice(data: seq<Byte>, at: nat, w: seq<Byte>, r: nat)
    requires at + r == |data| && r <= |w| <= |data|
    ensures Spliced(Spliced(data, at, w[..r]), 0, w[r..]) == Written(data, at, w)
  {
  }
}
