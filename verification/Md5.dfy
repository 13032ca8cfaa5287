/** The streaming form of MD5: counters, a 64-byte buffer and four words,
    updated in place; every run of it computes the digest of Md5Spec. */
module Md5 {
  import opened Basics
  import opened Md5Spec

  // ----- one block -----

  function F(x: Word, y: Word, z: Word): Word { Word(z.bits ^ (x.bits & (y.bits ^ z.bits))) }
  function G(x: Word, y: Word, z: Word): Word { Word(y.bits ^ (z.bits & (x.bits ^ y.bits))) }
  function H(x: Word, y: Word, z: Word): Word { Word((x.bits ^ y.bits) ^ z.bits) }
  function H2(x: Word, y: Word, z: Word): Word { Word(x.bits ^ (y.bits ^ z.bits)) }
  function I(x: Word, y: Word, z: Word): Word { Word(y.bits ^ (x.bits | !z.bits)) }

  /** The rotation as the macro writes it. */
  function Shifts(r: Word, s: nat): Word
    requires 0 < s < 32
  {
    Word((r.bits << s) | ((r.bits & 0xffff_ffff) >> (32 - s)))
  }

  /** The word `a` after one STEP; f is the value of the auxiliary function. */
  function Step(f: Word, a: Word, b: Word, x: Word, t: Word, s: nat): Word
    requires 0 < s < 32
  {
    Add(Shifts(Add(a, Add(Add(f, x), t)), s), b)
  }

  /** The function that line i passes to STEP. */
  function Fun(i: nat, x: Word, y: Word, z: Word): Word {
    if i < 16 then F(x, y, z) else if i < 32 then G(x, y, z)
    else if i < 48 then (if i % 2 == 0 then H(x, y, z) else H2(x, y, z)) else I(x, y, z)
  }

  lemma FastF(x: Word, y: Word, z: Word)
    ensures F(x, y, z) == AuxF(x, y, z)
  {
  }

  lemma FastG(x: Word, y: Word, z: Word)
    ensures G(x, y, z) == AuxG(x, y, z)
  {
  }

  lemma FastH(x: Word, y: Word, z: Word)
    ensures H(x, y, z) == H2(x, y, z) == AuxH(x, y, z)
  {
  }

  lemma FunIsAux(i: nat, x: Word, y: Word, z: Word)
    ensures Fun(i, x, y, z) == Aux(i, x, y, z)
  {
    hide F, G, H, H2, AuxF, AuxG, AuxH;
    FastF(x, y, z);
    FastG(x, y, z);
    FastH(x, y, z);
  }

  lemma ShiftsRotate(r: Word, s: nat)
    requires 0 < s < 32
    ensures Shifts(r, s) == Rotate(r, s)
  {
    assert r.bits & 0xffff_ffff == r.bits;
  }

  lemma Commutes(x: Word, y: Word)
    ensures Add(x, y) == Add(y, x)
  {
  }

  /** One STEP is one operation of the standard. */
  lemma StepIsOp(i: nat, a: Word, b: Word, c: Word, d: Word, x: seq<Word>)
    requires |x| == 16 && i < 64
    ensures Step(Fun(i, b, c, d), a, b, x[K(i)], T(i), S(i)) == Op(i, a, b, c, d, x)
  {
    hide Fun, Aux, T, K, S, Shifts, Rotate, Add;
    FunIsAux(i, b, c, d);
    var f, w, t := Fun(i, b, c, d), x[K(i)], T(i);
    ShiftsRotate(Add(a, Add(Add(f, w), t)), S(i));
    Commutes(Rotate(Add(a, Add(Add(f, w), t)), S(i)), b);
  }

  /** Four lines of the source, which bring the names back in place. */
  lemma Quad(i: nat, st: State, x: seq<Word>, p: State, a: Word, b: Word, c: Word, d: Word)
    requires |x| == 16 && i + 3 < 64 && p == Steps(i, st, x)
    requires a == Op(i, p.a, p.b, p.c, p.d, x)
    requires d == Op(i + 1, p.d, a, p.b, p.c, x)
    requires c == Op(i + 2, p.c, d, a, p.b, x)
    requires b == Op(i + 3, p.b, c, d, a, x)
    ensures Steps(i + 4, st, x) == State(a, b, c, d)
  {
    hide Op;
    assert Steps(i + 1, st, x) == State(p.d, a, p.b, p.c);
    assert Steps(i + 2, st, x) == State(p.c, d, a, p.b);
    assert Steps(i + 3, st, x) == State(p.b, c, d, a);
  }

  predicate Line(i: nat, x: seq<Word>, to: Word, a: Word, b: Word, c: Word, d: Word)
    requires |x| == 16 && i < 64
  {
    to == Step(Fun(i, b, c, d), a, b, x[K(i)], T(i), S(i))
  }

  lemma Lines(i: nat, st: State, x: seq<Word>, p: State, a: Word, b: Word, c: Word, d: Word)
    requires |x| == 16 && i + 3 < 64 && p == Steps(i, st, x)
    requires Line(i, x, a, p.a, p.b, p.c, p.d)
    requires Line(i + 1, x, d, p.d, a, p.b, p.c)
    requires Line(i + 2, x, c, p.c, d, a, p.b)
    requires Line(i + 3, x, b, p.b, c, d, a)
    ensures Steps(i + 4, st, x) == State(a, b, c, d)
  {
    hide Op, Step, Fun, T, K, S, Steps;
    StepIsOp(i, p.a, p.b, p.c, p.d, x);
    StepIsOp(i + 1, p.d, a, p.b, p.c, x);
    StepIsOp(i + 2, p.c, d, a, p.b, x);
    StepIsOp(i + 3, p.b, c, d, a, x);
    Quad(i, st, x, p, a, b, c, d);
  }

  /** Round 1, line by line. */
  method Round1(x: seq<Word>, ghost st: State, a0: Word, b0: Word, c0: Word, d0: Word)
    returns (a: Word, b: Word, c: Word, d: Word)
    requires |x| == 16 && State(a0, b0, c0, d0) == Steps(0, st, x)
    ensures State(a, b, c, d) == Steps(16, st, x)
  {
    hide Step, F, G, H, H2, I, Op, Steps, T2, T3, T4;
    a, b, c, d := a0, b0, c0, d0;
    ghost var p0 := State(a, b, c, d);
    a := Step(F(b, c, d), a, b, x[0], Word(0xd76aa478), 7);
    d := Step(F(a, b, c), d, a, x[1], Word(0xe8c7b756), 12);
    c := Step(F(d, a, b), c, d, x[2], Word(0x242070db), 17);
    b := Step(F(c, d, a), b, c, x[3], Word(0xc1bdceee), 22);
    assert Steps(4, st, x) == State(a, b, c, d) by { Lines(0, st, x, p0, a, b, c, d); }
    ghost var p1 := State(a, b, c, d);
    a := Step(F(b, c, d), a, b, x[4], Word(0xf57c0faf), 7);
    d := Step(F(a, b, c), d, a, x[5], Word(0x4787c62a), 12);
    c := Step(F(d, a, b), c, d, x[6], Word(0xa8304613), 17);
    b := Step(F(c, d, a), b, c, x[7], Word(0xfd469501), 22);
    assert Steps(8, st, x) == State(a, b, c, d) by { Lines(4, st, x, p1, a, b, c, d); }
    ghost var p2 := State(a, b, c, d);
    a := Step(F(b, c, d), a, b, x[8], Word(0x698098d8), 7);
    d := Step(F(a, b, c), d, a, x[9], Word(0x8b44f7af), 12);
    c := Step(F(d, a, b), c, d, x[10], Word(0xffff5bb1), 17);
    b := Step(F(c, d, a), b, c, x[11], Word(0x895cd7be), 22);
    assert Steps(12, st, x) == State(a, b, c, d) by { Lines(8, st, x, p2, a, b, c, d); }
    ghost var p3 := State(a, b, c, d);
    a := Step(F(b, c, d), a, b, x[12], Word(0x6b901122), 7);
    d := Step(F(a, b, c), d, a, x[13], Word(0xfd987193), 12);
    c := Step(F(d, a, b), c, d, x[14], Word(0xa679438e), 17);
    b := Step(F(c, d, a), b, c, x[15], Word(0x49b40821), 22);
    assert Steps(16, st, x) == State(a, b, c, d) by { Lines(12, st, x, p3, a, b, c, d); }
  }

  /** The words that round 2 reads. */
  lemma Plan2()
    ensures K(16) == 1 && K(17) == 6 && K(18) == 11 && K(19) == 0
    ensures K(20) == 5 && K(21) == 10 && K(22) == 15 && K(23) == 4
    ensures K(24) == 9 && K(25) == 14 && K(26) == 3 && K(27) == 8
    ensures K(28) == 13 && K(29) == 2 && K(30) == 7 && K(31) == 12
  {
  }

  /** Round 2, line by line. */
  method Round2(x: seq<Word>, ghost st: State, a0: Word, b0: Word, c0: Word, d0: Word)
    returns (a: Word, b: Word, c: Word, d: Word)
    requires |x| == 16 && State(a0, b0, c0, d0) == Steps(16, st, x)
    ensures State(a, b, c, d) == Steps(32, st, x)
  {
    hide Step, F, G, H, H2, I, Op, Steps, T1, T3, T4;
    Plan2();
    hide K;
    a, b, c, d := a0, b0, c0, d0;
    ghost var p0 := State(a, b, c, d);
    a := Step(G(b, c, d), a, b, x[1], Word(0xf61e2562), 5);
    d := Step(G(a, b, c), d, a, x[6], Word(0xc040b340), 9);
    c := Step(G(d, a, b), c, d, x[11], Word(0x265e5a51), 14);
    b := Step(G(c, d, a), b, c, x[0], Word(0xe9b6c7aa), 20);
    assert Steps(20, st, x) == State(a, b, c, d) by { Lines(16, st, x, p0, a, b, c, d); }
    ghost var p1 := State(a, b, c, d);
    a := Step(G(b, c, d), a, b, x[5], Word(0xd62f105d), 5);
    d := Step(G(a, b, c), d, a, x[10], Word(0x02441453), 9);
    c := Step(G(d, a, b), c, d, x[15], Word(0xd8a1e681), 14);
    b := Step(G(c, d, a), b, c, x[4], Word(0xe7d3fbc8), 20);
    assert Steps(24, st, x) == State(a, b, c, d) by { Lines(20, st, x, p1, a, b, c, d); }
    ghost var p2 := State(a, b, c, d);
    a := Step(G(b, c, d), a, b, x[9], Word(0x21e1cde6), 5);
    d := Step(G(a, b, c), d, a, x[14], Word(0xc33707d6), 9);
    c := Step(G(d, a, b), c, d, x[3], Word(0xf4d50d87), 14);
    b := Step(G(c, d, a), b, c, x[8], Word(0x455a14ed), 20);
    assert Steps(28, st, x) == State(a, b, c, d) by { Lines(24, st, x, p2, a, b, c, d); }
    ghost var p3 := State(a, b, c, d);
    a := Step(G(b, c, d), a, b, x[13], Word(0xa9e3e905), 5);
    d := Step(G(a, b, c), d, a, x[2], Word(0xfcefa3f8), 9);
    c := Step(G(d, a, b), c, d, x[7], Word(0x676f02d9), 14);
    b := Step(G(c, d, a), b, c, x[12], Word(0x8d2a4c8a), 20);
    assert Steps(32, st, x) == State(a, b, c, d) by { Lines(28, st, x, p3, a, b, c, d); }
  }

  /** The words that round 3 reads. */
  lemma Plan3()
    ensures K(32) == 5 && K(33) == 8 && K(34) == 11 && K(35) == 14
    ensures K(36) == 1 && K(37) == 4 && K(38) == 7 && K(39) == 10
    ensures K(40) == 13 && K(41) == 0 && K(42) == 3 && K(43) == 6
    ensures K(44) == 9 && K(45) == 12 && K(46) == 15 && K(47) == 2
  {
  }

  /** Round 3, line by line. */
  method Round3(x: seq<Word>, ghost st: State, a0: Word, b0: Word, c0: Word, d0: Word)
    returns (a: Word, b: Word, c: Word, d: Word)
    requires |x| == 16 && State(a0, b0, c0, d0) == Steps(32, st, x)
    ensures State(a, b, c, d) == Steps(48, st, x)
  {
    hide Step, F, G, H, H2, I, Op, Steps, T1, T2, T4;
    Plan3();
    hide K;
    a, b, c, d := a0, b0, c0, d0;
    ghost var p0 := State(a, b, c, d);
    a := Step(H(b, c, d), a, b, x[5], Word(0xfffa3942), 4);
    d := Step(H2(a, b, c), d, a, x[8], Word(0x8771f681), 11);
    c := Step(H(d, a, b), c, d, x[11], Word(0x6d9d6122), 16);
    b := Step(H2(c, d, a), b, c, x[14], Word(0xfde5380c), 23);
    assert Steps(36, st, x) == State(a, b, c, d) by { Lines(32, st, x, p0, a, b, c, d); }
    ghost var p1 := State(a, b, c, d);
    a := Step(H(b, c, d), a, b, x[1], Word(0xa4beea44), 4);
    d := Step(H2(a, b, c), d, a, x[4], Word(0x4bdecfa9), 11);
    c := Step(H(d, a, b), c, d, x[7], Word(0xf6bb4b60), 16);
    b := Step(H2(c, d, a), b, c, x[10], Word(0xbebfbc70), 23);
    assert Steps(40, st, x) == State(a, b, c, d) by { Lines(36, st, x, p1, a, b, c, d); }
    ghost var p2 := State(a, b, c, d);
    a := Step(H(b, c, d), a, b, x[13], Word(0x289b7ec6), 4);
    d := Step(H2(a, b, c), d, a, x[0], Word(0xeaa127fa), 11);
    c := Step(H(d, a, b), c, d, x[3], Word(0xd4ef3085), 16);
    b := Step(H2(c, d, a), b, c, x[6], Word(0x04881d05), 23);
    assert Steps(44, st, x) == State(a, b, c, d) by { Lines(40, st, x, p2, a, b, c, d); }
    ghost var p3 := State(a, b, c, d);
    a := Step(H(b, c, d), a, b, x[9], Word(0xd9d4d039), 4);
    d := Step(H2(a, b, c), d, a, x[12], Word(0xe6db99e5), 11);
    c := Step(H(d, a, b), c, d, x[15], Word(0x1fa27cf8), 16);
    b := Step(H2(c, d, a), b, c, x[2], Word(0xc4ac5665), 23);
    assert Steps(48, st, x) == State(a, b, c, d) by { Lines(44, st, x, p3, a, b, c, d); }
  }

  /** The words that round 4 reads. */
  lemma Plan4()
    ensures K(48) == 0 && K(49) == 7 && K(50) == 14 && K(51) == 5
    ensures K(52) == 12 && K(53) == 3 && K(54) == 10 && K(55) == 1
    ensures K(56) == 8 && K(57) == 15 && K(58) == 6 && K(59) == 13
    ensures K(60) == 4 && K(61) == 11 && K(62) == 2 && K(63) == 9
  {
  }

  /** Round 4, line by line. */
  method Round4(x: seq<Word>, ghost st: State, a0: Word, b0: Word, c0: Word, d0: Word)
    returns (a: Word, b: Word, c: Word, d: Word)
    requires |x| == 16 && State(a0, b0, c0, d0) == Steps(48, st, x)
    ensures State(a, b, c, d) == Steps(64, st, x)
  {
    hide Step, F, G, H, H2, I, Op, Steps, T1, T2, T3;
    Plan4();
    hide K;
    a, b, c, d := a0, b0, c0, d0;
    ghost var p0 := State(a, b, c, d);
    a := Step(I(b, c, d), a, b, x[0], Word(0xf4292244), 6);
    d := Step(I(a, b, c), d, a, x[7], Word(0x432aff97), 10);
    c := Step(I(d, a, b), c, d, x[14], Word(0xab9423a7), 15);
    b := Step(I(c, d, a), b, c, x[5], Word(0xfc93a039), 21);
    assert Steps(52, st, x) == State(a, b, c, d) by { Lines(48, st, x, p0, a, b, c, d); }
    ghost var p1 := State(a, b, c, d);
    a := Step(I(b, c, d), a, b, x[12], Word(0x655b59c3), 6);
    d := Step(I(a, b, c), d, a, x[3], Word(0x8f0ccc92), 10);
    c := Step(I(d, a, b), c, d, x[10], Word(0xffeff47d), 15);
    b := Step(I(c, d, a), b, c, x[1], Word(0x85845dd1), 21);
    assert Steps(56, st, x) == State(a, b, c, d) by { Lines(52, st, x, p1, a, b, c, d); }
    ghost var p2 := State(a, b, c, d);
    a := Step(I(b, c, d), a, b, x[8], Word(0x6fa87e4f), 6);
    d := Step(I(a, b, c), d, a, x[15], Word(0xfe2ce6e0), 10);
    c := Step(I(d, a, b), c, d, x[6], Word(0xa3014314), 15);
    b := Step(I(c, d, a), b, c, x[13], Word(0x4e0811a1), 21);
    assert Steps(60, st, x) == State(a, b, c, d) by { Lines(56, st, x, p2, a, b, c, d); }
    ghost var p3 := State(a, b, c, d);
    a := Step(I(b, c, d), a, b, x[4], Word(0xf7537e82), 6);
    d := Step(I(a, b, c), d, a, x[11], Word(0xbd3af235), 10);
    c := Step(I(d, a, b), c, d, x[2], Word(0x2ad7d2bb), 15);
    b := Step(I(c, d, a), b, c, x[9], Word(0xeb86d391), 21);
    assert Steps(64, st, x) == State(a, b, c, d) by { Lines(60, st, x, p3, a, b, c, d); }
  }

  // ----- the context -----

  lemma MulMono(m: nat, a: nat, b: nat)
    requires a < b
    ensures m * a + m <= m * b
  {
    assert m * b == m * a + m * (b - a);
    assert m * (b - a) == m * (b - a - 1) + m;
  }

  lemma Remainder(n: nat, r: nat, q: nat, m: nat)
    requires r < m && n == r + m * q
    ensures n % m == r && n / m == q
  {
    var d, e := n / m, n % m;
    assert m * d + e == m * q + r;
    if d < q { MulMono(m, d, q); } else if q < d { MulMono(m, q, d); }
  }

  lemma CarryOut(lo: nat, size: nat, lo': nat, carry: nat)
    requires lo < TWO_29 && lo' == (lo + size) % TWO_29 && carry == if lo' < lo then 1 else 0
    ensures lo + size == lo' + TWO_29 * (carry + size / TWO_29)
  {
    var r, q := size % TWO_29, size / TWO_29;
    if lo + r < TWO_29 {
      Remainder(lo + size, lo + r, q, TWO_29);
    } else {
      Remainder(lo + size, lo + r - TWO_29, q + 1, TWO_29);
    }
  }

  /** The two counters hold the byte count modulo 2^61. */
  predicate Counts(lo: nat, hi: nat, count: nat) {
    lo < TWO_29 && hi < TWO_32 && lo + TWO_29 * hi == count % (TWO_29 * TWO_32)
  }

  lemma CarryKeepsCount(lo: nat, hi: nat, count: nat, size: nat, lo': nat, hi1: nat, hi': nat)
    requires Counts(lo, hi, count)
    requires lo' == (lo + size) % TWO_29
    requires hi1 == if lo' < lo then (hi + 1) % TWO_32 else hi
    requires hi' == (hi1 + size / TWO_29) % TWO_32
    ensures Counts(lo', hi', count + size)
  {
    var carry := if lo' < lo then 1 else 0;
    CarryOut(lo, size, lo', carry);
    var h, k := hi1 + size / TWO_29, if carry == 1 && hi + 1 == TWO_32 then 1 else 0;
    assert hi + carry == hi1 + TWO_32 * k;
    assert h == hi' + TWO_32 * (h / TWO_32);
    var q := count / (TWO_29 * TWO_32);
    assert count == lo + TWO_29 * hi + TWO_29 * TWO_32 * q;
    assert count + size == lo' + TWO_29 * hi' + TWO_29 * TWO_32 * (h / TWO_32 + k + q);
    Remainder(count + size, lo' + TWO_29 * hi', h / TWO_32 + k + q, TWO_29 * TWO_32);
  }

  lemma UsedIsRemainder(lo: nat, hi: nat, count: nat)
    requires Counts(lo, hi, count)
    ensures lo % 64 == count % 64
  {
    var q := count / (TWO_29 * TWO_32);
    assert count == lo + TWO_29 * hi + TWO_29 * TWO_32 * q;
    var k := lo / 64 + 0x80_0000 * hi + 0x80_0000 * TWO_32 * q;
    assert count == lo % 64 + 64 * k;
    Remainder(count, lo % 64, k, 64);
  }

  lemma LengthWords(lo: nat, hi: nat, count: nat)
    requires Counts(lo, hi, count)
    ensures 8 * count % TWO_32 == 8 * lo % TWO_32 && 8 * count / TWO_32 % TWO_32 == hi
  {
    var q := count / (TWO_29 * TWO_32);
    assert 8 * count == 8 * lo + TWO_32 * (hi + TWO_32 * q);
    Remainder(8 * count, 8 * lo, hi + TWO_32 * q, TWO_32);
    Remainder(hi + TWO_32 * q, hi, q, TWO_32);
  }

  /** How much of a block n bytes begin. */
  function Part(n: nat): (r: nat)
    ensures r < 64 && r <= n
  {
    n % 64
  }

  lemma PartWhole(n: nat)
    ensures (n - Part(n)) % 64 == 0
  {
  }

  lemma PartShort(n: nat)
    requires n < 64
    ensures Part(n) == n
  {
  }

  /** What a context knows of the message so far: the fold of its whole blocks
      and, in the buffer, the rest. */
  predicate Holds(st: State, buf: seq<Byte>, m: seq<Byte>) {
    var n := Part(|m|);
    |buf| == 64 && st == Fold(INIT, m) && buf[..n] == m[|m| - n..]
  }

  /** Going on from what is held. */
  lemma GoOn(st: State, buf: seq<Byte>, m: seq<Byte>, data: seq<Byte>)
    requires Holds(st, buf, m)
    ensures Fold(INIT, m + data) == Fold(st, buf[..Part(|m|)] + data)
    ensures |buf| == 64 && buf[..Part(|m|)] == m[|m| - Part(|m|)..]
  {
    hide Fold, Part;
    var n := Part(|m|);
    var head, tail := m[..|m| - n], m[|m| - n..];
    PartWhole(|m|);
    assert m == head + tail;
    FoldIgnoresTail(INIT, head, tail);
    assert m + data == head + (tail + data);
    FoldConcat(INIT, head, tail + data);
  }

  /** The block that fills up, the whole blocks after it and the new rest. */
  lemma Held(st: State, rest: seq<Byte>, st': State, buf': seq<Byte>, m: seq<Byte>)
    requires Fold(INIT, m) == Fold(st, rest) && |buf'| == 64
    requires |rest| <= |m| && m[|m| - |rest|..] == rest && Part(|m|) == Part(|rest|)
    requires st' == Fold(st, rest) && buf'[..Part(|rest|)] == rest[|rest| - Part(|rest|)..]
    ensures Holds(st', buf', m)
  {
    hide Fold, Part;
    var n := Part(|rest|);
    assert m[|m| - n..] == rest[|rest| - n..];
  }

  lemma SameRemainder(a: nat, b: nat)
    ensures Part(a + b) == Part(Part(a) + b)
  {
    var k := a / 64 + (a % 64 + b) / 64;
    Remainder(a + b, (a % 64 + b) % 64, k, 64);
  }

  class Context {
    var lo: nat
    var hi: nat
    var a: Word
    var b: Word
    var c: Word
    var d: Word
    const buffer: array<Byte>
    ghost var msg: seq<Byte>

    ghost predicate Valid()
      reads this, buffer
    {
      Counts(lo, hi, |msg|) && buffer.Length == 64 && Holds(State(a, b, c, d), buffer[..], msg)
    }

    constructor ()
      ensures Valid() && msg == [] && fresh(buffer)
    {
      a, b, c, d := Word(0x67452301), Word(0xefcdab89), Word(0x98badcfe), Word(0x10325476);
      lo, hi := 0, 0;
      buffer := new Byte[64](_ => 0);
      msg := [];
    }

    /** Folds one or more whole blocks into the four words. */
    method Body(data: seq<Byte>)
      requires |data| % 64 == 0 && |data| > 0
      modifies this`a, this`b, this`c, this`d
      ensures State(a, b, c, d) == Fold(old(State(a, b, c, d)), data)
    {
      hide Steps, Words;
      var a, b, c, d := this.a, this.b, this.c, this.d;
      var ptr, size := 0, |data|;
      assert data[0..] == data;
      while size != 0
        invariant 0 <= size && ptr + size == |data| && size % 64 == 0
        invariant Fold(State(a, b, c, d), data[ptr..]) == Fold(old(State(this.a, this.b, this.c, this.d)), data)
      {
        var savedA, savedB, savedC, savedD := a, b, c, d;
        var x := Words(data[ptr..ptr + 64]);
        ghost var st := State(a, b, c, d);
        assert Steps(0, st, x) == st by { NoSteps(st, x); }
        a, b, c, d := Round1(x, st, a, b, c, d);
        a, b, c, d := Round2(x, st, a, b, c, d);
        a, b, c, d := Round3(x, st, a, b, c, d);
        a, b, c, d := Round4(x, st, a, b, c, d);
        a, b, c, d := Add(a, savedA), Add(b, savedB), Add(c, savedC), Add(d, savedD);
        assert State(a, b, c, d) == Compress(st, data[ptr..ptr + 64]) by {
          var r := Steps(64, st, x);
          Commutes(r.a, st.a);
          Commutes(r.b, st.b);
          Commutes(r.c, st.c);
          Commutes(r.d, st.d);
        }
        FoldOne(st, data[ptr..]);
        assert data[ptr..][..64] == data[ptr..ptr + 64] && data[ptr..][64..] == data[ptr + 64..];
        ptr := ptr + 64;
        size := size - 64;
      }
      this.a, this.b, this.c, this.d := a, b, c, d;
    }

    method CopyIn(at: nat, src: seq<Byte>)
      requires at + |src| <= buffer.Length
      modifies buffer
      ensures buffer[..] == old(buffer[..at]) + src + old(buffer[at + |src|..])
    {
      for k := 0 to |src|
        invariant buffer[..] == old(buffer[..at]) + src[..k] + old(buffer[at + k..])
      {
        buffer[at + k] := src[k];
      }
    }

    /** The counters of MD5_Update. */
    method Count(size: nat)
      requires Counts(lo, hi, |msg|)
      modifies this`lo, this`hi
      ensures Counts(lo, hi, |msg| + size)
    {
      var savedLo, savedHi := lo, hi;
      lo := (savedLo + size) % TWO_29;
      if lo < savedLo { hi := (hi + 1) % TWO_32; }
      ghost var hi1 := hi;
      hi := (hi + size / TWO_29) % TWO_32;
      CarryKeepsCount(savedLo, savedHi, |msg|, size, lo, hi1, hi);
    }

    /** Folds the whole blocks of the data and buffers the rest. */
    method TakeBlocks(data: seq<Byte>)
      requires buffer.Length == 64
      modifies this`a, this`b, this`c, this`d, buffer
      ensures State(a, b, c, d) == Fold(old(State(a, b, c, d)), data)
      ensures buffer[..Part(|data|)] == data[|data| - Part(|data|)..]
    {
      hide Fold, Part;
      PartWhole(|data|);
      ghost var st := State(a, b, c, d);
      var rest := data;
      if |rest| >= 64 {
        var n := |rest| - Part(|rest|);
        Body(rest[..n]);
        FoldIgnoresTail(st, data[..n], data[n..]);
        assert data[..n] + data[n..] == data;
        rest := rest[n..];
      } else {
        FoldShort(st, data);
        PartShort(|data|);
      }
      CopyIn(0, rest);
      assert buffer[..|rest|] == rest;
    }

    /** Fills up a block that was begun, as far as the data goes. */
    method Fill(used: nat, data: seq<Byte>) returns (rest: seq<Byte>)
      requires buffer.Length == 64 && 0 < used < 64 && |data| >= 64 - used
      modifies this`a, this`b, this`c, this`d, buffer
      ensures Fold(old(State(a, b, c, d)), old(buffer[..used]) + data) == Fold(State(a, b, c, d), rest)
      ensures |rest| == |data| - (64 - used) && rest == data[64 - used..]
    {
      hide Fold;
      ghost var st, all := State(a, b, c, d), buffer[..used] + data;
      var available := 64 - used;
      CopyIn(used, data[..available]);
      rest := data[available..];
      Body(buffer[..]);
      FoldConcat(st, buffer[..], rest);
      assert all == buffer[..] + rest;
    }

    /** Adds to a block that was begun and stays open. */
    method AddShort(used: nat, data: seq<Byte>)
      requires buffer.Length == 64 && used + |data| < 64
      modifies buffer
      ensures buffer[..used + |data|] == old(buffer[..used]) + data
    {
      CopyIn(used, data);
    }

    /** The bytes of MD5_Update, block by block. */
    method Absorb(used: nat, data: seq<Byte>)
      requires buffer.Length == 64 && Holds(State(a, b, c, d), buffer[..], msg) && used == Part(|msg|)
      modifies this`a, this`b, this`c, this`d, buffer
      ensures Holds(State(a, b, c, d), buffer[..], msg + data)
    {
      hide Fold, Holds, Part;
      ghost var st, tail := State(a, b, c, d), buffer[..used];
      GoOn(st, buffer[..], msg, data);
      if used == 0 {
        assert tail + data == data;
        TakeBlocks(data);
        HeldAligned(st, data, State(a, b, c, d), buffer[..], msg);
      } else if |data| < 64 - used {
        AddShort(used, data);
        HeldShort(st, tail, data, buffer[..], msg);
      } else {
        var rest := Fill(used, data);
        ghost var st1 := State(a, b, c, d);
        TakeBlocks(rest);
        HeldRest(st1, data, 64 - used, State(a, b, c, d), buffer[..], msg);
      }
    }

    /** Takes in any number of bytes. */
    method Update(data: seq<Byte>)
      requires Valid()
      modifies this, buffer
      ensures Valid() && msg == old(msg) + data
    {
      UsedIsRemainder(lo, hi, |msg|);
      var used := lo % 64;
      hide Fold, Counts, Holds;
      Count(|data|);
      Absorb(used, data);
      msg := msg + data;
    }

    method Zero(at: nat, n: nat)
      requires at + n <= buffer.Length
      modifies buffer
      ensures buffer[..] == old(buffer[..at]) + Repeat<Byte>(0, n) + old(buffer[at + n..])
    {
      CopyIn(at, Repeat<Byte>(0, n));
    }

    /** Zeros and the length at the end of the last block. */
    method LastBlock(used: nat)
      requires buffer.Length == 64 && used <= 56
      modifies this`lo, buffer
      ensures buffer[..] == old(buffer[..used]) + Repeat<Byte>(0, 56 - used)
                          + (LengthBytes(old(8 * lo % TWO_32)) + LengthBytes(hi))
    {
      hide LengthBytes, Repeat;
      var available := 64 - used;
      Zero(used, available - 8);
      lo := 8 * lo % TWO_32;
      assert buffer[..56] == old(buffer[..used]) + Repeat<Byte>(0, 56 - used);
      CopyIn(56, LengthBytes(lo));
      assert buffer[..60] == old(buffer[..used]) + Repeat<Byte>(0, 56 - used) + LengthBytes(lo);
      CopyIn(60, LengthBytes(hi));
    }

    /** Pads and folds the last one or two blocks. */
    method Finish()
      requires Valid()
      modifies this, buffer
      ensures State(a, b, c, d) == Fold(INIT, Pad(old(msg)))
    {
      hide Fold, Counts, Holds, Pad, LengthBytes, Repeat;
      UsedIsRemainder(lo, hi, |msg|);
      LengthWords(lo, hi, |msg|);
      ghost var tail := buffer[..|msg| % 64];
      FinalBlocks(State(a, b, c, d), buffer[..], msg, 8 * lo % TWO_32, hi);
      var used := lo % 64;
      CopyIn(used, [0x80]);
      used := used + 1;
      assert buffer[..used] == tail + [0x80];
      var available := 64 - used;
      if available < 8 {
        Zero(used, available);
        assert buffer[..] == tail + [0x80] + Repeat<Byte>(0, available);
        Body(buffer[..]);
        LastBlock(0);
        assert buffer[..] == Repeat<Byte>(0, 56) + (LengthBytes(old(8 * lo % TWO_32)) + LengthBytes(hi));
      } else {
        LastBlock(used);
      }
      Body(buffer[..]);
    }

    /** Gives out the digest; the context is wiped. */
    method Final() returns (result: seq<Byte>)
      requires Valid()
      modifies this, buffer
      ensures result == Digest(old(msg))
      ensures lo == hi == 0 && a == b == c == d == Word(0) && buffer[..] == Repeat<Byte>(0, 64)
    {
      hide Fold, Pad, Repeat, WordBytes;
      Finish();
      result := WordBytes(a) + WordBytes(b) + WordBytes(c) + WordBytes(d);
      a, b, c, d := Word(0), Word(0), Word(0), Word(0);
      lo, hi := 0, 0;
      Zero(0, 64);
    }
  }

  /** The last one or two blocks of the padded message. */
  lemma FinalBlocks(st: State, buf: seq<Byte>, m: seq<Byte>, low: nat, high: nat)
    requires Holds(st, buf, m)
    requires low == 8 * |m| % TWO_32 && high == 8 * |m| / TWO_32 % TWO_32
    ensures |buf| == 64
    ensures var n := |m| % 64;
            var len := LengthBytes(low) + LengthBytes(high);
            Fold(INIT, Pad(m)) ==
            if n < 56 then Fold(st, buf[..n] + [0x80] + Repeat<Byte>(0, 55 - n) + len)
            else Fold(Fold(st, buf[..n] + [0x80] + Repeat<Byte>(0, 63 - n)), Repeat<Byte>(0, 56) + len)
  {
    hide Fold, LengthBytes;
    var n, z, len := |m| % 64, (119 - |m| % 64) % 64, LengthBytes(low) + LengthBytes(high);
    ZerosFill(|m|, z);
    var more := [0x80] + Repeat<Byte>(0, z) + len;
    assert Pad(m) == m + more;
    GoOn(st, buf, m, more);
    if n < 56 {
      assert buf[..n] + more == buf[..n] + [0x80] + Repeat<Byte>(0, 55 - n) + len;
    } else {
      var first := buf[..n] + [0x80] + Repeat<Byte>(0, 63 - n);
      assert Repeat<Byte>(0, z) == Repeat<Byte>(0, 63 - n) + Repeat<Byte>(0, 56);
      assert buf[..n] + more == first + (Repeat<Byte>(0, 56) + len);
      FoldConcat(st, first, Repeat<Byte>(0, 56) + len);
    }
  }

  /** What was taken in, followed by the chunks from k on. */
  function Joined(m: seq<Byte>, chunks: seq<seq<Byte>>, k: nat): seq<Byte>
    requires k <= |chunks|
  {
    m + Flatten(chunks[k..])
  }

  lemma JoinedStep(m: seq<Byte>, chunks: seq<seq<Byte>>, k: nat)
    requires k < |chunks|
    ensures Joined(m + chunks[k], chunks, k + 1) == Joined(m, chunks, k)
  {
    assert chunks[k..][1..] == chunks[k + 1..];
  }

  lemma JoinedEnds(m: seq<Byte>, chunks: seq<seq<Byte>>)
    ensures Joined([], chunks, 0) == Flatten(chunks) && Joined(m, chunks, |chunks|) == m
  {
    assert chunks[0..] == chunks;
  }

  /** However the message is cut into calls of Update, the digest is that of the
      whole. */
  method DigestOfChunks(chunks: seq<seq<Byte>>) returns (result: seq<Byte>)
    ensures result == Digest(Flatten(chunks))
  {
    hide Digest, Joined, Flatten, Context.Valid;
    var ctx := new Context();
    JoinedEnds([], chunks);
    for k := 0 to |chunks|
      invariant ctx.Valid() && fresh(ctx) && fresh(ctx.buffer)
      invariant Joined(ctx.msg, chunks, k) == Flatten(chunks)
    {
      JoinedStep(ctx.msg, chunks, k);
      ctx.Update(chunks[k]);
    }
    JoinedEnds(ctx.msg, chunks);
    result := ctx.Final();
  }

  /** MD5_Digest. */
  method DigestOf(data: seq<Byte>) returns (result: seq<Byte>)
    ensures result == Digest(data)
  {
    hide Digest, Context.Valid;
    var ctx := new Context();
    ctx.Update(data);
    assert [] + data == data;
    result := ctx.Final();
  }

  lemma HeldAligned(st: State, data: seq<Byte>, st': State, buf: seq<Byte>, m: seq<Byte>)
    requires Part(|m|) == 0 && |buf| == 64 && Fold(INIT, m + data) == Fold(st, data) == st'
    requires buf[..Part(|data|)] == data[|data| - Part(|data|)..]
    ensures Holds(st', buf, m + data)
  {
    hide Fold, Part;
    SameRemainder(|m|, |data|);
    Held(st, data, st', buf, m + data);
  }

  lemma HeldShort(st: State, tail: seq<Byte>, data: seq<Byte>, buf: seq<Byte>, m: seq<Byte>)
    requires Part(|m|) == |tail| <= |m| && tail == m[|m| - |tail|..] && |tail| + |data| < 64
    requires |buf| == 64 && buf[..|tail| + |data|] == tail + data && Fold(INIT, m + data) == Fold(st, tail + data)
    ensures Holds(st, buf, m + data)
  {
    hide Fold, Part;
    SameRemainder(|m|, |data|);
    PartShort(|tail| + |data|);
    FoldShort(st, tail + data);
    assert (m + data)[|m| - |tail|..] == tail + data;
    Held(st, tail + data, st, buf, m + data);
  }

  lemma OneBlockMore(n: nat)
    ensures Part(64 + n) == Part(n)
  {
  }

  lemma HeldRest(st: State, data: seq<Byte>, k: nat, st': State, buf: seq<Byte>, m: seq<Byte>)
    requires k <= |data| && Part(|m|) + k == 64 && |buf| == 64
    requires Fold(INIT, m + data) == Fold(st, data[k..]) == st'
    requires buf[..Part(|data| - k)] == data[k..][|data| - k - Part(|data| - k)..]
    ensures Holds(st', buf, m + data)
  {
    hide Fold, Part;
    SameRemainder(|m|, |data|);
    OneBlockMore(|data| - k);
    assert (m + data)[|m| + k..] == data[k..];
    Held(st, data[k..], st', buf, m + data);
  }

  lemma NoSteps(st: State, x: seq<Word>)
    requires |x| == 16
    ensures Steps(0, st, x) == st
  {
  }

  lemma FoldOne(st: State, m: seq<Byte>)
    requires |m| >= 64
    ensures Fold(st, m) == Fold(Compress(st, m[..64]), m[64..])
  {
  }

  lemma FoldShort(st: State, m: seq<Byte>)
    requires |m| < 64
    ensures Fold(st, m) == st
  {
  }
}
