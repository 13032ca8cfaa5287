/** MD5, after sections 3.1 to 3.5 of RFC 1321: padding, length, and a fold of
    64 steps over each 64-byte block. */
module Md5Spec {
  import opened Basics

  datatype Word = Word(bits: bv32)

  datatype State = State(a: Word, b: Word, c: Word, d: Word)

  // ----- section 3.4: one block -----

  function Add(x: Word, y: Word): Word { Word(x.bits + y.bits) }

  /** The circular shift by s positions. */
  function Rotate(x: Word, s: nat): Word
    requires 0 < s < 32
  {
    Word((x.bits << s) | (x.bits >> (32 - s)))
  }

  /** The auxiliary function of step i. */
  function Aux(i: nat, x: Word, y: Word, z: Word): Word {
    if i < 16 then AuxF(x, y, z) else if i < 32 then AuxG(x, y, z)
    else if i < 48 then AuxH(x, y, z) else AuxI(x, y, z)
  }

  function AuxF(x: Word, y: Word, z: Word): Word { Word((x.bits & y.bits) | (!x.bits & z.bits)) }
  function AuxG(x: Word, y: Word, z: Word): Word { Word((x.bits & z.bits) | (y.bits & !z.bits)) }
  function AuxH(x: Word, y: Word, z: Word): Word { Word(x.bits ^ y.bits ^ z.bits) }
  function AuxI(x: Word, y: Word, z: Word): Word { Word(y.bits ^ (x.bits | !z.bits)) }

  /** Which word of the block step i reads. */
  function K(i: nat): (k: nat)
    ensures k < 16
  {
    if i < 16 then i
    else if i < 32 then (5 * i + 1) % 16
    else if i < 48 then (3 * i + 5) % 16
    else (7 * i) % 16
  }

  /** How far step i rotates. */
  function S(i: nat): (s: nat)
    ensures 0 < s < 32
  {
    var j := i % 4;
    if i < 16 then 7 + 5 * j
    else if i < 32 then (if j == 0 then 5 else if j == 1 then 9 else if j == 2 then 14 else 20)
    else if i < 48 then (if j == 0 then 4 else if j == 1 then 11 else if j == 2 then 16 else 23)
    else (if j == 0 then 6 else if j == 1 then 10 else if j == 2 then 15 else 21)
  }

  /** The table of sines, sixteen entries for each round. */
  function T(i: nat): Word {
    if i < 16 then T1(i) else if i < 32 then T2(i - 16) else if i < 48 then T3(i - 32) else T4(i - 48)
  }

  function T1(j: nat): Word {
    match j
    case 0 => Word(0xd76aa478)
    case 1 => Word(0xe8c7b756)
    case 2 => Word(0x242070db)
    case 3 => Word(0xc1bdceee)
    case 4 => Word(0xf57c0faf)
    case 5 => Word(0x4787c62a)
    case 6 => Word(0xa8304613)
    case 7 => Word(0xfd469501)
    case 8 => Word(0x698098d8)
    case 9 => Word(0x8b44f7af)
    case 10 => Word(0xffff5bb1)
    case 11 => Word(0x895cd7be)
    case 12 => Word(0x6b901122)
    case 13 => Word(0xfd987193)
    case 14 => Word(0xa679438e)
    case _ => Word(0x49b40821)
  }

  function T2(j: nat): Word {
    match j
    case 0 => Word(0xf61e2562)
    case 1 => Word(0xc040b340)
    case 2 => Word(0x265e5a51)
    case 3 => Word(0xe9b6c7aa)
    case 4 => Word(0xd62f105d)
    case 5 => Word(0x02441453)
    case 6 => Word(0xd8a1e681)
    case 7 => Word(0xe7d3fbc8)
    case 8 => Word(0x21e1cde6)
    case 9 => Word(0xc33707d6)
    case 10 => Word(0xf4d50d87)
    case 11 => Word(0x455a14ed)
    case 12 => Word(0xa9e3e905)
    case 13 => Word(0xfcefa3f8)
    case 14 => Word(0x676f02d9)
    case _ => Word(0x8d2a4c8a)
  }

  function T3(j: nat): Word {
    match j
    case 0 => Word(0xfffa3942)
    case 1 => Word(0x8771f681)
    case 2 => Word(0x6d9d6122)
    case 3 => Word(0xfde5380c)
    case 4 => Word(0xa4beea44)
    case 5 => Word(0x4bdecfa9)
    case 6 => Word(0xf6bb4b60)
    case 7 => Word(0xbebfbc70)
    case 8 => Word(0x289b7ec6)
    case 9 => Word(0xeaa127fa)
    case 10 => Word(0xd4ef3085)
    case 11 => Word(0x04881d05)
    case 12 => Word(0xd9d4d039)
    case 13 => Word(0xe6db99e5)
    case 14 => Word(0x1fa27cf8)
    case _ => Word(0xc4ac5665)
  }

  function T4(j: nat): Word {
    match j
    case 0 => Word(0xf4292244)
    case 1 => Word(0x432aff97)
    case 2 => Word(0xab9423a7)
    case 3 => Word(0xfc93a039)
    case 4 => Word(0x655b59c3)
    case 5 => Word(0x8f0ccc92)
    case 6 => Word(0xffeff47d)
    case 7 => Word(0x85845dd1)
    case 8 => Word(0x6fa87e4f)
    case 9 => Word(0xfe2ce6e0)
    case 10 => Word(0xa3014314)
    case 11 => Word(0x4e0811a1)
    case 12 => Word(0xf7537e82)
    case 13 => Word(0xbd3af235)
    case 14 => Word(0x2ad7d2bb)
    case _ => Word(0xeb86d391)
  }

  function Op(i: nat, a: Word, b: Word, c: Word, d: Word, x: seq<Word>): Word
    requires |x| == 16
  {
    Add(b, Rotate(Add(a, Add(Add(Aux(i, b, c, d), x[K(i)]), T(i))), S(i)))
  }

  /** The first n steps; the four words rotate. */
  function Steps(n: nat, st: State, x: seq<Word>): State
    requires |x| == 16
  {
    if n == 0 then st else
      var p := Steps(n - 1, st, x);
      State(p.d, Op(n - 1, p.a, p.b, p.c, p.d, x), p.b, p.c)
  }

  /** Four bytes, low-order first. */
  function ToWord(b: seq<Byte>): Word
    requires |b| == 4
  {
    Word((b[0] as bv32) | ((b[1] as bv32) << 8) | ((b[2] as bv32) << 16) | ((b[3] as bv32) << 24))
  }

  function Words(block: seq<Byte>): (x: seq<Word>)
    requires |block| == 64
    ensures |x| == 16
  {
    seq(16, k requires 0 <= k < 16 => ToWord(block[4 * k..4 * k + 4]))
  }

  function Compress(st: State, block: seq<Byte>): State
    requires |block| == 64
  {
    var r := Steps(64, st, Words(block));
    State(Add(st.a, r.a), Add(st.b, r.b), Add(st.c, r.c), Add(st.d, r.d))
  }

  /** All whole blocks of the message, in turn. */
  function Fold(st: State, m: seq<Byte>): State
    decreases |m|
  {
    if |m| < 64 then st else Fold(Compress(st, m[..64]), m[64..])
  }

  // ----- sections 3.1, 3.2, 3.3, 3.5 -----

  const INIT := State(Word(0x67452301), Word(0xefcdab89), Word(0x98badcfe), Word(0x10325476))

  const TWO_29: nat := 0x2000_0000
  const TWO_32: nat := 0x1_0000_0000

  function LengthBytes(w: nat): (r: seq<Byte>)
    ensures |r| == 4
  {
    [(w % 256) as Byte, (w / 0x100 % 256) as Byte, (w / 0x1_0000 % 256) as Byte, (w / 0x100_0000 % 256) as Byte]
  }

  function WordBytes(w: Word): (r: seq<Byte>)
    ensures |r| == 4
  {
    var v := w.bits;
    [(v & 0xff) as Byte, ((v >> 8) & 0xff) as Byte, ((v >> 16) & 0xff) as Byte, ((v >> 24) & 0xff) as Byte]
  }

  /** One 1 bit, zeros up to 8 bytes short of a whole block, and the length of
      the message in bits modulo 2^64, low-order word first. */
  function Pad(m: seq<Byte>): seq<Byte> {
    var bits := 8 * |m|;
    m + [0x80] + Repeat<Byte>(0, (119 - |m| % 64) % 64)
    + LengthBytes(bits % TWO_32) + LengthBytes(bits / TWO_32 % TWO_32)
  }

  function Output(st: State): seq<Byte> {
    WordBytes(st.a) + WordBytes(st.b) + WordBytes(st.c) + WordBytes(st.d)
  }

  function Digest(m: seq<Byte>): seq<Byte> { Output(Fold(INIT, Pad(m))) }

  // ----- the order of bytes -----

  /** A word is its four bytes to the base 256, the first one lowest, and reading and
      writing it undo each other. */
  lemma WordOfBytes(b: seq<Byte>)
    requires |b| == 4
    ensures ToWord(b).bits ==
            b[0] as bv32 + 256 * (b[1] as bv32) + 65536 * (b[2] as bv32) + 16777216 * (b[3] as bv32)
    ensures WordBytes(ToWord(b)) == b
  {
  }

  lemma BytesOfWord(w: Word)
    ensures ToWord(WordBytes(w)) == w
  {
  }

  /** The bytes of a length are its digits to the base 256, the first one lowest. */
  lemma LengthOfBytes(w: nat, d: seq<nat>)
    requires |d| == 4 && (forall i | 0 <= i < 4 :: d[i] < 256)
    requires w == d[0] + 256 * (d[1] + 256 * (d[2] + 256 * d[3]))
    ensures LengthBytes(w) == [d[0] as Byte, d[1] as Byte, d[2] as Byte, d[3] as Byte]
  {
    Base256(w, d[0], d[1], d[2], d[3]);
  }

  lemma Base256(w: nat, a: nat, b: nat, c: nat, d: nat)
    requires a < 256 && b < 256 && c < 256 && d < 256 && w == a + 256 * (b + 256 * (c + 256 * d))
    ensures w % 256 == a && w / 0x100 % 256 == b && w / 0x1_0000 % 256 == c && w / 0x100_0000 % 256 == d
  {
    var z := c + 256 * d;
    var y := b + 256 * z;
    assert w % 256 == a && w / 256 == y && y % 256 == b && y / 256 == z && z % 256 == c && z / 256 == d;
    Quotients(w);
  }

  lemma Quotients(w: nat)
    ensures w / 0x1_0000 == w / 256 / 256 && w / 0x100_0000 == w / 256 / 256 / 256
  {
  }

  // ----- properties of the fold -----

  /** Folding may stop and go on at any block boundary. */
  lemma {:induction false} FoldConcat(st: State, p: seq<Byte>, q: seq<Byte>)
    requires |p| % 64 == 0
    ensures Fold(st, p + q) == Fold(Fold(st, p), q)
    decreases |p|
  {
    hide Compress;
    if |p| == 0 {
      assert p + q == q;
    } else {
      assert |p| >= 64;
      assert (p + q)[..64] == p[..64] && (p + q)[64..] == p[64..] + q;
      FoldConcat(Compress(st, p[..64]), p[64..], q);
    }
  }

  /** A tail shorter than a block does not matter. */
  lemma {:induction false} FoldIgnoresTail(st: State, p: seq<Byte>, q: seq<Byte>)
    requires |p| % 64 == 0 && |q| < 64
    ensures Fold(st, p + q) == Fold(st, p)
  {
    FoldConcat(st, p, q);
  }

  /** How many zeros the padding takes: up to 8 bytes short of a whole block. */
  lemma ZerosFill(n: nat, z: nat)
    requires z == (119 - n % 64) % 64
    ensures z == (if n % 64 < 56 then 55 - n % 64 else 119 - n % 64) && (n + z + 9) % 64 == 0
  {
    assert n == 64 * (n / 64) + n % 64;
    if n % 64 < 56 {
      assert n + z + 9 == 64 * (n / 64 + 1);
    } else {
      assert n + z + 9 == 64 * (n / 64 + 2);
    }
  }

  /** The padded message is whole blocks, as few as will do: the message, the byte with
      the 1 bit, zeros, and the number of its bits modulo 2^64 in the last eight bytes. */
  lemma PadIsWholeBlocks(m: seq<Byte>)
    ensures var p, n, bits := Pad(m), |Pad(m)|, 8 * |m|;
            && n % 64 == 0 && |m| + 9 <= n < |m| + 9 + 64
            && p[..|m|] == m && p[|m|] == 0x80 && (forall i | |m| < i < n - 8 :: p[i] == 0)
            && p[n - 8..n - 4] == LengthBytes(bits % 0x1_0000_0000)
            && p[n - 4..] == LengthBytes(bits / 0x1_0000_0000 % 0x1_0000_0000)
  {
    var z := Repeat<Byte>(0, (119 - |m| % 64) % 64);
    ZerosFill(|m|, |z|);
    hide LengthBytes;
    assert |Pad(m)| == |m| + |z| + 9;
  }
}
