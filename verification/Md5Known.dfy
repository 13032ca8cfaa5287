/** The third digest of the test suite in appendix A.5 of RFC 1321, step by step: it
    holds the tables, the byte orders, the padding and the order of the operations. */
module Md5Known {
  import opened Basics
  import opened Md5Spec
  import opened Md5

  /** The circular shift, for the amounts that occur, with both shifts written out. */
  function Turned(x: Word, s: nat): Word {
    match s
    case 4 => Word((x.bits << 4) | (x.bits >> 28))
    case 5 => Word((x.bits << 5) | (x.bits >> 27))
    case 6 => Word((x.bits << 6) | (x.bits >> 26))
    case 7 => Word((x.bits << 7) | (x.bits >> 25))
    case 9 => Word((x.bits << 9) | (x.bits >> 23))
    case 10 => Word((x.bits << 10) | (x.bits >> 22))
    case 11 => Word((x.bits << 11) | (x.bits >> 21))
    case 12 => Word((x.bits << 12) | (x.bits >> 20))
    case 14 => Word((x.bits << 14) | (x.bits >> 18))
    case 15 => Word((x.bits << 15) | (x.bits >> 17))
    case 16 => Word((x.bits << 16) | (x.bits >> 16))
    case 17 => Word((x.bits << 17) | (x.bits >> 15))
    case 20 => Word((x.bits << 20) | (x.bits >> 12))
    case 21 => Word((x.bits << 21) | (x.bits >> 11))
    case 22 => Word((x.bits << 22) | (x.bits >> 10))
    case 23 => Word((x.bits << 23) | (x.bits >> 9))
    case _ => x
  }

  lemma TurnedIsRotate(x: Word, s: nat)
    requires s in [4, 5, 6, 7, 9, 10, 11, 12, 14, 15, 16, 17, 20, 21, 22, 23]
    ensures Rotate(x, s) == Turned(x, s)
  {
    if s == 4 {} else if s == 5 {} else if s == 6 {}
    else if s == 7 {} else if s == 9 {} else if s == 10 {} else if s == 11 {}
    else if s == 12 {} else if s == 14 {} else if s == 15 {} else if s == 16 {}
    else if s == 17 {} else if s == 20 {} else if s == 21 {} else if s == 22 {} else { assert s == 23; }
  }

  /** One operation, with what it adds and what it turns spelled out. */
  lemma OneOp(i: nat, a: Word, b: Word, c: Word, d: Word, x: seq<Word>, f: Word, sum: Word, r: Word)
    requires |x| == 16 && i < 64 && Aux(i, b, c, d) == f && Add(a, Add(Add(f, x[K(i)]), T(i))) == sum
    requires Add(b, Turned(sum, S(i))) == r
    ensures Op(i, a, b, c, d, x) == r
  {
    hide Aux, T, K, S, Rotate, Turned, Add;
    Amounts(i);
    TurnedIsRotate(sum, S(i));
  }

  lemma Amounts(i: nat)
    ensures S(i) in [4, 5, 6, 7, 9, 10, 11, 12, 14, 15, 16, 17, 20, 21, 22, 23]
  {
  }

  /** The block of the message "abc". */
  ghost predicate IsAbc(x: seq<Word>) {
    && |x| == 16 && x[0] == Word(0x80636261) && x[14] == Word(24)
    && forall k | 0 < k < 16 && k != 14 :: x[k] == Word(0)
  }

  lemma Abc0(x: seq<Word>)
    requires IsAbc(x)
    ensures Steps(0, INIT, x) == State(Word(0x67452301), Word(0xefcdab89), Word(0x98badcfe), Word(0x10325476))
  {
  }

  lemma Rows0()
    ensures K(0) == 0 && S(0) == 7 && T(0) == Word(0xd76aa478)
    ensures K(1) == 1 && S(1) == 12 && T(1) == Word(0xe8c7b756)
    ensures K(2) == 2 && S(2) == 17 && T(2) == Word(0x242070db)
    ensures K(3) == 3 && S(3) == 22 && T(3) == Word(0xc1bdceee)
  {
  }

  lemma Abc4(x: seq<Word>)
    requires IsAbc(x)
    ensures Steps(4, INIT, x) == State(Word(0xd6d117b4), Word(0x7ad956f2), Word(0x2f6fbd72), Word(0x344a8432))
  {
    Rows0();
    hide Steps, Op, K, S, T;
    OneOp(0, Word(0x67452301), Word(0xefcdab89), Word(0x98badcfe), Word(0x10325476), x,
          Word(0x98badcfe), Word(0x57ce06d8), Word(0xd6d117b4));
    OneOp(1, Word(0x10325476), Word(0xd6d117b4), Word(0xefcdab89), Word(0x98badcfe), x,
          Word(0xceebcbca), Word(0xc7e5d796), Word(0x344a8432));
    OneOp(2, Word(0x98badcfe), Word(0x344a8432), Word(0xd6d117b4), Word(0xefcdab89), x,
          Word(0xdfc52fb9), Word(0x9ca07d92), Word(0x2f6fbd72));
    OneOp(3, Word(0xefcdab89), Word(0x2f6fbd72), Word(0x344a8432), Word(0xd6d117b4), x,
          Word(0xf4da86b6), Word(0xa666012d), Word(0x7ad956f2));
    Abc0(x);
    Quad(0, INIT, x, Steps(0, INIT, x), Word(0xd6d117b4), Word(0x7ad956f2), Word(0x2f6fbd72), Word(0x344a8432));
  }

  lemma Rows4()
    ensures K(4) == 4 && S(4) == 7 && T(4) == Word(0xf57c0faf)
    ensures K(5) == 5 && S(5) == 12 && T(5) == Word(0x4787c62a)
    ensures K(6) == 6 && S(6) == 17 && T(6) == Word(0xa8304613)
    ensures K(7) == 7 && S(7) == 22 && T(7) == Word(0xfd469501)
  {
  }

  lemma Abc8(x: seq<Word>)
    requires IsAbc(x)
    ensures Steps(8, INIT, x) == State(Word(0xc73741ef), Word(0x928d99f6), Word(0x207dc67b), Word(0x8bac3051))
  {
    Rows4();
    hide Steps, Op, K, S, T;
    OneOp(4, Word(0xd6d117b4), Word(0x7ad956f2), Word(0x2f6fbd72), Word(0x344a8432), x,
          Word(0x2e4b9472), Word(0xfa98bbd5), Word(0xc73741ef));
    OneOp(5, Word(0x344a8432), Word(0xc73741ef), Word(0x7ad956f2), Word(0x2f6fbd72), x,
          Word(0x6a59fcf2), Word(0xe62c474e), Word(0x8bac3051));
    OneOp(6, Word(0x2f6fbd72), Word(0x8bac3051), Word(0xc73741ef), Word(0x7ad956f2), x,
          Word(0xf37546e3), Word(0xcb154a68), Word(0x207dc67b));
    OneOp(7, Word(0x7ad956f2), Word(0x207dc67b), Word(0x8bac3051), Word(0xc73741ef), x,
          Word(0xc72e01d5), Word(0x3f4dedc8), Word(0x928d99f6));
    Abc4(x);
    Quad(4, INIT, x, Steps(4, INIT, x), Word(0xc73741ef), Word(0x928d99f6), Word(0x207dc67b), Word(0x8bac3051));
  }

  lemma Rows8()
    ensures K(8) == 8 && S(8) == 7 && T(8) == Word(0x698098d8)
    ensures K(9) == 9 && S(9) == 12 && T(9) == Word(0x8b44f7af)
    ensures K(10) == 10 && S(10) == 17 && T(10) == Word(0xffff5bb1)
    ensures K(11) == 11 && S(11) == 22 && T(11) == Word(0x895cd7be)
  {
  }

  lemma Abc12(x: seq<Word>)
    requires IsAbc(x)
    ensures Steps(12, INIT, x) == State(Word(0x854b3712), Word(0x5ed49596), Word(0x3020401c), Word(0x74e2f284))
  {
    Rows8();
    hide Steps, Op, K, S, T;
    OneOp(8, Word(0xc73741ef), Word(0x928d99f6), Word(0x207dc67b), Word(0x8bac3051), x,
          Word(0x092da073), Word(0x39e57b3a), Word(0x854b3712));
    OneOp(9, Word(0x8bac3051), Word(0x854b3712), Word(0x928d99f6), Word(0x207dc67b), x,
          Word(0xa03dd17b), Word(0xb72ef97b), Word(0x74e2f284));
    OneOp(10, Word(0x207dc67b), Word(0x74e2f284), Word(0x854b3712), Word(0x928d99f6), x,
          Word(0x864f3b72), Word(0xa6cc5d9e), Word(0x3020401c));
    OneOp(11, Word(0x928d99f6), Word(0x3020401c), Word(0x74e2f284), Word(0x854b3712), x,
          Word(0xb56b7706), Word(0xd155e8ba), Word(0x5ed49596));
    Abc8(x);
    Quad(8, INIT, x, Steps(8, INIT, x), Word(0x854b3712), Word(0x5ed49596), Word(0x3020401c), Word(0x74e2f284));
  }

  lemma Rows12()
    ensures K(12) == 12 && S(12) == 7 && T(12) == Word(0x6b901122)
    ensures K(13) == 13 && S(13) == 12 && T(13) == Word(0xfd987193)
    ensures K(14) == 14 && S(14) == 17 && T(14) == Word(0xa679438e)
    ensures K(15) == 15 && S(15) == 22 && T(15) == Word(0x49b40821)
  {
  }

  lemma Abc16(x: seq<Word>)
    requires IsAbc(x)
    ensures Steps(16, INIT, x) == State(Word(0xdda9b9a6), Word(0x72aff2e0), Word(0xe396856b), Word(0xa1051895))
  {
    Rows12();
    hide Steps, Op, K, S, T;
    OneOp(12, Word(0x854b3712), Word(0x5ed49596), Word(0x3020401c), Word(0x74e2f284), x,
          Word(0x30226214), Word(0x20fdaa48), Word(0xdda9b9a6));
    OneOp(13, Word(0x74e2f284), Word(0xdda9b9a6), Word(0x5ed49596), Word(0x3020401c), x,
          Word(0x7c80d19e), Word(0xeefc35b5), Word(0xa1051895));
    OneOp(14, Word(0x3020401c), Word(0xa1051895), Word(0xdda9b9a6), Word(0x5ed49596), x,
          Word(0xdfd19d86), Word(0xb66b2148), Word(0xe396856b));
    OneOp(15, Word(0x5ed49596), Word(0xe396856b), Word(0xa1051895), Word(0xdda9b9a6), x,
          Word(0xbd2d3885), Word(0x65b5d63c), Word(0x72aff2e0));
    Abc12(x);
    Quad(12, INIT, x, Steps(12, INIT, x), Word(0xdda9b9a6), Word(0x72aff2e0), Word(0xe396856b), Word(0xa1051895));
  }

  lemma Rows16()
    ensures K(16) == 1 && S(16) == 5 && T(16) == Word(0xf61e2562)
    ensures K(17) == 6 && S(17) == 9 && T(17) == Word(0xc040b340)
    ensures K(18) == 11 && S(18) == 14 && T(18) == Word(0x265e5a51)
    ensures K(19) == 0 && S(19) == 20 && T(19) == Word(0xe9b6c7aa)
  {
  }

  lemma Abc20(x: seq<Word>)
    requires IsAbc(x)
    ensures Steps(20, INIT, x) == State(Word(0x3e9e9126), Word(0xb5b204e4), Word(0xe25e1652), Word(0x4a1d804e))
  {
    Rows16();
    hide Steps, Op, K, S, T;
    OneOp(16, Word(0xdda9b9a6), Word(0x72aff2e0), Word(0xe396856b), Word(0xa1051895), x,
          Word(0x629795ea), Word(0x365f74f2), Word(0x3e9e9126));
    OneOp(17, Word(0xa1051895), Word(0x3e9e9126), Word(0x72aff2e0), Word(0xe396856b), x,
          Word(0x32bff3a2), Word(0x9405bf77), Word(0x4a1d804e));
    OneOp(18, Word(0xe396856b), Word(0x4a1d804e), Word(0x3e9e9126), Word(0x72aff2e0), x,
          Word(0x4e1d8146), Word(0x58126102), Word(0xe25e1652));
    OneOp(19, Word(0x72aff2e0), Word(0xe25e1652), Word(0x4a1d804e), Word(0x3e9e9126), x,
          Word(0x621f104a), Word(0x3ee92d35), Word(0xb5b204e4));
    Abc16(x);
    Quad(16, INIT, x, Steps(16, INIT, x), Word(0x3e9e9126), Word(0xb5b204e4), Word(0xe25e1652), Word(0x4a1d804e));
  }

  lemma Rows20()
    ensures K(20) == 5 && S(20) == 5 && T(20) == Word(0xd62f105d)
    ensures K(21) == 10 && S(21) == 9 && T(21) == Word(0x02441453)
    ensures K(22) == 15 && S(22) == 14 && T(22) == Word(0xd8a1e681)
    ensures K(23) == 4 && S(23) == 20 && T(23) == Word(0xe7d3fbc8)
  {
  }

  lemma Abc24(x: seq<Word>)
    requires IsAbc(x)
    ensures Steps(24, INIT, x) == State(Word(0x59a8ffda), Word(0x47092c07), Word(0xabfc7920), Word(0x6d002f1e))
  {
    Rows20();
    hide Steps, Op, K, S, T;
    OneOp(20, Word(0x3e9e9126), Word(0xb5b204e4), Word(0xe25e1652), Word(0x4a1d804e), x,
          Word(0xa0521654), Word(0xb51fb7d7), Word(0x59a8ffda));
    OneOp(21, Word(0x4a1d804e), Word(0x59a8ffda), Word(0xb5b204e4), Word(0xe25e1652), x,
          Word(0x55a816f6), Word(0xa209ab97), Word(0x6d002f1e));
    OneOp(22, Word(0xe25e1652), Word(0x6d002f1e), Word(0x59a8ffda), Word(0xb5b204e4), x,
          Word(0x6d08ff1e), Word(0x2808fbf1), Word(0xabfc7920));
    OneOp(23, Word(0xb5b204e4), Word(0xabfc7920), Word(0x6d002f1e), Word(0x59a8ffda), x,
          Word(0x2da87904), Word(0xcb2e79b0), Word(0x47092c07));
    Abc20(x);
    Quad(20, INIT, x, Steps(20, INIT, x), Word(0x59a8ffda), Word(0x47092c07), Word(0xabfc7920), Word(0x6d002f1e));
  }

  lemma Rows24()
    ensures K(24) == 9 && S(24) == 5 && T(24) == Word(0x21e1cde6)
    ensures K(25) == 14 && S(25) == 9 && T(25) == Word(0xc33707d6)
    ensures K(26) == 3 && S(26) == 14 && T(26) == Word(0xf4d50d87)
    ensures K(27) == 8 && S(27) == 20 && T(27) == Word(0x455a14ed)
  {
  }

  lemma Abc28(x: seq<Word>)
    requires IsAbc(x)
    ensures Steps(28, INIT, x) == State(Word(0xb7f268cf), Word(0x786acb8f), Word(0xfe1623b1), Word(0x09388eff))
  {
    Rows24();
    hide Steps, Op, K, S, T;
    OneOp(24, Word(0x59a8ffda), Word(0x47092c07), Word(0xabfc7920), Word(0x6d002f1e), x,
          Word(0xc7fc7c26), Word(0x438749e6), Word(0xb7f268cf));
    OneOp(25, Word(0x6d002f1e), Word(0xb7f268cf), Word(0x47092c07), Word(0xabfc7920), x,
          Word(0xe7f16c07), Word(0x1828a313), Word(0x09388eff));
    OneOp(26, Word(0xabfc7920), Word(0x09388eff), Word(0xb7f268cf), Word(0x47092c07), x,
          Word(0xb1fa4ccf), Word(0x52cbd376), Word(0xfe1623b1));
    OneOp(27, Word(0x47092c07), Word(0xfe1623b1), Word(0x09388eff), Word(0xb7f268cf), x,
          Word(0xbe1aa6b1), Word(0x4a7de7a5), Word(0x786acb8f));
    Abc24(x);
    Quad(24, INIT, x, Steps(24, INIT, x), Word(0xb7f268cf), Word(0x786acb8f), Word(0xfe1623b1), Word(0x09388eff));
  }

  lemma Rows28()
    ensures K(28) == 13 && S(28) == 5 && T(28) == Word(0xa9e3e905)
    ensures K(29) == 2 && S(29) == 9 && T(29) == Word(0xfcefa3f8)
    ensures K(30) == 7 && S(30) == 14 && T(30) == Word(0x676f02d9)
    ensures K(31) == 12 && S(31) == 20 && T(31) == Word(0x8d2a4c8a)
  {
  }

  lemma Abc32(x: seq<Word>)
    requires IsAbc(x)
    ensures Steps(32, INIT, x) == State(Word(0x790a77fb), Word(0x726342d3), Word(0xa62884aa), Word(0x9f47e4f8))
  {
    Rows28();
    hide Steps, Op, K, S, T;
    OneOp(28, Word(0xb7f268cf), Word(0x786acb8f), Word(0xfe1623b1), Word(0x09388eff), x,
          Word(0xfe2eab8f), Word(0x6004fd63), Word(0x790a77fb));
    OneOp(29, Word(0x09388eff), Word(0x790a77fb), Word(0x786acb8f), Word(0xfe1623b1), x,
          Word(0x786aebbf), Word(0x7e931eb6), Word(0x9f47e4f8));
    OneOp(30, Word(0xfe1623b1), Word(0x9f47e4f8), Word(0x790a77fb), Word(0x786acb8f), x,
          Word(0x1942f4f8), Word(0x7ec81b82), Word(0xa62884aa));
    OneOp(31, Word(0x786acb8f), Word(0xa62884aa), Word(0x9f47e4f8), Word(0x790a77fb), x,
          Word(0xa64d84aa), Word(0xabe29cc3), Word(0x726342d3));
    Abc28(x);
    Quad(28, INIT, x, Steps(28, INIT, x), Word(0x790a77fb), Word(0x726342d3), Word(0xa62884aa), Word(0x9f47e4f8));
  }

  lemma Rows32()
    ensures K(32) == 5 && S(32) == 4 && T(32) == Word(0xfffa3942)
    ensures K(33) == 8 && S(33) == 11 && T(33) == Word(0x8771f681)
    ensures K(34) == 11 && S(34) == 16 && T(34) == Word(0x6d9d6122)
    ensures K(35) == 14 && S(35) == 23 && T(35) == Word(0xfde5380c)
  {
  }

  lemma Abc36(x: seq<Word>)
    requires IsAbc(x)
    ensures Steps(36, INIT, x) == State(Word(0xb3707ebf), Word(0x3b0875c7), Word(0x8d212ff5), Word(0x60127b2e))
  {
    Rows32();
    hide Steps, Op, K, S, T;
    OneOp(32, Word(0x790a77fb), Word(0x726342d3), Word(0xa62884aa), Word(0x9f47e4f8), x,
          Word(0x4b0c2281), Word(0xc410d3be), Word(0xb3707ebf));
    OneOp(33, Word(0x9f47e4f8), Word(0xb3707ebf), Word(0x726342d3), Word(0xa62884aa), x,
          Word(0x673bb8c6), Word(0x8df5943f), Word(0x60127b2e));
    OneOp(34, Word(0xa62884aa), Word(0x60127b2e), Word(0xb3707ebf), Word(0x726342d3), x,
          Word(0xa1014742), Word(0xb4c72d0e), Word(0x8d212ff5));
    OneOp(35, Word(0x726342d3), Word(0x8d212ff5), Word(0x60127b2e), Word(0xb3707ebf), x,
          Word(0x5e432a64), Word(0xce8ba55b), Word(0x3b0875c7));
    Abc32(x);
    Quad(32, INIT, x, Steps(32, INIT, x), Word(0xb3707ebf), Word(0x3b0875c7), Word(0x8d212ff5), Word(0x60127b2e));
  }

  lemma Rows36()
    ensures K(36) == 1 && S(36) == 4 && T(36) == Word(0xa4beea44)
    ensures K(37) == 4 && S(37) == 11 && T(37) == Word(0x4bdecfa9)
    ensures K(38) == 7 && S(38) == 16 && T(38) == Word(0xf6bb4b60)
    ensures K(39) == 10 && S(39) == 23 && T(39) == Word(0xbebfbc70)
  {
  }

  lemma Abc40(x: seq<Word>)
    requires IsAbc(x)
    ensures Steps(40, INIT, x) == State(Word(0x21b117b9), Word(0x5a2f5ea5), Word(0x3575227e), Word(0x6e7429d5))
  {
    Rows36();
    hide Steps, Op, K, S, T;
    OneOp(36, Word(0xb3707ebf), Word(0x3b0875c7), Word(0x8d212ff5), Word(0x60127b2e), x,
          Word(0xd63b211c), Word(0x2e6a8a1f), Word(0x21b117b9));
    OneOp(37, Word(0x60127b2e), Word(0x21b117b9), Word(0x3b0875c7), Word(0x8d212ff5), x,
          Word(0x97984d8b), Word(0x43899862), Word(0x6e7429d5));
    OneOp(38, Word(0x8d212ff5), Word(0x6e7429d5), Word(0x21b117b9), Word(0x3b0875c7), x,
          Word(0x74cd4bab), Word(0xf8a9c700), Word(0x3575227e));
    OneOp(39, Word(0x3b0875c7), Word(0x3575227e), Word(0x6e7429d5), Word(0x21b117b9), x,
          Word(0x7ab01c12), Word(0x74784e49), Word(0x5a2f5ea5));
    Abc36(x);
    Quad(36, INIT, x, Steps(36, INIT, x), Word(0x21b117b9), Word(0x5a2f5ea5), Word(0x3575227e), Word(0x6e7429d5));
  }

  lemma Rows40()
    ensures K(40) == 13 && S(40) == 4 && T(40) == Word(0x289b7ec6)
    ensures K(41) == 0 && S(41) == 11 && T(41) == Word(0xeaa127fa)
    ensures K(42) == 3 && S(42) == 16 && T(42) == Word(0xd4ef3085)
    ensures K(43) == 6 && S(43) == 23 && T(43) == Word(0x04881d05)
  {
  }

  lemma Abc44(x: seq<Word>)
    requires IsAbc(x)
    ensures Steps(44, INIT, x) == State(Word(0x11de1779), Word(0x4c6124f4), Word(0x31c465ca), Word(0xfadcaa38))
  {
    Rows40();
    hide Steps, Op, K, S, T;
    OneOp(40, Word(0x21b117b9), Word(0x5a2f5ea5), Word(0x3575227e), Word(0x6e7429d5), x,
          Word(0x012e550e), Word(0x4b7aeb8d), Word(0x11de1779));
    OneOp(41, Word(0x6e7429d5), Word(0x11de1779), Word(0x5a2f5ea5), Word(0x3575227e), x,
          Word(0x7e846ba2), Word(0x57fd1fd2), Word(0xfadcaa38));
    OneOp(42, Word(0x3575227e), Word(0xfadcaa38), Word(0x11de1779), Word(0x5a2f5ea5), x,
          Word(0xb12de3e4), Word(0xbb9236e7), Word(0x31c465ca));
    OneOp(43, Word(0x5a2f5ea5), Word(0x31c465ca), Word(0xfadcaa38), Word(0x11de1779), x,
          Word(0xdac6d88b), Word(0x397e5435), Word(0x4c6124f4));
    Abc40(x);
    Quad(40, INIT, x, Steps(40, INIT, x), Word(0x11de1779), Word(0x4c6124f4), Word(0x31c465ca), Word(0xfadcaa38));
  }

  lemma Rows44()
    ensures K(44) == 9 && S(44) == 4 && T(44) == Word(0xd9d4d039)
    ensures K(45) == 12 && S(45) == 11 && T(45) == Word(0xe6db99e5)
    ensures K(46) == 15 && S(46) == 16 && T(46) == Word(0x1fa27cf8)
    ensures K(47) == 2 && S(47) == 23 && T(47) == Word(0xc4ac5665)
  {
  }

  lemma Abc48(x: seq<Word>)
    requires IsAbc(x)
    ensures Steps(48, INIT, x) == State(Word(0x7f2e507b), Word(0x7beb9700), Word(0x8fae6399), Word(0x99d9679d))
  {
    Rows44();
    hide Steps, Op, K, S, T;
    OneOp(44, Word(0x11de1779), Word(0x4c6124f4), Word(0x31c465ca), Word(0xfadcaa38), x,
          Word(0x8779eb06), Word(0x732cd2b8), Word(0x7f2e507b));
    OneOp(45, Word(0xfadcaa38), Word(0x7f2e507b), Word(0x4c6124f4), Word(0x31c465ca), x,
          Word(0x028b1145), Word(0xe4435562), Word(0x99d9679d));
    OneOp(46, Word(0x31c465ca), Word(0x99d9679d), Word(0x7f2e507b), Word(0x4c6124f4), x,
          Word(0xaa961312), Word(0xfbfcf5d4), Word(0x8fae6399));
    OneOp(47, Word(0x4c6124f4), Word(0x8fae6399), Word(0x99d9679d), Word(0x7f2e507b), x,
          Word(0x6959547f), Word(0x7a66cfd8), Word(0x7beb9700));
    Abc44(x);
    Quad(44, INIT, x, Steps(44, INIT, x), Word(0x7f2e507b), Word(0x7beb9700), Word(0x8fae6399), Word(0x99d9679d));
  }

  lemma Rows48()
    ensures K(48) == 0 && S(48) == 6 && T(48) == Word(0xf4292244)
    ensures K(49) == 7 && S(49) == 10 && T(49) == Word(0x432aff97)
    ensures K(50) == 14 && S(50) == 15 && T(50) == Word(0xab9423a7)
    ensures K(51) == 5 && S(51) == 21 && T(51) == Word(0xfc93a039)
  {
  }

  lemma Abc52(x: seq<Word>)
    requires IsAbc(x)
    ensures Steps(52, INIT, x) == State(Word(0x7b201df8), Word(0x8bf025c4), Word(0xb298cefd), Word(0xf4e8e96e))
  {
    Rows48();
    hide Steps, Op, K, S, T;
    OneOp(48, Word(0x7f2e507b), Word(0x7beb9700), Word(0x8fae6399), Word(0x99d9679d), x,
          Word(0xf041fcfb), Word(0xe3fcd21b), Word(0x7b201df8));
    OneOp(49, Word(0x99d9679d), Word(0x7b201df8), Word(0x7beb9700), Word(0x8fae6399), x,
          Word(0x009a0afe), Word(0xdd9e7232), Word(0xf4e8e96e));
    OneOp(50, Word(0x8fae6399), Word(0xf4e8e96e), Word(0x7b201df8), Word(0x7beb9700), x,
          Word(0x8fdcf407), Word(0xcb1f7b5f), Word(0xb298cefd));
    OneOp(51, Word(0x7beb9700), Word(0xb298cefd), Word(0xf4e8e96e), Word(0x7b201df8), x,
          Word(0x42370791), Word(0xbab63eca), Word(0x8bf025c4));
    Abc48(x);
    Quad(48, INIT, x, Steps(48, INIT, x), Word(0x7b201df8), Word(0x8bf025c4), Word(0xb298cefd), Word(0xf4e8e96e));
  }

  lemma Rows52()
    ensures K(52) == 12 && S(52) == 6 && T(52) == Word(0x655b59c3)
    ensures K(53) == 3 && S(53) == 10 && T(53) == Word(0x8f0ccc92)
    ensures K(54) == 10 && S(54) == 15 && T(54) == Word(0xffeff47d)
    ensures K(55) == 1 && S(55) == 21 && T(55) == Word(0x85845dd1)
  {
  }

  lemma Abc56(x: seq<Word>)
    requires IsAbc(x)
    ensures Steps(56, INIT, x) == State(Word(0x06cc5e8a), Word(0x3bfa2c27), Word(0x7d632dd0), Word(0x5b0d97aa))
  {
    Rows52();
    hide Steps, Op, K, S, T;
    OneOp(52, Word(0x7b201df8), Word(0x8bf025c4), Word(0xb298cefd), Word(0xf4e8e96e), x,
          Word(0x396ff928), Word(0x19eb70e3), Word(0x06cc5e8a));
    OneOp(53, Word(0xf4e8e96e), Word(0x06cc5e8a), Word(0x8bf025c4), Word(0xb298cefd), x,
          Word(0xc41f5a4e), Word(0x4815104e), Word(0x5b0d97aa));
    OneOp(54, Word(0xb298cefd), Word(0x5b0d97aa), Word(0x06cc5e8a), Word(0x8bf025c4), x,
          Word(0x79c38131), Word(0x2c4c44ab), Word(0x7d632dd0));
    OneOp(55, Word(0x8bf025c4), Word(0x7d632dd0), Word(0x5b0d97aa), Word(0x06cc5e8a), x,
          Word(0xa67e3a5f), Word(0xb7f2bdf4), Word(0x3bfa2c27));
    Abc52(x);
    Quad(52, INIT, x, Steps(52, INIT, x), Word(0x06cc5e8a), Word(0x3bfa2c27), Word(0x7d632dd0), Word(0x5b0d97aa));
  }

  lemma Rows56()
    ensures K(56) == 8 && S(56) == 6 && T(56) == Word(0x6fa87e4f)
    ensures K(57) == 15 && S(57) == 10 && T(57) == Word(0xfe2ce6e0)
    ensures K(58) == 6 && S(58) == 15 && T(58) == Word(0xa3014314)
    ensures K(59) == 13 && S(59) == 21 && T(59) == Word(0x4e0811a1)
  {
  }

  lemma Abc60(x: seq<Word>)
    requires IsAbc(x)
    ensures Steps(60, INIT, x) == State(Word(0x7f81cc35), Word(0x7327d604), Word(0x4f9dbe3f), Word(0x094454ab))
  {
    Rows56();
    hide Steps, Op, K, S, T;
    OneOp(56, Word(0x06cc5e8a), Word(0x3bfa2c27), Word(0x7d632dd0), Word(0x5b0d97aa), x,
          Word(0xc29941a7), Word(0x390e1e80), Word(0x7f81cc35));
    OneOp(57, Word(0x5b0d97aa), Word(0x7f81cc35), Word(0x3bfa2c27), Word(0x7d632dd0), x,
          Word(0xc467f218), Word(0x1da270a2), Word(0x094454ab));
    OneOp(58, Word(0x7d632dd0), Word(0x094454ab), Word(0x7f81cc35), Word(0x3bfa2c27), x,
          Word(0xb2c41bce), Word(0xd3288cb2), Word(0x4f9dbe3f));
    OneOp(59, Word(0x3bfa2c27), Word(0x4f9dbe3f), Word(0x094454ab), Word(0x7f81cc35), x,
          Word(0xc6bbeb54), Word(0x50be291c), Word(0x7327d604));
    Abc56(x);
    Quad(56, INIT, x, Steps(56, INIT, x), Word(0x7f81cc35), Word(0x7327d604), Word(0x4f9dbe3f), Word(0x094454ab));
  }

  lemma Rows60()
    ensures K(60) == 4 && S(60) == 6 && T(60) == Word(0xf7537e82)
    ensures K(61) == 11 && S(61) == 10 && T(61) == Word(0xbd3af235)
    ensures K(62) == 2 && S(62) == 15 && T(62) == Word(0x2ad7d2bb)
    ensures K(63) == 9 && S(63) == 21 && T(63) == Word(0xeb86d391)
  {
  }

  lemma Abc64(x: seq<Word>)
    requires IsAbc(x)
    ensures Steps(64, INIT, x) == State(Word(0x310ade8f), Word(0xc08226b3), Word(0xe484b9d8), Word(0x624d8cb2))
  {
    Rows60();
    hide Steps, Op, K, S, T;
    OneOp(60, Word(0x7f81cc35), Word(0x7327d604), Word(0x4f9dbe3f), Word(0x094454ab), x,
          Word(0xb822416b), Word(0x2ef78c22), Word(0x310ade8f));
    OneOp(61, Word(0x094454ab), Word(0x310ade8f), Word(0x7327d604), Word(0x4f9dbe3f), x,
          Word(0xc24d09cb), Word(0x88cc50ab), Word(0x624d8cb2));
    OneOp(62, Word(0x4f9dbe3f), Word(0x624d8cb2), Word(0x310ade8f), Word(0x7327d604), x,
          Word(0xdfd77374), Word(0x5a4d046e), Word(0xe484b9d8));
    OneOp(63, Word(0x7327d604), Word(0xe484b9d8), Word(0x624d8cb2), Word(0x310ade8f), x,
          Word(0x8cb8354a), Word(0xeb66dedf), Word(0xc08226b3));
    Abc60(x);
    Quad(60, INIT, x, Steps(60, INIT, x), Word(0x310ade8f), Word(0xc08226b3), Word(0xe484b9d8), Word(0x624d8cb2));
  }

  const ABC: seq<Byte> := [0x61, 0x62, 0x63]

  lemma AbcPadded()
    ensures Pad(ABC) == ABC + [0x80] + Repeat<Byte>(0, 52) + [24, 0, 0, 0] + [0, 0, 0, 0]
  {
    hide Repeat, LengthBytes;
    assert |ABC| == 3;
    AbcLength();
  }

  lemma AbcLength()
    ensures LengthBytes(24) == [24, 0, 0, 0] && LengthBytes(0) == [0, 0, 0, 0]
  {
  }

  lemma AbcWords()
    ensures |Pad(ABC)| == 64 && IsAbc(Words(Pad(ABC)))
  {
    hide ToWord, Pad;
    AbcPadded();
    var m := Pad(ABC);
    assert |m| == 64 && m[0..4] == [0x61, 0x62, 0x63, 0x80] && m[56..60] == [24, 0, 0, 0];
    FourBytes();
    forall k | 0 < k < 16 && k != 14 ensures Words(m)[k] == Word(0) {
      assert m[4 * k..4 * k + 4] == [0, 0, 0, 0];
    }
  }

  lemma FourBytes()
    ensures ToWord([0x61, 0x62, 0x63, 0x80]) == Word(0x80636261)
    ensures ToWord([24, 0, 0, 0]) == Word(24) && ToWord([0, 0, 0, 0]) == Word(0)
  {
  }

  lemma AbcSums(r: State)
    requires r == State(Word(0x310ade8f), Word(0xc08226b3), Word(0xe484b9d8), Word(0x624d8cb2))
    ensures Output(State(Add(INIT.a, r.a), Add(INIT.b, r.b), Add(INIT.c, r.c), Add(INIT.d, r.d))) == ABC_DIGEST
  {
  }

  const ABC_DIGEST: seq<Byte> := [0x90, 0x01, 0x50, 0x98, 0x3c, 0xd2, 0x4f, 0xb0,
                                  0xd6, 0x96, 0x3f, 0x7d, 0x28, 0xe1, 0x7f, 0x72]

  /** MD5 ("abc") = 900150983cd24fb0d6963f7d28e17f72. */
  lemma DigestOfAbc()
    ensures Digest(ABC) == ABC_DIGEST
  {
    hide Steps, Words, Pad, Output;
    AbcWords();
    var x := Words(Pad(ABC));
    Abc64(x);
    AbcSums(Steps(64, INIT, x));
    assert Pad(ABC)[..64] == Pad(ABC) && |Pad(ABC)[64..]| < 64;
  }
}
