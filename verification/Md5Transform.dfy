/**
 * src/md5.cpp, MD5Transform: sixty-four steps written out, against the
 * description in RFC 1321, section 3.4.
 */
module Md5Transform {
  import opened Machine
  import opened WordBytes

  // ----- RFC 1321, section 3.4 -----

  datatype Regs = Regs(a: bv32, b: bv32, c: bv32, d: bv32)

  function F(x: bv32, y: bv32, z: bv32): bv32 { (x & y) | (!x & z) }
  function G(x: bv32, y: bv32, z: bv32): bv32 { (x & z) | (y & !z) }
  function H(x: bv32, y: bv32, z: bv32): bv32 { x ^ y ^ z }
  function I(x: bv32, y: bv32, z: bv32): bv32 { y ^ (x | !z) }

  function Auxiliary(i: nat, x: bv32, y: bv32, z: bv32): bv32 {
    if i < 16 then F(x, y, z) else if i < 32 then G(x, y, z) else if i < 48 then H(x, y, z) else I(x, y, z)
  }

  /** The table of sines; the code has the same constants in its steps. */
  const TABLE: seq<bv32> := [
    0xd76aa478, 0xe8c7b756, 0x242070db, 0xc1bdceee, 0xf57c0faf, 0x4787c62a, 0xa8304613, 0xfd469501,
    0x698098d8, 0x8b44f7af, 0xffff5bb1, 0x895cd7be, 0x6b901122, 0xfd987193, 0xa679438e, 0x49b40821,
    0xf61e2562, 0xc040b340, 0x265e5a51, 0xe9b6c7aa, 0xd62f105d, 0x02441453, 0xd8a1e681, 0xe7d3fbc8,
    0x21e1cde6, 0xc33707d6, 0xf4d50d87, 0x455a14ed, 0xa9e3e905, 0xfcefa3f8, 0x676f02d9, 0x8d2a4c8a,
    0xfffa3942, 0x8771f681, 0x6d9d6122, 0xfde5380c, 0xa4beea44, 0x4bdecfa9, 0xf6bb4b60, 0xbebfbc70,
    0x289b7ec6, 0xeaa127fa, 0xd4ef3085, 0x04881d05, 0xd9d4d039, 0xe6db99e5, 0x1fa27cf8, 0xc4ac5665,
    0xf4292244, 0x432aff97, 0xab9423a7, 0xfc93a039, 0x655b59c3, 0x8f0ccc92, 0xffeff47d, 0x85845dd1,
    0x6fa87e4f, 0xfe2ce6e0, 0xa3014314, 0x4e0811a1, 0xf7537e82, 0xbd3af235, 0x2ad7d2bb, 0xeb86d391]

  function T(i: nat): bv32
    requires i < 64
  {
    TABLE[i]
  }

  /** Which word of the block a step adds. */
  function Index(i: nat): (k: nat)
    ensures k < 16
  {
    if i < 16 then i
    else if i < 32 then (5 * i + 1) % 16
    else if i < 48 then (3 * i + 5) % 16
    else (7 * i) % 16
  }

  function ShiftFrom(i: nat, s0: nat, s1: nat, s2: nat, s3: nat): nat {
    if i % 4 == 0 then s0 else if i % 4 == 1 then s1 else if i % 4 == 2 then s2 else s3
  }

  function Shift(i: nat): (s: nat)
    ensures 0 < s < 32
  {
    if i < 16 then ShiftFrom(i, 7, 12, 17, 22)
    else if i < 32 then ShiftFrom(i, 5, 9, 14, 20)
    else if i < 48 then ShiftFrom(i, 4, 11, 16, 23)
    else ShiftFrom(i, 6, 10, 15, 21)
  }

  /** Section 2: the low-order byte of a word comes first. */
  function X(block: seq<byte>, k: nat): bv32
    requires |block| == 64 && k < 16
  {
    LittleWord(Low(block[4 * k]), Low(block[4 * k + 1]), Low(block[4 * k + 2]), Low(block[4 * k + 3]))
  }

  function Sum4(x: bv32, y: bv32, z: bv32, w: bv32): bv32 { x + y + z + w }

  /** a = b + ((a + f(b, c, d) + X[k] + T[i]) <<< s); then the four registers move one place on. */
  function RfcStep(r: Regs, i: nat, x: bv32): Regs
    requires i < 64
  {
    Regs(r.d, Plus(r.b, Rotl(Shift(i), Sum4(r.a, Auxiliary(i, r.b, r.c, r.d), x, T(i)))), r.b, r.c)
  }

  function Steps(block: seq<byte>, r: Regs, i: nat): Regs
    requires |block| == 64 && i <= 64
  {
    if i == 0 then r else RfcStep(Steps(block, r, i - 1), i - 1, X(block, Index(i - 1)))
  }

  function Add(x: Regs, y: Regs): Regs {
    Regs(Plus(x.a, y.a), Plus(x.b, y.b), Plus(x.c, y.c), Plus(x.d, y.d))
  }

  function Compress(r: Regs, block: seq<byte>): Regs
    requires |block| == 64
  {
    Add(r, Steps(block, r, 64))
  }

  function RegsOf(s: seq<bv32>): Regs
    requires |s| == 4
  {
    Regs(s[0], s[1], s[2], s[3])
  }

  // ----- the macros of the code -----

  function F1(x: bv32, y: bv32, z: bv32): bv32 { z ^ (x & (y ^ z)) }
  function F2(x: bv32, y: bv32, z: bv32): bv32 { F1(z, x, y) }

  /** w += f + in, where in is a word plus a constant. */
  function Mix(w: bv32, f: bv32, x: bv32, t: bv32): bv32 { w + (f + (x + t)) }

  lemma F1Bits(x: bv32, y: bv32, z: bv32)
    ensures z ^ (x & (y ^ z)) == (x & y) | (!x & z)
  {}

  lemma F2Bits(x: bv32, y: bv32, z: bv32)
    ensures y ^ (z & (x ^ y)) == (x & z) | (y & !z)
  {}

  lemma MixBits(w: bv32, f: bv32, x: bv32, t: bv32)
    ensures w + (f + (x + t)) == w + f + x + t
  {}

  lemma PlusBits(x: bv32, y: bv32)
    ensures x + y == y + x
  {}

  lemma F1IsF(x: bv32, y: bv32, z: bv32)
    ensures F1(x, y, z) == F(x, y, z)
  {
    F1Bits(x, y, z);
  }

  lemma F2IsG(x: bv32, y: bv32, z: bv32)
    ensures F2(x, y, z) == G(x, y, z)
  {
    F2Bits(x, y, z);
  }

  lemma MixIsSum(w: bv32, f: bv32, x: bv32, t: bv32)
    ensures Mix(w, f, x, t) == Sum4(w, f, x, t)
  {
    MixBits(w, f, x, t);
  }

  lemma PlusCommutes(x: bv32, y: bv32)
    ensures Plus(x, y) == Plus(y, x)
  {
    PlusBits(x, y);
  }

  /** MD5STEP, with f already applied: only w changes, so the next step renames all four registers. */
  function Step(f: bv32, w: bv32, x: bv32, word: bv32, t: bv32, s: nat): bv32
    requires 0 < s < 32
  {
    Plus(Rotl(s, Mix(w, f, word, t)), x)
  }

  ghost predicate Reached(block: seq<byte>, start: Regs, i: nat, w: bv32, x: bv32, y: bv32, z: bv32) {
    |block| == 64 && i <= 64 && Regs(w, x, y, z) == Steps(block, start, i)
  }

  lemma StepAdvances(block: seq<byte>, start: Regs, i: nat, w: bv32, x: bv32, y: bv32, z: bv32)
    requires Reached(block, start, i, w, x, y, z) && i < 64
    ensures Reached(block, start, i + 1, z, Step(Auxiliary(i, x, y, z), w, x, X(block, Index(i)), T(i), Shift(i)), x, y)
  {
    hide Plus, Rotl, Mix, Sum4, Auxiliary, X, Index, T, Shift;
    var f, word := Auxiliary(i, x, y, z), X(block, Index(i));
    MixIsSum(w, f, word, T(i));
    PlusCommutes(Rotl(Shift(i), Mix(w, f, word, T(i))), x);
  }

  /** MD5STEP with F1. */
  method Step1(w: bv32, x: bv32, y: bv32, z: bv32, word: bv32, i: nat, s: nat,
               ghost block: seq<byte>, ghost start: Regs)
    returns (w': bv32)
    requires Reached(block, start, i, w, x, y, z) && 0 <= i < 16
    requires word == X(block, Index(i)) && s == Shift(i)
    ensures Reached(block, start, i + 1, z, w', x, y)
  {
    hide F1, F, Step, X, Reached, T, Index, Shift;
    F1IsF(x, y, z);
    StepAdvances(block, start, i, w, x, y, z);
    w' := Step(F1(x, y, z), w, x, word, T(i), s);
  }

  /** MD5STEP with F2. */
  method Step2(w: bv32, x: bv32, y: bv32, z: bv32, word: bv32, i: nat, s: nat,
               ghost block: seq<byte>, ghost start: Regs)
    returns (w': bv32)
    requires Reached(block, start, i, w, x, y, z) && 16 <= i < 32
    requires word == X(block, Index(i)) && s == Shift(i)
    ensures Reached(block, start, i + 1, z, w', x, y)
  {
    hide F2, G, Step, X, Reached, T, Index, Shift;
    F2IsG(x, y, z);
    StepAdvances(block, start, i, w, x, y, z);
    w' := Step(F2(x, y, z), w, x, word, T(i), s);
  }

  /** MD5STEP with F3. */
  method Step3(w: bv32, x: bv32, y: bv32, z: bv32, word: bv32, i: nat, s: nat,
               ghost block: seq<byte>, ghost start: Regs)
    returns (w': bv32)
    requires Reached(block, start, i, w, x, y, z) && 32 <= i < 48
    requires word == X(block, Index(i)) && s == Shift(i)
    ensures Reached(block, start, i + 1, z, w', x, y)
  {
    hide H, Step, X, Reached, T, Index, Shift;
    StepAdvances(block, start, i, w, x, y, z);
    w' := Step(H(x, y, z), w, x, word, T(i), s);
  }

  /** MD5STEP with F4. */
  method Step4(w: bv32, x: bv32, y: bv32, z: bv32, word: bv32, i: nat, s: nat,
               ghost block: seq<byte>, ghost start: Regs)
    returns (w': bv32)
    requires Reached(block, start, i, w, x, y, z) && 48 <= i < 64
    requires word == X(block, Index(i)) && s == Shift(i)
    ensures Reached(block, start, i + 1, z, w', x, y)
  {
    hide I, Step, X, Reached, T, Index, Shift;
    StepAdvances(block, start, i, w, x, y, z);
    w' := Step(I(x, y, z), w, x, word, T(i), s);
  }

  lemma Schedule0()
    ensures Index(0) == 0 && Shift(0) == 7
    ensures Index(1) == 1 && Shift(1) == 12
    ensures Index(2) == 2 && Shift(2) == 17
    ensures Index(3) == 3 && Shift(3) == 22
    ensures Index(4) == 4 && Shift(4) == 7
    ensures Index(5) == 5 && Shift(5) == 12
    ensures Index(6) == 6 && Shift(6) == 17
    ensures Index(7) == 7 && Shift(7) == 22
  {}

  lemma Schedule8()
    ensures Index(8) == 8 && Shift(8) == 7
    ensures Index(9) == 9 && Shift(9) == 12
    ensures Index(10) == 10 && Shift(10) == 17
    ensures Index(11) == 11 && Shift(11) == 22
    ensures Index(12) == 12 && Shift(12) == 7
    ensures Index(13) == 13 && Shift(13) == 12
    ensures Index(14) == 14 && Shift(14) == 17
    ensures Index(15) == 15 && Shift(15) == 22
  {}

  lemma Schedule16()
    ensures Index(16) == 1 && Shift(16) == 5
    ensures Index(17) == 6 && Shift(17) == 9
    ensures Index(18) == 11 && Shift(18) == 14
    ensures Index(19) == 0 && Shift(19) == 20
    ensures Index(20) == 5 && Shift(20) == 5
    ensures Index(21) == 10 && Shift(21) == 9
    ensures Index(22) == 15 && Shift(22) == 14
    ensures Index(23) == 4 && Shift(23) == 20
  {}

  lemma Schedule24()
    ensures Index(24) == 9 && Shift(24) == 5
    ensures Index(25) == 14 && Shift(25) == 9
    ensures Index(26) == 3 && Shift(26) == 14
    ensures Index(27) == 8 && Shift(27) == 20
    ensures Index(28) == 13 && Shift(28) == 5
    ensures Index(29) == 2 && Shift(29) == 9
    ensures Index(30) == 7 && Shift(30) == 14
    ensures Index(31) == 12 && Shift(31) == 20
  {}

  lemma Schedule32()
    ensures Index(32) == 5 && Shift(32) == 4
    ensures Index(33) == 8 && Shift(33) == 11
    ensures Index(34) == 11 && Shift(34) == 16
    ensures Index(35) == 14 && Shift(35) == 23
    ensures Index(36) == 1 && Shift(36) == 4
    ensures Index(37) == 4 && Shift(37) == 11
    ensures Index(38) == 7 && Shift(38) == 16
    ensures Index(39) == 10 && Shift(39) == 23
  {}

  lemma Schedule40()
    ensures Index(40) == 13 && Shift(40) == 4
    ensures Index(41) == 0 && Shift(41) == 11
    ensures Index(42) == 3 && Shift(42) == 16
    ensures Index(43) == 6 && Shift(43) == 23
    ensures Index(44) == 9 && Shift(44) == 4
    ensures Index(45) == 12 && Shift(45) == 11
    ensures Index(46) == 15 && Shift(46) == 16
    ensures Index(47) == 2 && Shift(47) == 23
  {}

  lemma Schedule48()
    ensures Index(48) == 0 && Shift(48) == 6
    ensures Index(49) == 7 && Shift(49) == 10
    ensures Index(50) == 14 && Shift(50) == 15
    ensures Index(51) == 5 && Shift(51) == 21
    ensures Index(52) == 12 && Shift(52) == 6
    ensures Index(53) == 3 && Shift(53) == 10
    ensures Index(54) == 10 && Shift(54) == 15
    ensures Index(55) == 1 && Shift(55) == 21
  {}

  lemma Schedule56()
    ensures Index(56) == 8 && Shift(56) == 6
    ensures Index(57) == 15 && Shift(57) == 10
    ensures Index(58) == 6 && Shift(58) == 15
    ensures Index(59) == 13 && Shift(59) == 21
    ensures Index(60) == 4 && Shift(60) == 6
    ensures Index(61) == 11 && Shift(61) == 10
    ensures Index(62) == 2 && Shift(62) == 15
    ensures Index(63) == 9 && Shift(63) == 21
  {}

  /** Steps 0 to 7. */
  method Steps0(a0: bv32, b0: bv32, c0: bv32, d0: bv32, block: seq<byte>, ghost start: Regs)
    returns (a: bv32, b: bv32, c: bv32, d: bv32)
    requires |block| == 64 && Reached(block, start, 0, a0, b0, c0, d0)
    ensures Reached(block, start, 8, a, b, c, d)
  {
    hide Reached, T, Index, Shift, X;
    Schedule0();
    a, b, c, d := a0, b0, c0, d0;
    a := Step1(a, b, c, d, X(block, 0), 0, 7, block, start);
    d := Step1(d, a, b, c, X(block, 1), 1, 12, block, start);
    c := Step1(c, d, a, b, X(block, 2), 2, 17, block, start);
    b := Step1(b, c, d, a, X(block, 3), 3, 22, block, start);
    a := Step1(a, b, c, d, X(block, 4), 4, 7, block, start);
    d := Step1(d, a, b, c, X(block, 5), 5, 12, block, start);
    c := Step1(c, d, a, b, X(block, 6), 6, 17, block, start);
    b := Step1(b, c, d, a, X(block, 7), 7, 22, block, start);
  }

  /** Steps 8 to 15. */
  method Steps8(a0: bv32, b0: bv32, c0: bv32, d0: bv32, block: seq<byte>, ghost start: Regs)
    returns (a: bv32, b: bv32, c: bv32, d: bv32)
    requires |block| == 64 && Reached(block, start, 8, a0, b0, c0, d0)
    ensures Reached(block, start, 16, a, b, c, d)
  {
    hide Reached, T, Index, Shift, X;
    Schedule8();
    a, b, c, d := a0, b0, c0, d0;
    a := Step1(a, b, c, d, X(block, 8), 8, 7, block, start);
    d := Step1(d, a, b, c, X(block, 9), 9, 12, block, start);
    c := Step1(c, d, a, b, X(block, 10), 10, 17, block, start);
    b := Step1(b, c, d, a, X(block, 11), 11, 22, block, start);
    a := Step1(a, b, c, d, X(block, 12), 12, 7, block, start);
    d := Step1(d, a, b, c, X(block, 13), 13, 12, block, start);
    c := Step1(c, d, a, b, X(block, 14), 14, 17, block, start);
    b := Step1(b, c, d, a, X(block, 15), 15, 22, block, start);
  }

  /** Steps 16 to 23. */
  method Steps16(a0: bv32, b0: bv32, c0: bv32, d0: bv32, block: seq<byte>, ghost start: Regs)
    returns (a: bv32, b: bv32, c: bv32, d: bv32)
    requires |block| == 64 && Reached(block, start, 16, a0, b0, c0, d0)
    ensures Reached(block, start, 24, a, b, c, d)
  {
    hide Reached, T, Index, Shift, X;
    Schedule16();
    a, b, c, d := a0, b0, c0, d0;
    a := Step2(a, b, c, d, X(block, 1), 16, 5, block, start);
    d := Step2(d, a, b, c, X(block, 6), 17, 9, block, start);
    c := Step2(c, d, a, b, X(block, 11), 18, 14, block, start);
    b := Step2(b, c, d, a, X(block, 0), 19, 20, block, start);
    a := Step2(a, b, c, d, X(block, 5), 20, 5, block, start);
    d := Step2(d, a, b, c, X(block, 10), 21, 9, block, start);
    c := Step2(c, d, a, b, X(block, 15), 22, 14, block, start);
    b := Step2(b, c, d, a, X(block, 4), 23, 20, block, start);
  }

  /** Steps 24 to 31. */
  method Steps24(a0: bv32, b0: bv32, c0: bv32, d0: bv32, block: seq<byte>, ghost start: Regs)
    returns (a: bv32, b: bv32, c: bv32, d: bv32)
    requires |block| == 64 && Reached(block, start, 24, a0, b0, c0, d0)
    ensures Reached(block, start, 32, a, b, c, d)
  {
    hide Reached, T, Index, Shift, X;
    Schedule24();
    a, b, c, d := a0, b0, c0, d0;
    a := Step2(a, b, c, d, X(block, 9), 24, 5, block, start);
    d := Step2(d, a, b, c, X(block, 14), 25, 9, block, start);
    c := Step2(c, d, a, b, X(block, 3), 26, 14, block, start);
    b := Step2(b, c, d, a, X(block, 8), 27, 20, block, start);
    a := Step2(a, b, c, d, X(block, 13), 28, 5, block, start);
    d := Step2(d, a, b, c, X(block, 2), 29, 9, block, start);
    c := Step2(c, d, a, b, X(block, 7), 30, 14, block, start);
    b := Step2(b, c, d, a, X(block, 12), 31, 20, block, start);
  }

  /** Steps 32 to 39. */
  method Steps32(a0: bv32, b0: bv32, c0: bv32, d0: bv32, block: seq<byte>, ghost start: Regs)
    returns (a: bv32, b: bv32, c: bv32, d: bv32)
    requires |block| == 64 && Reached(block, start, 32, a0, b0, c0, d0)
    ensures Reached(block, start, 40, a, b, c, d)
  {
    hide Reached, T, Index, Shift, X;
    Schedule32();
    a, b, c, d := a0, b0, c0, d0;
    a := Step3(a, b, c, d, X(block, 5), 32, 4, block, start);
    d := Step3(d, a, b, c, X(block, 8), 33, 11, block, start);
    c := Step3(c, d, a, b, X(block, 11), 34, 16, block, start);
    b := Step3(b, c, d, a, X(block, 14), 35, 23, block, start);
    a := Step3(a, b, c, d, X(block, 1), 36, 4, block, start);
    d := Step3(d, a, b, c, X(block, 4), 37, 11, block, start);
    c := Step3(c, d, a, b, X(block, 7), 38, 16, block, start);
    b := Step3(b, c, d, a, X(block, 10), 39, 23, block, start);
  }

  /** Steps 40 to 47. */
  method Steps40(a0: bv32, b0: bv32, c0: bv32, d0: bv32, block: seq<byte>, ghost start: Regs)
    returns (a: bv32, b: bv32, c: bv32, d: bv32)
    requires |block| == 64 && Reached(block, start, 40, a0, b0, c0, d0)
    ensures Reached(block, start, 48, a, b, c, d)
  {
    hide Reached, T, Index, Shift, X;
    Schedule40();
    a, b, c, d := a0, b0, c0, d0;
    a := Step3(a, b, c, d, X(block, 13), 40, 4, block, start);
    d := Step3(d, a, b, c, X(block, 0), 41, 11, block, start);
    c := Step3(c, d, a, b, X(block, 3), 42, 16, block, start);
    b := Step3(b, c, d, a, X(block, 6), 43, 23, block, start);
    a := Step3(a, b, c, d, X(block, 9), 44, 4, block, start);
    d := Step3(d, a, b, c, X(block, 12), 45, 11, block, start);
    c := Step3(c, d, a, b, X(block, 15), 46, 16, block, start);
    b := Step3(b, c, d, a, X(block, 2), 47, 23, block, start);
  }

  /** Steps 48 to 55. */
  method Steps48(a0: bv32, b0: bv32, c0: bv32, d0: bv32, block: seq<byte>, ghost start: Regs)
    returns (a: bv32, b: bv32, c: bv32, d: bv32)
    requires |block| == 64 && Reached(block, start, 48, a0, b0, c0, d0)
    ensures Reached(block, start, 56, a, b, c, d)
  {
    hide Reached, T, Index, Shift, X;
    Schedule48();
    a, b, c, d := a0, b0, c0, d0;
    a := Step4(a, b, c, d, X(block, 0), 48, 6, block, start);
    d := Step4(d, a, b, c, X(block, 7), 49, 10, block, start);
    c := Step4(c, d, a, b, X(block, 14), 50, 15, block, start);
    b := Step4(b, c, d, a, X(block, 5), 51, 21, block, start);
    a := Step4(a, b, c, d, X(block, 12), 52, 6, block, start);
    d := Step4(d, a, b, c, X(block, 3), 53, 10, block, start);
    c := Step4(c, d, a, b, X(block, 10), 54, 15, block, start);
    b := Step4(b, c, d, a, X(block, 1), 55, 21, block, start);
  }

  /** Steps 56 to 63. */
  method Steps56(a0: bv32, b0: bv32, c0: bv32, d0: bv32, block: seq<byte>, ghost start: Regs)
    returns (a: bv32, b: bv32, c: bv32, d: bv32)
    requires |block| == 64 && Reached(block, start, 56, a0, b0, c0, d0)
    ensures Reached(block, start, 64, a, b, c, d)
  {
    hide Reached, T, Index, Shift, X;
    Schedule56();
    a, b, c, d := a0, b0, c0, d0;
    a := Step4(a, b, c, d, X(block, 8), 56, 6, block, start);
    d := Step4(d, a, b, c, X(block, 15), 57, 10, block, start);
    c := Step4(c, d, a, b, X(block, 6), 58, 15, block, start);
    b := Step4(b, c, d, a, X(block, 13), 59, 21, block, start);
    a := Step4(a, b, c, d, X(block, 4), 60, 6, block, start);
    d := Step4(d, a, b, c, X(block, 11), 61, 10, block, start);
    c := Step4(c, d, a, b, X(block, 2), 62, 15, block, start);
    b := Step4(b, c, d, a, X(block, 9), 63, 21, block, start);
  }

  lemma StepsStart(block: seq<byte>, r: Regs)
    requires |block| == 64
    ensures Steps(block, r, 0) == r
  {}

  method Transform(buf: array<bv32>, block: seq<byte>)
    requires buf.Length == 4 && |block| == 64
    modifies buf
    ensures RegsOf(buf[..]) == Compress(RegsOf(old(buf[..])), block)
  {
    hide Plus, Steps;
    ghost var start := RegsOf(buf[..]);
    StepsStart(block, start);
    var a, b, c, d := buf[0], buf[1], buf[2], buf[3];
    a, b, c, d := Steps0(a, b, c, d, block, start);
    a, b, c, d := Steps8(a, b, c, d, block, start);
    a, b, c, d := Steps16(a, b, c, d, block, start);
    a, b, c, d := Steps24(a, b, c, d, block, start);
    a, b, c, d := Steps32(a, b, c, d, block, start);
    a, b, c, d := Steps40(a, b, c, d, block, start);
    a, b, c, d := Steps48(a, b, c, d, block, start);
    a, b, c, d := Steps56(a, b, c, d, block, start);
    buf[0] := Plus(buf[0], a);
    buf[1] := Plus(buf[1], b);
    buf[2] := Plus(buf[2], c);
    buf[3] := Plus(buf[3], d);
  }
}
