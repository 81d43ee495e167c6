/**
 * src/sha512.cpp, SHA512::transform: the schedule of eighty words and the
 * eight working variables kept in arrays, against FIPS 180-4, section 6.4.2.
 */
module Sha512Transform {
  import opened Machine
  import opened Streaming

  // ----- FIPS 180-4: functions and constants of sections 4.1.3 and 4.2.3 -----

  function Rotr(n: nat, x: bv64): bv64
    requires 0 < n < 64
  {
    (x >> n) | (x << (64 - n))
  }

  function BigSigma0(x: bv64): bv64 { Rotr(28, x) ^ Rotr(34, x) ^ Rotr(39, x) }
  function BigSigma1(x: bv64): bv64 { Rotr(14, x) ^ Rotr(18, x) ^ Rotr(41, x) }
  function SmallSigma0(x: bv64): bv64 { Rotr(1, x) ^ Rotr(8, x) ^ (x >> 7) }
  function SmallSigma1(x: bv64): bv64 { Rotr(19, x) ^ Rotr(61, x) ^ (x >> 6) }
  function Ch(x: bv64, y: bv64, z: bv64): bv64 { (x & y) ^ (!x & z) }
  function Maj(x: bv64, y: bv64, z: bv64): bv64 { (x & y) ^ (x & z) ^ (y & z) }

  const K: seq<bv64> := [
    0x428a2f98d728ae22, 0x7137449123ef65cd, 0xb5c0fbcfec4d3b2f, 0xe9b5dba58189dbbc,
    0x3956c25bf348b538, 0x59f111f1b605d019, 0x923f82a4af194f9b, 0xab1c5ed5da6d8118,
    0xd807aa98a3030242, 0x12835b0145706fbe, 0x243185be4ee4b28c, 0x550c7dc3d5ffb4e2,
    0x72be5d74f27b896f, 0x80deb1fe3b1696b1, 0x9bdc06a725c71235, 0xc19bf174cf692694,
    0xe49b69c19ef14ad2, 0xefbe4786384f25e3, 0x0fc19dc68b8cd5b5, 0x240ca1cc77ac9c65,
    0x2de92c6f592b0275, 0x4a7484aa6ea6e483, 0x5cb0a9dcbd41fbd4, 0x76f988da831153b5,
    0x983e5152ee66dfab, 0xa831c66d2db43210, 0xb00327c898fb213f, 0xbf597fc7beef0ee4,
    0xc6e00bf33da88fc2, 0xd5a79147930aa725, 0x06ca6351e003826f, 0x142929670a0e6e70,
    0x27b70a8546d22ffc, 0x2e1b21385c26c926, 0x4d2c6dfc5ac42aed, 0x53380d139d95b3df,
    0x650a73548baf63de, 0x766a0abb3c77b2a8, 0x81c2c92e47edaee6, 0x92722c851482353b,
    0xa2bfe8a14cf10364, 0xa81a664bbc423001, 0xc24b8b70d0f89791, 0xc76c51a30654be30,
    0xd192e819d6ef5218, 0xd69906245565a910, 0xf40e35855771202a, 0x106aa07032bbd1b8,
    0x19a4c116b8d2d0c8, 0x1e376c085141ab53, 0x2748774cdf8eeb99, 0x34b0bcb5e19b48a8,
    0x391c0cb3c5c95a63, 0x4ed8aa4ae3418acb, 0x5b9cca4f7763e373, 0x682e6ff3d6b2b8a3,
    0x748f82ee5defb2fc, 0x78a5636f43172f60, 0x84c87814a1f0ab72, 0x8cc702081a6439ec,
    0x90befffa23631e28, 0xa4506cebde82bde9, 0xbef9a3f7b2c67915, 0xc67178f2e372532b,
    0xca273eceea26619c, 0xd186b8c721c0c207, 0xeada7dd6cde0eb1e, 0xf57d4f7fee6ed178,
    0x06f067aa72176fba, 0x0a637dc5a2c898a6, 0x113f9804bef90dae, 0x1b710b35131c471b,
    0x28db77f523047d84, 0x32caab7b40c72493, 0x3c9ebe0a15c9bebc, 0x431d67c49c100d4c,
    0x4cc5d4becb3e42b6, 0x597f299cfc657e2a, 0x5fcb6fab3ad6faec, 0x6c44198c4a475817]

  function Constant(t: nat): bv64
    requires t < 80
  {
    K[t]
  }

  // ----- FIPS 180-4, sections 5.2.2 and 6.4.2 -----

  datatype Regs = Regs(a: bv64, b: bv64, c: bv64, d: bv64, e: bv64, f: bv64, g: bv64, h: bv64)

  /** A byte in the low bits of a word. */
  function Low(x: byte): bv64 {
    (x as bv8) as bv64
  }

  /** Most significant byte first. */
  function BigWord(x0: bv64, x1: bv64, x2: bv64, x3: bv64, x4: bv64, x5: bv64, x6: bv64, x7: bv64): bv64 {
    (x0 << 56) | (x1 << 48) | (x2 << 40) | (x3 << 32) | (x4 << 24) | (x5 << 16) | (x6 << 8) | x7
  }

  /** Word t of the message schedule. */
  function Schedule(block: seq<byte>, t: nat): bv64
    requires |block| == 128
  {
    if t < 16 then
      BigWord(Low(block[8 * t]), Low(block[8 * t + 1]), Low(block[8 * t + 2]), Low(block[8 * t + 3]),
              Low(block[8 * t + 4]), Low(block[8 * t + 5]), Low(block[8 * t + 6]), Low(block[8 * t + 7]))
    else NextWord(Schedule(block, t - 2), Schedule(block, t - 7), Schedule(block, t - 15), Schedule(block, t - 16))
  }

  function NextWord(w2: bv64, w7: bv64, w15: bv64, w16: bv64): bv64 {
    SmallSigma1(w2) + w7 + SmallSigma0(w15) + w16
  }

  function Plus(x: bv64, y: bv64): bv64 { x + y }

  function Sum5(x: bv64, y: bv64, z: bv64, k: bv64, w: bv64): bv64 { x + y + z + k + w }

  function FipsStep(r: Regs, k: bv64, w: bv64): Regs {
    var t1 := Sum5(r.h, BigSigma1(r.e), Ch(r.e, r.f, r.g), k, w);
    var t2 := Plus(BigSigma0(r.a), Maj(r.a, r.b, r.c));
    Regs(Plus(t1, t2), r.a, r.b, r.c, Plus(r.d, t1), r.e, r.f, r.g)
  }

  /** The registers after t steps. */
  function Steps(block: seq<byte>, r: Regs, t: nat): Regs
    requires |block| == 128 && t <= 80
  {
    if t == 0 then r else FipsStep(Steps(block, r, t - 1), Constant(t - 1), Schedule(block, t - 1))
  }

  function Add(x: Regs, y: Regs): Regs {
    Regs(Plus(x.a, y.a), Plus(x.b, y.b), Plus(x.c, y.c), Plus(x.d, y.d),
         Plus(x.e, y.e), Plus(x.f, y.f), Plus(x.g, y.g), Plus(x.h, y.h))
  }

  /** The intermediate hash value after one more block. */
  function Compress(r: Regs, block: seq<byte>): Regs
    requires |block| == 128
  {
    Add(r, Steps(block, r, 80))
  }

  function Compression(r: Regs, b: seq<byte>): Regs {
    if |b| == 128 then Compress(r, b) else r
  }

  function RegsOf(s: seq<bv64>): Regs
    requires |s| == 8
  {
    Regs(s[0], s[1], s[2], s[3], s[4], s[5], s[6], s[7])
  }

  // ----- the code -----

  /** SHA2_PACK64 */
  function Pack(x0: bv64, x1: bv64, x2: bv64, x3: bv64, x4: bv64, x5: bv64, x6: bv64, x7: bv64): bv64 {
    x7 | (x6 << 8) | (x5 << 16) | (x4 << 24) | (x3 << 32) | (x2 << 40) | (x1 << 48) | (x0 << 56)
  }

  lemma PackBits(y0: bv64, y1: bv64, y2: bv64, y3: bv64, y4: bv64, y5: bv64, y6: bv64, y7: bv64)
    ensures y7 | y6 | y5 | y4 | y3 | y2 | y1 | y0 == y0 | y1 | y2 | y3 | y4 | y5 | y6 | y7
  {}

  lemma PackIsBigWord(x0: bv64, x1: bv64, x2: bv64, x3: bv64, x4: bv64, x5: bv64, x6: bv64, x7: bv64)
    ensures Pack(x0, x1, x2, x3, x4, x5, x6, x7) == BigWord(x0, x1, x2, x3, x4, x5, x6, x7)
  {
    PackBits(x0 << 56, x1 << 48, x2 << 40, x3 << 32, x4 << 24, x5 << 16, x6 << 8, x7);
  }

  ghost predicate Filled(w: seq<bv64>, block: seq<byte>, n: nat) {
    |w| == 80 && |block| == 128 && n <= 80 && forall k :: 0 <= k < n ==> w[k] == Schedule(block, k)
  }

  lemma FilledNext(w: seq<bv64>, block: seq<byte>, n: nat, x: bv64)
    requires Filled(w, block, n) && n < 80 && x == Schedule(block, n)
    ensures Filled(w[n := x], block, n + 1)
  {
    hide Schedule;
  }

  lemma PackIsSchedule(block: seq<byte>, t: nat)
    requires |block| == 128 && t < 16
    ensures PackAt(block, t) == Schedule(block, t)
  {
    hide Pack, BigWord, Low;
    PackIsBigWord(Low(block[8 * t]), Low(block[8 * t + 1]), Low(block[8 * t + 2]), Low(block[8 * t + 3]),
                  Low(block[8 * t + 4]), Low(block[8 * t + 5]), Low(block[8 * t + 6]), Low(block[8 * t + 7]));
  }

  function PackAt(b: seq<byte>, t: nat): bv64
    requires |b| == 128 && t < 16
  {
    Pack(Low(b[8 * t]), Low(b[8 * t + 1]), Low(b[8 * t + 2]), Low(b[8 * t + 3]),
         Low(b[8 * t + 4]), Low(b[8 * t + 5]), Low(b[8 * t + 6]), Low(b[8 * t + 7]))
  }

  lemma ExpandReads(w: seq<bv64>, block: seq<byte>, t: nat)
    requires Filled(w, block, t) && 16 <= t < 80
    ensures NextWord(w[t - 2], w[t - 7], w[t - 15], w[t - 16]) == Schedule(block, t)
  {
    hide NextWord;
  }

  /** The w array of one block. */
  method Expand(block: seq<byte>) returns (w: array<bv64>)
    requires |block| == 128
    ensures fresh(w) && w.Length == 80 && Filled(w[..], block, 80)
  {
    hide Filled, PackAt, Schedule, NextWord;
    w := new bv64[80];
    FilledNone(w[..], block);
    for j := 0 to 16
      invariant Filled(w[..], block, j)
    {
      ghost var was := w[..];
      PackIsSchedule(block, j);
      FilledNext(was, block, j, PackAt(block, j));
      w[j] := PackAt(block, j);
      assert w[..] == was[j := PackAt(block, j)];
    }
    for j := 16 to 80
      invariant Filled(w[..], block, j)
    {
      ghost var was := w[..];
      ExpandReads(was, block, j);
      w[j] := NextWord(w[j - 2], w[j - 7], w[j - 15], w[j - 16]);
      FilledNext(was, block, j, w[j]);
      assert w[..] == was[j := w[j]];
    }
  }

  lemma FilledNone(w: seq<bv64>, block: seq<byte>)
    requires |w| == 80 && |block| == 128
    ensures Filled(w, block, 0)
  {}

  lemma FilledAt(w: seq<bv64>, block: seq<byte>, t: nat)
    requires Filled(w, block, 80) && t < 80
    ensures w[t] == Schedule(block, t)
  {
    hide Schedule;
  }

  /** One round: every working variable moves one place on. */
  method Round(wv: array<bv64>, k: bv64, word: bv64)
    requires wv.Length == 8
    modifies wv
    ensures RegsOf(wv[..]) == FipsStep(RegsOf(old(wv[..])), k, word)
  {
    hide BigSigma0, BigSigma1, Ch, Maj, Sum5, Plus;
    var t1 := Sum5(wv[7], BigSigma1(wv[4]), Ch(wv[4], wv[5], wv[6]), k, word);
    var t2 := Plus(BigSigma0(wv[0]), Maj(wv[0], wv[1], wv[2]));
    wv[7] := wv[6];
    wv[6] := wv[5];
    wv[5] := wv[4];
    wv[4] := Plus(wv[3], t1);
    wv[3] := wv[2];
    wv[2] := wv[1];
    wv[1] := wv[0];
    wv[0] := Plus(t1, t2);
  }

  method AddTo(h: array<bv64>, wv: array<bv64>)
    requires h.Length == wv.Length == 8 && h != wv
    modifies h
    ensures RegsOf(h[..]) == Add(RegsOf(old(h[..])), RegsOf(wv[..]))
  {
    hide Plus;
    for j := 0 to 8
      invariant forall k :: 0 <= k < j ==> h[k] == Plus(old(h[k]), wv[k])
      invariant forall k :: j <= k < 8 ==> h[k] == old(h[k])
    {
      h[j] := Plus(h[j], wv[j]);
    }
  }

  /** The outer loop's body. */
  method TransformBlock(h: array<bv64>, block: seq<byte>)
    requires h.Length == 8 && |block| == 128
    modifies h
    ensures RegsOf(h[..]) == Compress(RegsOf(old(h[..])), block)
  {
    hide Schedule, FipsStep, Constant, Plus, Filled, Add, Steps;
    ghost var start := RegsOf(h[..]);
    var w := Expand(block);
    var wv := Working(h);
    StepsStart(block, start);
    for j := 0 to 80
      invariant RegsOf(wv[..]) == Steps(block, start, j)
      invariant h[..] == old(h[..]) && Filled(w[..], block, 80)
    {
      FilledAt(w[..], block, j);
      StepsNext(block, start, j);
      Round(wv, Constant(j), w[j]);
    }
    AddTo(h, wv);
  }

  lemma StepsStart(block: seq<byte>, r: Regs)
    requires |block| == 128
    ensures Steps(block, r, 0) == r
  {}

  lemma StepsNext(block: seq<byte>, r: Regs, t: nat)
    requires |block| == 128 && t < 80
    ensures Steps(block, r, t + 1) == FipsStep(Steps(block, r, t), Constant(t), Schedule(block, t))
  {}

  method Working(h: array<bv64>) returns (wv: array<bv64>)
    requires h.Length == 8
    ensures fresh(wv) && wv.Length == 8 && wv[..] == h[..]
  {
    wv := new bv64[8];
    for j := 0 to 8
      invariant wv[..j] == h[..j]
    {
      wv[j] := h[j];
    }
    assert wv[..8] == wv[..] && h[..8] == h[..];
  }

  /** i << 7 in an int. */
  function Offset(i: nat): int {
    Wrap32(128 * i)
  }

  /** The most blocks one call can take: the offset of the next one would be negative. */
  const MAX_BLOCKS: nat := 0x100_0000

  /** The loop reads every block where it is exactly up to that number (a 32-bit length never holds 2^25 blocks). */
  lemma OffsetsExactIff(blocks: nat)
    requires blocks < 0x200_0000
    ensures (forall i :: 0 <= i < blocks ==> Offset(i) == 128 * i) <==> blocks <= MAX_BLOCKS
  {
    if blocks > MAX_BLOCKS {
      assert Offset(MAX_BLOCKS) == -0x8000_0000;
    }
  }

  method Transform(h: array<bv64>, message: seq<byte>, blocks: nat)
    requires h.Length == 8 && |message| >= 128 * blocks && blocks <= MAX_BLOCKS
    modifies h
    ensures RegsOf(h[..]) == Absorb(Compression, 128, RegsOf(old(h[..])), message[..128 * blocks])
  {
    hide Absorb, Compress, RegsOf, Offset;
    ghost var start := RegsOf(h[..]);
    var i := 0;
    AbsorbNone(Compression, 128, start, []);
    assert message[..0] == [];
    OffsetsExactIff(blocks);
    while i < blocks
      invariant 0 <= i <= blocks
      invariant RegsOf(h[..]) == Absorb(Compression, 128, start, message[..128 * i])
    {
      var subBlock := Offset(i);
      var block := message[subBlock..subBlock + 128];
      AbsorbAppend(Compression, 128, start, message[..128 * i], block);
      AbsorbOne(Compression, 128, RegsOf(h[..]), block);
      assert message[..128 * i] + block == message[..128 * (i + 1)];
      TransformBlock(h, block);
      i := i + 1;
    }
  }
}
