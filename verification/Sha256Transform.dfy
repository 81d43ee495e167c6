/**
 * src/sha256.cpp, sha256_transform: renamed registers and a schedule kept in
 * sixteen words, against the compression function of FIPS 180-4, section 6.2.2.
 */
module Sha256Transform {
  import opened WordBytes

  // ----- FIPS 180-4: functions and constants of sections 4.1.2 and 4.2.2 -----

  function Rotr(n: nat, x: bv32): bv32
    requires 0 < n < 32
  {
    (x >> n) | (x << (32 - n))
  }

  function BigSigma0(x: bv32): bv32 { Rotr(2, x) ^ Rotr(13, x) ^ Rotr(22, x) }
  function BigSigma1(x: bv32): bv32 { Rotr(6, x) ^ Rotr(11, x) ^ Rotr(25, x) }
  function SmallSigma0(x: bv32): bv32 { Rotr(7, x) ^ Rotr(18, x) ^ (x >> 3) }
  function SmallSigma1(x: bv32): bv32 { Rotr(17, x) ^ Rotr(19, x) ^ (x >> 10) }
  function Ch(x: bv32, y: bv32, z: bv32): bv32 { (x & y) ^ (!x & z) }
  function Maj(x: bv32, y: bv32, z: bv32): bv32 { (x & y) ^ (x & z) ^ (y & z) }

  const K: seq<bv32> := [
    0x428a2f98, 0x71374491, 0xb5c0fbcf, 0xe9b5dba5, 0x3956c25b, 0x59f111f1, 0x923f82a4, 0xab1c5ed5,
    0xd807aa98, 0x12835b01, 0x243185be, 0x550c7dc3, 0x72be5d74, 0x80deb1fe, 0x9bdc06a7, 0xc19bf174,
    0xe49b69c1, 0xefbe4786, 0x0fc19dc6, 0x240ca1cc, 0x2de92c6f, 0x4a7484aa, 0x5cb0a9dc, 0x76f988da,
    0x983e5152, 0xa831c66d, 0xb00327c8, 0xbf597fc7, 0xc6e00bf3, 0xd5a79147, 0x06ca6351, 0x14292967,
    0x27b70a85, 0x2e1b2138, 0x4d2c6dfc, 0x53380d13, 0x650a7354, 0x766a0abb, 0x81c2c92e, 0x92722c85,
    0xa2bfe8a1, 0xa81a664b, 0xc24b8b70, 0xc76c51a3, 0xd192e819, 0xd6990624, 0xf40e3585, 0x106aa070,
    0x19a4c116, 0x1e376c08, 0x2748774c, 0x34b0bcb5, 0x391c0cb3, 0x4ed8aa4a, 0x5b9cca4f, 0x682e6ff3,
    0x748f82ee, 0x78a5636f, 0x84c87814, 0x8cc70208, 0x90befffa, 0xa4506ceb, 0xbef9a3f7, 0xc67178f2]

  function Constant(t: nat): bv32
    requires t < 64
  {
    K[t]
  }

  // ----- FIPS 180-4, section 6.2.2 -----

  datatype Regs = Regs(a: bv32, b: bv32, c: bv32, d: bv32, e: bv32, f: bv32, g: bv32, h: bv32)

  /** Word t of the message schedule. */
  function Schedule(block: seq<bv32>, t: nat): bv32
    requires |block| == 16
  {
    if t < 16 then block[t]
    else NextWord(Schedule(block, t - 2), Schedule(block, t - 7), Schedule(block, t - 15), Schedule(block, t - 16))
  }

  function NextWord(w2: bv32, w7: bv32, w15: bv32, w16: bv32): bv32 {
    SmallSigma1(w2) + w7 + SmallSigma0(w15) + w16
  }

  function Sum5(x: bv32, y: bv32, z: bv32, k: bv32, w: bv32): bv32 { x + y + z + k + w }

  function FipsStep(r: Regs, k: bv32, w: bv32): Regs {
    var t1 := Sum5(r.h, BigSigma1(r.e), Ch(r.e, r.f, r.g), k, w);
    var t2 := Plus(BigSigma0(r.a), Maj(r.a, r.b, r.c));
    Regs(Plus(t1, t2), r.a, r.b, r.c, Plus(r.d, t1), r.e, r.f, r.g)
  }

  /** The registers after t steps. */
  function Steps(block: seq<bv32>, r: Regs, t: nat): Regs
    requires |block| == 16 && t <= 64
  {
    if t == 0 then r else FipsStep(Steps(block, r, t - 1), Constant(t - 1), Schedule(block, t - 1))
  }

  function Add(x: Regs, y: Regs): Regs {
    Regs(Plus(x.a, y.a), Plus(x.b, y.b), Plus(x.c, y.c), Plus(x.d, y.d),
         Plus(x.e, y.e), Plus(x.f, y.f), Plus(x.g, y.g), Plus(x.h, y.h))
  }

  /** The intermediate hash value after one more block. */
  function Compress(r: Regs, block: seq<bv32>): Regs
    requires |block| == 16
  {
    Add(r, Steps(block, r, 64))
  }

  function RegsOf(s: seq<bv32>): Regs
    requires |s| == 8
  {
    Regs(s[0], s[1], s[2], s[3], s[4], s[5], s[6], s[7])
  }

  // ----- the macros of the code -----

  function Choice(x: bv32, y: bv32, z: bv32): bv32 { z ^ (x & (y ^ z)) }
  function Majority(x: bv32, y: bv32, z: bv32): bv32 { (x & y) ^ (z & (x ^ y)) }

  lemma ChoiceBits(x: bv32, y: bv32, z: bv32)
    ensures z ^ (x & (y ^ z)) == (x & y) ^ (!x & z)
  {}

  lemma MajorityBits(x: bv32, y: bv32, z: bv32)
    ensures (x & y) ^ (z & (x ^ y)) == (x & y) ^ (x & z) ^ (y & z)
  {}

  lemma AddReorder(x: bv32, a: bv32, b: bv32, c: bv32)
    ensures x + (a + b + c) == a + b + c + x
  {}

  lemma ChoiceIsCh(x: bv32, y: bv32, z: bv32)
    ensures Choice(x, y, z) == Ch(x, y, z)
  {
    ChoiceBits(x, y, z);
  }

  lemma MajorityIsMaj(x: bv32, y: bv32, z: bv32)
    ensures Majority(x, y, z) == Maj(x, y, z)
  {
    MajorityBits(x, y, z);
  }

  /** ROUND: only the registers in the places of d and h change, so the next round renames all eight. */
  method Round(a: bv32, b: bv32, c: bv32, d: bv32, e: bv32, f: bv32, g: bv32, h: bv32, k: bv32, data: bv32,
               ghost start: Regs, ghost block: seq<bv32>, ghost t: nat)
    returns (d': bv32, h': bv32)
    requires |block| == 16 && t < 64 && k == Constant(t) && data == Schedule(block, t)
    requires Regs(a, b, c, d, e, f, g, h) == Steps(block, start, t)
    ensures Regs(h', a, b, c, d', e, f, g) == Steps(block, start, t + 1)
  {
    hide BigSigma0, BigSigma1, Choice, Majority, Ch, Maj, Schedule, Plus, Sum5;
    ChoiceIsCh(e, f, g);
    MajorityIsMaj(a, b, c);
    var t1 := Sum5(h, BigSigma1(e), Choice(e, f, g), k, data);
    var t2 := Plus(BigSigma0(a), Majority(a, b, c));
    d' := Plus(d, t1);
    h' := Plus(t1, t2);
  }

  /** The sixteen words hold schedule words t - 16 .. t - 1, the first j of them already replaced by t .. t + j - 1. */
  ghost predicate Window(data: seq<bv32>, block: seq<bv32>, t: nat, j: nat)
    requires |block| == 16
  {
    && |data| == 16 && t >= 16 && j <= 16
    && forall p :: 0 <= p < 16 ==> data[p] == Schedule(block, if p < j then t + p else t - 16 + p)
  }

  /** W[i] + (s1(W[i - 2]) + W[i - 7] + s0(W[i - 15])) */
  function Expanded(w: bv32, w2: bv32, w7: bv32, w15: bv32): bv32 {
    w + (SmallSigma1(w2) + w7 + SmallSigma0(w15))
  }

  lemma ExpandedIsNextWord(w: bv32, w2: bv32, w7: bv32, w15: bv32)
    ensures Expanded(w, w2, w7, w15) == NextWord(w2, w7, w15, w)
  {
    hide SmallSigma0, SmallSigma1;
    AddReorder(w, SmallSigma1(w2), w7, SmallSigma0(w15));
  }

  lemma WindowReads(data: seq<bv32>, block: seq<bv32>, t: nat, j: nat)
    requires |block| == 16 && j < 16 && Window(data, block, t, j)
    ensures |data| == 16 && t >= 16
    ensures data[j] == Schedule(block, t + j - 16) && data[(j + 1) % 16] == Schedule(block, t + j - 15)
    ensures data[(j + 9) % 16] == Schedule(block, t + j - 7) && data[(j + 14) % 16] == Schedule(block, t + j - 2)
  {
    hide Schedule;
  }

  lemma WindowWrite(data: seq<bv32>, block: seq<bv32>, t: nat, j: nat, x: bv32)
    requires |block| == 16 && j < 16 && Window(data, block, t, j) && x == Schedule(block, t + j)
    ensures |data| == 16 && Window(data[j := x], block, t, j + 1)
  {
    hide Schedule;
  }

  lemma ScheduleNext(block: seq<bv32>, t: nat)
    requires |block| == 16 && t >= 16
    ensures Schedule(block, t)
         == NextWord(Schedule(block, t - 2), Schedule(block, t - 7), Schedule(block, t - 15), Schedule(block, t - 16))
  {
    hide NextWord;
  }

  /** EXPAND, with indices taken modulo 16. */
  method Expand(data: array<bv32>, j: nat, ghost block: seq<bv32>, ghost t: nat) returns (x: bv32)
    requires |block| == 16 && j < 16 && Window(data[..], block, t, j)
    modifies data
    ensures Window(data[..], block, t, j + 1) && x == Schedule(block, t + j)
  {
    hide *;
    ghost var was := data[..];
    WindowReads(was, block, t, j);
    ScheduleNext(block, t + j);
    ExpandedIsNextWord(data[j], data[(j + 14) % 16], data[(j + 9) % 16], data[(j + 1) % 16]);
    x := Expanded(data[j], data[(j + 14) % 16], data[(j + 9) % 16], data[(j + 1) % 16]);
    data[j] := x;
    WindowWrite(was, block, t, j, x);
    assert data[..] == was[j := x];
  }

  /** Eight rounds on original words; after eight renamings the registers are in place again. */
  method PlainRounds(data: array<bv32>, i: nat, A0: bv32, B0: bv32, C0: bv32, D0: bv32, E0: bv32, F0: bv32,
          G0: bv32, H0: bv32, ghost h0: Regs, ghost block: seq<bv32>)
    returns (A: bv32, B: bv32, C: bv32, D: bv32, E: bv32, F: bv32, G: bv32, H: bv32)
    requires |block| == 16 && data[..] == block && i + 8 <= 16
    requires Regs(A0, B0, C0, D0, E0, F0, G0, H0) == Steps(block, h0, i)
    ensures Regs(A, B, C, D, E, F, G, H) == Steps(block, h0, i + 8)
  {
    hide Schedule, Steps, Constant;
    A, B, C, D, E, F, G, H := A0, B0, C0, D0, E0, F0, G0, H0;
    ScheduleStart(block);
    D, H := Round(A, B, C, D, E, F, G, H, Constant(i), data[i], h0, block, i);
    C, G := Round(H, A, B, C, D, E, F, G, Constant(i + 1), data[i + 1], h0, block, i + 1);
    B, F := Round(G, H, A, B, C, D, E, F, Constant(i + 2), data[i + 2], h0, block, i + 2);
    A, E := Round(F, G, H, A, B, C, D, E, Constant(i + 3), data[i + 3], h0, block, i + 3);
    H, D := Round(E, F, G, H, A, B, C, D, Constant(i + 4), data[i + 4], h0, block, i + 4);
    G, C := Round(D, E, F, G, H, A, B, C, Constant(i + 5), data[i + 5], h0, block, i + 5);
    F, B := Round(C, D, E, F, G, H, A, B, Constant(i + 6), data[i + 6], h0, block, i + 6);
    E, A := Round(B, C, D, E, F, G, H, A, Constant(i + 7), data[i + 7], h0, block, i + 7);
  }

  /** Eight rounds on words that EXPAND puts into places at .. at + 7. */
  method ExpandedRounds(data: array<bv32>, i: nat, at: nat, A0: bv32, B0: bv32, C0: bv32, D0: bv32, E0: bv32,
          F0: bv32, G0: bv32, H0: bv32, ghost h0: Regs, ghost block: seq<bv32>)
    returns (A: bv32, B: bv32, C: bv32, D: bv32, E: bv32, F: bv32, G: bv32, H: bv32)
    requires |block| == 16 && at + 8 <= 16 && i + 16 <= 64 && Window(data[..], block, i, at)
    requires Regs(A0, B0, C0, D0, E0, F0, G0, H0) == Steps(block, h0, i + at)
    modifies data
    ensures Window(data[..], block, i, at + 8)
    ensures Regs(A, B, C, D, E, F, G, H) == Steps(block, h0, i + at + 8)
  {
    hide Schedule, Steps, Window, Constant;
    A, B, C, D, E, F, G, H := A0, B0, C0, D0, E0, F0, G0, H0;
    var x;
    x := Expand(data, at, block, i);
    D, H := Round(A, B, C, D, E, F, G, H, Constant(i + at), x, h0, block, i + at);
    x := Expand(data, at + 1, block, i);
    C, G := Round(H, A, B, C, D, E, F, G, Constant(i + at + 1), x, h0, block, i + at + 1);
    x := Expand(data, at + 2, block, i);
    B, F := Round(G, H, A, B, C, D, E, F, Constant(i + at + 2), x, h0, block, i + at + 2);
    x := Expand(data, at + 3, block, i);
    A, E := Round(F, G, H, A, B, C, D, E, Constant(i + at + 3), x, h0, block, i + at + 3);
    x := Expand(data, at + 4, block, i);
    H, D := Round(E, F, G, H, A, B, C, D, Constant(i + at + 4), x, h0, block, i + at + 4);
    x := Expand(data, at + 5, block, i);
    G, C := Round(D, E, F, G, H, A, B, C, Constant(i + at + 5), x, h0, block, i + at + 5);
    x := Expand(data, at + 6, block, i);
    F, B := Round(C, D, E, F, G, H, A, B, Constant(i + at + 6), x, h0, block, i + at + 6);
    x := Expand(data, at + 7, block, i);
    E, A := Round(B, C, D, E, F, G, H, A, Constant(i + at + 7), x, h0, block, i + at + 7);
  }

  /** The final additions to the state. */
  method Update(state: array<bv32>, A: bv32, B: bv32, C: bv32, D: bv32, E: bv32, F: bv32, G: bv32, H: bv32)
    requires state.Length == 8
    modifies state
    ensures RegsOf(state[..]) == Add(RegsOf(old(state[..])), Regs(A, B, C, D, E, F, G, H))
  {
    hide Plus;
    state[0] := Plus(state[0], A);
    state[1] := Plus(state[1], B);
    state[2] := Plus(state[2], C);
    state[3] := Plus(state[3], D);
    state[4] := Plus(state[4], E);
    state[5] := Plus(state[5], F);
    state[6] := Plus(state[6], G);
    state[7] := Plus(state[7], H);
  }

  method Transform(state: array<bv32>, data: array<bv32>)
    requires state.Length == 8 && data.Length == 16 && state != data
    modifies state, data
    ensures RegsOf(state[..]) == Compress(RegsOf(old(state[..])), old(data[..]))
  {
    hide Schedule, Steps, Window, Plus, Constant;
    ghost var block, h0 := data[..], RegsOf(state[..]);
    var A, B, C, D, E, F, G, H := state[0], state[1], state[2], state[3], state[4], state[5], state[6], state[7];
    StepsStart(block, h0);
    var i := 0;
    while i < 16
      invariant (i == 0 || i == 8 || i == 16) && data[..] == block && state[..] == old(state[..])
      invariant Regs(A, B, C, D, E, F, G, H) == Steps(block, h0, i)
    {
      A, B, C, D, E, F, G, H := PlainRounds(data, i, A, B, C, D, E, F, G, H, h0, block);
      i := i + 8;
    }
    WindowStart(data[..], block);
    while i < 64
      invariant (i == 16 || i == 32 || i == 48 || i == 64) && Window(data[..], block, i, 0)
      invariant state[..] == old(state[..])
      invariant Regs(A, B, C, D, E, F, G, H) == Steps(block, h0, i)
    {
      A, B, C, D, E, F, G, H := ExpandedRounds(data, i, 0, A, B, C, D, E, F, G, H, h0, block);
      A, B, C, D, E, F, G, H := ExpandedRounds(data, i, 8, A, B, C, D, E, F, G, H, h0, block);
      WindowNext(data[..], block, i);
      i := i + 16;
    }
    Update(state, A, B, C, D, E, F, G, H);
  }

  lemma StepsStart(block: seq<bv32>, r: Regs)
    requires |block| == 16
    ensures Steps(block, r, 0) == r
  {}

  lemma ScheduleStart(block: seq<bv32>)
    requires |block| == 16
    ensures forall t :: 0 <= t < 16 ==> Schedule(block, t) == block[t]
  {}

  lemma WindowStart(data: seq<bv32>, block: seq<bv32>)
    requires |block| == 16 && data == block
    ensures Window(data, block, 16, 0)
  {}

  lemma WindowNext(data: seq<bv32>, block: seq<bv32>, t: nat)
    requires |block| == 16 && Window(data, block, t, 16)
    ensures Window(data, block, t + 16, 0)
  {}
}
