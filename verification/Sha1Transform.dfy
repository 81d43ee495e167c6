/**
 * src/sha1.cpp, SHA1::transform: eighty unrolled rounds with renamed registers
 * and a schedule kept in sixteen words, against FIPS 180-4, section 6.1.2.
 */
module Sha1Transform {
  import opened Machine
  import opened WordBytes

  // ----- FIPS 180-4: functions and constants of sections 4.1.1 and 4.2.1 -----

  function Ch(x: bv32, y: bv32, z: bv32): bv32 { (x & y) ^ (!x & z) }
  function Parity(x: bv32, y: bv32, z: bv32): bv32 { x ^ y ^ z }
  function Maj(x: bv32, y: bv32, z: bv32): bv32 { (x & y) ^ (x & z) ^ (y & z) }

  function F(t: nat, x: bv32, y: bv32, z: bv32): bv32 {
    if t < 20 then Ch(x, y, z)
    else if t < 40 then Parity(x, y, z)
    else if t < 60 then Maj(x, y, z)
    else Parity(x, y, z)
  }

  function K(t: nat): bv32 {
    if t < 20 then 0x5a827999 else if t < 40 then 0x6ed9eba1 else if t < 60 then 0x8f1bbcdc else 0xca62c1d6
  }

  // ----- FIPS 180-4, sections 5.2.1 and 6.1.2 -----

  datatype Regs = Regs(a: bv32, b: bv32, c: bv32, d: bv32, e: bv32)

  /** Word t of the message schedule. */
  function Schedule(block: seq<byte>, t: nat): bv32
    requires |block| == 64
  {
    if t < 16 then BigWord(Low(block[4 * t]), Low(block[4 * t + 1]), Low(block[4 * t + 2]), Low(block[4 * t + 3]))
    else NextWord(Schedule(block, t - 3), Schedule(block, t - 8), Schedule(block, t - 14), Schedule(block, t - 16))
  }

  function NextWord(w3: bv32, w8: bv32, w14: bv32, w16: bv32): bv32 {
    Rotl(1, w3 ^ w8 ^ w14 ^ w16)
  }

  function Sum5(x: bv32, y: bv32, z: bv32, k: bv32, w: bv32): bv32 { x + y + z + k + w }

  function FipsStep(r: Regs, t: nat, w: bv32): Regs {
    Regs(Sum5(Rotl(5, r.a), F(t, r.b, r.c, r.d), r.e, K(t), w), r.a, Rotl(30, r.b), r.c, r.d)
  }

  /** The registers after t steps. */
  function Steps(block: seq<byte>, r: Regs, t: nat): Regs
    requires |block| == 64
  {
    if t == 0 then r else FipsStep(Steps(block, r, t - 1), t - 1, Schedule(block, t - 1))
  }

  function Add(x: Regs, y: Regs): Regs {
    Regs(Plus(x.a, y.a), Plus(x.b, y.b), Plus(x.c, y.c), Plus(x.d, y.d), Plus(x.e, y.e))
  }

  /** The intermediate hash value after one more block. */
  function Compress(r: Regs, block: seq<byte>): Regs
    requires |block| == 64
  {
    Add(r, Steps(block, r, 80))
  }

  function RegsOf(s: seq<bv32>): Regs
    requires |s| == 5
  {
    Regs(s[0], s[1], s[2], s[3], s[4])
  }

  // ----- the macros of the code -----

  /** SHABLK0 */
  function Swap(x: bv32): bv32 {
    (((x << 24) | (x >> 8)) & 0xff00ff00) | (((x << 8) | (x >> 24)) & 0x00ff00ff)
  }

  function Choice(w: bv32, x: bv32, y: bv32): bv32 { (w & (x ^ y)) ^ y }
  function Majority(w: bv32, x: bv32, y: bv32): bv32 { ((w | x) & y) | (w & x) }

  /** z += f + word + constant + ROL32(v, 5) */
  function Mix(z: bv32, f: bv32, word: bv32, k: bv32, v: bv32): bv32 {
    z + (f + word + k + v)
  }

  lemma SwapBits(x0: bv32, x1: bv32, x2: bv32, x3: bv32)
    requires x0 & 0xff == x0 && x1 & 0xff == x1 && x2 & 0xff == x2 && x3 & 0xff == x3
    ensures var x := (x3 << 24) | (x2 << 16) | (x1 << 8) | x0;
      (((x << 24) | (x >> 8)) & 0xff00ff00) | (((x << 8) | (x >> 24)) & 0x00ff00ff)
      == (x0 << 24) | (x1 << 16) | (x2 << 8) | x3
  {}

  lemma SwapIsBigWord(x0: bv32, x1: bv32, x2: bv32, x3: bv32)
    requires x0 & 0xff == x0 && x1 & 0xff == x1 && x2 & 0xff == x2 && x3 & 0xff == x3
    ensures Swap(LittleWord(x0, x1, x2, x3)) == BigWord(x0, x1, x2, x3)
  {
    SwapBits(x0, x1, x2, x3);
  }

  lemma ChoiceBits(w: bv32, x: bv32, y: bv32)
    ensures (w & (x ^ y)) ^ y == (w & x) ^ (!w & y)
  {}

  lemma MajorityBits(w: bv32, x: bv32, y: bv32)
    ensures ((w | x) & y) | (w & x) == (w & x) ^ (w & y) ^ (x & y)
  {}

  lemma MixBits(z: bv32, f: bv32, word: bv32, k: bv32, v: bv32)
    ensures z + (f + word + k + v) == v + f + z + k + word
  {}

  lemma ChoiceIsCh(w: bv32, x: bv32, y: bv32)
    ensures Choice(w, x, y) == Ch(w, x, y)
  {
    ChoiceBits(w, x, y);
  }

  lemma MajorityIsMaj(w: bv32, x: bv32, y: bv32)
    ensures Majority(w, x, y) == Maj(w, x, y)
  {
    MajorityBits(w, x, y);
  }

  lemma MixIsSum(z: bv32, f: bv32, word: bv32, k: bv32, v: bv32)
    ensures Mix(z, f, word, k, v) == Sum5(v, f, z, k, word)
  {
    MixBits(z, f, word, k, v);
  }

  // ----- the workspace -----

  /** What memcpy and the little-endian reads give for word i. */
  function Load(block: seq<byte>, i: nat): bv32
    requires |block| == 64 && i < 16
  {
    LittleWord(Low(block[4 * i]), Low(block[4 * i + 1]), Low(block[4 * i + 2]), Low(block[4 * i + 3]))
  }

  /**
   * Before round t: word s of the schedule is at place s modulo 16 for the last sixteen s below t; the
   * rest is as loaded.
   */
  ghost predicate Workspace(data: seq<bv32>, block: seq<byte>, t: nat) {
    && |block| == 64 && |data| == 16
    && (forall s {:trigger Schedule(block, s)} :: 0 <= s && t - 16 <= s < t ==> data[s % 16] == Schedule(block, s))
    && (forall s {:trigger Load(block, s)} :: t <= s < 16 ==> data[s] == Load(block, s))
  }

  lemma LoadSwapped(block: seq<byte>, t: nat)
    requires |block| == 64 && t < 16
    ensures Swap(Load(block, t)) == Schedule(block, t)
  {
    hide Swap, BigWord, LittleWord, Low;
    SwapIsBigWord(Low(block[4 * t]), Low(block[4 * t + 1]), Low(block[4 * t + 2]), Low(block[4 * t + 3]));
  }

  lemma WorkspaceWrite(data: seq<bv32>, block: seq<byte>, t: nat, x: bv32)
    requires Workspace(data, block, t) && x == Schedule(block, t)
    ensures Workspace(data[t % 16 := x], block, t + 1)
  {
    hide Schedule, Load;
  }

  lemma WorkspaceReads(data: seq<bv32>, block: seq<byte>, t: nat)
    requires Workspace(data, block, t) && t >= 16
    ensures data[(t + 13) % 16] == Schedule(block, t - 3) && data[(t + 8) % 16] == Schedule(block, t - 8)
    ensures data[(t + 2) % 16] == Schedule(block, t - 14) && data[t % 16] == Schedule(block, t - 16)
  {
    hide Schedule, Load;
    assert (t - 3) % 16 == (t + 13) % 16 && (t - 8) % 16 == (t + 8) % 16;
    assert (t - 14) % 16 == (t + 2) % 16 && (t - 16) % 16 == t % 16;
  }

  lemma ScheduleNext(block: seq<byte>, t: nat)
    requires |block| == 64 && t >= 16
    ensures Schedule(block, t)
         == NextWord(Schedule(block, t - 3), Schedule(block, t - 8), Schedule(block, t - 14), Schedule(block, t - 16))
  {
    hide NextWord;
  }

  /** SHABLK0, on a little-endian machine. */
  method Block0(data: array<bv32>, i: nat, ghost block: seq<byte>) returns (x: bv32)
    requires i < 16 && data.Length == 16 && Workspace(data[..], block, i)
    modifies data
    ensures Workspace(data[..], block, i + 1) && x == Schedule(block, i)
  {
    hide Swap, Schedule, Load;
    ghost var was := data[..];
    LoadSwapped(block, i);
    x := Swap(data[i]);
    data[i] := x;
    WorkspaceWrite(was, block, i, x);
    assert data[..] == was[i % 16 := x];
  }

  /** SHABLK */
  method Block(data: array<bv32>, i: nat, ghost block: seq<byte>) returns (x: bv32)
    requires i >= 16 && data.Length == 16 && Workspace(data[..], block, i)
    modifies data
    ensures Workspace(data[..], block, i + 1) && x == Schedule(block, i)
  {
    hide NextWord, Schedule, Load;
    ghost var was := data[..];
    WorkspaceReads(was, block, i);
    ScheduleNext(block, i);
    x := NextWord(data[(i + 13) % 16], data[(i + 8) % 16], data[(i + 2) % 16], data[i % 16]);
    data[i % 16] := x;
    WorkspaceWrite(was, block, i, x);
    assert data[..] == was[i % 16 := x];
  }

  // ----- the rounds: only w and z change, so the next round renames all five registers -----

  lemma RoundIsStep(v: bv32, w: bv32, x: bv32, y: bv32, z: bv32, block: seq<byte>, start: Regs, t: nat)
    requires |block| == 64 && Regs(v, w, x, y, z) == Steps(block, start, t)
    ensures Regs(Mix(z, F(t, w, x, y), Schedule(block, t), K(t), Rotl(5, v)), v, Rotl(30, w), x, y)
         == Steps(block, start, t + 1)
  {
    hide Rotl, Mix, Sum5, F, K, Schedule;
    MixIsSum(z, F(t, w, x, y), Schedule(block, t), K(t), Rotl(5, v));
  }

  method R0(v: bv32, w: bv32, x: bv32, y: bv32, z: bv32, i: nat, data: array<bv32>,
          ghost start: Regs, ghost block: seq<byte>)
    returns (w': bv32, z': bv32)
    requires i < 16 && data.Length == 16 && |block| == 64 && Workspace(data[..], block, i)
    requires Regs(v, w, x, y, z) == Steps(block, start, i)
    modifies data
    ensures Workspace(data[..], block, i + 1)
    ensures Regs(z', v, w', x, y) == Steps(block, start, i + 1)
  {
    hide Workspace, Rotl, Mix, Choice, Ch, Schedule, Steps;
    var word := Block0(data, i, block);
    ChoiceIsCh(w, x, y);
    RoundIsStep(v, w, x, y, z, block, start, i);
    z' := Mix(z, Choice(w, x, y), word, 0x5a827999, Rotl(5, v));
    w' := Rotl(30, w);
  }

  method R1(v: bv32, w: bv32, x: bv32, y: bv32, z: bv32, i: nat, data: array<bv32>,
          ghost start: Regs, ghost block: seq<byte>)
    returns (w': bv32, z': bv32)
    requires 16 <= i < 20 && data.Length == 16 && |block| == 64 && Workspace(data[..], block, i)
    requires Regs(v, w, x, y, z) == Steps(block, start, i)
    modifies data
    ensures Workspace(data[..], block, i + 1)
    ensures Regs(z', v, w', x, y) == Steps(block, start, i + 1)
  {
    hide Workspace, Rotl, Mix, Choice, Ch, Schedule, Steps;
    var word := Block(data, i, block);
    ChoiceIsCh(w, x, y);
    RoundIsStep(v, w, x, y, z, block, start, i);
    z' := Mix(z, Choice(w, x, y), word, 0x5a827999, Rotl(5, v));
    w' := Rotl(30, w);
  }

  method R2(v: bv32, w: bv32, x: bv32, y: bv32, z: bv32, i: nat, data: array<bv32>,
          ghost start: Regs, ghost block: seq<byte>)
    returns (w': bv32, z': bv32)
    requires 20 <= i < 40 && data.Length == 16 && |block| == 64 && Workspace(data[..], block, i)
    requires Regs(v, w, x, y, z) == Steps(block, start, i)
    modifies data
    ensures Workspace(data[..], block, i + 1)
    ensures Regs(z', v, w', x, y) == Steps(block, start, i + 1)
  {
    hide Workspace, Rotl, Mix, Parity, Schedule, Steps;
    var word := Block(data, i, block);
    RoundIsStep(v, w, x, y, z, block, start, i);
    z' := Mix(z, Parity(w, x, y), word, 0x6ed9eba1, Rotl(5, v));
    w' := Rotl(30, w);
  }

  method R3(v: bv32, w: bv32, x: bv32, y: bv32, z: bv32, i: nat, data: array<bv32>,
          ghost start: Regs, ghost block: seq<byte>)
    returns (w': bv32, z': bv32)
    requires 40 <= i < 60 && data.Length == 16 && |block| == 64 && Workspace(data[..], block, i)
    requires Regs(v, w, x, y, z) == Steps(block, start, i)
    modifies data
    ensures Workspace(data[..], block, i + 1)
    ensures Regs(z', v, w', x, y) == Steps(block, start, i + 1)
  {
    hide Workspace, Rotl, Mix, Majority, Maj, Schedule, Steps;
    var word := Block(data, i, block);
    MajorityIsMaj(w, x, y);
    RoundIsStep(v, w, x, y, z, block, start, i);
    z' := Mix(z, Majority(w, x, y), word, 0x8f1bbcdc, Rotl(5, v));
    w' := Rotl(30, w);
  }

  method R4(v: bv32, w: bv32, x: bv32, y: bv32, z: bv32, i: nat, data: array<bv32>,
          ghost start: Regs, ghost block: seq<byte>)
    returns (w': bv32, z': bv32)
    requires 60 <= i && data.Length == 16 && |block| == 64 && Workspace(data[..], block, i)
    requires Regs(v, w, x, y, z) == Steps(block, start, i)
    modifies data
    ensures Workspace(data[..], block, i + 1)
    ensures Regs(z', v, w', x, y) == Steps(block, start, i + 1)
  {
    hide Workspace, Rotl, Mix, Parity, Schedule, Steps;
    var word := Block(data, i, block);
    RoundIsStep(v, w, x, y, z, block, start, i);
    z' := Mix(z, Parity(w, x, y), word, 0xca62c1d6, Rotl(5, v));
    w' := Rotl(30, w);
  }

  // ----- five rounds bring the registers back in place; the code writes all eighty out -----

  /** Rounds on loaded words. */
  method Five0(a0: bv32, b0: bv32, c0: bv32, d0: bv32, e0: bv32, i: nat, data: array<bv32>,
          ghost start: Regs, ghost block: seq<byte>)
    returns (a: bv32, b: bv32, c: bv32, d: bv32, e: bv32)
    requires i + 5 <= 16 && data.Length == 16 && |block| == 64 && Workspace(data[..], block, i)
    requires Regs(a0, b0, c0, d0, e0) == Steps(block, start, i)
    modifies data
    ensures Workspace(data[..], block, i + 5)
    ensures Regs(a, b, c, d, e) == Steps(block, start, i + 5)
  {
    hide Workspace, Steps;
    a, b, c, d, e := a0, b0, c0, d0, e0;
    b, e := R0(a, b, c, d, e, i, data, start, block);
    a, d := R0(e, a, b, c, d, i + 1, data, start, block);
    e, c := R0(d, e, a, b, c, i + 2, data, start, block);
    d, b := R0(c, d, e, a, b, i + 3, data, start, block);
    c, a := R0(b, c, d, e, a, i + 4, data, start, block);
  }

  /** The round on the last loaded word and the first four on expanded ones. */
  method Five1(a0: bv32, b0: bv32, c0: bv32, d0: bv32, e0: bv32, i: nat, data: array<bv32>,
          ghost start: Regs, ghost block: seq<byte>)
    returns (a: bv32, b: bv32, c: bv32, d: bv32, e: bv32)
    requires i == 15 && data.Length == 16 && |block| == 64 && Workspace(data[..], block, i)
    requires Regs(a0, b0, c0, d0, e0) == Steps(block, start, i)
    modifies data
    ensures Workspace(data[..], block, i + 5)
    ensures Regs(a, b, c, d, e) == Steps(block, start, i + 5)
  {
    hide Workspace, Steps;
    a, b, c, d, e := a0, b0, c0, d0, e0;
    b, e := R0(a, b, c, d, e, i, data, start, block);
    a, d := R1(e, a, b, c, d, i + 1, data, start, block);
    e, c := R1(d, e, a, b, c, i + 2, data, start, block);
    d, b := R1(c, d, e, a, b, i + 3, data, start, block);
    c, a := R1(b, c, d, e, a, i + 4, data, start, block);
  }

  /** Rounds 20 to 39. */
  method Five2(a0: bv32, b0: bv32, c0: bv32, d0: bv32, e0: bv32, i: nat, data: array<bv32>,
          ghost start: Regs, ghost block: seq<byte>)
    returns (a: bv32, b: bv32, c: bv32, d: bv32, e: bv32)
    requires 20 <= i && i + 5 <= 40 && data.Length == 16 && |block| == 64 && Workspace(data[..], block, i)
    requires Regs(a0, b0, c0, d0, e0) == Steps(block, start, i)
    modifies data
    ensures Workspace(data[..], block, i + 5)
    ensures Regs(a, b, c, d, e) == Steps(block, start, i + 5)
  {
    hide Workspace, Steps;
    a, b, c, d, e := a0, b0, c0, d0, e0;
    b, e := R2(a, b, c, d, e, i, data, start, block);
    a, d := R2(e, a, b, c, d, i + 1, data, start, block);
    e, c := R2(d, e, a, b, c, i + 2, data, start, block);
    d, b := R2(c, d, e, a, b, i + 3, data, start, block);
    c, a := R2(b, c, d, e, a, i + 4, data, start, block);
  }

  /** Rounds 40 to 59. */
  method Five3(a0: bv32, b0: bv32, c0: bv32, d0: bv32, e0: bv32, i: nat, data: array<bv32>,
          ghost start: Regs, ghost block: seq<byte>)
    returns (a: bv32, b: bv32, c: bv32, d: bv32, e: bv32)
    requires 40 <= i && i + 5 <= 60 && data.Length == 16 && |block| == 64 && Workspace(data[..], block, i)
    requires Regs(a0, b0, c0, d0, e0) == Steps(block, start, i)
    modifies data
    ensures Workspace(data[..], block, i + 5)
    ensures Regs(a, b, c, d, e) == Steps(block, start, i + 5)
  {
    hide Workspace, Steps;
    a, b, c, d, e := a0, b0, c0, d0, e0;
    b, e := R3(a, b, c, d, e, i, data, start, block);
    a, d := R3(e, a, b, c, d, i + 1, data, start, block);
    e, c := R3(d, e, a, b, c, i + 2, data, start, block);
    d, b := R3(c, d, e, a, b, i + 3, data, start, block);
    c, a := R3(b, c, d, e, a, i + 4, data, start, block);
  }

  /** Rounds 60 to 79. */
  method Five4(a0: bv32, b0: bv32, c0: bv32, d0: bv32, e0: bv32, i: nat, data: array<bv32>,
          ghost start: Regs, ghost block: seq<byte>)
    returns (a: bv32, b: bv32, c: bv32, d: bv32, e: bv32)
    requires 60 <= i && i + 5 <= 80 && data.Length == 16 && |block| == 64 && Workspace(data[..], block, i)
    requires Regs(a0, b0, c0, d0, e0) == Steps(block, start, i)
    modifies data
    ensures Workspace(data[..], block, i + 5)
    ensures Regs(a, b, c, d, e) == Steps(block, start, i + 5)
  {
    hide Workspace, Steps;
    a, b, c, d, e := a0, b0, c0, d0, e0;
    b, e := R4(a, b, c, d, e, i, data, start, block);
    a, d := R4(e, a, b, c, d, i + 1, data, start, block);
    e, c := R4(d, e, a, b, c, i + 2, data, start, block);
    d, b := R4(c, d, e, a, b, i + 3, data, start, block);
    c, a := R4(b, c, d, e, a, i + 4, data, start, block);
  }

  lemma WorkspaceStart(data: seq<bv32>, block: seq<byte>)
    requires |block| == 64 && |data| == 16
    requires forall i {:trigger Load(block, i)} :: 0 <= i < 16 ==> data[i] == Load(block, i)
    ensures Workspace(data, block, 0)
  {
    hide Load;
  }

  lemma StepsStart(block: seq<byte>, r: Regs)
    requires |block| == 64
    ensures Steps(block, r, 0) == r
  {}

  /** memcpy into the workspace, read as little-endian words. */
  method LoadBlock(buffer: seq<byte>) returns (data: array<bv32>)
    requires |buffer| == 64
    ensures fresh(data) && data.Length == 16 && Workspace(data[..], buffer, 0)
  {
    hide LittleWord, Low;
    data := new bv32[16];
    var i := 0;
    while i < 16
      invariant 0 <= i <= 16
      invariant forall k {:trigger Load(buffer, k)} :: 0 <= k < i ==> data[k] == Load(buffer, k)
    {
      data[i] := Load(buffer, i);
      i := i + 1;
    }
    WorkspaceStart(data[..], buffer);
  }

  /** Add the working variables back into the state. */
  method Update(state: array<bv32>, a: bv32, b: bv32, c: bv32, d: bv32, e: bv32)
    requires state.Length == 5
    modifies state
    ensures RegsOf(state[..]) == Add(RegsOf(old(state[..])), Regs(a, b, c, d, e))
  {
    hide Plus;
    state[0] := Plus(state[0], a);
    state[1] := Plus(state[1], b);
    state[2] := Plus(state[2], c);
    state[3] := Plus(state[3], d);
    state[4] := Plus(state[4], e);
  }

  method FirstForty(a0: bv32, b0: bv32, c0: bv32, d0: bv32, e0: bv32, data: array<bv32>,
          ghost h: Regs, ghost buffer: seq<byte>)
    returns (a: bv32, b: bv32, c: bv32, d: bv32, e: bv32)
    requires data.Length == 16 && |buffer| == 64 && Workspace(data[..], buffer, 0)
    requires Regs(a0, b0, c0, d0, e0) == Steps(buffer, h, 0)
    modifies data
    ensures Workspace(data[..], buffer, 40)
    ensures Regs(a, b, c, d, e) == Steps(buffer, h, 40)
  {
    hide Workspace, Steps;
    a, b, c, d, e := a0, b0, c0, d0, e0;
    a, b, c, d, e := Five0(a, b, c, d, e, 0, data, h, buffer);
    a, b, c, d, e := Five0(a, b, c, d, e, 5, data, h, buffer);
    a, b, c, d, e := Five0(a, b, c, d, e, 10, data, h, buffer);
    a, b, c, d, e := Five1(a, b, c, d, e, 15, data, h, buffer);
    a, b, c, d, e := Five2(a, b, c, d, e, 20, data, h, buffer);
    a, b, c, d, e := Five2(a, b, c, d, e, 25, data, h, buffer);
    a, b, c, d, e := Five2(a, b, c, d, e, 30, data, h, buffer);
    a, b, c, d, e := Five2(a, b, c, d, e, 35, data, h, buffer);
  }

  method LastForty(a0: bv32, b0: bv32, c0: bv32, d0: bv32, e0: bv32, data: array<bv32>,
          ghost h: Regs, ghost buffer: seq<byte>)
    returns (a: bv32, b: bv32, c: bv32, d: bv32, e: bv32)
    requires data.Length == 16 && |buffer| == 64 && Workspace(data[..], buffer, 40)
    requires Regs(a0, b0, c0, d0, e0) == Steps(buffer, h, 40)
    modifies data
    ensures Workspace(data[..], buffer, 80)
    ensures Regs(a, b, c, d, e) == Steps(buffer, h, 80)
  {
    hide Workspace, Steps;
    a, b, c, d, e := a0, b0, c0, d0, e0;
    a, b, c, d, e := Five3(a, b, c, d, e, 40, data, h, buffer);
    a, b, c, d, e := Five3(a, b, c, d, e, 45, data, h, buffer);
    a, b, c, d, e := Five3(a, b, c, d, e, 50, data, h, buffer);
    a, b, c, d, e := Five3(a, b, c, d, e, 55, data, h, buffer);
    a, b, c, d, e := Five4(a, b, c, d, e, 60, data, h, buffer);
    a, b, c, d, e := Five4(a, b, c, d, e, 65, data, h, buffer);
    a, b, c, d, e := Five4(a, b, c, d, e, 70, data, h, buffer);
    a, b, c, d, e := Five4(a, b, c, d, e, 75, data, h, buffer);
  }

  method Transform(state: array<bv32>, buffer: seq<byte>)
    requires state.Length == 5 && |buffer| == 64
    modifies state
    ensures RegsOf(state[..]) == Compress(RegsOf(old(state[..])), buffer)
  {
    hide Workspace, Steps, Plus;
    ghost var h := RegsOf(state[..]);
    var data := LoadBlock(buffer);
    var a, b, c, d, e := state[0], state[1], state[2], state[3], state[4];
    StepsStart(buffer, h);
    a, b, c, d, e := FirstForty(a, b, c, d, e, data, h, buffer);
    a, b, c, d, e := LastForty(a, b, c, d, e, data, h, buffer);
    Update(state, a, b, c, d, e);
  }
}
