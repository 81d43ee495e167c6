/**
 * src/md5.cpp, the streaming interface on a little-endian host, where byteSwap
 * leaves the words of the buffer as they are: the transform sees exactly the
 * message padded as RFC 1321, sections 3.1 and 3.2, says.
 */
module Md5 {
  import opened Machine
  import opened NumberTheory
  import opened Bits
  import opened Words
  import opened WordBytes
  import opened Streaming
  import opened Md5Transform

  const TWO_TO_29: int := 0x2000_0000

  function Compression(r: Regs, b: seq<byte>): Regs {
    if |b| == 64 then Compress(r, b) else r
  }

  /** Section 3.3. */
  const START: Regs := Regs(0x67452301, 0xefcdab89, 0x98badcfe, 0x10325476)

  /** Section 3.2: the bit length modulo 2^64, low-order byte first. */
  function LengthField(length: nat): (f: seq<byte>)
    ensures |f| == 8
  {
    LittleEndian(8 * length, 8)
  }

  function Hash(m: seq<byte>): Regs {
    Absorb(Compression, 64, START, m + Padding(|m|, 64, LengthField(|m|)))
  }

  // ----- the byte counter -----

  /** bytes[0] = t + len, with a carry when the sum is below t. */
  lemma CountMore(low: uint32, high: uint32, n: nat, len: uint32)
    requires Counts(low, high, n)
    ensures var low' := (low + len) % TWO_TO_32;
      Counts(low', if low' < low then (high + 1) % TWO_TO_32 else high, n + len)
  {
    CountSplits(low, high, n);
    var q: nat :| n == q * TWO_TO_64 + high as int * TWO_TO_32 + low;
    var carry := if low + len >= TWO_TO_32 then 1 else 0;
    DivModUnique(low + len, TWO_TO_32, carry, low + len - carry * TWO_TO_32);
    var over := (high + carry) / TWO_TO_32;
    var high' := (high + carry) % TWO_TO_32;
    assert high + carry == over * TWO_TO_32 + high';
    DivModUnique(n + len, TWO_TO_64, q + over, high' * TWO_TO_32 + (low + len - carry * TWO_TO_32));
  }

  /** bytes[0] & 0x3f is the number of buffered bytes. */
  lemma BufferedBytes(low: uint32, high: uint32, n: nat)
    requires Counts(low, high, n)
    ensures And(low, 63) == n % 64
  {
    hide And, Pow2;
    PowersOfTwo();
    AndLowBits(low, 6);
    CountSplits(low, high, n);
    var q: nat :| n == q * TWO_TO_64 + high as int * TWO_TO_32 + low;
    DivModUnique(n, 64, q * (TWO_TO_64 / 64) + high as int * (TWO_TO_32 / 64) + low / 64, low % 64);
  }

  lemma BitLength(low: uint32, high: uint32, n: nat)
    requires Counts(low, high, n)
    ensures 8 * n % TWO_TO_32 == (low % TWO_TO_29) * 8
    ensures 8 * n / TWO_TO_32 % TWO_TO_32 == (high % TWO_TO_29) * 8 + low / TWO_TO_29
  {
    CountSplits(low, high, n);
    var q: nat :| n == q * TWO_TO_64 + high as int * TWO_TO_32 + low;
    var upper := q * (8 * TWO_TO_32) + high as int * 8 + low / TWO_TO_29;
    var lower := (low % TWO_TO_29) * 8;
    assert low == (low / TWO_TO_29) * TWO_TO_29 + low % TWO_TO_29;
    assert 8 * n == upper * TWO_TO_32 + lower;
    DivModUnique(8 * n, TWO_TO_32, upper, lower);
    assert high as int * 8 == (high / TWO_TO_29) * TWO_TO_32 + (high % TWO_TO_29) * 8;
    DivModUnique(upper, TWO_TO_32, q * 8 + high / TWO_TO_29, (high % TWO_TO_29) * 8 + low / TWO_TO_29);
  }

  lemma ShiftByThree(x: uint32)
    ensures Shl32(x, 3) == (x % TWO_TO_29) * 8 && Shr(x, 29) == x / TWO_TO_29
  {
    PowersOfTwo();
    hide Pow2, Shr;
    ShrDivides(x, 29);
    assert x * 8 == (x / TWO_TO_29) * TWO_TO_32 + (x % TWO_TO_29) * 8;
    DivModUnique(x * 8, TWO_TO_32, x / TWO_TO_29, (x % TWO_TO_29) * 8);
  }

  /** in[14] and in[15], as the bytes of two little-endian words. */
  lemma LengthWords(low: uint32, high: uint32, n: nat)
    requires Counts(low, high, n)
    ensures Or(Shl32(high, 3), Shr(low, 29)) < TWO_TO_32
    ensures LengthField(n) == LittleEndian(Shl32(low, 3), 4) + LittleEndian(Or(Shl32(high, 3), Shr(low, 29)), 4)
  {
    hide Or, Pow2, Shr, Counts, LittleEndian;
    LittleEndianEight(8 * n);
    BitLength(low, high, n);
    ShiftByThree(low);
    ShiftByThree(high);
    PowersOfTwo();
    OrDisjoint(high % TWO_TO_29, 3, low / TWO_TO_29);
  }

  // ----- the last blocks -----

  lemma OneLastBlock(partial: seq<byte>, field: seq<byte>)
    requires |partial| <= 55 && |field| == 8
    ensures partial + Padding(|partial|, 64, field) == partial + [0x80] + Zeros(55 - |partial|) + field
  {
    GapFromOneBlock(|partial|, 64, 8);
  }

  lemma TwoLastBlocks(partial: seq<byte>, field: seq<byte>)
    requires 55 < |partial| < 64 && |field| == 8
    ensures var last := partial + Padding(|partial|, 64, field);
      && |last| == 128
      && last[..64] == partial + [0x80] + Zeros(63 - |partial|)
      && last[64..] == Zeros(56) + field
  {
    GapFromOneBlock(|partial|, 64, 8);
  }

  /** Section 3.5: the four words whose bytes, least significant first, are the digest. */
  function DigestWords(d: seq<bv32>): Regs
    requires |d| == 16
  {
    Regs(LittleWord(d[0], d[1], d[2], d[3]), LittleWord(d[4], d[5], d[6], d[7]),
         LittleWord(d[8], d[9], d[10], d[11]), LittleWord(d[12], d[13], d[14], d[15]))
  }

  lemma DigestOfWord(d: seq<bv32>, state: seq<bv32>, k: nat)
    requires |d| == 16 && |state| == 4 && k < 4
    requires forall i {:trigger d[i]} :: 0 <= i < 16 ==> d[i] == LittleByte(state[i / 4], i % 4)
    ensures LittleWord(d[4 * k], d[4 * k + 1], d[4 * k + 2], d[4 * k + 3]) == state[k]
  {
    hide LittleByte, LittleWord;
    WordOfLittleBytes(state[k]);
    assert (4 * k) / 4 == k && (4 * k) % 4 == 0;
    assert (4 * k + 1) / 4 == k && (4 * k + 1) % 4 == 1;
    assert (4 * k + 2) / 4 == k && (4 * k + 2) % 4 == 2;
    assert (4 * k + 3) / 4 == k && (4 * k + 3) % 4 == 3;
  }

  lemma DigestOfState(d: seq<bv32>, state: seq<bv32>)
    requires |d| == 16 && |state| == 4
    requires forall i {:trigger d[i]} :: 0 <= i < 16 ==> d[i] == LittleByte(state[i / 4], i % 4)
    ensures DigestWords(d) == RegsOf(state)
  {
    hide LittleByte, LittleWord;
    DigestOfWord(d, state, 0);
    DigestOfWord(d, state, 1);
    DigestOfWord(d, state, 2);
    DigestOfWord(d, state, 3);
  }

  class Context {
    const buf: array<bv32>
    const input: array<byte>
    var bytesLow: uint32
    var bytesHigh: uint32
    ghost var message: seq<byte>

    /** Apart from the byte counter. */
    ghost predicate Absorbed()
      reads this, buf
    {
      buf.Length == 4 && RegsOf(buf[..]) == Absorb(Compression, 64, START, message)
    }

    ghost predicate Valid()
      reads this, buf, input
    {
      && Absorbed() && input.Length == 64
      && Counts(bytesLow, bytesHigh, |message|)
      && input[..|message| % 64] == Leftover(64, message)
    }

    /** MD5Init, on a new context. */
    constructor ()
      ensures Valid() && fresh(buf) && fresh(input) && message == []
    {
      hide Compression;
      buf := new bv32[4] [START.a, START.b, START.c, START.d];
      input := new byte[64];
      bytesLow, bytesHigh := 0, 0;
      message := [];
    }

    /** memcpy(in + at, source, |source|) */
    method CopyInto(at: nat, source: seq<byte>)
      requires at + |source| <= input.Length
      modifies input
      ensures input[..at + |source|] == old(input[..at]) + source
    {
      forall i | 0 <= i < |source| {
        input[at + i] := source[i];
      }
    }

    /** MD5Transform on the full buffer, which ends with c, the next bytes of the message. */
    method TransformInput(ghost c: seq<byte>)
      requires Absorbed() && input.Length == 64 && |message| % 64 + |c| == 64
      requires input[..] == Leftover(64, message) + c
      modifies this`message, buf
      ensures Absorbed() && message == old(message) + c && |message| % 64 == 0
    {
      hide RegsOf, Compress, Absorb, Leftover;
      FillBlock(Compression, 64, START, message, c);
      Transform(buf, input[..]);
      message := message + c;
    }

    method Count(len: uint32)
      requires Counts(bytesLow, bytesHigh, |message|)
      modifies this`bytesLow, this`bytesHigh
      ensures Counts(bytesLow, bytesHigh, |message| + len)
    {
      hide Counts;
      CountMore(bytesLow, bytesHigh, |message|, len);
      var t := bytesLow;
      bytesLow := (t + len) % TWO_TO_32;
      if bytesLow < t {
        bytesHigh := (bytesHigh + 1) % TWO_TO_32;
      }
    }

    method Update(data: seq<byte>)
      requires Valid() && |data| < TWO_TO_32
      modifies this, buf, input
      ensures Valid() && message == old(message) + data
    {
      hide Absorb, Compression, RegsOf, Counts, Leftover, And;
      BufferedBytes(bytesLow, bytesHigh, |message|);
      ghost var m := message;
      var t := 64 - And(bytesLow, 63);
      Count(|data|);
      if t > |data| {
        Keep(64 - t, data);
        return;
      }
      CopyInto(64 - t, data[..t]);
      TransformInput(data[..t]);
      t := TransformWhole(data, t, m);
      AlignedLeftover(64, message);
      assert data == data[..t] + data[t..];
      Keep(0, data[t..]);
    }

    /** One chunk of the data, copied into the buffer. */
    method TransformChunk(chunk: seq<byte>)
      requires Absorbed() && input.Length == 64 && |chunk| == 64 && |message| % 64 == 0
      modifies this`message, buf, input
      ensures Absorbed() && message == old(message) + chunk && |message| % 64 == 0
    {
      hide Absorb, Compression, RegsOf, Leftover;
      AlignedLeftover(64, message);
      CopyInto(0, chunk);
      assert input[..64] == input[..];
      TransformInput(chunk);
    }

    /** The loop over 64-byte chunks. */
    method TransformWhole(data: seq<byte>, start: nat, ghost m: seq<byte>) returns (i: nat)
      requires Absorbed() && input.Length == 64
      requires start <= |data| && message == m + data[..start] && |message| % 64 == 0
      modifies this`message, buf, input
      ensures Absorbed() && start <= i <= |data| < i + 64
      ensures message == m + data[..i] && |message| % 64 == 0
    {
      hide Absorb, Compression, RegsOf, Leftover;
      i := start;
      while |data| - i >= 64
        invariant start <= i <= |data| && Absorbed()
        invariant message == m + data[..i] && |message| % 64 == 0
      {
        TransformChunk(data[i..i + 64]);
        assert data[..i + 64] == data[..i] + data[i..i + 64];
        i := i + 64;
      }
    }

    /** Bytes that fill no block go behind the first j of the buffer. */
    method Keep(j: nat, rest: seq<byte>)
      requires Absorbed() && input.Length == 64
      requires j == |message| % 64 && j + |rest| < 64 && input[..j] == Leftover(64, message)
      requires Counts(bytesLow, bytesHigh, |message| + |rest|)
      modifies this`message, input
      ensures Valid() && message == old(message) + rest
    {
      hide Absorb, Compression, RegsOf, Counts, Leftover;
      KeepPartial(Compression, 64, START, message, rest);
      CopyInto(j, rest);
      message := message + rest;
    }

    /** memset(in + at, 0, n) */
    method Fill(at: nat, n: nat)
      requires at + n <= input.Length
      modifies input
      ensures input[..at + n] == old(input[..at]) + Zeros(n)
    {
      CopyInto(at, Zeros(n));
    }

    /** The bit length goes into the last two words. */
    method StoreLength()
      requires input.Length == 64 && Counts(bytesLow, bytesHigh, |message|)
      modifies input
      ensures input[..] == old(input[..56]) + LengthField(|message|)
    {
      hide Or, Shr, Shl32, Counts, LittleEndian;
      LengthWords(bytesLow, bytesHigh, |message|);
      ghost var head := input[..56];
      var low, high := LittleEndian(Shl32(bytesLow, 3), 4), LittleEndian(Or(Shl32(bytesHigh, 3), Shr(bytesLow, 29)), 4);
      CopyInto(56, low);
      CopyInto(60, high);
      assert head + low + high == head + (low + high);
      assert input[..64] == input[..];
    }

    method Digest() returns (digest: seq<bv32>)
      requires buf.Length == 4
      ensures |digest| == 16 && DigestWords(digest) == RegsOf(buf[..])
    {
      hide LittleByte, DigestWords;
      digest := [];
      var i := 0;
      while i < 16
        invariant 0 <= i <= 16 && |digest| == i
        invariant forall k {:trigger digest[k]} :: 0 <= k < i ==> digest[k] == LittleByte(buf[k / 4], k % 4)
      {
        digest := digest + [LittleByte(buf[i / 4], i % 4)];
        i := i + 1;
      }
      DigestOfState(digest, buf[..]);
    }

    /** The buffered bytes with the padding are the last one or two blocks of the standard; then all is wiped. */
    method Final() returns (digest: seq<bv32>)
      requires Valid()
      modifies this, buf, input
      ensures |digest| == 16 && DigestWords(digest) == Hash(old(message))
    {
      hide Absorb, RegsOf, Compress, Counts, Leftover, And, DigestWords, LengthField, Padding;
      ghost var partial, field := Leftover(64, message), LengthField(|message|);
      ghost var last := partial + Padding(|partial|, 64, field);
      AbsorbPadding(Compression, 64, START, message, field);
      BufferedBytes(bytesLow, bytesHigh, |message|);
      var count: int := And(bytesLow, 63);
      CopyInto(count, [0x80]);
      var p := count + 1;
      count := 56 - 1 - count;
      if count < 0 {
        TwoLastBlocks(partial, field);
        AbsorbTwo(Compression, 64, RegsOf(buf[..]), last);
        Fill(p, count + 8);
        assert input[..] == last[..64] by { assert input[..64] == input[..]; }
        Transform(buf, input[..]);
        p := 0;
        count := 56;
        assert input[..p] == [];
      } else {
        OneLastBlock(partial, field);
        AbsorbOne(Compression, 64, RegsOf(buf[..]), last);
      }
      Fill(p, count);
      StoreLength();
      assert input[..] == last[|last| - 64..];
      Transform(buf, input[..]);
      digest := Digest();
      Wipe();
    }

    method Wipe()
      requires buf.Length == 4 && input.Length == 64
      modifies buf, input, this`bytesLow, this`bytesHigh
    {
      CopyInto(0, Zeros(64));
      forall i | 0 <= i < 4 { buf[i] := 0; }
      bytesLow, bytesHigh := 0, 0;
    }
  }

  /** GetDataMD5: feeding the data in chunks of 10240 bytes gives the digest of RFC 1321. */
  method GetDataMd5(data: seq<byte>) returns (digest: seq<bv32>)
    ensures |digest| == 16 && DigestWords(digest) == Hash(data)
  {
    hide Hash, RegsOf, DigestWords, Absorb, Leftover, Compression, Counts;
    var context := new Context();
    var offset := 0;
    while offset < |data|
      invariant 0 <= offset <= |data| && context.Valid() && context.message == data[..offset]
      invariant fresh(context) && fresh(context.buf) && fresh(context.input)
    {
      var needRead := 10240;
      if offset + needRead > |data| {
        needRead := |data| - offset;
      }
      context.Update(data[offset..offset + needRead]);
      offset := offset + needRead;
    }
    assert data[..offset] == data;
    digest := context.Final();
  }
}
