/**
 * src/sha1.cpp, the streaming interface. The padding goes through update like
 * any other data, and a bit counter in two words drives the buffering.
 */
module Sha1 {
  import opened Machine
  import opened NumberTheory
  import opened Bits
  import opened Words
  import opened Streaming
  import opened Sha1Transform
  import opened WordBytes

  function Compression(r: Regs, b: seq<byte>): Regs {
    if |b| == 64 then Compress(r, b) else r
  }

  /** FIPS 180-4, section 5.3.1. */
  const H0: Regs := Regs(0x67452301, 0xefcdab89, 0x98badcfe, 0x10325476, 0xc3d2e1f0)

  /** FIPS 180-4, section 6.1: the compression function over the message padded as section 5.1.1 says. */
  function Hash(m: seq<byte>): Regs {
    Absorb(Compression, 64, H0, m + Padding(|m|, 64, BigEndian(8 * |m|, 8)))
  }

  // ----- the bit counter -----

  /** Two 32-bit words hold the number of bits modulo 2^64. */
  predicate CountsBits(low: uint32, high: uint32, length: nat) {
    Counts(low, high, 8 * length)
  }

  /** m_count[0] += len << 3, a carry when the sum is below the addend, and m_count[1] += len >> 29. */
  lemma CountMore(low: uint32, high: uint32, length: nat, len: uint32)
    requires CountsBits(low, high, length)
    ensures var added := 8 * len % TWO_TO_32;
      var low' := (low + added) % TWO_TO_32;
      var carried := if low' < added then (high + 1) % TWO_TO_32 else high;
      CountsBits(low', (carried + len / 0x2000_0000) % TWO_TO_32, length + len)
  {
    var added, top := 8 * len % TWO_TO_32, len / 0x2000_0000;
    DivModUnique(8 * len, TWO_TO_32, top, 8 * (len % 0x2000_0000));
    var carry := if low + added >= TWO_TO_32 then 1 else 0;
    DivModUnique(low + added, TWO_TO_32, carry, low + added - carry * TWO_TO_32);
    HighPart(high, carry, top);
    CountSplits(low, high, 8 * length);
    var q: nat :| 8 * length == q * TWO_TO_64 + high as int * TWO_TO_32 + low;
    NewCount(q, high, low, 8 * length, 8 * len, added, top, carry);
  }

  /** Low word, carry and high word together are the sum modulo 2^64. */
  lemma NewCount(q: nat, high: uint32, low: uint32, bits: nat, more: nat, added: nat, top: nat, carry: nat)
    requires bits == q * TWO_TO_64 + high as int * TWO_TO_32 + low && more == top * TWO_TO_32 + added
    requires carry * TWO_TO_32 <= low + added < (carry + 1) * TWO_TO_32
    ensures Counts(low + added - carry * TWO_TO_32, (high + carry + top) % TWO_TO_32, bits + more)
  {
    var low' := low + added - carry * TWO_TO_32;
    var over, high' := (high + carry + top) / TWO_TO_32, (high + carry + top) % TWO_TO_32;
    DivModUnique(bits + more, TWO_TO_64, q + over, high' * TWO_TO_32 + low');
  }

  lemma HighPart(high: uint32, carry: nat, top: nat)
    requires carry <= 1
    ensures ((if carry == 1 then (high + 1) % TWO_TO_32 else high) + top) % TWO_TO_32
         == (high + carry + top) % TWO_TO_32
  {}

  /** (m_count[0] >> 3) & 63 is the number of buffered bytes. */
  lemma BufferedBytes(low: uint32, high: uint32, length: nat)
    requires CountsBits(low, high, length)
    ensures And(Shr(low, 3), 63) == length % 64
  {
    hide And, Pow2, Shr, CountsBits;
    PowersOfTwo();
    ShrDivides(low, 3);
    AndLowBits(low / 8, 6);
    LowBytes(low, high, length);
  }

  lemma LowBytes(low: uint32, high: uint32, length: nat)
    requires CountsBits(low, high, length)
    ensures low / 8 % 64 == length % 64
  {
    CountSplits(low, high, 8 * length);
    var q: nat :| 8 * length == q * TWO_TO_64 + high as int * TWO_TO_32 + low;
    LowBytesOf(q, high, low, length);
  }

  lemma LowBytesOf(q: nat, high: nat, low: nat, length: nat)
    requires 8 * length == q * TWO_TO_64 + high * TWO_TO_32 + low
    ensures low / 8 % 64 == length % 64
  {
    var above := q * 0x80_0000_0000_0000 + high * 0x80_0000;
    var bytes := length - 64 * above;
    DivModUnique(low, 8, bytes, 0);
    DivModUnique(length, 64, above + bytes / 64, bytes % 64);
  }

  /** m_count[0] & 504 is eight times that number. */
  lemma BufferedBits(low: uint32, high: uint32, length: nat)
    requires CountsBits(low, high, length)
    ensures And(low, 504) == 8 * (length % 64)
  {
    hide And, CountsBits, Shr;
    BufferedBytes(low, high, length);
    assert Shr(low, 3) == low / 8 by { PowersOfTwo(); ShrDivides(low, 3); }
    AndUnfold(low, 504);
    AndUnfold(low / 2, 252);
    AndUnfold(low / 2 / 2, 126);
    assert low / 2 / 2 / 2 == low / 8;
  }

  // ----- the length bytes and the digest -----

  /** (m_count[i >= 4 ? 0 : 1] >> ((3 - (i & 3)) * 8)) & 255 */
  function CountByte(low: uint32, high: uint32, i: nat): int
    requires i < 8
  {
    And(Shr(if i >= 4 then low else high, (3 - i % 4) * 8), 255)
  }

  lemma ByteAtShift(x: nat, k: nat)
    requires k < 4
    ensures And(Shr(x, (3 - k) * 8), 255) == BigEndian(x, 4)[k]
  {
    hide And, Pow2, Shr, BigEndian;
    PowersOfTwo();
    BigEndianFour(x);
    ShrDivides(x, (3 - k) * 8);
    AndLowBits(x / Pow2((3 - k) * 8), 8);
    PowZero();
  }

  lemma PowZero()
    ensures Pow2(0) == 1
  {}

  lemma CountWords(low: uint32, high: uint32, length: nat)
    requires CountsBits(low, high, length)
    ensures low == 8 * length % TWO_TO_32 && high == 8 * length / TWO_TO_32 % TWO_TO_32
  {
    CountSplits(low, high, 8 * length);
    var q: nat :| 8 * length == q * TWO_TO_64 + high as int * TWO_TO_32 + low;
    DivModUnique(8 * length, TWO_TO_32, q * TWO_TO_32 + high, low);
    DivModUnique(q * TWO_TO_32 + high, TWO_TO_32, q, high);
  }

  /** The eight bytes final prepares are the length field of the standard. */
  lemma CountByteIsLength(low: uint32, high: uint32, length: nat, i: nat)
    requires CountsBits(low, high, length) && i < 8
    ensures CountByte(low, high, i) == BigEndian(8 * length, 8)[i]
  {
    hide And, Shr, BigEndian, CountsBits;
    CountWords(low, high, length);
    BigEndianLowWord(8 * length, 4);
    BigEndianMod(8 * length);
    BigEndianMod(8 * length / TWO_TO_32);
    ByteAtShift(if i >= 4 then low else high, i % 4);
  }

  /** The five words whose bytes, most significant first, are the digest. */
  function DigestWords(d: seq<bv32>): Regs
    requires |d| == 20
  {
    Regs(BigWord(d[0], d[1], d[2], d[3]), BigWord(d[4], d[5], d[6], d[7]), BigWord(d[8], d[9], d[10], d[11]),
         BigWord(d[12], d[13], d[14], d[15]), BigWord(d[16], d[17], d[18], d[19]))
  }

  lemma DigestOfState(d: seq<bv32>, state: seq<bv32>)
    requires |d| == 20 && |state| == 5
    requires forall i {:trigger d[i]} :: 0 <= i < 20 ==> d[i] == BigByte(state[i / 4], i % 4)
    ensures DigestWords(d) == RegsOf(state)
  {
    hide BigByte, BigWord;
    DigestOfWord(d, state, 0);
    DigestOfWord(d, state, 1);
    DigestOfWord(d, state, 2);
    DigestOfWord(d, state, 3);
    DigestOfWord(d, state, 4);
  }

  lemma DigestOfWord(d: seq<bv32>, state: seq<bv32>, k: nat)
    requires |d| == 20 && |state| == 5 && k < 5
    requires forall i {:trigger d[i]} :: 0 <= i < 20 ==> d[i] == BigByte(state[i / 4], i % 4)
    ensures BigWord(d[4 * k], d[4 * k + 1], d[4 * k + 2], d[4 * k + 3]) == state[k]
  {
    hide BigByte, BigWord;
    WordOfBigBytes(state[k]);
    assert (4 * k) / 4 == k && (4 * k) % 4 == 0;
    assert (4 * k + 1) / 4 == k && (4 * k + 1) % 4 == 1;
    assert (4 * k + 2) / 4 == k && (4 * k + 2) % 4 == 2;
    assert (4 * k + 3) / 4 == k && (4 * k + 3) % 4 == 3;
  }

  /** After k zeros behind the 0x80 byte, the loop of final stops exactly when the standard's zeros are complete. */
  lemma PaddingStops(length: nat, k: nat)
    requires k <= Gap(length, 64, 8)
    ensures (length + 1 + k) % 64 == 56 <==> k == Gap(length, 64, 8)
  {
    hide Gap;
    PaddingFillsBlock(length, 64, Zeros(8));
    ModStops(length + 1, Gap(length, 64, 8), k);
  }

  lemma ModStops(start: nat, gap: nat, k: nat)
    requires k <= gap < 64 && (start + gap + 8) % 64 == 0
    ensures (start + k) % 64 == 56 <==> k == gap
  {
    var q := (start + gap + 8) / 64;
    DivModUnique(start + gap, 64, q - 1, 56);
    if (start + k) % 64 == 56 {
      var q' := (start + k) / 64;
      assert gap - k == 64 * (q - 1 - q');
    }
  }

  class Context {
    const state: array<bv32>
    const buffer: array<byte>
    const digest: array<bv32>
    var countLow: uint32
    var countHigh: uint32
    ghost var message: seq<byte>

    /** Apart from the bit counter. */
    ghost predicate Absorbed()
      reads this, state
    {
      state.Length == 5 && RegsOf(state[..]) == Absorb(Compression, 64, H0, message)
    }

    ghost predicate Valid()
      reads this, state, buffer
    {
      && Absorbed() && buffer.Length == 64 && digest.Length == 20
      && CountsBits(countLow, countHigh, |message|)
      && buffer[..|message| % 64] == Leftover(64, message)
    }

    constructor ()
      ensures Valid() && fresh(state) && fresh(buffer) && fresh(digest) && message == []
    {
      hide Compression;
      state := new bv32[5] [H0.a, H0.b, H0.c, H0.d, H0.e];
      buffer := new byte[64];
      digest := new bv32[20];
      countLow, countHigh := 0, 0;
      message := [];
    }

    /** transform on a block that ends with c, the next bytes of the message. */
    method TransformBlock(b: seq<byte>, ghost c: seq<byte>)
      requires Absorbed() && |message| % 64 + |c| == 64 && b == Leftover(64, message) + c
      modifies this`message, state
      ensures Absorbed() && message == old(message) + c && |message| % 64 == 0
    {
      hide RegsOf, Compress, Absorb, Leftover;
      FillBlock(Compression, 64, H0, message, c);
      Transform(state, b);
      message := message + c;
    }

    method Count(len: uint32)
      requires CountsBits(countLow, countHigh, |message|)
      modifies this`countLow, this`countHigh
      ensures CountsBits(countLow, countHigh, |message| + len)
    {
      hide CountsBits;
      CountMore(countLow, countHigh, |message|, len);
      var added := 8 * len % TWO_TO_32;
      countLow := (countLow + added) % TWO_TO_32;
      if countLow < added {
        countHigh := (countHigh + 1) % TWO_TO_32;
      }
      countHigh := (countHigh + len / 0x2000_0000) % TWO_TO_32;
    }

    /** The sum of buffered and new bytes must fit 32 bits, as the test j + len > 63 needs (SumTestExactIff). */
    method Update(data: seq<byte>)
      requires Valid() && |message| % 64 + |data| < TWO_TO_32
      modifies this, state, buffer
      ensures Valid() && message == old(message) + data
    {
      hide Absorb, Compression, RegsOf, CountsBits, Leftover, And, Shr;
      BufferedBytes(countLow, countHigh, |message|);
      ghost var m := message;
      var j := And(Shr(countLow, 3), 63);
      Count(|data|);
      var i := 0;
      if (j + |data|) % TWO_TO_32 > 63 {
        i := 64 - j;
        CompleteBlock(j, data[..i]);
        i := TransformWhole(data, i, m);
        j := 0;
        AlignedLeftover(64, message);
      }
      assert data == data[..i] + data[i..];
      Keep(j, data[i..]);
    }

    /** The buffer filled up and compressed. */
    method CompleteBlock(j: nat, first: seq<byte>)
      requires Absorbed() && buffer.Length == 64 && j == |message| % 64 && j + |first| == 64
      requires buffer[..j] == Leftover(64, message)
      modifies this`message, state, buffer
      ensures Absorbed() && message == old(message) + first && |message| % 64 == 0
    {
      hide Absorb, Compression, RegsOf, Leftover;
      CopyInto(j, first);
      TransformBlock(buffer[..], first);
    }

    /** The last memcpy. */
    method Keep(j: nat, rest: seq<byte>)
      requires Absorbed() && buffer.Length == 64 && digest.Length == 20
      requires j == |message| % 64 && j + |rest| < 64 && buffer[..j] == Leftover(64, message)
      requires CountsBits(countLow, countHigh, |message| + |rest|)
      modifies this`message, buffer
      ensures Valid() && message == old(message) + rest
    {
      hide Absorb, Compression, RegsOf, CountsBits, Leftover;
      KeepPartial(Compression, 64, H0, message, rest);
      CopyInto(j, rest);
      message := message + rest;
    }

    /** The loop over whole blocks of the data. */
    method TransformWhole(data: seq<byte>, start: nat, ghost m: seq<byte>) returns (i: nat)
      requires Absorbed() && start <= |data| && message == m + data[..start] && |message| % 64 == 0
      requires |m| % 64 + |data| < TWO_TO_32
      modifies this`message, state
      ensures Absorbed() && start <= i <= |data| < i + 64
      ensures message == m + data[..i] && |message| % 64 == 0
    {
      hide Absorb, Compression, RegsOf, Leftover;
      i := start;
      StaysBelow(|m|, i, |data|);
      while (i + 63) % TWO_TO_32 < |data|
        invariant start <= i <= |data| && Absorbed() && i + 63 < TWO_TO_32
        invariant message == m + data[..i] && |message| % 64 == 0
        decreases |data| - i
      {
        AlignedLeftover(64, message);
        var chunk := data[i..i + 64];
        TransformBlock(chunk, chunk);
        ChunkBehind(m, data, i, 64);
        i := i + 64;
        StaysBelow(|m|, i, |data|);
      }
    }

    /** memcpy(&buffer[at], source, |source|) */
    method CopyInto(at: nat, source: seq<byte>)
      requires at + |source| <= buffer.Length
      modifies buffer
      ensures buffer[..at + |source|] == old(buffer[..at]) + source
    {
      forall i | 0 <= i < |source| {
        buffer[at + i] := source[i];
      }
    }

    method CountBytes() returns (finalCount: seq<byte>)
      requires CountsBits(countLow, countHigh, |message|)
      ensures finalCount == BigEndian(8 * |message|, 8)
    {
      hide CountByte, BigEndian, CountsBits;
      finalCount := [];
      var i := 0;
      while i < 8
        invariant 0 <= i <= 8 && finalCount == BigEndian(8 * |message|, 8)[..i]
      {
        CountByteIsLength(countLow, countHigh, |message|, i);
        finalCount := finalCount + [CountByte(countLow, countHigh, i)];
        i := i + 1;
      }
    }

    method WriteDigest()
      requires state.Length == 5 && digest.Length == 20
      modifies digest
      ensures DigestWords(digest[..]) == RegsOf(state[..])
    {
      hide BigByte;
      var i := 0;
      while i < 20
        invariant 0 <= i <= 20
        invariant forall k {:trigger digest[k]} :: 0 <= k < i ==> digest[k] == BigByte(state[k / 4], k % 4)
      {
        digest[i] := BigByte(state[i / 4], i % 4);
        i := i + 1;
      }
      DigestOfState(digest[..], state[..]);
    }

    /** The padding goes through update; the digest survives the wiping of the state. */
    method Final()
      requires Valid()
      modifies this, state, buffer, digest
      ensures DigestWords(digest[..]) == Hash(old(message))
    {
      hide Absorb, Compression, RegsOf, CountsBits, Leftover, And, DigestWords, BigEndian, Gap;
      ghost var m := message;
      var finalCount := CountBytes();
      Update([0x80]);
      ghost var k: nat := 0;
      PaddingStops(|m|, k);
      BufferedBits(countLow, countHigh, |message|);
      while And(countLow, 504) != 448
        invariant Valid() && k <= Gap(|m|, 64, 8)
        invariant message == m + ([0x80] + Zeros(k))
        invariant And(countLow, 504) == 8 * (|message| % 64)
        decreases Gap(|m|, 64, 8) - k
      {
        PaddingStops(|m|, k);
        Update([0]);
        k := k + 1;
        BufferedBits(countLow, countHigh, |message|);
      }
      PaddingStops(|m|, k);
      Update(finalCount);
      assert message == m + ([0x80] + Zeros(k) + finalCount);
      WriteDigest();
      Wipe();
    }

    method Wipe()
      requires state.Length == 5 && buffer.Length == 64 && digest.Length == 20
      modifies state, buffer, this`countLow, this`countHigh
      ensures digest[..] == old(digest[..])
    {
      CopyInto(0, Zeros(64));
      forall i | 0 <= i < 5 { state[i] := 0; }
      countLow, countHigh := 0, 0;
      Transform(state, buffer[..]);
    }
  }

  /** The 32-bit sum of buffered and new bytes is tested right exactly if it does not wrap. */
  lemma SumTestExactIff(j: nat, len: uint32)
    requires j < 64
    ensures ((j + len) % TWO_TO_32 > 63 <==> j + len > 63) <==> j + len < TWO_TO_32
  {}

  /** At a block boundary of the message the 32-bit sum of the loop test does not wrap. */
  lemma StaysBelow(length: nat, i: nat, len: nat)
    requires (length + i) % 64 == 0 && i <= len && length % 64 + len < TWO_TO_32
    ensures i + 63 < TWO_TO_32
  {
    assert (length % 64 + i) % 64 == 0;
  }

  /** GetDataSHA1: feeding the data in chunks of 10240 bytes gives the digest of the standard. */
  method GetDataSha1(data: seq<byte>) returns (hash: seq<bv32>)
    ensures |hash| == 20 && DigestWords(hash) == Hash(data)
  {
    hide Hash, RegsOf, DigestWords, Absorb, Leftover, Compression, CountsBits;
    var context := new Context();
    var offset := 0;
    while offset < |data|
      invariant 0 <= offset <= |data| && context.Valid() && context.message == data[..offset]
      invariant fresh(context) && fresh(context.state) && fresh(context.buffer) && fresh(context.digest)
    {
      var needRead := 10240;
      if offset + needRead > |data| {
        needRead := |data| - offset;
      }
      context.Update(data[offset..offset + needRead]);
      offset := offset + needRead;
    }
    assert data[..offset] == data;
    context.Final();
    hash := context.digest[..];
  }
}
