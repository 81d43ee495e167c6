/**
 * src/sha256.cpp, the streaming interface: however a message is split into
 * update calls, the compression function sees exactly the padded message of
 * FIPS 180-4, section 5.1.1, parsed as section 5.2.1 says.
 */
module Sha256 {
  import opened Machine
  import opened NumberTheory
  import opened Bits
  import opened Words
  import opened Streaming
  import opened Sha256Transform
  import opened WordBytes

  const TWO_TO_23: int := 0x80_0000

  function ToWord(x: uint32): bv32 { x as bv32 }

  /** FIPS 180-4, section 5.2.1: a block is sixteen 32-bit words. */
  function WordsOf(b: seq<byte>): (w: seq<bv32>)
    requires |b| == 64
    ensures |w| == 16
  {
    seq(16, i requires 0 <= i < 16 => ToWord(WordValue(b[4 * i..4 * i + 4])))
  }

  function Compression(r: Regs, b: seq<byte>): Regs {
    if |b| == 64 then Compress(r, WordsOf(b)) else r
  }

  /** FIPS 180-4, section 5.3.3. */
  const H0: Regs := Regs(0x6a09e667, 0xbb67ae85, 0x3c6ef372, 0xa54ff53a, 0x510e527f, 0x9b05688c, 0x1f83d9ab, 0x5be0cd19)

  /** The bit length in 64 bits, as section 5.1.1 appends it. */
  function LengthField(length: nat): (f: seq<byte>)
    ensures |f| == 8
  {
    BigEndian(8 * length, 8)
  }

  /** FIPS 180-4, section 6.2: the compression function over the padded message. */
  function Hash(m: seq<byte>): Regs {
    Absorb(Compression, 64, H0, m + Padding(|m|, 64, LengthField(|m|)))
  }

  // ----- the length words -----

  lemma ShiftByNine(x: uint32)
    ensures Shl32(x, 9) == (x % TWO_TO_23) * 512 && Shr(x, 23) == x / TWO_TO_23
  {
    PowersOfTwo();
    hide Pow2, Shr;
    ShrDivides(x, 23);
    assert x * 512 == (x / TWO_TO_23) * TWO_TO_32 + (x % TWO_TO_23) * 512;
    DivModUnique(x * 512, TWO_TO_32, x / TWO_TO_23, (x % TWO_TO_23) * 512);
  }

  lemma BitLength(length: nat, low: uint32, high: uint32)
    requires Counts(low, high, length / 64)
    ensures 8 * length % TWO_TO_32 == (low % TWO_TO_23) * 512 + length % 64 * 8
    ensures 8 * length / TWO_TO_32 % TWO_TO_32 == (high % TWO_TO_23) * 512 + low / TWO_TO_23
  {
    CountSplits(low, high, length / 64);
    var q: nat :| length / 64 == q * TWO_TO_64 + high as int * TWO_TO_32 + low;
    var upper := q * (512 * TWO_TO_32) + high as int * 512 + low / TWO_TO_23;
    var lower := (low % TWO_TO_23) * 512 + length % 64 * 8;
    assert 8 * length == 512 * (length / 64) + 8 * (length % 64);
    assert low == (low / TWO_TO_23) * TWO_TO_23 + low % TWO_TO_23;
    assert 8 * length == upper * TWO_TO_32 + lower;
    DivModUnique(8 * length, TWO_TO_32, upper, lower);
    assert high as int * 512 == (high / TWO_TO_23) * TWO_TO_32 + (high % TWO_TO_23) * 512;
    DivModUnique(upper, TWO_TO_32, q * 512 + high / TWO_TO_23, (high % TWO_TO_23) * 512 + low / TWO_TO_23);
  }

  /** The two words made by shifting the counters are the 64-bit length of the standard. */
  lemma LengthWords(length: nat, low: uint32, high: uint32)
    requires Counts(low, high, length / 64)
    ensures Or(Shl32(high, 9), Shr(low, 23)) == WordValue(LengthField(length)[..4])
    ensures Or(Shl32(low, 9), Shl32(length % 64, 3)) == WordValue(LengthField(length)[4..])
  {
    hide Or, Pow2, Shr, Counts, BigEndian, WordValue;
    BigEndianLowWord(8 * length, 4);
    WordOfBigEndian(8 * length);
    WordOfBigEndian(8 * length / TWO_TO_32);
    BitLength(length, low, high);
    ShiftByNine(low);
    ShiftByNine(high);
    PowersOfTwo();
    assert Shl32(length % 64, 3) == length % 64 * 8;
    OrDisjoint(high % TWO_TO_23, 9, low / TWO_TO_23);
    OrDisjoint(low % TWO_TO_23, 9, length % 64 * 8);
  }

  lemma NextCount(low: uint32, high: uint32, n: nat)
    requires Counts(low, high, n)
    ensures var low' := (low + 1) % TWO_TO_32;
      Counts(low', if low' == 0 then (high + 1) % TWO_TO_32 else high, n + 1)
  {
    CountSplits(low, high, n);
    var q: nat :| n == q * TWO_TO_64 + high as int * TWO_TO_32 + low;
    var count := high as int * TWO_TO_32 + low + 1;
    if count == TWO_TO_64 {
      DivModUnique(n + 1, TWO_TO_64, q + 1, 0);
    } else {
      DivModUnique(n + 1, TWO_TO_64, q, count);
    }
  }

  // ----- blocks as words -----

  /** Words lo .. hi - 1 of the block b are in place. */
  ghost predicate Holds(data: seq<bv32>, b: seq<byte>, lo: nat, hi: nat) {
    |data| == 16 && |b| == 64 && hi <= 16
    && forall k {:trigger data[k]} :: lo <= k < hi ==> data[k] == ToWord(WordValue(b[4 * k..4 * k + 4]))
  }

  lemma HoldsAll(data: seq<bv32>, b: seq<byte>)
    requires Holds(data, b, 0, 16)
    ensures data == WordsOf(b)
  {
    hide WordValue, ToWord;
  }

  lemma ZeroWord(b: seq<byte>)
    requires |b| == 4 && forall i :: 0 <= i < 4 ==> b[i] == 0
    ensures WordValue(b) == 0
  {}

  lemma HoldsLength(data: seq<bv32>, b: seq<byte>, field: seq<byte>)
    requires |field| == 8 && |data| == 16 && |b| == 64 && b[56..] == field
    requires Holds(data, b, 0, 14)
    requires data[14] == ToWord(WordValue(field[..4])) && data[15] == ToWord(WordValue(field[4..]))
    ensures data == WordsOf(b)
  {
    hide WordValue, ToWord;
    assert b[4 * 14..4 * 14 + 4] == field[..4];
    assert b[4 * 15..4 * 15 + 4] == field[4..];
    HoldsAll(data, b);
  }

  /** The first bytes of the padding reach the end of a word. */
  ghost predicate PadsWord(stem: seq<byte>, partial: seq<byte>, words: nat) {
    && |partial| < 4 * words <= |partial| + 4 && words <= 16
    && stem == partial + [0x80] + Zeros(4 * words - |partial| - 1)
  }

  /** A block that starts with stem and goes on with zeros up to byte 4 * hi. */
  ghost predicate StartsWith(b: seq<byte>, stem: seq<byte>, hi: nat) {
    && |b| == 64 && |stem| <= 4 * hi <= 64 && b[..|stem|] == stem
    && forall i :: |stem| <= i < 4 * hi ==> b[i] == 0
  }

  lemma OneLastBlock(partial: seq<byte>, field: seq<byte>, stem: seq<byte>, words: nat)
    requires |partial| < 64 && |field| == 8 && PadsWord(stem, partial, words) && words <= 14
    requires |partial + Padding(|partial|, 64, field)| == if |partial| + 9 <= 64 then 64 else 128
    ensures var last := partial + Padding(|partial|, 64, field);
      StartsWith(last, stem, 14) && last[56..] == field
  {}

  lemma TwoLastBlocks(partial: seq<byte>, field: seq<byte>, stem: seq<byte>, words: nat)
    requires |partial| < 64 && |field| == 8 && PadsWord(stem, partial, words) && words > 14
    requires |partial + Padding(|partial|, 64, field)| == if |partial| + 9 <= 64 then 64 else 128
    ensures var last := partial + Padding(|partial|, 64, field);
      && |last| == 128
      && StartsWith(last[..64], stem, 16)
      && StartsWith(last[64..], [], 14) && last[64..][56..] == field
  {}

  /** Words of the stem, then zeros. */
  ghost predicate StemWords(data: seq<bv32>, stem: seq<byte>, hi: nat) {
    && |data| == 16 && hi <= 16 && |stem| % 4 == 0 && |stem| / 4 <= hi
    && (forall k {:trigger data[k]} :: 0 <= k < |stem| / 4 ==> data[k] == ToWord(WordValue(stem[4 * k..4 * k + 4])))
    && (forall k :: |stem| / 4 <= k < hi ==> data[k] == ToWord(0))
  }

  lemma StemHolds(data: seq<bv32>, b: seq<byte>, stem: seq<byte>, hi: nat)
    requires StartsWith(b, stem, hi) && StemWords(data, stem, hi)
    ensures Holds(data, b, 0, hi)
  {
    hide WordValue, ToWord;
    forall k | 0 <= k < hi ensures data[k] == ToWord(WordValue(b[4 * k..4 * k + 4])) {
      if k < |stem| / 4 {
        assert b[4 * k..4 * k + 4] == b[..|stem|][4 * k..4 * k + 4];
      } else {
        ZeroWord(b[4 * k..4 * k + 4]);
      }
    }
  }

  lemma NoStem(data: seq<bv32>)
    requires |data| == 16
    ensures StemWords(data, [], 0)
  {}

  method ZeroWords(data: array<bv32>, lo: nat, hi: nat, ghost stem: seq<byte>)
    requires data.Length == 16 && lo <= hi <= 16 && |stem| == 4 * lo && StemWords(data[..], stem, lo)
    modifies data
    ensures StemWords(data[..], stem, hi)
  {
    hide ToWord, WordValue;
    var i := lo;
    while i < hi
      invariant lo <= i <= hi && StemWords(data[..], stem, i)
    {
      data[i] := ToWord(0);
      i := i + 1;
    }
  }

  method Parse(b: seq<byte>) returns (data: array<bv32>)
    requires |b| == 64
    ensures fresh(data) && data.Length == 16 && data[..] == WordsOf(b)
  {
    hide ToWord, WordValue, String2Int;
    data := new bv32[16];
    var i := 0;
    while i < 16
      invariant 0 <= i <= 16 && Holds(data[..], b, 0, i)
    {
      String2IntIsWordValue(b[4 * i..4 * i + 4]);
      data[i] := ToWord(String2Int(b[4 * i..4 * i + 4]));
      i := i + 1;
    }
    HoldsAll(data[..], b);
  }

  // ----- the digest -----

  /** Word k of bytes written most significant byte first. */
  function WordAt(d: seq<bv32>, k: nat): bv32
    requires 4 * k + 4 <= |d|
  {
    BigWord(d[4 * k], d[4 * k + 1], d[4 * k + 2], d[4 * k + 3])
  }

  function DigestWords(d: seq<bv32>): Regs
    requires |d| == 32
  {
    Regs(WordAt(d, 0), WordAt(d, 1), WordAt(d, 2), WordAt(d, 3), WordAt(d, 4), WordAt(d, 5), WordAt(d, 6), WordAt(d, 7))
  }

  lemma WordAppended(was: seq<bv32>, d: seq<bv32>, word: bv32, i: nat)
    requires |was| == 4 * i
    requires d == was + [BigByte(word, 0), BigByte(word, 1), BigByte(word, 2), BigByte(word, 3)]
    ensures WordAt(d, i) == word && forall k :: 0 <= k < i ==> WordAt(d, k) == WordAt(was, k)
  {
    hide BigByte, BigWord;
    WordOfBigBytes(word);
  }

  lemma DigestOfState(d: seq<bv32>, state: seq<bv32>)
    requires |d| == 32 && |state| == 8 && forall k :: 0 <= k < 8 ==> WordAt(d, k) == state[k]
    ensures DigestWords(d) == RegsOf(state)
  {
    hide WordAt;
  }

  class Context {
    const state: array<bv32>
    const block: array<byte>
    var countLow: uint32
    var countHigh: uint32
    var index: nat
    ghost var message: seq<byte>

    /** State and counters account for every whole block of the message. */
    ghost predicate Absorbed()
      reads this, state
    {
      && state.Length == 8
      && RegsOf(state[..]) == Absorb(Compression, 64, H0, message)
      && Counts(countLow, countHigh, |message| / 64)
    }

    ghost predicate Valid()
      reads this, state, block
    {
      && Absorbed() && block.Length == 64
      && index == |message| % 64 && block[..index] == Leftover(64, message)
    }

    /** init, on a new context. */
    constructor ()
      ensures Valid() && fresh(state) && fresh(block) && message == []
    {
      hide Compression;
      state := new bv32[8] [H0.a, H0.b, H0.c, H0.d, H0.e, H0.f, H0.g, H0.h];
      block := new byte[64];
      countLow, countHigh, index := 0, 0, 0;
      message := [];
    }

    /** One call of the compression function: b is the buffered bytes and c, the next bytes of the message. */
    method Sha256Block(b: seq<byte>, ghost c: seq<byte>)
      requires Absorbed() && |message| % 64 + |c| == 64 && b == Leftover(64, message) + c
      modifies this`countLow, this`countHigh, this`message, state
      ensures Absorbed() && message == old(message) + c && |message| % 64 == 0
    {
      hide RegsOf, Compress, WordsOf, Absorb, Leftover, Counts;
      FillBlock(Compression, 64, H0, message, c);
      NextCount(countLow, countHigh, |message| / 64);
      countLow := (countLow + 1) % TWO_TO_32;
      if countLow == 0 {
        countHigh := (countHigh + 1) % TWO_TO_32;
      }
      var data := Parse(b);
      Transform(state, data);
      message := message + c;
    }

    method Update(buffer: seq<byte>)
      requires Valid() && |buffer| < TWO_TO_32
      modifies this, state, block
      ensures Valid() && message == old(message) + buffer
    {
      hide Absorb, Compression, RegsOf, Counts, Leftover;
      ghost var m := message;
      var at := 0;
      if index != 0 {
        var left := 64 - index;
        if |buffer| < left {
          Keep(index, buffer);
          return;
        } else {
          CopyInto(index, buffer[..left]);
          Sha256Block(block[..], buffer[..left]);
          at := left;
        }
      }
      while |buffer| - at >= 64
        invariant 0 <= at <= |buffer| && message == m + buffer[..at]
        invariant Absorbed() && |message| % 64 == 0
      {
        AlignedLeftover(64, message);
        ChunkBehind(m, buffer, at, 64);
        Sha256Block(buffer[at..at + 64], buffer[at..at + 64]);
        at := at + 64;
      }
      ChunkBehind(m, buffer, at, |buffer| - at);
      Keep(0, buffer[at..]);
    }

    /** The bytes that fill no block go behind the first used ones of the buffer. */
    method Keep(used: nat, rest: seq<byte>)
      requires Absorbed() && block.Length == 64 && used == |message| % 64 && used + |rest| < 64
      requires block[..used] == Leftover(64, message)
      modifies this`index, this`message, block
      ensures Valid() && message == old(message) + rest
    {
      hide Absorb, Compression, RegsOf, Counts, Leftover;
      KeepPartial(Compression, 64, H0, message, rest);
      CopyInto(used, rest);
      index := used + |rest|;
      message := message + rest;
    }

    /** 0x80, then zeros to the end of the word. */
    method PadWord() returns (words: nat)
      requires block.Length == 64 && index < 64
      modifies block
      ensures words <= 16 && PadsWord(block[..4 * words], old(block[..index]), words)
    {
      ghost var partial := block[..index];
      block[index] := 0x80;
      var i := index + 1;
      while i % 4 != 0
        invariant index < i <= 64 && i <= index + 4 && (i % 4 != 0 ==> i / 4 == index / 4)
        invariant block[..i] == partial + [0x80] + Zeros(i - index - 1)
        decreases 64 - i
      {
        block[i] := 0;
        i := i + 1;
      }
      words := i / 4;
    }

    method StoreWords(words: nat) returns (data: array<bv32>)
      requires block.Length == 64 && words <= 16
      ensures fresh(data) && data.Length == 16 && StemWords(data[..], block[..4 * words], words)
    {
      hide ToWord, WordValue, String2Int;
      data := new bv32[16];
      var i := 0;
      while i < words
        invariant 0 <= i <= words
        invariant forall k :: 0 <= k < i ==> data[k] == ToWord(WordValue(block[4 * k..4 * k + 4]))
      {
        String2IntIsWordValue(block[4 * i..4 * i + 4]);
        data[i] := ToWord(String2Int(block[4 * i..4 * i + 4]));
        i := i + 1;
      }
      assert forall k :: 0 <= k < words ==> block[..4 * words][4 * k..4 * k + 4] == block[4 * k..4 * k + 4];
    }

    /** There are 512 bits in a block. */
    method StoreLength(data: array<bv32>, ghost b: seq<byte>)
      requires data.Length == 16 && Holds(data[..], b, 0, 14) && b[56..] == LengthField(|message|)
      requires Counts(countLow, countHigh, |message| / 64) && index == |message| % 64
      modifies data
      ensures data[..] == WordsOf(b)
    {
      hide ToWord, WordValue, WordsOf, Counts, LengthField, Or, Shl32, Shr;
      LengthWords(|message|, countLow, countHigh);
      ghost var was := data[..];
      data[14] := ToWord(Or(Shl32(countHigh, 9), Shr(countLow, 23)));
      data[15] := ToWord(Or(Shl32(countLow, 9), Shl32(index, 3)));
      HoldsLength(data[..], b, LengthField(|message|));
    }

    /** The last one or two blocks hold the padding of the standard. */
    method Final()
      requires Valid()
      modifies state, block
      ensures RegsOf(state[..]) == Hash(message)
    {
      hide ToWord, WordValue, RegsOf, Compress, WordsOf, Absorb, Leftover, Padding, Counts;
      hide StemWords, StartsWith, PadsWord, Holds, LengthField;
      ghost var partial, field := Leftover(64, message), LengthField(|message|);
      ghost var last := partial + Padding(|partial|, 64, field);
      AbsorbPadding(Compression, 64, H0, message, field);
      var words := PadWord();
      var data := StoreWords(words);
      ghost var stem := block[..4 * words];
      if words > 14 {
        TwoLastBlocks(partial, field, stem, words);
        AbsorbTwo(Compression, 64, RegsOf(state[..]), last);
        ZeroWords(data, words, 16, stem);
        StemHolds(data[..], last[..64], stem, 16);
        HoldsAll(data[..], last[..64]);
        Transform(state, data);
        NoStem(data[..]);
        ZeroWords(data, 0, 14, []);
        stem := [];
      } else {
        OneLastBlock(partial, field, stem, words);
        AbsorbOne(Compression, 64, RegsOf(state[..]), last);
        ZeroWords(data, words, 14, stem);
      }
      ghost var end := last[|last| - 64..];
      StemHolds(data[..], end, stem, 14);
      StoreLength(data, end);
      Transform(state, data);
    }

    /** digest: every word most significant byte first. */
    method Digest() returns (digest: seq<bv32>)
      requires state.Length == 8
      ensures |digest| == 32 && DigestWords(digest) == RegsOf(state[..])
    {
      hide BigByte, WordAt, RegsOf, DigestWords;
      digest := [];
      var i := 0;
      while i < 8
        invariant 0 <= i <= 8 && |digest| == 4 * i
        invariant forall k :: 0 <= k < i ==> WordAt(digest, k) == state[k]
      {
        ghost var was := digest;
        var word := state[i];
        digest := digest + [BigByte(word, 0), BigByte(word, 1), BigByte(word, 2), BigByte(word, 3)];
        WordAppended(was, digest, word, i);
        i := i + 1;
      }
      DigestOfState(digest, state[..]);
    }

    /** memcpy(block + at, source, |source|). */
    method CopyInto(at: nat, source: seq<byte>)
      requires at + |source| <= block.Length
      modifies block
      ensures block[..at + |source|] == old(block[..at]) + source
    {
      forall i | 0 <= i < |source| {
        block[at + i] := source[i];
      }
    }
  }

  /** GetDataSHA256: feeding the data in chunks of 10240 bytes gives the hash of the standard. */
  method GetDataSha256(data: seq<byte>) returns (digest: seq<bv32>)
    ensures |digest| == 32 && DigestWords(digest) == Hash(data)
  {
    hide Hash, RegsOf, DigestWords, Absorb, Leftover, Compression, Counts;
    var context := new Context();
    var offset := 0;
    while offset < |data|
      invariant 0 <= offset <= |data| && context.Valid() && context.message == data[..offset]
      invariant fresh(context) && fresh(context.state) && fresh(context.block)
    {
      var needRead := 10240;
      if offset + needRead > |data| {
        needRead := |data| - offset;
      }
      context.Update(data[offset..offset + needRead]);
      offset := offset + needRead;
    }
    assert data[..offset] == data;
    context.Final();
    digest := context.Digest();
  }
}
