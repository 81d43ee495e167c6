/**
 * src/sha512.cpp, the streaming interface. Its length field has 32 bits: the
 * padding is the one of FIPS 180-4, section 5.1.2, exactly for messages of
 * fewer than 2^29 bytes.
 */
module Sha512 {
  import opened Machine
  import opened NumberTheory
  import opened Streaming
  import opened Sha512Transform

  /** FIPS 180-4, section 5.3.5. */
  function H0(): Regs {
    Regs(0x6a09e667f3bcc908, 0xbb67ae8584caa73b, 0x3c6ef372fe94f82b, 0xa54ff53a5f1d36f1,
         0x510e527fade682d1, 0x9b05688c2b3e6c1f, 0x1f83d9abfb41bd6b, 0x5be0cd19137e2179)
  }

  /** Section 5.1.2: the bit length in 128 bits. */
  function StandardField(length: nat): (f: seq<byte>)
    ensures |f| == 16
  {
    BigEndian(8 * length, 16)
  }

  /** What the code writes: the bit length modulo 2^32. */
  function CodeField(length: nat): (f: seq<byte>)
    ensures |f| == 16
  {
    Zeros(12) + BigEndian(8 * length % TWO_TO_32, 4)
  }

  function HashWith(m: seq<byte>, field: seq<byte>): Regs {
    Absorb(Compression, 128, H0(), m + Padding(|m|, 128, field))
  }

  /** FIPS 180-4, section 6.4: the compression function over the padded message. */
  function Hash(m: seq<byte>): Regs {
    HashWith(m, StandardField(|m|))
  }

  // ----- when the two length fields agree -----

  lemma {:induction false} BigEndianOfZero(k: nat)
    ensures BigEndian(0, k) == Zeros(k)
  {
    if k > 0 { BigEndianOfZero(k - 1); }
  }

  lemma {:induction false} BigEndianSmall(x: nat, j: nat, k: nat)
    requires x < Pow(256, k)
    ensures BigEndian(x, j + k) == Zeros(j) + BigEndian(x, k)
  {
    if k == 0 {
      BigEndianOfZero(j);
    } else {
      assert x < 256 * Pow(256, k - 1);
      BigEndianSmall(x / 256, j, k - 1);
    }
  }

  function Value(b: seq<byte>): nat {
    if b == [] then 0 else 256 * Value(b[..|b| - 1]) + b[|b| - 1]
  }

  lemma {:induction false} ValueOfBigEndian(x: nat, k: nat)
    requires x < Pow(256, k)
    ensures Value(BigEndian(x, k)) == x
  {
    if k > 0 {
      assert x < 256 * Pow(256, k - 1);
      ValueOfBigEndian(x / 256, k - 1);
      assert BigEndian(x, k)[..k - 1] == BigEndian(x / 256, k - 1);
    }
  }

  lemma Powers()
    ensures Pow(256, 4) == TWO_TO_32 && Pow(256, 16) == TWO_TO_64 * TWO_TO_64
  {
    assert Pow(256, 2) == 0x1_0000;
    assert Pow(256, 4) == 0x1_0000 * Pow(256, 2);
    assert Pow(256, 6) == 0x1_0000 * Pow(256, 4);
    assert Pow(256, 8) == 0x1_0000 * Pow(256, 6);
    assert Pow(256, 10) == 0x1_0000 * Pow(256, 8);
    assert Pow(256, 12) == 0x1_0000 * Pow(256, 10);
    assert Pow(256, 14) == 0x1_0000 * Pow(256, 12);
    assert Pow(256, 16) == 0x1_0000 * Pow(256, 14);
  }

  /** For every message the standard can hash, fewer than 2^128 bits, the fields agree exactly below 2^29 bytes. */
  lemma FieldsAgreeIff(length: nat)
    requires 8 * length < TWO_TO_64 * TWO_TO_64
    ensures CodeField(length) == StandardField(length) <==> length < 0x2000_0000
  {
    hide BigEndian, Value, Pow;
    Powers();
    BigEndianSmall(8 * length % TWO_TO_32, 12, 4);
    ValueOfBigEndian(8 * length, 16);
    ValueOfBigEndian(8 * length % TWO_TO_32, 16);
  }

  // ----- the counters -----

  /** m_tot_len counts the bytes of whole blocks modulo 2^32. */
  predicate CountsWhole(total: uint32, length: nat) {
    total == (length - length % 128) % TWO_TO_32
  }

  /** After the buffered bytes, blocks more blocks and a rest of fewer than 128 bytes. */
  lemma TotalMore(total: uint32, length: nat, len: nat, rem: nat, blocks: nat, rest: nat)
    requires CountsWhole(total, length) && length % 128 + rem == 128
    requires len == rem + 128 * blocks + rest && rest < 128
    ensures CountsWhole((total + (blocks + 1) * 128) % TWO_TO_32, length + len)
    ensures (length + len) % 128 == rest
  {
    var whole := length - length % 128;
    var more := (blocks + 1) * 128;
    DivModUnique(length + len, 128, length / 128 + 1 + blocks, rest);
    assert whole == (whole / TWO_TO_32) * TWO_TO_32 + total;
    var q, r := (total + more) / TWO_TO_32, (total + more) % TWO_TO_32;
    assert total + more == q * TWO_TO_32 + r;
    DivModUnique(whole + more, TWO_TO_32, whole / TWO_TO_32 + q, r);
  }

  lemma BitLength(total: uint32, length: nat)
    requires CountsWhole(total, length)
    ensures 8 * ((total + length % 128) % TWO_TO_32) % TWO_TO_32 == 8 * length % TWO_TO_32
  {
    var whole := length - length % 128;
    var q := whole / TWO_TO_32;
    assert whole == q * TWO_TO_32 + total;
    var sum := total + length % 128;
    assert sum == (sum / TWO_TO_32) * TWO_TO_32 + sum % TWO_TO_32;
    var low := 8 * (sum % TWO_TO_32);
    assert low == (low / TWO_TO_32) * TWO_TO_32 + low % TWO_TO_32;
    DivModUnique(8 * length, TWO_TO_32, 8 * q + 8 * (sum / TWO_TO_32) + low / TWO_TO_32, low % TWO_TO_32);
  }

  // ----- the digest -----

  /** SHA2_UNPACK64 */
  function DigestByte(x: bv64, k: nat): bv64
    requires k < 8
  {
    if k == 0 then (x >> 56) & 0xff
    else if k == 1 then (x >> 48) & 0xff
    else if k == 2 then (x >> 40) & 0xff
    else if k == 3 then (x >> 32) & 0xff
    else if k == 4 then (x >> 24) & 0xff
    else if k == 5 then (x >> 16) & 0xff
    else if k == 6 then (x >> 8) & 0xff
    else x & 0xff
  }

  lemma DigestBits(x: bv64)
    ensures (((x >> 56) & 0xff) << 56) | (((x >> 48) & 0xff) << 48) | (((x >> 40) & 0xff) << 40)
      | (((x >> 32) & 0xff) << 32)
      | (((x >> 24) & 0xff) << 24) | (((x >> 16) & 0xff) << 16) | (((x >> 8) & 0xff) << 8) | (x & 0xff) == x
  {}

  /** Word k of a digest whose words are written most significant byte first. */
  function DigestWord(d: seq<bv64>, k: nat): bv64
    requires |d| == 64 && k < 8
  {
    BigWord(d[8 * k], d[8 * k + 1], d[8 * k + 2], d[8 * k + 3], d[8 * k + 4], d[8 * k + 5], d[8 * k + 6], d[8 * k + 7])
  }

  function DigestWords(d: seq<bv64>): Regs
    requires |d| == 64
  {
    Regs(DigestWord(d, 0), DigestWord(d, 1), DigestWord(d, 2), DigestWord(d, 3),
         DigestWord(d, 4), DigestWord(d, 5), DigestWord(d, 6), DigestWord(d, 7))
  }

  lemma WordOfDigestBytes(x: bv64)
    ensures BigWord(DigestByte(x, 0), DigestByte(x, 1), DigestByte(x, 2), DigestByte(x, 3),
                    DigestByte(x, 4), DigestByte(x, 5), DigestByte(x, 6), DigestByte(x, 7)) == x
  {
    DigestBits(x);
  }

  /** Bytes 8 * k onwards of d are the bytes of word k of h, for the first n words. */
  ghost predicate Unpacked(d: seq<bv64>, h: seq<bv64>, n: nat) {
    |d| == 64 && |h| == 8 && n <= 8 && forall k :: 0 <= k < n ==> DigestWord(d, k) == h[k]
  }

  /** Writing the bytes of word n leaves the words before it alone. */
  lemma UnpackNext(d: seq<bv64>, d': seq<bv64>, h: seq<bv64>, n: nat)
    requires Unpacked(d, h, n) && n < 8 && |d'| == 64
    requires forall i :: 0 <= i < 8 * n ==> d'[i] == d[i]
    requires forall j :: 0 <= j < 8 ==> d'[8 * n + j] == DigestByte(h[n], j)
    ensures Unpacked(d', h, n + 1)
  {
    hide BigWord, DigestByte;
    WordOfDigestBytes(h[n]);
    assert d'[8 * n + 0] == DigestByte(h[n], 0);
    forall k | 0 <= k < n ensures DigestWord(d', k) == DigestWord(d, k) {
      SameDigestWord(d, d', k);
    }
  }

  lemma SameDigestWord(d: seq<bv64>, d': seq<bv64>, k: nat)
    requires |d| == |d'| == 64 && k < 8 && forall i :: 8 * k <= i < 8 * k + 8 ==> d'[i] == d[i]
    ensures DigestWord(d', k) == DigestWord(d, k)
  {
    hide BigWord;
  }

  lemma UnpackedAll(d: seq<bv64>, h: seq<bv64>)
    requires Unpacked(d, h, 8)
    ensures DigestWords(d) == RegsOf(h)
  {
    hide DigestWord;
  }

  /** The memset, the 0x80 byte and the four length bytes make the last blocks. */
  lemma LastBlocks(partial: seq<byte>, length: nat, blocks: nat)
    requires |partial| == length % 128 && blocks == (if |partial| > 111 then 2 else 1)
    ensures partial + Padding(|partial|, 128, CodeField(length))
         == partial + [0x80] + Zeros(128 * blocks - |partial| - 5) + BigEndian(8 * length % TWO_TO_32, 4)
  {
    hide BigEndian;
    var bytes := BigEndian(8 * length % TWO_TO_32, 4);
    var gap := Gap(|partial|, 128, 16);
    GapFromOneBlock(|partial|, 128, 16);
    assert Zeros(gap) + (Zeros(12) + bytes) == Zeros(gap + 12) + bytes;
  }

  lemma EmptyLeftover()
    ensures Leftover(128, []) == []
  {}

  lemma EmptyCount()
    ensures CountsWhole(0, 0)
  {}

  method SetRegisters(h: array<bv64>, r: Regs)
    requires h.Length == 8
    modifies h
    ensures RegsOf(h[..]) == r
  {
    h[0], h[1], h[2], h[3], h[4], h[5], h[6], h[7] := r.a, r.b, r.c, r.d, r.e, r.f, r.g, r.h;
  }

  /** Buffered and new bytes an update can take. */
  const MAX_UPDATE: nat := 0x8000_0000 + 256

  /** Blocks behind the one that is completed first fit one call of transform exactly below that bound. */
  lemma BlocksFitIff(bytes: nat)
    requires 128 <= bytes
    ensures (bytes - 128) / 128 <= MAX_BLOCKS <==> bytes < MAX_UPDATE
  {}

  /** The 32-bit sum of buffered and new bytes is tested right exactly if it does not wrap. */
  lemma SumTestExactIff(j: nat, len: uint32)
    requires j < 128
    ensures ((j + len) % TWO_TO_32 < 128 <==> j + len < 128) <==> j + len < TWO_TO_32
  {}

  class Context {
    const h: array<bv64>
    const block: array<byte>
    var len: nat
    var total: uint32
    ghost var message: seq<byte>

    /** The registers account for every whole block of the message. */
    ghost predicate Absorbed()
      reads this, h
    {
      h.Length == 8 && RegsOf(h[..]) == Absorb(Compression, 128, H0(), message)
    }

    ghost predicate Valid()
      reads this, h, block
    {
      && Absorbed() && block.Length == 256
      && len == |message| % 128 && block[..len] == Leftover(128, message)
      && CountsWhole(total, |message|)
    }

    /** init, on a new context. */
    constructor ()
      ensures Valid() && fresh(h) && fresh(block) && message == []
    {
      hide Compression, Absorb, H0, RegsOf, Leftover, CountsWhole;
      h := new bv64[8];
      block := new byte[256];
      len, total := 0, 0;
      message := [];
      new;
      EmptyLeftover();
      EmptyCount();
      AbsorbNone(Compression, 128, H0(), []);
      SetRegisters(h, H0());
    }

    /** memcpy(&m_block[at], source, |source|) */
    method CopyInto(at: nat, source: seq<byte>)
      requires at + |source| <= block.Length
      modifies block
      ensures block[..at + |source|] == old(block[..at]) + source
      ensures block[at + |source|..] == old(block[at + |source|..])
    {
      forall i | 0 <= i < |source| {
        block[at + i] := source[i];
      }
    }

    /** The full buffer, which ends with c, and then whole blocks of the data. */
    method TransformAll(c: seq<byte>, rest: seq<byte>, blocks: nat)
      requires Absorbed() && block.Length == 256 && |message| % 128 + |c| == 128
      requires |rest| >= 128 * blocks && blocks <= MAX_BLOCKS
      requires block[..128] == Leftover(128, message) + c
      modifies this`message, h
      ensures Absorbed() && message == old(message) + c + rest[..128 * blocks] && |message| % 128 == 0
    {
      hide Absorb, Compression, RegsOf, Leftover;
      FillBlock(Compression, 128, H0(), message, c);
      AbsorbOne(Compression, 128, RegsOf(h[..]), block[..128]);
      assert block[..][..128 * 1] == block[..128];
      Transform(h, block[..], 1);
      ghost var m := message + c;
      AbsorbAppend(Compression, 128, H0(), m, rest[..128 * blocks]);
      Transform(h, rest, blocks);
      DivModUnique(128 * blocks, 128, blocks, 0);
      LengthSplits(128, |m|, 128 * blocks);
      message := m + rest[..128 * blocks];
    }

    /** Beyond this bound the block offset of transform leaves the int range (BlocksFitIff). */
    method Update(data: seq<byte>)
      requires Valid() && |message| % 128 + |data| < MAX_UPDATE
      modifies this, h, block
      ensures Valid() && message == old(message) + data
    {
      hide Absorb, Compression, RegsOf, CountsWhole, Leftover;
      var space := 128 - len;
      var rem := if |data| < space then |data| else space;
      CopyInto(len, data[..rem]);
      if (len + |data|) % TWO_TO_32 < 128 {
        assert data[..rem] == data;
        KeepsTotal(total, |message|, |data|);
        Keep(len, data);
        return;
      }
      UpdateFull(data, rem);
    }

    /** The branch that completes a block. */
    method UpdateFull(data: seq<byte>, rem: nat)
      requires Absorbed() && block.Length == 256 && CountsWhole(total, |message|)
      requires |message| % 128 + rem == 128 && rem <= |data| && block[..128] == Leftover(128, message) + data[..rem]
      requires |message| % 128 + |data| < MAX_UPDATE
      modifies this, h, block
      ensures Valid() && message == old(message) + data
    {
      hide Absorb, Compression, RegsOf, CountsWhole, Leftover;
      ghost var m := message;
      BlocksFitIff(|message| % 128 + |data|);
      var newLen := |data| - rem;
      var blocks := newLen / 128;
      var shifted := data[rem..];
      var rest := shifted[128 * blocks..];
      TotalMore(total, |message|, |data|, rem, blocks, newLen % 128);
      TransformAll(data[..rem], shifted, blocks);
      CopyInto(0, rest);
      total := (total + (blocks + 1) * 128) % TWO_TO_32;
      AlignedLeftover(128, message);
      SplitThree(m, data, rem, 128 * blocks);
      Keep(0, rest);
    }

    /** The bytes that fill no block are already copied. */
    method Keep(at: nat, rest: seq<byte>)
      requires Absorbed() && block.Length == 256 && at == |message| % 128 && at + |rest| < 128
      requires block[..at + |rest|] == Leftover(128, message) + rest
      requires CountsWhole(total, |message| + |rest|)
      modifies this`len, this`message
      ensures Valid() && message == old(message) + rest
    {
      hide Absorb, Compression, RegsOf, CountsWhole, Leftover;
      KeepPartial(Compression, 128, H0(), message, rest);
      len := at + |rest|;
      message := message + rest;
    }

    /** The hash of the padding the code builds, which below 2^29 bytes is the standard's. */
    method Final() returns (digest: seq<bv64>)
      requires Valid()
      modifies h, block
      ensures |digest| == 64 && DigestWords(digest) == HashWith(message, CodeField(|message|))
      ensures |message| < 0x2000_0000 ==> DigestWords(digest) == Hash(message)
    {
      hide Absorb, Compression, RegsOf, CountsWhole, Leftover, Padding, DigestWords, BigEndian;
      ghost var partial, field := Leftover(128, message), CodeField(|message|);
      AbsorbPadding(Compression, 128, H0(), message, field);
      BitLength(total, |message|);
      var blocks := if 128 - 17 < len % 128 then 2 else 1;
      LastBlocks(partial, |message|, blocks);
      var bits := 8 * ((total + len) % TWO_TO_32) % TWO_TO_32;
      PadBlocks(blocks, bits);
      Transform(h, block[..], blocks);
      assert block[..][..128 * blocks] == block[..128 * blocks];
      digest := Digest();
      if |message| < 0x2000_0000 { FieldsAgreeIff(|message|); }
    }

    method PadBlocks(blocks: nat, bits: uint32)
      requires block.Length == 256 && 1 <= blocks <= 2 && len + 17 <= 128 * blocks
      modifies block
      ensures block[..128 * blocks]
           == old(block[..len]) + [0x80] + Zeros(128 * blocks - len - 5) + BigEndian(bits, 4)
    {
      hide BigEndian;
      var padded := 128 * blocks;
      ghost var partial := block[..len];
      CopyInto(len, Zeros(padded - len));
      block[len] := 0x80;
      assert block[..padded - 4] == partial + [0x80] + Zeros(padded - len - 5);
      CopyInto(padded - 4, BigEndian(bits, 4));
    }

    method Digest() returns (digest: seq<bv64>)
      requires h.Length == 8
      ensures |digest| == 64 && DigestWords(digest) == RegsOf(h[..])
    {
      hide DigestByte, DigestWord, RegsOf, DigestWords, Unpacked;
      digest := seq(64, _ => 0);
      NoneUnpacked(digest, h[..]);
      var i := 0;
      while i < 8
        invariant 0 <= i <= 8 && Unpacked(digest, h[..], i) && |digest| == 64
      {
        var word := h[i];
        var bytes := seq(8, j requires 0 <= j < 8 => DigestByte(word, j));
        var next := digest[..8 * i] + bytes + digest[8 * i + 8..];
        UnpackNext(digest, next, h[..], i);
        digest := next;
        i := i + 1;
      }
      UnpackedAll(digest, h[..]);
    }
  }

  lemma SplitThree(m: seq<byte>, data: seq<byte>, i: nat, n: nat)
    requires i + n <= |data|
    ensures m + data == m + data[..i] + data[i..][..n] + data[i..][n..]
    ensures |m + data[..i] + data[i..][..n]| + |data[i..][n..]| == |m| + |data|
  {}

  lemma NoneUnpacked(d: seq<bv64>, h: seq<bv64>)
    requires |d| == 64 && |h| == 8
    ensures Unpacked(d, h, 0)
  {}

  lemma KeepsTotal(total: uint32, length: nat, len: nat)
    requires CountsWhole(total, length) && length % 128 + len < 128
    ensures CountsWhole(total, length + len)
  {
    DivModUnique(length + len, 128, length / 128, length % 128 + len);
  }

  /** GetDataSHA512: one update, with the size cut to 32 bits. */
  method GetDataSha512(data: seq<byte>) returns (digest: seq<bv64>)
    requires |data| % TWO_TO_32 < MAX_UPDATE
    ensures var kept := data[..|data| % TWO_TO_32];
      |digest| == 64 && DigestWords(digest) == HashWith(kept, CodeField(|kept|))
    ensures |data| < 0x2000_0000 ==> DigestWords(digest) == Hash(data)
  {
    hide Hash, HashWith, RegsOf, DigestWords, Absorb, Leftover, Compression, CountsWhole;
    var context := new Context();
    var kept := data[..|data| % TWO_TO_32];
    context.Update(kept);
    assert [] + kept == kept;
    digest := context.Final();
    if |data| < 0x2000_0000 { assert kept == data; }
  }
}
