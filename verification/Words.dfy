/** Bytes assembled into 32-bit words, and the 64-bit length field the hashes write as two of them. */
module Words {
  import opened Machine
  import opened NumberTheory
  import opened Bits
  import opened Streaming

  /** The word of FIPS 180-4, section 3.1: most significant byte first. */
  function WordValue(b: seq<byte>): (w: uint32)
    requires |b| == 4
  {
    b[0] as int * 0x100_0000 + b[1] as int * 0x1_0000 + b[2] as int * 0x100 + b[3]
  }

  /** STRING2INT: three shifts by eight, each filled by an or. */
  function String2Int(b: seq<byte>): int
    requires |b| == 4
  {
    Or(Or(Or(b[0] as int * 0x100, b[1]) * 0x100, b[2]) * 0x100, b[3])
  }

  lemma OrByte(x: nat, b: byte)
    ensures Or(x * 0x100, b) == x * 0x100 + b
  {
    assert Pow2(8) == 0x100 by {
      assert Pow2(4) == 16;
      assert Pow2(8) == 16 * Pow2(4);
    }
    OrDisjoint(x, 8, b);
  }

  lemma String2IntIsWordValue(b: seq<byte>)
    requires |b| == 4
    ensures String2Int(b) == WordValue(b)
  {
    hide Or;
    OrByte(b[0], b[1]);
    OrByte(b[0] as int * 0x100 + b[1], b[2]);
    OrByte((b[0] as int * 0x100 + b[1]) * 0x100 + b[2], b[3]);
  }

  lemma BigEndianStep(x: nat, k: nat)
    requires k > 0
    ensures BigEndian(x, k) == BigEndian(x / 0x100, k - 1) + [x % 256]
  {}

  lemma BigEndianNone(x: nat)
    ensures BigEndian(x, 0) == []
  {}

  lemma BigEndianFour(x: nat)
    ensures BigEndian(x, 4) == [(x / 0x100_0000) % 256, (x / 0x1_0000) % 256, (x / 0x100) % 256, x % 256]
  {
    hide BigEndian;
    var x1, x2, x3 := x / 0x100, x / 0x1_0000, x / 0x100_0000;
    assert x1 / 0x100 == x2 && x2 / 0x100 == x3;
    BigEndianStep(x, 4);
    BigEndianStep(x1, 3);
    BigEndianStep(x2, 2);
    BigEndianStep(x3, 1);
    BigEndianNone(x3 / 0x100);
  }

  lemma WordOfBigEndian(x: nat)
    ensures WordValue(BigEndian(x, 4)) == x % TWO_TO_32
  {
    hide BigEndian;
    BigEndianFour(x);
    FourDigits(x);
  }

  lemma FourDigits(x: nat)
    ensures (x / 0x100_0000) % 256 * 0x100_0000 + (x / 0x1_0000) % 256 * 0x1_0000 + (x / 0x100) % 256 * 0x100 + x % 256
         == x % TWO_TO_32
  {
    LowDigit(x, 0x100);
    LowDigit(x, 0x1_0000);
    LowDigit(x, 0x100_0000);
  }

  /** The digit at p is what lies between the remainders by p and by 256 * p. */
  lemma LowDigit(x: nat, p: nat)
    requires p == 0x100 || p == 0x1_0000 || p == 0x100_0000
    ensures x % (256 * p) == (x / p) % 256 * p + x % p
  {
    var h := x / p;
    assert x == h * p + x % p && h == h / 256 * 256 + h % 256;
    DivModUnique(x, 256 * p, h / 256, h % 256 * p + x % p);
  }

  /** The four low bytes come last. */
  lemma BigEndianLowWord(x: nat, j: nat)
    ensures BigEndian(x, j + 4) == BigEndian(x / TWO_TO_32, j) + BigEndian(x, 4)
  {
    hide BigEndian;
    var x1, x2, x3 := x / 0x100, x / 0x1_0000, x / 0x100_0000;
    BigEndianStep(x, j + 4);
    BigEndianStep(x1, j + 3);
    BigEndianStep(x2, j + 2);
    BigEndianStep(x3, j + 1);
    BigEndianFour(x);
    assert x1 / 0x100 == x2 && x2 / 0x100 == x3 && x3 / 0x100 == x / TWO_TO_32;
    assert [x3 % 256] + ([x2 % 256] + ([x1 % 256] + [x % 256])) == BigEndian(x, 4);
  }

  lemma BigEndianMod(x: nat)
    ensures BigEndian(x, 4) == BigEndian(x % TWO_TO_32, 4)
  {
    hide BigEndian;
    var q, r := x / TWO_TO_32, x % TWO_TO_32;
    BigEndianFour(x);
    BigEndianFour(r);
    HigherBits(r, q, 0x100);
    HigherBits(r, q, 0x1_0000);
    HigherBits(r, q, 0x100_0000);
    HigherBits(r, q, 1);
  }

  lemma HigherBits(r: nat, q: nat, p: nat)
    requires p == 1 || p == 0x100 || p == 0x1_0000 || p == 0x100_0000
    ensures (q * TWO_TO_32 + r) / p % 256 == r / p % 256
  {
    var above := q * (TWO_TO_32 / p);
    assert (q * TWO_TO_32 + r) / p == above + r / p;
    DivModUnique(above + r / p, 256, q * (TWO_TO_32 / p / 256) + r / p / 256, r / p % 256);
  }

  // ----- two-word counters -----

  /** Two 32-bit counters hold n modulo 2^64. */
  predicate Counts(low: uint32, high: uint32, n: nat) {
    high as int * TWO_TO_32 + low == n % TWO_TO_64
  }

  lemma CountSplits(low: uint32, high: uint32, n: nat)
    requires Counts(low, high, n)
    ensures exists q: nat :: n == q * TWO_TO_64 + high as int * TWO_TO_32 + low
  {
    assert n == (n / TWO_TO_64) * TWO_TO_64 + n % TWO_TO_64;
  }

  // ----- least significant byte first -----

  lemma LittleEndianStep(x: nat, k: nat)
    requires k > 0
    ensures LittleEndian(x, k) == [x % 256] + LittleEndian(x / 0x100, k - 1)
  {}

  lemma LittleEndianNone(x: nat)
    ensures LittleEndian(x, 0) == []
  {}

  lemma LittleEndianLowWord(x: nat, k: nat)
    ensures LittleEndian(x, k + 4)
         == [x % 256, (x / 0x100) % 256, (x / 0x1_0000) % 256, (x / 0x100_0000) % 256] + LittleEndian(x / TWO_TO_32, k)
  {
    hide LittleEndian;
    var x1, x2, x3 := x / 0x100, x / 0x1_0000, x / 0x100_0000;
    assert x1 / 0x100 == x2 && x2 / 0x100 == x3 && x3 / 0x100 == x / TWO_TO_32;
    LittleEndianStep(x, k + 4);
    LittleEndianStep(x1, k + 3);
    LittleEndianStep(x2, k + 2);
    LittleEndianStep(x3, k + 1);
  }

  lemma LittleEndianFour(x: nat)
    ensures LittleEndian(x, 4) == [x % 256, (x / 0x100) % 256, (x / 0x1_0000) % 256, (x / 0x100_0000) % 256]
  {
    hide LittleEndian;
    LittleEndianLowWord(x, 0);
    LittleEndianNone(x / TWO_TO_32);
  }

  lemma LittleEndianMod(x: nat)
    ensures LittleEndian(x, 4) == LittleEndian(x % TWO_TO_32, 4)
  {
    hide LittleEndian;
    var q, r := x / TWO_TO_32, x % TWO_TO_32;
    LittleEndianFour(x);
    LittleEndianFour(r);
    HigherBits(r, q, 1);
    HigherBits(r, q, 0x100);
    HigherBits(r, q, 0x1_0000);
    HigherBits(r, q, 0x100_0000);
  }

  /** A 64-bit length as two words, the low one first. */
  lemma LittleEndianEight(x: nat)
    ensures LittleEndian(x, 8) == LittleEndian(x % TWO_TO_32, 4) + LittleEndian(x / TWO_TO_32 % TWO_TO_32, 4)
  {
    hide LittleEndian;
    LittleEndianLowWord(x, 4);
    LittleEndianFour(x);
    LittleEndianMod(x);
    LittleEndianMod(x / TWO_TO_32);
  }
}
