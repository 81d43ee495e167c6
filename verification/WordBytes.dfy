/** 32-bit words as bit vectors: sums, rotations, and words assembled from four bytes. */
module WordBytes {
  import opened Machine

  function Plus(x: bv32, y: bv32): bv32 { x + y }

  function Rotl(n: nat, x: bv32): bv32
    requires 0 < n < 32
  {
    (x << n) | (x >> (32 - n))
  }

  /** A byte in the low bits of a word. */
  function Low(x: byte): (w: bv32)
    ensures w & 0xff == w
  {
    (x as bv8) as bv32
  }

  /** Most significant byte first. */
  function BigWord(x0: bv32, x1: bv32, x2: bv32, x3: bv32): bv32 {
    (x0 << 24) | (x1 << 16) | (x2 << 8) | x3
  }

  /** The word a little-endian machine reads from four bytes. */
  function LittleWord(x0: bv32, x1: bv32, x2: bv32, x3: bv32): bv32 {
    (x3 << 24) | (x2 << 16) | (x1 << 8) | x0
  }

  /** Byte k of a word written most significant byte first: (word >> ((3 - k) * 8)) & 255. */
  function BigByte(word: bv32, k: nat): bv32
    requires k < 4
  {
    if k == 0 then (word >> 24) & 0xff
    else if k == 1 then (word >> 16) & 0xff
    else if k == 2 then (word >> 8) & 0xff
    else word & 0xff
  }

  lemma BytesOfWord(w: bv32)
    ensures (((w >> 24) & 0xff) << 24) | (((w >> 16) & 0xff) << 16) | (((w >> 8) & 0xff) << 8) | (w & 0xff) == w
  {}

  lemma WordOfBigBytes(w: bv32)
    ensures BigWord(BigByte(w, 0), BigByte(w, 1), BigByte(w, 2), BigByte(w, 3)) == w
  {
    BytesOfWord(w);
  }

  /** Byte k of a word in the memory of a little-endian machine. */
  function LittleByte(word: bv32, k: nat): bv32
    requires k < 4
  {
    if k == 0 then word & 0xff
    else if k == 1 then (word >> 8) & 0xff
    else if k == 2 then (word >> 16) & 0xff
    else (word >> 24) & 0xff
  }

  lemma WordOfLittleBytes(w: bv32)
    ensures LittleWord(LittleByte(w, 0), LittleByte(w, 1), LittleByte(w, 2), LittleByte(w, 3)) == w
  {
    BytesOfWord(w);
  }
}
