/**
 * What the four streaming hashes share: absorbing data block by block, the
 * part of a message that fills no block yet, and the padding of the standards.
 */
module Streaming {
  import opened Machine
  import opened NumberTheory

  /** Applies the compression function to each full block of data, in order. */
  function Absorb<S>(f: (S, seq<byte>) -> S, n: nat, s: S, data: seq<byte>): S
    requires n > 0
    decreases |data|
  {
    if |data| < n then s else Absorb(f, n, f(s, data[..n]), data[n..])
  }

  /** The tail of data behind its last full block. */
  function Leftover(n: nat, data: seq<byte>): (r: seq<byte>)
    requires n > 0
    ensures |r| == |data| % n
  {
    data[|data| - |data| % n..]
  }

  lemma AlignedLeftover(n: nat, m: seq<byte>)
    requires n > 0 && |m| % n == 0
    ensures Leftover(n, m) == []
  {}

  lemma LengthSplits(n: nat, a: nat, b: nat)
    requires n > 0 && a % n == 0
    ensures (a + b) % n == b % n
    ensures (a + b) / n == a / n + b / n
  {
    assert a + b == (a / n) * n + (b / n) * n + b % n;
    Distribute(a / n, b / n, n);
    DivModUnique(a + b, n, a / n + b / n, b % n);
  }

  lemma {:induction false} AbsorbAppend<S>(f: (S, seq<byte>) -> S, n: nat, s: S, a: seq<byte>, b: seq<byte>)
    requires n > 0 && |a| % n == 0
    ensures Absorb(f, n, s, a + b) == Absorb(f, n, Absorb(f, n, s, a), b)
    decreases |a|
  {
    if |a| < n {
      DivModUnique(|a|, n, 0, |a|);
      assert a + b == b;
    } else {
      LengthSplits(n, n, |a| - n) by { DivModUnique(n, n, 1, 0); }
      AbsorbAppend(f, n, f(s, a[..n]), a[n..], b);
      assert (a + b)[..n] == a[..n] && (a + b)[n..] == a[n..] + b;
    }
  }

  lemma AbsorbOne<S>(f: (S, seq<byte>) -> S, n: nat, s: S, block: seq<byte>)
    requires n > 0 && |block| == n
    ensures Absorb(f, n, s, block) == f(s, block)
  {
    assert block[..n] == block && block[n..] == [];
  }

  lemma AbsorbNone<S>(f: (S, seq<byte>) -> S, n: nat, s: S, data: seq<byte>)
    requires n > 0 && |data| < n
    ensures Absorb(f, n, s, data) == s
  {}

  lemma WholePart(n: nat, m: seq<byte>)
    requires n > 0
    ensures m == m[..|m| - |m| % n] + Leftover(n, m)
    ensures (|m| - |m| % n) % n == 0 && (|m| - |m| % n) / n == |m| / n
  {
    DivModUnique(|m| - |m| % n, n, |m| / n, 0);
  }

  /** More data continues from the state of the data so far and its unfinished block. */
  lemma AbsorbMore<S>(f: (S, seq<byte>) -> S, n: nat, s: S, m: seq<byte>, c: seq<byte>)
    requires n > 0
    ensures Absorb(f, n, s, m + c) == Absorb(f, n, Absorb(f, n, s, m), Leftover(n, m) + c)
  {
    hide Absorb;
    var whole, rest := m[..|m| - |m| % n], Leftover(n, m);
    WholePart(n, m);
    AbsorbAppend(f, n, s, whole, rest);
    AbsorbNone(f, n, Absorb(f, n, s, whole), rest);
    AbsorbAppend(f, n, s, whole, rest + c);
    assert m + c == whole + (rest + c);
  }

  lemma SuffixOfConcat(w: seq<byte>, t: seq<byte>, k: nat)
    requires k <= |t|
    ensures (w + t)[|w + t| - k..] == t[|t| - k..]
  {}

  lemma LeftoverOfConcat(n: nat, w: seq<byte>, t: seq<byte>)
    requires n > 0 && |w| % n == 0
    ensures Leftover(n, w + t) == Leftover(n, t)
  {
    LengthSplits(n, |w|, |t|);
    SuffixOfConcat(w, t, |t| % n);
  }

  lemma LeftoverMore(n: nat, m: seq<byte>, c: seq<byte>)
    requires n > 0
    ensures Leftover(n, m + c) == Leftover(n, Leftover(n, m) + c)
  {
    hide Leftover;
    var whole, rest := m[..|m| - |m| % n], Leftover(n, m);
    WholePart(n, m);
    LeftoverOfConcat(n, whole, rest + c);
    assert m + c == whole + (rest + c);
  }

  lemma BlockCountMore(n: nat, length: nat, more: nat)
    requires n > 0
    ensures (length + more) / n == length / n + (length % n + more) / n
    ensures (length + more) % n == (length % n + more) % n
  {
    DivModUnique(length - length % n, n, length / n, 0);
    LengthSplits(n, length - length % n, length % n + more);
  }

  /** The most significant byte first, modulo 256^k. */
  function BigEndian(x: nat, k: nat): (b: seq<byte>)
    ensures |b| == k
  {
    if k == 0 then [] else BigEndian(x / 256, k - 1) + [x % 256]
  }

  /** The least significant byte first, modulo 256^k. */
  function LittleEndian(x: nat, k: nat): (b: seq<byte>)
    ensures |b| == k
  {
    if k == 0 then [] else [x % 256] + LittleEndian(x / 256, k - 1)
  }

  function Zeros(k: nat): (z: seq<byte>)
    ensures |z| == k && forall i :: 0 <= i < k ==> z[i] == 0
  {
    seq(k, _ => 0)
  }

  /** The number of zero bytes between the 0x80 byte and a length field that ends a block. */
  function Gap(length: nat, n: nat, field: nat): (k: nat)
    requires n > 0
    ensures k < n
  {
    (n - (length + 1 + field) % n) % n
  }

  /** The bit 1, zeros, and the length field. */
  function Padding(length: nat, n: nat, field: seq<byte>): seq<byte>
    requires n > 0
  {
    [0x80] + Zeros(Gap(length, n, |field|)) + field
  }

  lemma PaddingFillsBlock(length: nat, n: nat, field: seq<byte>)
    requires n > 0
    ensures (length + |Padding(length, n, field)|) % n == 0
  {
    var t := length + 1 + |field|;
    var r := t % n;
    var q := t / n;
    assert t == q * n + r;
    if r == 0 {
      DivModUnique(n - 0, n, 1, 0);
    } else {
      DivModUnique(n - r, n, 0, n - r);
      Distribute(q, 1, n);
      DivModUnique(t + (n - r), n, q + 1, 0);
    }
  }

  /** The next chunk of the data goes behind what is already absorbed. */
  lemma ChunkBehind(m: seq<byte>, data: seq<byte>, i: nat, n: nat)
    requires i + n <= |data|
    ensures m + data[..i] + data[i..i + n] == m + data[..i + n]
  {}

  /** The length of the padding depends on the length only through the unfinished block. */
  lemma GapOfLeftover(length: nat, n: nat, field: nat)
    requires n > 0
    ensures Gap(length, n, field) == Gap(length % n, n, field)
  {
    var a := length - length % n;
    DivModUnique(a, n, length / n, 0);
    LengthSplits(n, a, length % n + 1 + field);
  }

  /** Data that completes the unfinished block makes one more call of the compression function. */
  lemma FillBlock<S>(f: (S, seq<byte>) -> S, n: nat, s: S, m: seq<byte>, c: seq<byte>)
    requires n > 0 && |m| % n + |c| == n
    ensures |Leftover(n, m) + c| == n
    ensures Absorb(f, n, s, m + c) == f(Absorb(f, n, s, m), Leftover(n, m) + c)
    ensures Leftover(n, m + c) == []
    ensures |m + c| % n == 0 && |m + c| / n == |m| / n + 1
  {
    hide Absorb;
    AbsorbMore(f, n, s, m, c);
    AbsorbOne(f, n, Absorb(f, n, s, m), Leftover(n, m) + c);
    BlockCountMore(n, |m|, |c|);
    DivModUnique(n, n, 1, 0);
  }

  /** Data that does not is kept for later. */
  lemma KeepPartial<S>(f: (S, seq<byte>) -> S, n: nat, s: S, m: seq<byte>, c: seq<byte>)
    requires n > 0 && |m| % n + |c| < n
    ensures Absorb(f, n, s, m + c) == Absorb(f, n, s, m)
    ensures Leftover(n, m + c) == Leftover(n, m) + c
    ensures |m + c| % n == |m| % n + |c| && |m + c| / n == |m| / n
  {
    hide Absorb;
    var rest := Leftover(n, m) + c;
    AbsorbMore(f, n, s, m, c);
    AbsorbNone(f, n, Absorb(f, n, s, m), rest);
    BlockCountMore(n, |m|, |c|);
    DivModUnique(|rest|, n, 0, |rest|);
    LeftoverMore(n, m, c);
  }

  /** The padded message ends in one or two blocks made of the unfinished block and the padding. */
  lemma AbsorbPadding<S>(f: (S, seq<byte>) -> S, n: nat, s: S, m: seq<byte>, field: seq<byte>)
    requires n > 0 && |field| < n
    ensures var last := Leftover(n, m) + Padding(|m| % n, n, field);
      && Padding(|m|, n, field) == Padding(|m| % n, n, field)
      && |last| == (if |m| % n + 1 + |field| <= n then n else 2 * n)
      && Absorb(f, n, s, m + Padding(|m|, n, field)) == Absorb(f, n, Absorb(f, n, s, m), last)
  {
    hide Absorb, Leftover;
    GapOfLeftover(|m|, n, |field|);
    AbsorbMore(f, n, s, m, Padding(|m|, n, field));
    GapFromOneBlock(|m| % n, n, |field|);
  }

  lemma GapFromOneBlock(length: nat, n: nat, field: nat)
    requires length < n && field < n
    ensures length + 1 + field + Gap(length, n, field) == if length + 1 + field <= n then n else 2 * n
  {
    var t := length + 1 + field;
    if t < n {
      DivModUnique(t, n, 0, t);
      DivModUnique(n - t, n, 0, n - t);
    } else {
      DivModUnique(t, n, if t == 2 * n then 2 else 1, if t == 2 * n then 0 else t - n);
      DivModUnique(n, n, 1, 0);
      if n < t < 2 * n { DivModUnique(2 * n - t, n, 0, 2 * n - t); }
    }
  }

  lemma AbsorbTwo<S>(f: (S, seq<byte>) -> S, n: nat, s: S, data: seq<byte>)
    requires n > 0 && |data| == 2 * n
    ensures Absorb(f, n, s, data) == f(f(s, data[..n]), data[n..])
  {
    AbsorbOne(f, n, f(s, data[..n]), data[n..]);
  }
}
