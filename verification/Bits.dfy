/** Bitwise operators on non-negative integers, bit by bit, and what they do on aligned operands. */
module Bits {
  import opened Machine
  import NumberTheory

  function Pow2(k: nat): (p: nat)
    ensures p > 0
  {
    if k == 0 then 1 else 2 * Pow2(k - 1)
  }

  function Or(x: nat, y: nat): nat
    decreases x + y
  {
    if x == 0 && y == 0 then 0
    else 2 * Or(x / 2, y / 2) + if x % 2 == 1 || y % 2 == 1 then 1 else 0
  }

  function And(x: nat, y: nat): nat
    decreases x + y
  {
    if x == 0 && y == 0 then 0
    else 2 * And(x / 2, y / 2) + if x % 2 == 1 && y % 2 == 1 then 1 else 0
  }

  /** Left shift of a 32-bit word. */
  function Shl32(x: nat, k: nat): uint32 {
    (x * Pow2(k)) % TWO_TO_32
  }

  function Shr(x: nat, k: nat): nat {
    if k == 0 then x else Shr(x / 2, k - 1)
  }

  lemma {:induction false} ShrDivides(x: nat, k: nat)
    ensures Shr(x, k) == x / Pow2(k)
    decreases k
  {
    if k > 0 {
      ShrDivides(x / 2, k - 1);
      HalveThenDivide(x, Pow2(k - 1));
    }
  }

  lemma HalveThenDivide(x: nat, p: nat)
    requires p > 0
    ensures (x / 2) / p == x / (2 * p)
  {
    var q, r := (x / 2) / p, (x / 2) % p;
    NumberTheory.Reassociate(q, 2, p);
    NumberTheory.DivModUnique(x, 2 * p, q, 2 * r + x % 2);
  }

  lemma {:induction false} OrZero(x: nat)
    ensures Or(x, 0) == x && Or(0, x) == x
  {
    if x > 0 { OrZero(x / 2); }
  }

  lemma DoubleHalves(a: nat, p: nat)
    ensures (a * (2 * p)) / 2 == a * p && (a * (2 * p)) % 2 == 0
  {
    assert a * (2 * p) == 2 * (a * p);
  }

  /** Or of a shifted number and one below the shift is their sum. */
  lemma {:induction false} OrDisjoint(a: nat, k: nat, y: nat)
    requires y < Pow2(k) && a * Pow2(k) >= 0
    ensures Or(a * Pow2(k), y) == a * Pow2(k) + y
  {
    if k == 0 {
      OrZero(a);
      assert a * 1 == a;
    } else {
      var p := Pow2(k - 1);
      DoubleHalves(a, p);
      assert a * p >= 0;
      OrDisjoint(a, k - 1, y / 2);
      OrUnfold(a * (2 * p), y);
      assert 2 * (a * p) == a * (2 * p);
    }
  }

  lemma OrUnfold(x: nat, y: nat)
    ensures Or(x, y) == 2 * Or(x / 2, y / 2) + if x % 2 == 1 || y % 2 == 1 then 1 else 0
  {}

  /** And with a mask of k ones keeps the k low bits. */
  lemma {:induction false} AndLowBits(x: nat, k: nat)
    ensures And(x, Pow2(k) - 1) == x % Pow2(k)
    decreases k
  {
    if k == 0 {
      AndZero(x);
    } else {
      hide And;
      AndLowBits(x / 2, k - 1);
      AndLowStep(x, Pow2(k - 1));
    }
  }

  lemma AndLowStep(x: nat, p: nat)
    requires p > 0 && And(x / 2, p - 1) == (x / 2) % p
    ensures And(x, 2 * p - 1) == x % (2 * p)
  {
    hide And;
    AndUnfold(x, 2 * p - 1);
    ModDouble(x, p);
  }

  lemma {:induction false} AndZero(x: nat)
    ensures And(x, 0) == 0
  {
    if x > 0 { AndZero(x / 2); }
  }

  lemma AndUnfold(x: nat, y: nat)
    ensures And(x, y) == 2 * And(x / 2, y / 2) + if x % 2 == 1 && y % 2 == 1 then 1 else 0
  {}

  lemma ModDouble(x: nat, p: nat)
    requires p > 0
    ensures x % (2 * p) == 2 * ((x / 2) % p) + x % 2
  {
    var q, r := (x / 2) / p, (x / 2) % p;
    assert x / 2 == q * p + r;
    NumberTheory.Reassociate(q, 2, p);
    assert x == q * (2 * p) + (2 * r + x % 2);
    NumberTheory.DivModUnique(x, 2 * p, q, 2 * r + x % 2);
  }

  /** The shift distances of the hashes. */
  lemma PowersOfTwo()
    ensures Pow2(3) == 8 && Pow2(6) == 64 && Pow2(8) == 0x100 && Pow2(9) == 0x200
    ensures Pow2(16) == 0x1_0000 && Pow2(23) == 0x80_0000 && Pow2(24) == 0x100_0000 && Pow2(29) == 0x2000_0000
  {
    assert Pow2(6) == 8 * Pow2(3) && Pow2(8) == 4 * Pow2(6) && Pow2(9) == 8 * Pow2(6);
    assert Pow2(11) == 8 * Pow2(8) && Pow2(14) == 8 * Pow2(11) && Pow2(16) == 4 * Pow2(14);
    assert Pow2(19) == 8 * Pow2(16) && Pow2(22) == 8 * Pow2(19) && Pow2(23) == 2 * Pow2(22) && Pow2(24) == 4 * Pow2(22);
    assert Pow2(27) == 8 * Pow2(24) && Pow2(29) == 4 * Pow2(27);
  }
}
