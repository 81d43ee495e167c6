/**
 * src/rsa.cpp, numeric part: the overflow-aware modular product, square and
 * multiply, the extended Euclid of key generation, and encryption and
 * decryption of byte buffers.
 */
module Rsa {
  import opened Machine
  import opened NumberTheory

  // ----- modmult -----

  function Magnitude(x: int): nat {
    if x < 0 then -x else x
  }

  /** The shift-and-add loop that modmult falls back to, on wrapping long longs. */
  function ShiftAdd(a: int, b: int, m: int, sum: int): (r: int)
    requires m > 0
    ensures -m < sum < m ==> -m < r < m
    decreases if b > 0 then b else 0
  {
    if b <= 0 then sum
    else
      var sum' := if b % 2 == 1 then Rem(Wrap64(sum + a), m) else sum;
      ShiftAdd(Rem(Wrap64(2 * a), m), b / 2, m, sum')
  }

  /** The value modmult returns, wrap-around included; a product with -1 never overflows. */
  function ModMultValue(a: int, b: int, m: int): (r: int)
    requires m > 0
    ensures -m < r < m
    decreases Magnitude(a)
  {
    if a == 0 then 0
    else
      var product := Wrap64(a * b);
      if Quo(product, a) == b || a == -1 then Rem(product, m)
      else FromHalf(a, b, m, ModMultValue(a / 2, b, m))
  }

  /** The overflow branch, given the product of half of a with b. */
  function FromHalf(a: int, b: int, m: int, half: int): (r: int)
    requires m > 0
    ensures -m < r < m
  {
    var twice := Wrap64(2 * half);
    if twice <= half then ShiftAdd(a, b, m, 0)
    else if a % 2 == 1 then Rem(Wrap64(Rem(twice, m) + b), m)
    else Rem(twice, m)
  }

  /** Dividing the wrapped product back detects overflow exactly. */
  lemma QuotientDetectsOverflow(a: int, b: int)
    requires 0 < a <= INT64_MAX && 0 <= b <= INT64_MAX
    ensures Quo(Wrap64(a * b), a) == b <==> a * b <= INT64_MAX
    ensures a * b <= INT64_MAX ==> Wrap64(a * b) == a * b >= 0
  {
    ProductNonNegative(a, b);
    var p := a * b;
    var product := Wrap64(p);
    if p <= INT64_MAX {
      assert product == p;
      DivModUnique(p, a, b, 0);
    } else {
      var quotient := product / a;
      assert product < p;
      if product >= 0 {
        assert product == quotient * a + product % a;
        if quotient >= b {
          Distribute(quotient, b, a);
          ProductNonNegative(quotient - b, a);
        }
      }
    }
  }

  lemma ShiftAddStep(a: int, b: nat, m: int, sum: int, a': int, sum': int)
    requires m > 0 && Congruent(a', 2 * a, m)
    requires Congruent(sum', if b % 2 == 1 then sum + a else sum, m)
    ensures Congruent(sum' + a' * (b / 2), sum + a * b, m)
  {
    var h := b / 2;
    var bit := if b % 2 == 1 then sum + a else sum;
    DividesProduct(m, a' - 2 * a, h);
    DividesSum(m, sum' - bit, (a' - 2 * a) * h);
    Distribute(a', 2 * a, h);
    Distribute(2 * h, b % 2, a);
    assert (2 * a) * h == (2 * h) * a;
  }

  lemma ShiftAddUnfold(a: int, b: int, m: int, sum: int)
    requires m > 0
    ensures b <= 0 ==> ShiftAdd(a, b, m, sum) == sum
    ensures b > 0 ==>
              ShiftAdd(a, b, m, sum)
              == ShiftAdd(Rem(Wrap64(2 * a), m), b / 2, m, if b % 2 == 1 then Rem(Wrap64(sum + a), m) else sum)
  {}

  /** Below the bound no term of the loop wraps. */
  lemma NoWrap(a: int, m: int, sum: int)
    requires 0 < m <= TWO_TO_62 && 0 <= a < TWO_TO_62 && 0 <= sum < m
    ensures Rem(Wrap64(2 * a), m) == (2 * a) % m && Rem(Wrap64(sum + a), m) == (sum + a) % m
  {}

  lemma {:induction false} ShiftAddCorrect(a: int, b: nat, m: int, sum: int)
    requires 0 < m <= TWO_TO_62 && 0 <= a < TWO_TO_62 && 0 <= sum < m
    ensures 0 <= ShiftAdd(a, b, m, sum) < m
    ensures Congruent(ShiftAdd(a, b, m, sum), sum + a * b, m)
    decreases b
  {
    hide ShiftAdd, Rem, Wrap64, Congruent;
    ShiftAddUnfold(a, b, m, sum);
    if b == 0 {
      assert a * b == 0;
      CongruentSelf(sum, m);
    } else {
      NoWrap(a, m, sum);
      CongruentSelf(sum, m);
      var sum' := if b % 2 == 1 then (sum + a) % m else sum;
      var a' := (2 * a) % m;
      var r := ShiftAdd(a', b / 2, m, sum');
      ShiftAddCorrect(a', b / 2, m, sum');
      CongruentMod(2 * a, m);
      CongruentMod(sum + a, m);
      ShiftAddStep(a, b, m, sum, a', sum');
      CongruentTransitive(r, sum' + a' * (b / 2), sum + a * b, m);
    }
  }

  /** At no turn of the loop does a sum or a doubling leave 64 bits. */
  predicate LoopFits(a: int, b: int, m: int, sum: int)
    requires m > 0
    decreases if b > 0 then b else 0
  {
    b > 0 ==>
      && IsInt64(2 * a) && (b % 2 == 1 ==> IsInt64(sum + a))
      && LoopFits(Rem(Wrap64(2 * a), m), b / 2, m, if b % 2 == 1 then Rem(Wrap64(sum + a), m) else sum)
  }

  lemma {:induction false} LoopNeverWraps(a: int, b: nat, m: int, sum: int)
    requires 0 < m <= TWO_TO_62 && 0 <= a < TWO_TO_62 && 0 <= sum < m
    ensures LoopFits(a, b, m, sum)
    decreases b
  {
    hide Rem, Wrap64;
    if b > 0 {
      NoWrap(a, m, sum);
      LoopNeverWraps((2 * a) % m, b / 2, m, if b % 2 == 1 then (sum + a) % m else sum);
    }
  }

  lemma CongruentSelf(x: int, m: int)
    requires m > 0
    ensures Congruent(x, x, m)
  {
    MultipleDivides(m, 0);
  }

  lemma DoubledHalf(a: nat, b: nat, m: int, half: int, doubled: int, rest: int)
    requires m > 0 && Congruent(half, (a / 2) * b, m) && Congruent(doubled, 2 * half, m)
    requires rest == if a % 2 == 1 then b else 0
    ensures (doubled + rest) % m == (a * b) % m
  {
    var h := a / 2;
    DividesSum(m, half - h * b, half - h * b);
    DividesSum(m, doubled - 2 * half, 2 * (half - h * b));
    assert 2 * (h * b) + rest == a * b by {
      assert a == 2 * h + a % 2;
      Distribute(2 * h, a % 2, b);
      assert (2 * h) * b == 2 * (h * b);
    }
    assert Congruent(doubled + rest, a * b, m);
    CongruentIffModEqual(doubled + rest, a * b, m);
  }

  lemma FromZeroHalf(a: nat, b: nat, m: int)
    requires 0 < m <= TWO_TO_62 && a < TWO_TO_62
    ensures FromHalf(a, b, m, 0) == (a * b) % m
  {
    var s := ShiftAdd(a, b, m, 0);
    ShiftAddCorrect(a, b, m, 0);
    CongruentIffModEqual(s, a * b, m);
    DivModUnique(s, m, 0, s);
  }

  /** Below the bound nothing wraps in the halving branch either. */
  lemma HalvingNeverWraps(b: nat, m: int, half: int)
    requires 0 < m <= TWO_TO_62 && b <= TWO_TO_62 && 0 <= half < m
    ensures Wrap64(2 * half) == 2 * half && Wrap64((2 * half) % m + b) == (2 * half) % m + b
  {}

  lemma FromPositiveHalfValue(a: nat, b: nat, m: int, half: int)
    requires 0 < m <= TWO_TO_62 && b <= TWO_TO_62 && 0 < half < m
    ensures FromHalf(a, b, m, half) == ((2 * half) % m + if a % 2 == 1 then b else 0) % m
  {
    var doubled := (2 * half) % m;
    HalvingNeverWraps(b, m, half);
    FromHalfUnfold(a, b, m, half);
    DivModUnique(doubled, m, 0, doubled);
    hide FromHalf, Wrap64;
  }

  lemma FromPositiveHalf(a: nat, b: nat, m: int, half: int)
    requires 0 < m <= TWO_TO_62 && b <= TWO_TO_62 && 0 < half < m
    requires Congruent(half, (a / 2) * b, m)
    ensures FromHalf(a, b, m, half) == (a * b) % m
  {
    FromPositiveHalfValue(a, b, m, half);
    CongruentMod(2 * half, m);
    DoubledHalf(a, b, m, half, (2 * half) % m, if a % 2 == 1 then b else 0);
  }

  /** modmult is exact for moduli up to 2^62 although the product may wrap. */
  lemma {:induction false} ModMultCorrect(a: nat, b: nat, m: int)
    requires 0 < m <= TWO_TO_62 && a < TWO_TO_62 && b <= TWO_TO_62
    ensures ModMultValue(a, b, m) == (a * b) % m
    decreases a
  {
    if a > 0 {
      QuotientDetectsOverflow(a, b);
      if a * b > INT64_MAX {
        var half := ModMultValue(a / 2, b, m);
        ModMultCorrect(a / 2, b, m);
        if half == 0 {
          FromZeroHalf(a, b, m);
        } else {
          CongruentMod((a / 2) * b, m);
          FromPositiveHalf(a, b, m, half);
        }
      }
    }
  }

  lemma MinusOneFits(a: int, b: int)
    requires a == -1 && -INT64_MAX <= b <= INT64_MAX
    ensures Quo(Wrap64(a * b), a) == b
  {}

  lemma ModMultUnfold(a: int, b: int, m: int)
    requires m > 0 && a != 0 && -INT64_MAX <= b <= INT64_MAX
    ensures var product := Wrap64(a * b);
            ModMultValue(a, b, m) ==
            if Quo(product, a) == b then Rem(product, m) else FromHalf(a, b, m, ModMultValue(a / 2, b, m))
  {
    hide Quo, Wrap64, Rem, FromHalf;
    if a == -1 { MinusOneFits(a, b); }
  }

  lemma FromHalfUnfold(a: int, b: int, m: int, half: int)
    requires m > 0
    ensures var twice := Wrap64(half * 2);
            FromHalf(a, b, m, half) ==
            if twice <= half then ShiftAdd(a, b, m, 0)
            else if a % 2 == 1 then Rem(Wrap64(Rem(twice, m) + b), m)
            else Rem(twice, m)
  {
    hide ShiftAdd;
  }

  /** A product that stays below the modulus. */
  lemma SmallProduct(a: int, b: int, m: int)
    requires 0 < a <= INT64_MAX && 0 <= b <= INT64_MAX && 0 <= a * b < m <= INT64_MAX
    ensures ModMultValue(a, b, m) == a * b
  {
    QuotientDetectsOverflow(a, b);
    DivModUnique(a * b, m, 0, a * b);
    hide Wrap64, Quo, FromHalf;
    ModMultUnfold(a, b, m);
  }

  /** A wrapped product whose half, doubled, wraps again: the loop decides. */
  lemma BothWrap(a: int, b: int, m: int, half: int)
    requires m > 0 && a > 0 && 0 <= b <= INT64_MAX && half == ModMultValue(a / 2, b, m)
    requires Quo(Wrap64(a * b), a) != b && Wrap64(half * 2) <= half
    ensures ModMultValue(a, b, m) == ShiftAdd(a, b, m, 0)
  {
    ModMultUnfold(a, b, m);
    FromHalfUnfold(a, b, m, half);
    hide *;
  }

  lemma WrappedRemainder(m: int)
    requires TWO_TO_62 < m <= INT64_MAX
    ensures Rem(Wrap64(2 * TWO_TO_62), m) == -(INT64_MAX + 1 - m)
  {
    DivModUnique(2 * TWO_TO_62, m, 1, INT64_MAX + 1 - m);
  }

  lemma NegativeStays(m: int, r: int)
    requires 0 < r < m <= INT64_MAX
    ensures Rem(Wrap64(0 + -r), m) == -r
  {
    DivModUnique(r, m, 0, r);
  }

  lemma LastDoublingWraps(m: int)
    requires TWO_TO_62 < m <= INT64_MAX
    ensures ShiftAdd(TWO_TO_62, 2, m, 0) == -(INT64_MAX + 1 - m)
  {
    var r := INT64_MAX + 1 - m;
    hide ShiftAdd, Rem, Wrap64;
    WrappedRemainder(m);
    NegativeStays(m, r);
    ShiftAddUnfold(TWO_TO_62, 2, m, 0);
    ShiftAddUnfold(-r, 1, m, 0);
    ShiftAddUnfold(Rem(Wrap64(2 * -r), m), 0, m, -r);
  }

  /** Above the bound, doubling 2^62 in the loop wraps and the result is negative. */
  lemma ModMultFailsAbove(m: int)
    requires TWO_TO_62 < m <= INT64_MAX
    ensures ModMultValue(TWO_TO_62, 2, m) == -(INT64_MAX + 1 - m)
    ensures (TWO_TO_62 * 2) % m == INT64_MAX + 1 - m > 0
  {
    DivModUnique(2 * TWO_TO_62, m, 1, INT64_MAX + 1 - m);
    TwiceWraps();
    hide ModMultValue, ShiftAdd, Quo, Wrap64;
    LastDoublingWraps(m);
    SmallProduct(TWO_TO_62 / 2, 2, m);
    BothWrap(TWO_TO_62, 2, m, TWO_TO_62);
  }

  lemma TwiceWraps()
    ensures Quo(Wrap64(TWO_TO_62 * 2), TWO_TO_62) != 2 && Wrap64(TWO_TO_62 * 2) <= TWO_TO_62
  {}

  /** modmult is the modular product for all residues exactly for moduli up to 2^62. */
  lemma ModMultCorrectIff(m: int)
    requires 0 < m <= INT64_MAX
    ensures (forall a: nat, b: nat :: a < m && b < m ==> ModMultValue(a, b, m) == (a * b) % m) <==> m <= TWO_TO_62
  {
    if m <= TWO_TO_62 {
      forall a: nat, b: nat | a < m && b < m ensures ModMultValue(a, b, m) == (a * b) % m {
        ModMultCorrect(a, b, m);
      }
    } else {
      ModMultFailsAbove(m);
      assert ModMultValue(TWO_TO_62, 2, m) != (TWO_TO_62 * 2) % m;
    }
  }

  /** Every doubling, sum and loop turn of the overflow branch stays in 64 bits. */
  predicate HalfFits(a: int, b: int, m: int, half: int)
    requires m > 0
  {
    && IsInt64(2 * half)
    && (if 2 * half <= half then LoopFits(a, b, m, 0) else a % 2 == 1 ==> IsInt64(Rem(2 * half, m) + b))
  }

  /** In the whole recursion nothing leaves 64 bits but products, and those are then not used. */
  predicate OnlyProductsWrap(a: int, b: int, m: int)
    requires m > 0
    decreases Magnitude(a)
  {
    || a == 0
    || IsInt64(a * b)
    || (a != -1 && OnlyProductsWrap(a / 2, b, m) && HalfFits(a, b, m, ModMultValue(a / 2, b, m)))
  }

  lemma {:induction false} NothingElseWraps(a: nat, b: nat, m: int)
    requires 0 < m <= TWO_TO_62 && a < TWO_TO_62 && b <= TWO_TO_62
    ensures OnlyProductsWrap(a, b, m)
    decreases a
  {
    if a > 0 {
      NothingElseWraps(a / 2, b, m);
      ModMultCorrect(a / 2, b, m);
      hide ModMultValue;
      LoopNeverWraps(a, b, m, 0);
    }
  }

  /** For residues only products wrap exactly for moduli up to 2^62. */
  lemma OnlyProductsWrapIff(m: int)
    requires 0 < m <= INT64_MAX
    ensures (forall a: nat, b: nat :: a < m && b < m ==> OnlyProductsWrap(a, b, m)) <==> m <= TWO_TO_62
  {
    if m <= TWO_TO_62 {
      forall a: nat, b: nat | a < m && b < m ensures OnlyProductsWrap(a, b, m) {
        NothingElseWraps(a, b, m);
      }
    } else {
      var half := TWO_TO_62 / 2;
      assert Quo(Wrap64(half * 2), half) == 2;
      DivModUnique(TWO_TO_62, m, 0, TWO_TO_62);
      assert ModMultValue(half, 2, m) == TWO_TO_62;
      assert !OnlyProductsWrap(TWO_TO_62, 2, m);
    }
  }

  method ModMult(a: int, b: int, m: int) returns (r: int)
    requires IsInt64(a) && -INT64_MAX <= b <= INT64_MAX && 0 < m <= INT64_MAX
    ensures r == ModMultValue(a, b, m)
    decreases Magnitude(a)
  {
    hide ModMultValue, FromHalf, ShiftAdd, Rem, Wrap64;
    if a == 0 {
      ModMultOfZero(b, m);
      return 0;
    }
    ModMultUnfold(a, b, m);
    if a == -1 { MinusOneFits(a, b); }
    hide Quo;
    var product := Wrap64(a * b);
    if Quo(product, a) == b {
      return Rem(product, m);
    }
    FromHalfUnfold(a, b, m, ModMultValue(a / 2, b, m));
    if a % 2 == 1 {
      product := ModMult(a / 2, b, m);
      if Wrap64(product * 2) > product {
        return Rem(Wrap64(Rem(Wrap64(product * 2), m) + b), m);
      }
    }
    product := ModMult(a / 2, b, m);
    if Wrap64(product * 2) > product {
      return Rem(Wrap64(product * 2), m);
    }
    r := ShiftAddLoop(a, b, m);
  }

  lemma ModMultOfZero(b: int, m: int)
    requires m > 0
    ensures ModMultValue(0, b, m) == 0
  {}

  /** The loop at the end of modmult. */
  method ShiftAddLoop(a: int, b: int, m: int) returns (sum: int)
    requires m > 0
    ensures sum == ShiftAdd(a, b, m, 0)
  {
    hide ShiftAdd, Rem, Wrap64;
    sum := 0;
    var x, y := a, b;
    while y > 0
      invariant ShiftAdd(x, y, m, sum) == ShiftAdd(a, b, m, 0)
    {
      ShiftAddUnfold(x, y, m, sum);
      if y % 2 == 1 {
        sum := Rem(Wrap64(sum + x), m);
      }
      x := Rem(Wrap64(2 * x), m);
      y := y / 2;
    }
    ShiftAddUnfold(x, y, m, sum);
  }

  // ----- rsa_modExp -----

  /** The exponent loop, wrap-around included. */
  function ModExpLoop(product: int, x: int, e: nat, m: int): (r: int)
    requires m > 0
    ensures -m <= product <= m ==> -m <= r <= m
    decreases e
  {
    if e == 0 then product
    else ModExpLoop(if e % 2 == 1 then ModMultValue(product, x, m) else product, ModMultValue(x, x, m), e / 2, m)
  }

  /** What rsa_modExp returns. */
  function ModExpValue(b: int, e: int, m: int): (r: int)
    ensures m <= INT64_MAX ==> IsInt64(r)
  {
    if b < 0 || e < 0 || m <= 0 then -1 else ModExpLoop(1, b % m, e, m)
  }

  /** The modular power; the initial 1 of the loop is never reduced, which shows only for m == 1, e == 0. */
  function Power(b: nat, e: nat, m: int): nat
    requires m > 0
  {
    if m == 1 && e == 0 then 1 else Pow(b, e) % m
  }

  lemma SquareStep(product: int, product': int, b: int, b': int, e: nat, m: int)
    requires m > 0 && e > 0 && b' == (b * b) % m
    requires product' == if e % 2 == 1 then (product * b) % m else product
    ensures Congruent(product' * Pow(b', e / 2), product * Pow(b, e), m)
  {
    var h := e / 2;
    CongruentMod(b * b, m);
    PowCongruent(b', b * b, h, m);
    PowSquare(b, h);
    MultipleDivides(m, 0);
    if e % 2 == 1 {
      CongruentMod(product * b, m);
      CongruentProduct(product', product * b, Pow(b', h), Pow(b, 2 * h), m);
      assert (product * b) * Pow(b, 2 * h) == product * (b * Pow(b, 2 * h));
    } else {
      CongruentProduct(product', product, Pow(b', h), Pow(b, 2 * h), m);
    }
  }

  /** Square and multiply: what is left of the exponent and what is in the product make the power. */
  lemma {:induction false} ModExpLoopCorrect(product: nat, x: nat, e: nat, m: int)
    requires 0 < m <= TWO_TO_62 && x < m && (product < m || m == 1 == product)
    ensures var r := ModExpLoop(product, x, e, m);
      && Congruent(r, product * Pow(x, e), m)
      && 0 <= r && (if e == 0 then r == product else r < m)
    decreases e
  {
    if e == 0 {
      assert product * Pow(x, e) == product;
      MultipleDivides(m, 0);
    } else {
      ModMultCorrect(product, x, m);
      ModMultCorrect(x, x, m);
      var product' := if e % 2 == 1 then (product * x) % m else product;
      var x' := (x * x) % m;
      ModExpLoopCorrect(product', x', e / 2, m);
      SquareStep(product, product', x, x', e, m);
      CongruentTransitive(ModExpLoop(product, x, e, m), product' * Pow(x', e / 2), product * Pow(x, e), m);
    }
  }

  /** For moduli up to 2^62 rsa_modExp returns the power. */
  lemma ModExpCorrect(b: nat, e: nat, m: int)
    requires 0 < m <= TWO_TO_62
    ensures ModExpValue(b, e, m) == Power(b, e, m)
  {
    var x := b % m;
    var r := ModExpLoop(1, x, e, m);
    ModExpLoopCorrect(1, x, e, m);
    CongruentMod(b, m);
    PowCongruent(x, b, e, m);
    assert 1 * Pow(x, e) == Pow(x, e);
    CongruentTransitive(r, Pow(x, e), Pow(b, e), m);
    CongruentIffModEqual(r, Pow(b, e), m);
    if r < m { DivModUnique(r, m, 0, r); }
  }

  /** Up to 2^62 the result is the modular power unless the initial product 1 is left unreduced. */
  lemma ModExpIsPowerBelow(b: nat, e: nat, m: int)
    requires 0 < m <= TWO_TO_62
    ensures ModExpValue(b, e, m) == Pow(b, e) % m <==> m > 1 || e > 0
  {
    ModExpCorrect(b, e, m);
  }

  /** Doubling up to 2^63 in the loop, which wraps. */
  lemma {:induction false} DoublingsWrap(k: nat, m: int)
    requires TWO_TO_62 < m <= INT64_MAX && k <= 61
    ensures ShiftAdd(Pow(2, 62 - k), Pow(2, k + 1), m, 0) == -(INT64_MAX + 1 - m)
  {
    TwoToThe62();
    hide ShiftAdd, Pow;
    PowDoubles(k);
    if k == 0 {
      LastDoublingWraps(m);
      PowZero();
    } else {
      DoublingsWrap(k - 1, m);
      PowerOfTwoBelow(62 - k);
      PowDoubles(62 - k);
      PowDoubles(k - 1);
      DoubleOnce(Pow(2, 62 - k), Pow(2, k), m);
    }
  }

  lemma PowDoubles(k: nat)
    ensures Pow(2, k) > 0 && Pow(2, k + 1) == 2 * Pow(2, k)
  {
    PowerOfTwoPositive(k);
  }

  lemma PowZero()
    ensures Pow(2, 0) == 1
  {}

  lemma DoubleOnce(a: nat, h: nat, m: int)
    requires TWO_TO_62 < m && 0 < h && 2 * a <= TWO_TO_62
    ensures ShiftAdd(a, 2 * h, m, 0) == ShiftAdd(2 * a, h, m, 0)
  {
    hide ShiftAdd;
    DivModUnique(2 * a, m, 0, 2 * a);
    ShiftAddUnfold(a, 2 * h, m, 0);
  }

  lemma TwoToThe62()
    ensures Pow(2, 62) == TWO_TO_62 && Pow(2, 32) == TWO_TO_32
    ensures Pow(2, 31) == TWO_TO_32 / 2 && Pow(2, 63) == 2 * TWO_TO_62
  {
    assert Pow(2, 4) == 2 * (2 * (2 * (2 * Pow(2, 0))));
    PowAdd(2, 4, 4);
    PowAdd(2, 8, 8);
    PowAdd(2, 16, 16);
    hide Pow;
    PowDoubles(31);
    PowAdd(2, 31, 31);
    PowDoubles(62);
  }

  lemma {:induction false} PowerOfTwoBelow(k: nat)
    requires k <= 61
    ensures Pow(2, k) > 0 && 2 * Pow(2, k) <= Pow(2, 62)
    decreases 62 - k
  {
    hide Pow;
    PowDoubles(k);
    if k < 61 {
      PowerOfTwoBelow(k + 1);
    }
  }

  lemma {:induction false} PowerOfTwoPositive(k: nat)
    ensures Pow(2, k) > 0
  {
    if k > 0 { PowerOfTwoPositive(k - 1); }
  }

  lemma FullDoublingWraps(m: int)
    requires TWO_TO_62 < m <= INT64_MAX
    ensures ShiftAdd(TWO_TO_32 / 2, TWO_TO_32, m, 0) == -(INT64_MAX + 1 - m)
  {
    hide ShiftAdd, Pow;
    TwoToThe62();
    DoublingsWrap(31, m);
  }

  lemma ProductAndHalfWrap()
    ensures Quo(Wrap64(TWO_TO_32 / 2 * TWO_TO_32), TWO_TO_32 / 2) != TWO_TO_32
    ensures Wrap64(TWO_TO_62 * 2) <= TWO_TO_62
  {}

  lemma HalfProduct(m: int)
    requires TWO_TO_62 < m <= INT64_MAX
    ensures ModMultValue(TWO_TO_32 / 2 / 2, TWO_TO_32, m) == TWO_TO_62
  {
    hide ModMultValue;
    SmallProduct(TWO_TO_32 / 2 / 2, TWO_TO_32, m);
  }

  /** 2^31 * 2^32 is the first power of two that wraps. */
  lemma LastProductWraps(m: int)
    requires TWO_TO_62 < m <= INT64_MAX
    ensures ModMultValue(TWO_TO_32 / 2, TWO_TO_32, m) == -(INT64_MAX + 1 - m)
  {
    hide ModMultValue, ShiftAdd, Quo, Wrap64;
    FullDoublingWraps(m);
    HalfProduct(m);
    ProductAndHalfWrap();
    BothWrap(TWO_TO_32 / 2, TWO_TO_32, m, TWO_TO_62);
  }

  lemma ModExpLoopTurn(product: int, x: int, e: nat, m: int, product': int, x': int)
    requires m > 0 && e % 2 == 1 && product' == ModMultValue(product, x, m) && x' == ModMultValue(x, x, m)
    ensures ModExpLoop(product, x, e, m) == ModExpLoop(product', x', e / 2, m)
  {}

  /** Above 2^62 the power 2^63 comes out negative. */
  lemma ModExpFailsAbove(m: int)
    requires TWO_TO_62 < m <= INT64_MAX
    ensures ModExpValue(2, 63, m) == -(INT64_MAX + 1 - m)
    ensures Pow(2, 63) % m == INT64_MAX + 1 - m > 0
  {
    TwoToThe62();
    DivModUnique(2 * TWO_TO_62, m, 1, INT64_MAX + 1 - m);
    DivModUnique(2, m, 0, 2);
    SmallTurns(m);
    LastProductWraps(m);
    ModExpLoopTurn(0x8000_0000, TWO_TO_32, 1, m, -(INT64_MAX + 1 - m), ModMultValue(TWO_TO_32, TWO_TO_32, m));
  }

  lemma SmallTurns(m: int)
    requires TWO_TO_62 < m <= INT64_MAX
    ensures ModExpLoop(1, 2, 63, m) == ModExpLoop(0x8000_0000, TWO_TO_32, 1, m)
  {
    hide ModExpLoop, ModMultValue;
    SmallProduct(1, 2, m);
    SmallProduct(2, 2, m);
    ModExpLoopTurn(1, 2, 63, m, 2, 4);
    SmallProduct(2, 4, m);
    SmallProduct(4, 4, m);
    ModExpLoopTurn(2, 4, 31, m, 8, 16);
    SmallProduct(8, 16, m);
    SmallProduct(16, 16, m);
    ModExpLoopTurn(8, 16, 15, m, 128, 256);
    SmallProduct(128, 256, m);
    SmallProduct(256, 256, m);
    ModExpLoopTurn(128, 256, 7, m, 0x8000, 0x1_0000);
    SmallProduct(0x8000, 0x1_0000, m);
    SmallProduct(0x1_0000, 0x1_0000, m);
    ModExpLoopTurn(0x8000, 0x1_0000, 3, m, 0x8000_0000, TWO_TO_32);
  }

  /** rsa_modExp is the modular power for all bases and exponents exactly for moduli from 2 to 2^62. */
  lemma ModExpIsPowerIff(m: int)
    requires 0 < m <= INT64_MAX
    ensures (forall b: nat, e: nat :: ModExpValue(b, e, m) == Pow(b, e) % m) <==> 1 < m <= TWO_TO_62
  {
    if m > TWO_TO_62 {
      ModExpFailsAbove(m);
      assert ModExpValue(2, 63, m) != Pow(2, 63) % m;
    } else if m == 1 {
      ModExpIsPowerBelow(0, 0, m);
      assert ModExpValue(0, 0, m) != Pow(0, 0) % m;
    } else {
      forall b: nat, e: nat ensures ModExpValue(b, e, m) == Pow(b, e) % m {
        ModExpIsPowerBelow(b, e, m);
      }
    }
  }

  method ModExp(b: int, e: int, m: int) returns (r: int)
    requires IsInt64(b) && IsInt64(e) && IsInt64(m)
    ensures r == ModExpValue(b, e, m)
  {
    var product := 1;
    if b < 0 || e < 0 || m <= 0 {
      return -1;
    }
    var x, y := b % m, e;
    while y > 0
      invariant y >= 0 && -m < x < m && -m <= product <= m
      invariant ModExpLoop(product, x, y, m) == ModExpValue(b, e, m)
    {
      if y % 2 == 1 {
        product := ModMult(product, x, m);
      }
      x := ModMult(x, x, m);
      y := y / 2;
    }
    return product;
  }

  // ----- key generation -----

  datatype Key = Key(modulus: int, exponent: int)

  /** (2 << 16) + 1 */
  const PUBLIC_EXPONENT: int := 131073

  method GcdLoop(a: int, b: int) returns (r: int)
    requires 0 <= a <= INT64_MAX && 0 <= b <= INT64_MAX
    ensures r == Gcd(a, b)
  {
    var x, y := a, b;
    while x != 0
      invariant 0 <= x && 0 <= y && Gcd(x, y) == Gcd(a, b)
      decreases x
    {
      var c := x;
      x := y % x;
      y := c;
    }
    return y;
  }

  /** The two coefficient columns alternate in sign and never outgrow the inputs. */
  ghost predicate Column(x: int, u: int, a: int, g: int, bound: int) {
    ((x <= 0 <= u) || (u <= 0 <= x)) && Magnitude(x) * a + Magnitude(u) * g == bound
  }

  lemma ColumnStep(x: int, u: int, a: int, g: int, bound: int, q: int, r: int)
    requires Column(x, u, a, g, bound) && a > 0 && q >= 0 && g == q * a + r
    ensures Column(u, x - u * q, r, a, bound)
  {
    ColumnSigns(x, u, q);
    Distribute(q * a, r, Magnitude(u));
    Distribute(Magnitude(x), Magnitude(u) * q, a);
    assert Magnitude(u) * (q * a) == (Magnitude(u) * q) * a;
  }

  lemma ColumnBounds(x: int, u: int, a: int, g: int, bound: int)
    requires Column(x, u, a, g, bound) && a >= 0 && g >= 0
    ensures a > 0 ==> Magnitude(x) <= bound
    ensures g > 0 ==> Magnitude(u) <= bound
  {
    ProductNonNegative(Magnitude(x), a);
    ProductNonNegative(Magnitude(u), g);
    if a > 0 { Scale(Magnitude(x), a); }
    if g > 0 { Scale(Magnitude(u), g); }
  }

  lemma ColumnSigns(x: int, u: int, q: int)
    requires (x <= 0 <= u || u <= 0 <= x) && q >= 0
    ensures Magnitude(u * q) == Magnitude(u) * q && Magnitude(x - u * q) == Magnitude(x) + Magnitude(u) * q
    ensures u <= 0 <= x - u * q || x - u * q <= 0 <= u
  {
    if u >= 0 { ProductNonNegative(u, q); } else { ProductNonNegative(-u, q); }
  }

  lemma Scale(x: int, m: int)
    requires x >= 0 && m > 0
    ensures x <= x * m
  {
    if x > 0 { AtLeastOnce(m, x); }
  }

  ghost predicate Bezout(x: int, y: int, u: int, v: int, a0: int, b0: int, a: int, g: int) {
    g == x * a0 + y * b0 && a == u * a0 + v * b0
  }

  lemma BezoutStep(x: int, y: int, u: int, v: int, a0: int, b0: int, q: int, a: int, g: int)
    requires Bezout(x, y, u, v, a0, b0, a, g)
    ensures g - q * a == (x - u * q) * a0 + (y - v * q) * b0
  {
    Distribute(u * a0, v * b0, q);
    Distribute(x, u * q, a0);
    Distribute(y, v * q, b0);
    assert q * (u * a0) == (u * q) * a0 && q * (v * b0) == (v * q) * b0;
  }

  /** One round keeps the invariants, and none of its long longs overflows. */
  lemma EuclidStep(x: int, y: int, u: int, v: int, a0: int, b0: int, a: int, g: int)
    requires 0 <= a0 <= INT64_MAX && 0 <= b0 <= INT64_MAX && a > 0 && g >= 0
    requires Bezout(x, y, u, v, a0, b0, a, g) && Column(x, u, a, g, b0) && Column(y, v, a, g, a0)
    ensures var q, r := g / a, g % a; var m, n := x - u * q, y - v * q;
            && Bezout(u, v, m, n, a0, b0, r, a) && Column(u, m, r, a, b0) && Column(v, n, r, a, a0)
            && IsInt64(u * q) && IsInt64(v * q) && IsInt64(m) && IsInt64(n)
            && (g > 0 ==> Magnitude(v) <= a0)
  {
    var q, r := g / a, g % a;
    BezoutStep(x, y, u, v, a0, b0, q, a, g);
    ColumnStep(x, u, a, g, b0, q, r);
    ColumnStep(y, v, a, g, a0, q, r);
    ColumnBounds(u, x - u * q, r, a, b0);
    ColumnBounds(v, y - v * q, r, a, a0);
    ColumnBounds(y, v, a, g, a0);
    ColumnSigns(x, u, q);
    ColumnSigns(y, v, q);
  }

  /**
   * Extended Euclid. The second Bezout coefficient comes back; x is its ghost
   * partner. No intermediate product leaves the 64-bit range.
   */
  method ExtEuclid(a: int, b: int) returns (y: int, ghost x: int)
    requires 0 <= a <= INT64_MAX && 0 <= b <= INT64_MAX
    ensures x * a + y * b == Gcd(a, b)
    ensures Magnitude(y) <= a || y == 1
  {
    x := 0;
    var x', y', u, v, gcd, a' := 0, 1, 1, 0, b, a;
    while a' != 0
      invariant 0 <= a' && 0 <= gcd && Gcd(a', gcd) == Gcd(a, b)
      invariant Bezout(x', y', u, v, a, b, a', gcd)
      invariant Column(x', u, a', gcd, b) && Column(y', v, a', gcd, a)
      invariant (Magnitude(y') <= a || y' == 1) && (gcd == 0 ==> v == 0)
      decreases a'
    {
      var q, r := gcd / a', gcd % a';
      EuclidStep(x', y', u, v, a, b, a', gcd);
      var m, n := x' - u * q, y' - v * q;
      gcd, a' := a', r;
      x', y' := u, v;
      u, v := m, n;
    }
    return y', x';
  }

  /** Key pairs as the generator makes them, from primes that pass its loop exit. */
  ghost predicate KeyPair(p: int, q: int, pub: Key, priv: Key) {
    && IsPrime(p) && IsPrime(q) && p != q
    && 255 < p * q <= TWO_TO_62
    && pub.modulus == priv.modulus == p * q
    && 0 < pub.exponent <= INT64_MAX && 0 < priv.exponent <= INT64_MAX
    && (p - 1) * (q - 1) > 0
    && Congruent(pub.exponent * priv.exponent, 1, (p - 1) * (q - 1))
  }

  lemma PhiBounds(p: int, q: int)
    requires p > 1 && q > 1
    ensures 0 < (p - 1) * (q - 1) < p * q
  {
    Distribute(p, 1, q - 1);
    Distribute(q, 1, p);
    AtLeastOnce(p - 1, q - 1);
  }

  method GenKeys(p: int, q: int) returns (pub: Key, priv: Key)
    requires IsPrime(p) && IsPrime(q) && p != q && 255 < p * q <= TWO_TO_62
    requires (p - 1) * (q - 1) > 2 && Gcd((p - 1) * (q - 1), PUBLIC_EXPONENT) == 1
    ensures KeyPair(p, q, pub, priv) && pub.exponent == PUBLIC_EXPONENT
    ensures priv.exponent < (p - 1) * (q - 1)
  {
    PhiBounds(p, q);
    var max := p * q;
    var phi := (p - 1) * (q - 1);
    var e := PUBLIC_EXPONENT;
    ghost var x;
    var d;
    d, x := ExtEuclid(phi, e);
    assert 1 - d * e == x * phi;
    MultipleDivides(phi, -x);
    assert d * e - 1 == (-x) * phi;
    while d < 0
      invariant -phi <= d <= phi && Congruent(d * e, 1, phi)
      decreases -d
    {
      Distribute(d, phi, e);
      MultipleDivides(phi, e);
      DividesSum(phi, d * e - 1, phi * e);
      d := d + phi;
    }
    assert 0 < d < phi by {
      if d == 0 {
        DivModUnique(-1, phi, -1, phi - 1);
        assert false;
      } else if d == phi {
        MultipleDivides(phi, e);
        DividesSum(phi, phi * e, phi * e - 1);
        DivModUnique(1, phi, 0, 1);
        assert false;
      }
    }
    pub, priv := Key(max, e), Key(max, d);
  }

  // ----- encryption and decryption of buffers -----

  /** Decryption undoes encryption on every residue, hence on every byte. */
  lemma RoundTripValue(p: int, q: int, pub: Key, priv: Key, x: int)
    requires KeyPair(p, q, pub, priv) && 0 <= x < p * q
    ensures ModExpValue(ModExpValue(x, pub.exponent, pub.modulus), priv.exponent, priv.modulus) == x
  {
    var n, e, d := p * q, pub.exponent, priv.exponent;
    var c := Pow(x, e) % n;
    ProductNonNegative(e, d);
    if e * d == 0 {
      AtLeastOnce(e, d);
      assert false;
    }
    CongruentMod(Pow(x, e), n);
    PowCongruent(c, Pow(x, e), d, n);
    PowMultiply(x, e, d);
    RsaIdentity(p, q, x, e * d);
    CongruentTransitive(Pow(c, d), Pow(x, e * d), x, n);
    CongruentIffModEqual(Pow(c, d), x, n);
    DivModUnique(x, n, 0, x);
    ModExpCorrect(x, e, n);
    ModExpCorrect(c, d, n);
  }

  function EncryptedValues(message: seq<byte>, pub: Key): (c: seq<int>)
    ensures |c| == |message|
  {
    seq(|message|, i requires 0 <= i < |message| => ModExpValue(message[i], pub.exponent, pub.modulus))
  }

  function DecryptedBytes(message: seq<int>, priv: Key): (d: seq<byte>)
    ensures |d| == |message|
  {
    seq(|message|, i requires 0 <= i < |message| => ModExpValue(message[i], priv.exponent, priv.modulus) % 256)
  }

  lemma ByteBack(p: int, q: int, pub: Key, priv: Key, x: byte)
    requires KeyPair(p, q, pub, priv)
    ensures ModExpValue(ModExpValue(x, pub.exponent, pub.modulus), priv.exponent, priv.modulus) == x
  {
    assert 255 < p * q;
    hide ModExpValue, KeyPair;
    RoundTripValue(p, q, pub, priv, x);
  }

  lemma DecryptedAt(pub: Key, priv: Key, message: seq<byte>, i: nat)
    requires i < |message|
    ensures DecryptedBytes(EncryptedValues(message, pub), priv)[i]
         == ModExpValue(ModExpValue(message[i], pub.exponent, pub.modulus), priv.exponent, priv.modulus) % 256
  {
    hide ModExpValue;
  }

  /** Decrypting the encryption of any byte string gives it back. */
  lemma RoundTripBytes(p: int, q: int, pub: Key, priv: Key, message: seq<byte>)
    requires KeyPair(p, q, pub, priv)
    ensures DecryptedBytes(EncryptedValues(message, pub), priv) == message
  {
    hide *;
    var d := DecryptedBytes(EncryptedValues(message, pub), priv);
    forall i | 0 <= i < |message| ensures d[i] == message[i] {
      DecryptedAt(pub, priv, message, i);
      ByteBack(p, q, pub, priv, message[i]);
    }
  }

  /** Null exactly when some exponentiation reports an error. */
  method Encrypt(message: array<byte>, pub: Key) returns (encrypted: array?<int>)
    requires IsInt64(pub.exponent) && IsInt64(pub.modulus)
    ensures encrypted == null <==> -1 in EncryptedValues(message[..], pub)
    ensures encrypted != null ==> fresh(encrypted) && encrypted[..] == EncryptedValues(message[..], pub)
  {
    var out := new int[message.Length];
    ghost var values := EncryptedValues(message[..], pub);
    for i := 0 to message.Length
      invariant out[..i] == values[..i] && -1 !in values[..i]
    {
      out[i] := ModExp(message[i], pub.exponent, pub.modulus);
      assert out[i] == values[i];
      assert out[..i + 1] == out[..i] + [values[i]];
      assert values[..i + 1] == values[..i] + [values[i]];
      if out[i] == -1 {
        assert values[i] in values;
        return null;
      }
    }
    assert out[..] == out[..message.Length] && values == values[..message.Length];
    encrypted := out;
  }

  /**
   * messageSize counts bytes of the long long buffer. An error value -1 is cast
   * to 255 and so is never noticed: null means only a size that is no multiple of 8.
   */
  method Decrypt(message: array<int>, messageSize: nat, priv: Key) returns (decrypted: array?<byte>)
    requires messageSize / 8 <= message.Length
    requires forall i :: 0 <= i < message.Length ==> IsInt64(message[i])
    requires IsInt64(priv.exponent) && IsInt64(priv.modulus)
    ensures decrypted == null <==> messageSize % 8 != 0
    ensures decrypted != null ==>
              fresh(decrypted) && decrypted[..] == DecryptedBytes(message[..messageSize / 8], priv)
  {
    if messageSize % 8 != 0 {
      return null;
    }
    var n := messageSize / 8;
    var out, temp := new byte[n], new byte[messageSize];
    ghost var values := DecryptedBytes(message[..n], priv);
    for i := 0 to n
      invariant temp[..i] == values[..i]
    {
      var v := ModExp(message[i], priv.exponent, priv.modulus);
      temp[i] := v % 256;
      assert temp[..i + 1] == temp[..i] + [values[i]];
    }
    for i := 0 to n
      invariant temp[..n] == values && out[..i] == values[..i]
    {
      out[i] := temp[i];
      assert temp[i] == temp[..n][i];
    }
    assert out[..] == out[..n];
    decrypted := out;
  }
}
