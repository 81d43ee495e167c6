/**
 * The number theory behind RSA: Euclid's lemma for primes, the binomial
 * theorem, Fermat's little theorem, and the two-prime argument.
 */
module NumberTheory {

  // ----- divisibility and congruence -----

  predicate Divides(d: int, n: int)
    requires d > 0
  {
    n % d == 0
  }

  predicate Congruent(a: int, b: int, m: int)
    requires m > 0
  {
    Divides(m, a - b)
  }

  lemma Distribute(x: int, y: int, m: int)
    ensures (x + y) * m == x * m + y * m == m * (x + y)
    ensures (x - y) * m == x * m - y * m == m * (x - y)
  {}

  lemma AtLeastOnce(x: int, m: int)
    requires x >= 1 && m > 0
    ensures x * m >= m
  {
    Distribute(x - 1, 1, m);
  }

  lemma DivModUnique(n: int, m: int, q: int, r: int)
    requires m > 0 && 0 <= r < m && n == q * m + r
    ensures n / m == q && n % m == r
  {
    var q', r' := n / m, n % m;
    assert n == q' * m + r';
    Distribute(q, q', m);
    if q > q' {
      AtLeastOnce(q - q', m);
    } else if q < q' {
      AtLeastOnce(q' - q, m);
      Distribute(q', q, m);
    }
  }

  lemma MultipleDivides(d: int, k: int)
    requires d > 0
    ensures Divides(d, d * k) && Divides(d, k * d)
  {
    DivModUnique(d * k, d, k, 0);
  }

  lemma DividesSum(d: int, a: int, b: int)
    requires d > 0 && Divides(d, a) && Divides(d, b)
    ensures Divides(d, a + b) && Divides(d, a - b)
  {
    var x, y := a / d, b / d;
    assert a + b == (x + y) * d && a - b == (x - y) * d;
    MultipleDivides(d, x + y);
    MultipleDivides(d, x - y);
  }

  lemma DividesProduct(d: int, a: int, b: int)
    requires d > 0 && Divides(d, a)
    ensures Divides(d, a * b) && Divides(d, b * a)
  {
    var x := a / d;
    assert a * b == (x * b) * d;
    MultipleDivides(d, x * b);
  }

  lemma CongruentIffModEqual(a: int, b: int, m: int)
    requires m > 0
    ensures Congruent(a, b, m) <==> a % m == b % m
  {
    var x, y := a / m, b / m;
    assert a == x * m + a % m && b == y * m + b % m;
    if a % m == b % m {
      assert a - b == (x - y) * m;
      MultipleDivides(m, x - y);
    }
    if Congruent(a, b, m) {
      var z := (a - b) / m;
      assert a - b == z * m;
      assert b == (x - z) * m + a % m;
      DivModUnique(b, m, x - z, a % m);
    }
  }

  lemma CongruentMod(a: int, m: int)
    requires m > 0
    ensures Congruent(a % m, a, m) && Congruent(a, a % m, m)
  {
    var x := a / m;
    assert a - a % m == x * m && a % m - a == (-x) * m;
    MultipleDivides(m, x);
    MultipleDivides(m, -x);
  }

  lemma CongruentTransitive(a: int, b: int, c: int, m: int)
    requires m > 0 && Congruent(a, b, m) && Congruent(b, c, m)
    ensures Congruent(a, c, m)
  {
    DividesSum(m, a - b, b - c);
  }

  lemma CongruentProduct(a: int, a': int, b: int, b': int, m: int)
    requires m > 0 && Congruent(a, a', m) && Congruent(b, b', m)
    ensures Congruent(a * b, a' * b', m)
  {
    DividesProduct(m, a - a', b);
    DividesProduct(m, b - b', a');
    DividesSum(m, (a - a') * b, a' * (b - b'));
    assert (a - a') * b + a' * (b - b') == a * b - a' * b';
  }

  // ----- greatest common divisor -----

  function Gcd(a: nat, b: nat): nat {
    if a == 0 then b else Gcd(b % a, a)
  }

  /** Gcd really is the greatest common divisor: it divides both, and every common divisor divides it. */
  lemma {:induction false} GcdIsGreatestCommonDivisor(a: nat, b: nat)
    requires a > 0 || b > 0
    ensures Gcd(a, b) > 0 && Divides(Gcd(a, b), a) && Divides(Gcd(a, b), b)
    ensures forall d :: d > 0 && Divides(d, a) && Divides(d, b) ==> Divides(d, Gcd(a, b))
    decreases a
  {
    if a > 0 {
      var q := b / a;
      assert b == q * a + b % a;
      GcdIsGreatestCommonDivisor(b % a, a);
      var g := Gcd(a, b);
      DividesProduct(g, a, q);
      DividesSum(g, q * a, b % a);
      forall d | d > 0 && Divides(d, a) && Divides(d, b) ensures Divides(d, g) {
        DividesProduct(d, a, q);
        DividesSum(d, b, q * a);
      }
    }
  }

  // ----- primes -----

  ghost predicate IsPrime(p: int) {
    p > 1 && forall d :: 1 < d < p ==> !Divides(d, p)
  }

  /** Euclid's lemma for a factor below the prime. */
  lemma {:induction false} EuclidBelow(p: int, k: int, c: int)
    requires IsPrime(p) && 0 < k < p && Divides(p, k * c)
    ensures Divides(p, c)
    decreases k
  {
    if k > 1 {
      var q, r := p / k, p % k;
      assert p == q * k + r;
      assert r != 0 by { assert !Divides(k, p); }
      MultipleDivides(p, c);
      DividesProduct(p, k * c, q);
      DividesSum(p, p * c, q * (k * c));
      assert p * c - q * (k * c) == r * c by {
        assert q * (k * c) == (q * k) * c;
        assert (q * k + r) * c == (q * k) * c + r * c;
      }
      EuclidBelow(p, r, c);
    }
  }

  lemma EuclidsLemma(p: int, k: int, c: int)
    requires IsPrime(p) && Divides(p, k * c) && !Divides(p, k)
    ensures Divides(p, c)
  {
    var q, r := k / p, k % p;
    assert k == q * p + r;
    MultipleDivides(p, q * c);
    DividesSum(p, k * c, p * (q * c));
    assert k * c - p * (q * c) == r * c by {
      assert p * (q * c) == (q * p) * c;
      assert (q * p + r) * c == (q * p) * c + r * c;
    }
    EuclidBelow(p, r, c);
  }

  /** Two different primes that both divide n divide it together. */
  lemma TwoPrimesDivide(p: int, q: int, n: int)
    requires IsPrime(p) && IsPrime(q) && p != q
    requires Divides(p, n) && Divides(q, n)
    ensures Divides(p * q, n)
  {
    var t := n / p;
    assert n == p * t;
    assert !Divides(q, p);
    EuclidsLemma(q, p, t);
    var s := t / q;
    assert t == q * s;
    assert n == (p * q) * s;
    MultipleDivides(p * q, s);
  }

  // ----- powers and binomials -----

  function Pow(b: int, e: nat): int {
    if e == 0 then 1 else b * Pow(b, e - 1)
  }

  lemma {:induction false} PowAdd(b: int, e: nat, f: nat)
    ensures Pow(b, e + f) == Pow(b, e) * Pow(b, f)
  {
    if e > 0 {
      PowAdd(b, e - 1, f);
      assert b * (Pow(b, e - 1) * Pow(b, f)) == (b * Pow(b, e - 1)) * Pow(b, f);
    }
  }

  lemma {:induction false} PowSquare(b: int, e: nat)
    ensures Pow(b * b, e) == Pow(b, 2 * e)
  {
    if e > 0 {
      PowSquare(b, e - 1);
      assert Pow(b, 2 * e) == b * Pow(b, 2 * e - 1) == b * (b * Pow(b, 2 * e - 2));
    }
  }

  lemma {:induction false} PowMultiply(b: int, e: nat, f: nat)
    requires 0 <= e * f
    ensures Pow(Pow(b, e), f) == Pow(b, e * f)
  {
    if f == 0 {
      assert e * f == 0;
    } else {
      assert e * f == e + e * (f - 1);
      assert 0 <= e * (f - 1);
      PowMultiply(b, e, f - 1);
      PowAdd(b, e, e * (f - 1));
    }
  }

  lemma {:induction false} PowCongruent(a: int, b: int, e: nat, m: int)
    requires m > 0 && Congruent(a, b, m)
    ensures Congruent(Pow(a, e), Pow(b, e), m)
  {
    if e > 0 {
      PowCongruent(a, b, e - 1, m);
      CongruentProduct(a, b, Pow(a, e - 1), Pow(b, e - 1), m);
    }
  }

  function Choose(n: nat, k: nat): nat {
    if k == 0 then 1
    else if n == 0 then 0
    else Choose(n - 1, k - 1) + Choose(n - 1, k)
  }

  lemma {:induction false} ChooseBeyond(n: nat, k: nat)
    requires k > n
    ensures Choose(n, k) == 0
  {
    if n > 0 {
      ChooseBeyond(n - 1, k - 1);
      ChooseBeyond(n - 1, k);
    }
  }

  lemma AbsorbStep(n: int, k: int, u: int, v: int, y: int)
    requires (k - 1) * (u + v) == (n - 1) * u && k * y == (n - 1) * v
    ensures k * (u + v + y) == n * (u + v)
  {
    var x := u + v;
    Distribute(x, y, k);
    Distribute(k, 1, x);
    Distribute(n, 1, x);
    Distribute(u, v, n - 1);
  }

  /** k * C(n, k) == n * C(n - 1, k - 1). */
  lemma {:induction false} ChooseAbsorb(n: nat, k: nat)
    requires n > 0 && k > 0
    ensures k * Choose(n, k) == n * Choose(n - 1, k - 1)
  {
    if n == 1 {
      ChooseBeyond(0, k);
      if k > 1 { ChooseBeyond(0, k - 1); }
    } else {
      ChooseAbsorb(n - 1, k);
      var y := Choose(n - 1, k);
      if k == 1 {
        AbsorbStep(n, 1, 0, 1, y);
      } else {
        ChooseAbsorb(n - 1, k - 1);
        AbsorbStep(n, k, Choose(n - 2, k - 2), Choose(n - 2, k - 1), y);
      }
    }
  }

  lemma PrimeDividesChoose(p: int, k: int)
    requires IsPrime(p) && 0 < k < p
    ensures Divides(p, Choose(p, k))
  {
    ChooseAbsorb(p, k);
    MultipleDivides(p, Choose(p - 1, k - 1));
    EuclidBelow(p, k, Choose(p, k));
  }

  /** The first j terms of the binomial expansion of (a + 1)^n. */
  function BinomialSum(n: nat, a: int, j: nat): int {
    if j == 0 then 0 else BinomialSum(n, a, j - 1) + Choose(n, j - 1) * Pow(a, j - 1)
  }

  lemma PascalTerm(a: int, c: int, d: int, p: int, s: int)
    ensures a * s + (c + d) * (a * p) == a * (s + c * p) + d * (a * p)
  {
    Distribute(c, d, a * p);
    Distribute(s, c * p, a);
    assert c * (a * p) == a * (c * p);
  }

  lemma {:induction false} BinomialPascal(n: nat, a: int, j: nat)
    requires n > 0 && j > 0
    ensures BinomialSum(n, a, j) == BinomialSum(n - 1, a, j) + a * BinomialSum(n - 1, a, j - 1)
  {
    if j == 1 {
      assert Choose(n, 0) * Pow(a, 0) == 1 == Choose(n - 1, 0) * Pow(a, 0);
      assert a * BinomialSum(n - 1, a, 0) == 0;
    } else {
      BinomialPascal(n, a, j - 1);
      PascalTerm(a, Choose(n - 1, j - 2), Choose(n - 1, j - 1), Pow(a, j - 2), BinomialSum(n - 1, a, j - 2));
    }
  }

  lemma {:induction false} BinomialTheorem(n: nat, a: int)
    ensures BinomialSum(n, a, n + 1) == Pow(a + 1, n)
  {
    if n > 0 {
      BinomialPascal(n, a, n + 1);
      ChooseBeyond(n - 1, n);
      BinomialTheorem(n - 1, a);
      assert (a + 1) * Pow(a + 1, n - 1) == a * Pow(a + 1, n - 1) + Pow(a + 1, n - 1);
    }
  }

  lemma {:induction false} BinomialSumModPrime(p: int, a: int, j: nat)
    requires IsPrime(p) && 0 < j <= p
    ensures Congruent(BinomialSum(p, a, j), 1, p)
  {
    if j > 1 {
      BinomialSumModPrime(p, a, j - 1);
      PrimeDividesChoose(p, j - 1);
      DividesProduct(p, Choose(p, j - 1), Pow(a, j - 1));
      DividesSum(p, BinomialSum(p, a, j - 1) - 1, Choose(p, j - 1) * Pow(a, j - 1));
    }
  }

  /** Fermat's little theorem. */
  lemma {:induction false} Fermat(p: int, a: nat)
    requires IsPrime(p)
    ensures Congruent(Pow(a, p), a, p)
  {
    if a == 0 {
      assert Pow(0, p) == 0 * Pow(0, p - 1);
    } else {
      Fermat(p, a - 1);
      var s, w := BinomialSum(p, a - 1, p), Pow(a - 1, p);
      BinomialSumModPrime(p, a - 1, p);
      DividesSum(p, s - 1, w - (a - 1));
      assert Pow(a, p) == s + w by {
        BinomialTheorem(p, a - 1);
        ChooseSelf(p);
      }
    }
  }

  lemma {:induction false} ChooseSelf(n: nat)
    ensures Choose(n, n) == 1
  {
    if n > 0 {
      ChooseSelf(n - 1);
      ChooseBeyond(n - 1, n);
    }
  }

  /** a^n is a modulo p whenever n is 1 modulo p - 1. */
  lemma {:induction false} FermatIterated(p: int, a: nat, j: nat, n: nat)
    requires IsPrime(p) && n == 1 + j * (p - 1)
    ensures Congruent(Pow(a, n), a, p)
    decreases j
  {
    if j == 0 {
      assert n == 1 && Pow(a, 1) == a * Pow(a, 0);
    } else {
      var e := n - (p - 1);
      Distribute(j, 1, p - 1);
      ProductNonNegative(j - 1, p - 1);
      FermatIterated(p, a, j - 1, e);
      PowAdd(a, e, p - 1);
      CongruentProduct(Pow(a, e), a, Pow(a, p - 1), Pow(a, p - 1), p);
      Fermat(p, a);
      CongruentTransitive(Pow(a, n), Pow(a, p), a, p);
    }
  }

  lemma ProductNonNegative(x: int, y: int)
    requires x >= 0 && y >= 0
    ensures x * y >= 0
  {}

  lemma Reassociate(j: int, x: int, y: int)
    ensures j * (x * y) == (j * y) * x == (j * x) * y
  {}

  lemma RsaIdentityFor(p: int, q: int, a: nat, n: nat, j: nat)
    requires IsPrime(p) && IsPrime(q) && p != q
    requires n == 1 + j * ((p - 1) * (q - 1))
    ensures p * q > 0 && Congruent(Pow(a, n), a, p * q)
  {
    Reassociate(j, p - 1, q - 1);
    ProductNonNegative(j, q - 1);
    ProductNonNegative(j, p - 1);
    FermatIterated(p, a, j * (q - 1), n);
    FermatIterated(q, a, j * (p - 1), n);
    TwoPrimesDivide(p, q, Pow(a, n) - a);
    AtLeastOnce(p, q);
  }

  /** Raising to an exponent that is 1 modulo phi(p * q) changes nothing modulo p * q. */
  lemma RsaIdentity(p: int, q: int, a: nat, n: nat)
    requires IsPrime(p) && IsPrime(q) && p != q
    requires n > 0 && (p - 1) * (q - 1) > 0 && Congruent(n, 1, (p - 1) * (q - 1))
    ensures p * q > 0 && Congruent(Pow(a, n), a, p * q)
  {
    var phi := (p - 1) * (q - 1);
    var j := (n - 1) / phi;
    RsaIdentityFor(p, q, a, n, j);
  }
}
