/** Residues modulo a positive modulus, powers, and the consequences of primality.

    Everything here is generic in the modulus m, so that the field prime and the
    scalar order share one theory. Primality itself is always a hypothesis. */
module Modular {

  /** a and b leave the same remainder modulo m. */
  predicate Cong(a: int, b: int, m: int)
    requires m > 0
  {
    a % m == b % m
  }

  /** A common representative plus a multiple of m leaves the same remainder. */
  lemma {:induction false} AddMultiple(a: int, k: int, m: int)
    requires m > 0
    ensures (a + k * m) % m == a % m
    decreases if k >= 0 then k else -k
  {
    if k > 0 {
      AddMultiple(a, k - 1, m);
      AddOne(a + (k - 1) * m, m);
      assert a + (k - 1) * m + m == a + k * m;
    } else if k < 0 {
      AddMultiple(a, k + 1, m);
      AddOne(a + k * m, m);
      assert a + k * m + m == a + (k + 1) * m;
    }
  }

  lemma AddOne(a: int, m: int)
    requires m > 0
    ensures (a + m) % m == a % m
  {
    var q, r := a / m, a % m;
    assert a + m == (q + 1) * m + r;
    QuotientUnique(a + m, q + 1, r, m);
  }

  /** Division with remainder is unique. */
  lemma QuotientUnique(x: int, q: int, r: int, m: int)
    requires m > 0 && x == q * m + r && 0 <= r < m
    ensures x / m == q && x % m == r
  {
    var q', r' := x / m, x % m;
    assert x == q' * m + r';
    assert (q - q') * m == r' - r;
    if q - q' >= 1 {
      assert (q - q') * m >= m by { MulMono(1, q - q', m); }
    } else if q - q' <= -1 {
      MulMono(q - q', -1, m);
    }
  }

  lemma MulMono(a: int, b: int, c: int)
    requires a <= b && c >= 0
    ensures a * c <= b * c
  {
    assert (b - a) * c >= 0;
  }

  /** Congruence is exactly differing by a multiple of the modulus. */
  lemma CongWitness(a: int, b: int, k: int, m: int)
    requires m > 0 && a == b + k * m
    ensures Cong(a, b, m)
  {
    AddMultiple(b, k, m);
  }

  lemma CongQuotient(a: int, b: int, m: int) returns (k: int)
    requires m > 0 && Cong(a, b, m)
    ensures a == b + k * m
  {
    k := a / m - b / m;
    assert a == (a / m) * m + a % m;
    assert b == (b / m) * m + b % m;
  }

  lemma CongAdd(a: int, a': int, b: int, b': int, m: int)
    requires m > 0 && Cong(a, a', m) && Cong(b, b', m)
    ensures Cong(a + b, a' + b', m)
  {
    var j := CongQuotient(a, a', m);
    var k := CongQuotient(b, b', m);
    assert a + b == a' + b' + (j + k) * m;
    CongWitness(a + b, a' + b', j + k, m);
  }

  lemma CongSub(a: int, a': int, b: int, b': int, m: int)
    requires m > 0 && Cong(a, a', m) && Cong(b, b', m)
    ensures Cong(a - b, a' - b', m)
  {
    var j := CongQuotient(a, a', m);
    var k := CongQuotient(b, b', m);
    assert a - b == a' - b' + (j - k) * m;
    CongWitness(a - b, a' - b', j - k, m);
  }

  lemma Spread(a: int, k: int, m: int, c: int)
    ensures (a + k * m) * c == a * c + (k * c) * m
  {
  }

  lemma CongScale(a: int, a': int, c: int, m: int)
    requires m > 0 && Cong(a, a', m)
    ensures Cong(a * c, a' * c, m) && Cong(c * a, c * a', m)
  {
    var k := CongQuotient(a, a', m);
    Spread(a', k, m, c);
    CongWitness(a * c, a' * c, k * c, m);
    assert a * c == c * a && a' * c == c * a';
  }

  lemma CongMul(a: int, a': int, b: int, b': int, m: int)
    requires m > 0 && Cong(a, a', m) && Cong(b, b', m)
    ensures Cong(a * b, a' * b', m)
  {
    CongScale(a, a', b, m);
    CongScale(b, b', a', m);
  }

  lemma CongSelf(a: int, m: int)
    requires m > 0
    ensures 0 <= a % m < m && Cong(a % m, a, m)
  {
    CongWitness(a, a % m, a / m, m);
  }

  /** A remainder is its own canonical representative. */
  lemma SmallMod(a: int, m: int)
    requires 0 <= a < m
    ensures a % m == a
  {
  }

  lemma ZeroIffDivides(a: int, m: int)
    requires m > 0
    ensures Cong(a, 0, m) <==> a % m == 0
  {
    SmallMod(0, m);
  }

  // ---------------------------------------------------------------- powers

  function Pow(b: int, e: nat): int
  {
    if e == 0 then 1 else b * Pow(b, e - 1)
  }

  lemma {:induction false} PowAdd(b: int, e: nat, f: nat)
    ensures Pow(b, e + f) == Pow(b, e) * Pow(b, f)
  {
    if e > 0 {
      PowAdd(b, e - 1, f);
      assert b * (Pow(b, e - 1) * Pow(b, f)) == (b * Pow(b, e - 1)) * Pow(b, f);
    }
  }

  lemma {:induction false} PowMul(b: int, e: nat, f: nat)
    ensures 0 <= e * f
    ensures Pow(b, e * f) == Pow(Pow(b, e), f)
  {
    if f > 0 {
      PowMul(b, e, f - 1);
      assert e * f == e + e * (f - 1);
      PowAdd(b, e, e * (f - 1));
    }
  }

  lemma Regroup(a: int, b: int, c: int, d: int)
    ensures (a * b) * (c * d) == (a * c) * (b * d)
  {
    assert (a * b) * (c * d) == a * (b * (c * d));
    assert b * (c * d) == c * (b * d);
    assert (a * c) * (b * d) == a * (c * (b * d));
  }

  lemma {:induction false} PowBase(a: int, b: int, e: nat)
    ensures Pow(a * b, e) == Pow(a, e) * Pow(b, e)
  {
    if e > 0 {
      PowBase(a, b, e - 1);
      Regroup(a, b, Pow(a, e - 1), Pow(b, e - 1));
    }
  }

  lemma {:induction false} PowOne(e: nat)
    ensures Pow(1, e) == 1
  {
    if e > 0 { PowOne(e - 1); }
  }

  lemma {:induction false} PowZero(e: nat)
    requires e > 0
    ensures Pow(0, e) == 0
  {
  }

  lemma {:induction false} CongPow(a: int, b: int, e: nat, m: int)
    requires m > 0 && Cong(a, b, m)
    ensures Cong(Pow(a, e), Pow(b, e), m)
  {
    if e > 0 {
      CongPow(a, b, e - 1, m);
      CongMul(a, b, Pow(a, e - 1), Pow(b, e - 1), m);
    }
  }

  // ------------------------------------------------------------- primality

  /** The only divisors of m between 1 and m are the two ends. */
  ghost predicate Prime(m: int)
  {
    m > 1 && forall a: int :: 1 < a < m ==> m % a != 0
  }

  /** Every number not divisible by a prime has an inverse modulo it: the least positive
      multiple of a that is left over by division is a divisor of m, hence 1. */
  lemma {:induction false} InverseExists(a: int, m: int) returns (b: int)
    requires Prime(m) && 0 < a < m
    ensures Cong(a * b, 1, m)
    decreases a
  {
    if a == 1 {
      b := 1;
    } else {
      var q, r := m / a, m % a;
      assert m == q * a + r;
      assert 0 < r < a;
      var c := InverseExists(r, m);
      b := -q * c;
      assert a * b == r * c + (-c) * m by {
        assert a * b == -(q * a) * c;
        assert -(q * a) == r - m;
        assert (r - m) * c == r * c - m * c;
      }
      CongWitness(a * b, r * c, -c, m);
    }
  }

  lemma Inverse(a: int, m: int) returns (b: int)
    requires Prime(m) && a % m != 0
    ensures Cong(a * b, 1, m)
  {
    b := InverseExists(a % m, m);
    CongSelf(a, m);
    CongMul(a % m, a, b, b, m);
  }

  /** Euclid: a prime dividing a product divides a factor. */
  lemma Euclid(a: int, b: int, m: int)
    requires Prime(m) && Cong(a * b, 0, m)
    ensures Cong(a, 0, m) || Cong(b, 0, m)
  {
    ZeroIffDivides(a, m);
    if a % m != 0 {
      var c := Inverse(a, m);
      CongMul(c, c, a * b, 0, m);
      CongMul(a * c, 1, b, b, m);
      assert c * (a * b) == (a * c) * b;
    }
  }

  lemma CancelLeft(a: int, b: int, c: int, m: int)
    requires Prime(m) && a % m != 0 && Cong(a * b, a * c, m)
    ensures Cong(b, c, m)
  {
    CongSub(a * b, a * c, a * c, a * c, m);
    assert a * b - a * c == a * (b - c);
    Euclid(a, b - c, m);
    ZeroIffDivides(a, m);
    CongAdd(b - c, 0, c, c, m);
  }

  /** A square has at most the two opposite roots. */
  lemma SquareRoots(a: int, b: int, m: int)
    requires Prime(m) && Cong(a * a, b * b, m)
    ensures Cong(a, b, m) || Cong(a, -b, m)
  {
    CongSub(a * a, b * b, b * b, b * b, m);
    assert a * a - b * b == (a - b) * (a + b);
    Euclid(a - b, a + b, m);
    if Cong(a - b, 0, m) {
      CongAdd(a - b, 0, b, b, m);
    } else {
      CongSub(a + b, 0, b, b, m);
    }
  }

  // --------------------------------------------- Fermat's little theorem

  /** Binomial coefficients by Pascal's rule. */
  function Choose(n: nat, k: nat): nat
  {
    if k == 0 then 1 else if n == 0 then 0 else Choose(n - 1, k - 1) + Choose(n - 1, k)
  }

  lemma {:induction false} ChooseBeyond(n: nat, k: nat)
    requires n < k
    ensures Choose(n, k) == 0
  {
    if n > 0 {
      ChooseBeyond(n - 1, k - 1);
      ChooseBeyond(n - 1, k);
    }
  }

  lemma {:induction false} ChooseAll(n: nat)
    ensures Choose(n, n) == 1
  {
    if n > 0 {
      ChooseAll(n - 1);
      ChooseBeyond(n - 1, n);
    }
  }

  /** k * C(n, k) = n * C(n-1, k-1). */
  lemma {:induction false} Absorption(n: nat, k: nat)
    requires n > 0 && k > 0
    ensures k * Choose(n, k) == n * Choose(n - 1, k - 1)
  {
    var x, y := Choose(n - 1, k - 1), Choose(n - 1, k);
    assert Choose(n, k) == x + y;
    if n == 1 {
      if k > 1 { ChooseBeyond(0, k - 1); }
      ChooseBeyond(0, k);
    } else {
      Absorption(n - 1, k);
      var v := Choose(n - 2, k - 1);
      assert k * y == (n - 1) * v;
      if k == 1 {
        assert k * (x + y) == 1 + (n - 1) * 1;
      } else {
        Absorption(n - 1, k - 1);
        var u := Choose(n - 2, k - 2);
        assert x == u + v;
        AbsorptionStep(k, n, x, y, u, v);
      }
    }
  }

  lemma AbsorptionStep(k: int, n: int, x: int, y: int, u: int, v: int)
    requires x == u + v && k * y == (n - 1) * v && (k - 1) * x == (n - 1) * u
    ensures k * (x + y) == n * x
  {
    assert k * (x + y) == x + (k - 1) * x + k * y;
    assert (n - 1) * (u + v) == (n - 1) * u + (n - 1) * v;
  }

  lemma ChooseDivisible(m: nat, k: nat)
    requires Prime(m) && 0 < k < m
    ensures Cong(Choose(m, k), 0, m)
  {
    var c := Choose(m, k);
    assert k * c == Choose(m - 1, k - 1) * m by { Absorption(m, k); }
    CongWitness(k * c, 0, Choose(m - 1, k - 1), m);
    assert k % m == k by { SmallMod(k, m); }
    ZeroIffDivides(k, m);
    Euclid(k, c, m);
  }

  /** Sum of C(n, j) * a^j for j < k. */
  function BinomialSum(a: int, n: nat, k: nat): int
  {
    if k == 0 then 0 else BinomialSum(a, n, k - 1) + Choose(n, k - 1) * Pow(a, k - 1)
  }

  lemma {:induction false} BinomialStep(a: int, n: nat, k: nat)
    requires n > 0 && k > 0
    ensures BinomialSum(a, n, k) == BinomialSum(a, n - 1, k) + a * BinomialSum(a, n - 1, k - 1)
  {
    if k == 1 {
      assert BinomialSum(a, n, 1) == BinomialSum(a, n - 1, 1) == 1 * 1;
    } else {
      BinomialStep(a, n, k - 1);
      var x, y, p := Choose(n - 1, k - 2), Choose(n - 1, k - 1), Pow(a, k - 2);
      assert Choose(n, k - 1) == x + y;
      assert Pow(a, k - 1) == a * p;
      PascalTerm(x, y, a, p, BinomialSum(a, n - 1, k - 2));
    }
  }

  lemma PascalTerm(x: int, y: int, a: int, p: int, s: int)
    ensures (x + y) * (a * p) + a * s == y * (a * p) + a * (s + x * p)
  {
    assert x * (a * p) == a * (x * p);
  }

  lemma {:induction false} Binomial(a: int, n: nat)
    ensures BinomialSum(a, n, n + 1) == Pow(a + 1, n)
  {
    if n == 0 {
      assert BinomialSum(a, 0, 1) == 1 * 1;
    } else {
      Binomial(a, n - 1);
      BinomialStep(a, n, n + 1);
      ChooseBeyond(n - 1, n);
      assert BinomialSum(a, n - 1, n + 1) == BinomialSum(a, n - 1, n) + 0 * Pow(a, n);
      var s := BinomialSum(a, n - 1, n);
      assert s + a * s == (a + 1) * s;
    }
  }

  lemma {:induction false} BinomialVanishes(a: int, m: nat, k: nat)
    requires Prime(m) && 1 <= k <= m
    ensures Cong(BinomialSum(a, m, k), 1, m)
  {
    if k == 1 {
      assert BinomialSum(a, m, 1) == 1 * 1;
    } else {
      BinomialVanishes(a, m, k - 1);
      ChooseDivisible(m, k - 1);
      CongMul(Choose(m, k - 1), 0, Pow(a, k - 1), Pow(a, k - 1), m);
      CongAdd(BinomialSum(a, m, k - 1), 1, Choose(m, k - 1) * Pow(a, k - 1), 0, m);
    }
  }

  /** Fermat: a^m and a agree modulo a prime m. */
  lemma {:induction false} FermatNat(a: nat, m: nat)
    requires Prime(m)
    ensures Cong(Pow(a, m), a, m)
  {
    if a == 0 {
      PowZero(m);
    } else {
      FermatNat(a - 1, m);
      Binomial(a - 1, m);
      BinomialVanishes(a - 1, m, m);
      ChooseAll(m);
      CongAdd(BinomialSum(a - 1, m, m), 1, Pow(a - 1, m), a - 1, m);
    }
  }

  lemma Fermat(a: int, m: nat)
    requires Prime(m) && a % m != 0
    ensures Cong(Pow(a, m - 1), 1, m)
  {
    var r, w := a % m, Pow(a, m - 1);
    FermatNat(r, m);
    CongSelf(a, m);
    CongPow(r, a, m, m);
    assert Pow(a, m) == a * w;
    assert a * 1 == a;
    CancelLeft(a, w, 1, m);
  }
}
