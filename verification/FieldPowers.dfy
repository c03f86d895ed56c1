/** Inversion and square roots in the field by fixed addition chains (field/fe.go).

    The chains are proved to compute the power they claim for every input, and the receiver
    may be the argument. That the powers are inverses and square roots then follows from
    Fermat's little theorem, for which the primality of p is a hypothesis. */
module FieldPowers {
  import opened Bits
  import opened Modular
  import opened Field
  import opened FieldElement

  function FPow(x: int, e: nat): int { Pow(x, e) % P }

  lemma FPowMul(x: int, e: nat, f: nat)
    ensures FMul(FPow(x, e), FPow(x, f)) == FPow(x, e + f)
  {
    hide Pow;
    PowAdd(x, e, f);
    ResidueMul(Pow(x, e), Pow(x, f));
  }

  lemma FPowRange(x: int, e: nat)
    ensures 0 <= FPow(x, e) < P
  {
  }

  lemma FPowOnce(x: int)
    requires 0 <= x < P
    ensures FPow(x, 1) == x
  {
    assert Pow(x, 1) == x * Pow(x, 0);
    SmallMod(x, P);
  }

  /** t holds the e-th power of x. */
  ghost predicate Holds(t: Element, x: int, e: int)
    reads t
  {
    Bounded(t.Limbs()) && e >= 0 && R(t.Limbs()) == FPow(x, e)
  }

  lemma HoldsMeans(t: Element, x: int, e: nat)
    requires Holds(t, x, e)
    ensures Bounded(t.Limbs()) && R(t.Limbs()) == FPow(x, e)
  {
  }

  lemma HoldsOnce(t: Element)
    requires Bounded(t.Limbs())
    ensures Holds(t, R(t.Limbs()), 1)
  {
    FPowOnce(R(t.Limbs()));
  }

  /** v = s * t adds the exponents. */
  method Times(v: Element, s: Element, t: Element, ghost x: int, ghost e: nat, ghost f: nat)
    requires Holds(s, x, e) && Holds(t, x, f)
    modifies v
    ensures Holds(v, x, e + f)
  {
    hide R, FPow, Bounded, FMul;
    FPowMul(x, e, f);
    v.Multiply(s, t);
  }

  /** The squaring loops of the chains: n squarings in place shift the exponent n bits. */
  method SquareTimes(t: Element, n: nat, ghost x: int, ghost e: nat)
    requires Holds(t, x, e)
    modifies t
    ensures Holds(t, x, e * Pow2(n))
  {
    hide R, FPow, Bounded, FMul, Pow2;
    assert Pow2(0) == 1 by { ShiftTable(); }
    for i := 0 to n
      invariant Holds(t, x, e * Pow2(i))
    {
      FPowMul(x, e * Pow2(i), e * Pow2(i));
      NextPow2(e, i);
      t.Square(t);
    }
  }

  lemma NextPow2(e: nat, i: nat)
    ensures e * Pow2(i) + e * Pow2(i) == e * Pow2(i + 1)
  {
  }

  /** Appending a run of ones to a run of ones. */
  lemma Ones(a: nat, b: nat)
    ensures Pow2(a) >= 1 && (Pow2(a) - 1) * Pow2(b) + (Pow2(b) - 1) == Pow2(a + b) - 1
  {
    Pow2Add(a, b);
    assert (Pow2(a) - 1) * Pow2(b) == Pow2(a) * Pow2(b) - Pow2(b);
  }

  lemma Exponents()
    ensures Pow2(0) == 1 && Pow2(1) == 2 && Pow2(2) == 4 && Pow2(3) == 8 && Pow2(4) == 16 && Pow2(5) == 32
    ensures Pow2(250) == 0x400000000000000000000000000000000000000000000000000000000000000
  {
    assert Pow2(0) == 1 && Pow2(1) == 2 && Pow2(2) == 4 && Pow2(3) == 8 && Pow2(4) == 16 && Pow2(5) == 32 && Pow2(6) == 64;
    hide Pow2;
    Pow2Of64();
    Pow2Add(58, 6);
    Pow2Add(64, 64);
    Pow2Add(128, 64);
    Pow2Add(192, 58);
  }

  /** The head of the inversion chain: the powers 11 and 31 = 2^5 - 1. */
  method LowPowers(z: Element) returns (z11: Element, z2_5_0: Element)
    requires Bounded(z.Limbs())
    ensures fresh(z11) && fresh(z2_5_0) && z11 != z2_5_0
    ensures Holds(z11, R(z.Limbs()), 11) && Holds(z2_5_0, R(z.Limbs()), 31)
  {
    hide R, FPow, Bounded;
    ghost var x := R(z.Limbs());
    FPowOnce(x);
    var z2 := new Element();
    var z9 := new Element();
    var t := new Element();
    z11 := new Element();
    z2_5_0 := new Element();
    Times(z2, z, z, x, 1, 1);
    Times(t, z2, z2, x, 2, 2);
    Times(t, t, t, x, 4, 4);
    Times(z9, t, z, x, 8, 1);
    Times(z11, z9, z2, x, 9, 2);
    Times(t, z11, z11, x, 11, 11);
    Times(z2_5_0, t, z9, x, 22, 9);
  }

  /** The stretch both chains share: from 2^5 - 1 by way of 10, 20, 40 and 50 ones. */
  method FiftyOnes(z2_5_0: Element, ghost x: int) returns (z2_50_0: Element)
    requires Holds(z2_5_0, x, Pow2(5) - 1)
    ensures fresh(z2_50_0) && Holds(z2_50_0, x, Pow2(50) - 1)
  {
    hide Pow2, Holds;
    var t := new Element();
    var z2_10_0 := new Element();
    var z2_20_0 := new Element();
    z2_50_0 := new Element();
    RunOfOnes(z2_10_0, t, z2_5_0, z2_5_0, x, 5, 5);
    RunOfOnes(z2_20_0, t, z2_10_0, z2_10_0, x, 10, 10);
    RunOfOnes(t, t, z2_20_0, z2_20_0, x, 20, 20);
    RunOfOnes(z2_50_0, t, t, z2_10_0, x, 40, 10);
  }

  /** And on by way of 100 and 200 ones to 2^250 - 1. */
  method LongRunOfOnes(z2_5_0: Element, ghost x: int) returns (t: Element)
    requires Holds(z2_5_0, x, Pow2(5) - 1)
    ensures fresh(t) && Holds(t, x, Pow2(250) - 1)
  {
    hide Pow2, Holds;
    var z2_50_0 := FiftyOnes(z2_5_0, x);
    t := new Element();
    var z2_100_0 := new Element();
    RunOfOnes(z2_100_0, t, z2_50_0, z2_50_0, x, 50, 50);
    RunOfOnes(t, t, z2_100_0, z2_100_0, x, 100, 100);
    RunOfOnes(t, t, t, z2_50_0, x, 200, 50);
  }

  /** v = z^(p-2), which is the inverse of z: 254 squarings and 11 multiplications. */
  method Invert(v: Element, z: Element)
    requires Bounded(z.Limbs())
    modifies v
    ensures Bounded(v.Limbs()) && R(v.Limbs()) == FPow(old(R(z.Limbs())), P - 2)
  {
    hide R, FPow, Bounded, Pow2, Holds;
    ghost var x := R(z.Limbs());
    Exponents();
    var z11, z2_5_0 := LowPowers(z);
    var t := LongRunOfOnes(z2_5_0, x);
    SquareTimes(t, 5, x, Pow2(250) - 1);
    Times(v, t, z11, x, (Pow2(250) - 1) * 32, 11);
    HoldsMeans(v, x, P - 2);
  }

  /** v = x^((p-5)/8); (p-5)/8 is 2^252 - 3. */
  method Pow22523(v: Element, x: Element)
    requires Bounded(x.Limbs())
    modifies v
    ensures Bounded(v.Limbs()) && R(v.Limbs()) == FPow(old(R(x.Limbs())), (P - 5) / 8)
  {
    hide R, FPow, Bounded, Pow2, Holds;
    ghost var r := R(x.Limbs());
    HoldsOnce(x);
    Exponents();
    var t0 := new Element();
    var t1 := new Element();
    Times(t0, x, x, r, 1, 1);
    Times(t1, t0, t0, r, 2, 2);
    Times(t1, t1, t1, r, 4, 4);
    Times(t1, x, t1, r, 1, 8);
    Times(t0, t0, t1, r, 2, 9);
    Times(t0, t0, t0, r, 11, 11);
    Times(t0, t1, t0, r, 9, 22);
    t0 := LongRunOfOnes(t0, r);
    Times(t0, t0, t0, r, Pow2(250) - 1, Pow2(250) - 1);
    Times(t0, t0, t0, r, 2 * (Pow2(250) - 1), 2 * (Pow2(250) - 1));
    Times(v, t0, x, r, 4 * (Pow2(250) - 1), 1);
    HoldsMeans(v, r, (P - 5) / 8);
  }

  /** One link of the chain: a run of a ones, shifted by b squarings, completed by a run of b ones. */
  method RunOfOnes(v: Element, t: Element, s: Element, u: Element, ghost x: int, ghost a: nat, b: nat)
    requires b > 0 && Holds(s, x, Pow2(a) - 1) && Holds(u, x, Pow2(b) - 1) && t != u
    modifies v, t
    ensures Holds(v, x, Pow2(a + b) - 1)
  {
    hide R, FPow, Bounded, Pow2;
    Times(t, s, s, x, Pow2(a) - 1, Pow2(a) - 1);
    SquareTimes(t, b - 1, x, 2 * (Pow2(a) - 1));
    Ones(a, b);
    Doubled(Pow2(a) - 1, b);
    Times(v, t, u, x, (Pow2(a) - 1) * Pow2(b), Pow2(b) - 1);
  }

  lemma Doubled(e: nat, b: nat)
    requires b > 0
    ensures 2 * e * Pow2(b - 1) == e * Pow2(b)
  {
  }

  // ---------------------------------------- what the two powers are for

  lemma FermatResidue(x: int)
    requires Prime(P) && 0 < x < P
    ensures FPow(x, P - 1) == 1
  {
    hide Pow;
    SmallMod(x, P);
    Fermat(x, P);
  }

  /** The (p-2)-th power is the inverse of a nonzero residue, and 0 for 0. */
  lemma InvertCorrect(x: int)
    requires Prime(P) && 0 <= x < P
    ensures x != 0 ==> FMul(x, FPow(x, P - 2)) == 1 && FPow(x, P - 2) != 0
    ensures x == 0 ==> FPow(x, P - 2) == 0
  {
    hide Pow, FPow, FMul;
    if x == 0 {
      ZeroPower(P - 2);
    } else {
      FPowOnce(x);
      FPowMul(x, 1, P - 2);
      FermatResidue(x);
      TimesZero(x);
    }
  }

  lemma TimesZero(x: int)
    ensures FMul(x, 0) == 0
  {
    assert Open(0);
  }

  lemma ZeroPower(e: nat)
    requires e > 0
    ensures FPow(0, e) == 0
  {
    PowZero(e);
  }
}
