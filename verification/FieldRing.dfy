/** The residues modulo p form a commutative ring: the laws, stated on the operations of
    module Field so that longer arguments can be pure rewriting. */
module FieldRing {
  import opened Modular
  import opened Field

  predicate Residue(x: int) { 0 <= x < P }

  lemma MulLeft(a: int, b: int)
    ensures FMul(a % P, b) == FMul(b, a % P) == FMul(a, b) == (a * b) % P
  {
    assert Open(0);
    CongSelf(a, P);
    CongScale(a % P, a, b, P);
  }

  lemma AddLeft(a: int, b: int)
    ensures FAdd(a % P, b) == FAdd(b, a % P) == FAdd(a, b) == (a + b) % P
  {
    assert Open(0);
    CongSelf(a, P);
    CongAdd(a % P, a, b, b, P);
    assert b + a % P == a % P + b;
  }

  lemma Closed(x: int, y: int)
    ensures Residue(FMul(x, y)) && Residue(FAdd(x, y)) && Residue(FSub(x, y)) && Residue(FNeg(x))
  {
  }

  lemma MulComm(x: int, y: int)
    ensures FMul(x, y) == FMul(y, x)
  {
    assert Open(0);
  }

  lemma MulOne(x: int)
    requires Residue(x)
    ensures FMul(x, 1) == x == FMul(1, x)
  {
    assert Open(0);
  }

  lemma MulAssoc(x: int, y: int, z: int)
    ensures FMul(FMul(x, y), z) == FMul(x, FMul(y, z))
  {
    hide FMul;
    MulLeft(x * y, z);
    MulLeft(y * z, x);
    TimesAssoc(x, y, z);
    assert FMul(x, y) == (x * y) % P by { MulLeft(x, y); }
    assert FMul(y, z) == (y * z) % P by { MulLeft(y, z); }
  }

  lemma TimesAssoc(x: int, y: int, z: int)
    ensures (x * y) * z == x * (y * z) == (y * z) * x
  {
  }

  /** (xy)(zw) = (xz)(yw). */
  lemma MulRegroup(x: int, y: int, z: int, w: int)
    ensures FMul(FMul(x, y), FMul(z, w)) == FMul(FMul(x, z), FMul(y, w))
  {
    hide FMul;
    MulAssoc(x, y, FMul(z, w));
    MulAssoc(y, z, w);
    MulAssoc(z, y, w);
    MulAssoc(x, z, FMul(y, w));
    MulComm(y, z);
  }

  lemma MulNeg(x: int, y: int)
    ensures FMul(FNeg(x), y) == FMul(x, FNeg(y)) == FNeg(FMul(x, y))
  {
    hide FMul;
    assert Open(0);
    MulLeft(-x, y);
    MulLeft(-y, x);
    NegTimes(x, y);
    NegLeft(x * y);
    assert FMul(x, y) == (x * y) % P by { MulLeft(x, y); }
  }

  lemma MulAdd(x: int, y: int, z: int)
    ensures FMul(x, FAdd(y, z)) == FAdd(FMul(x, y), FMul(x, z))
    ensures FMul(x, FSub(y, z)) == FSub(FMul(x, y), FMul(x, z))
  {
    hide FMul, FAdd, FSub;
    SumsAre(y, z);
    MulLeft(y + z, x);
    MulLeft(y - z, x);
    MulIs(x, y);
    MulIs(x, z);
    ResidueAdd(x * y, x * z);
    ResidueSub(x * y, x * z);
    Distributes(x, y, z);
  }

  lemma SumsAre(x: int, y: int)
    ensures FAdd(x, y) == (x + y) % P && FSub(x, y) == (x - y) % P
  {
    ModIs(x + y);
    ModIs(x - y);
  }

  lemma Distributes(x: int, y: int, z: int)
    ensures (y + z) * x == x * y + x * z && (y - z) * x == x * y - x * z
  {
  }

  /** Subtraction is adding the opposite. */
  lemma SubIsAddNeg(x: int, y: int)
    ensures FSub(x, FNeg(y)) == FAdd(x, y) && FAdd(x, FNeg(y)) == FSub(x, y)
  {
    assert Open(0);
    AddLeft(-y, x);
    assert FSub(x, FNeg(y)) == FAdd(x, y) by {
      CongSelf(-y, P);
      CongSub(x, x, FNeg(y), -y, P);
    }
  }

  lemma NegTimes(x: int, y: int)
    ensures (-x) * y == -(x * y) == (-y) * x
  {
  }

  lemma NegLeft(a: int)
    ensures FNeg(a % P) == FNeg(a)
  {
    assert Open(0);
    CongSelf(a, P);
    CongSub(0, 0, a % P, a, P);
    assert 0 - a % P == -(a % P) && 0 - a == -a;
  }

  lemma NegNeg(x: int)
    requires Residue(x)
    ensures FNeg(FNeg(x)) == x && Residue(FNeg(x))
  {
    assert Open(0);
    NegLeft(-x);
  }

  lemma NegIsMinus(x: int)
    requires Residue(x)
    ensures FNeg(x) == if x == 0 then 0 else P - x
  {
    assert Open(0);
    if x > 0 {
      AddMultiple(-x, 1, P);
    }
  }

  lemma SquareOfNeg(x: int)
    ensures FMul(FNeg(x), FNeg(x)) == FMul(x, x)
  {
    hide FMul, FNeg;
    MulNeg(x, FNeg(x));
    MulNeg(x, x);
    NegNeg(FMul(x, x)) by { Closed(x, x); }
  }

  /** A residue that is its own opposite is zero: p is odd. */
  lemma SelfOpposite(x: int)
    requires Residue(x) && x == FNeg(x)
    ensures x == 0
  {
    NegIsMinus(x);
  }

  // ------------------------- residues represented by integer expressions

  /** x is the residue of the integer n. */
  ghost predicate Rep(x: int, n: int) { x == Mod(n) }

  lemma RepSelf(x: int)
    requires Residue(x)
    ensures Rep(x, x)
  {
    assert Open(0);
  }

  lemma RepMul(x: int, n: int, y: int, m: int)
    requires Rep(x, n) && Rep(y, m)
    ensures Rep(FMul(x, y), n * m)
  {
    assert Open(0);
    ResidueMul(n, m);
  }

  lemma RepAdd(x: int, n: int, y: int, m: int)
    requires Rep(x, n) && Rep(y, m)
    ensures Rep(FAdd(x, y), n + m)
  {
    assert Open(0);
    ResidueAdd(n, m);
  }

  lemma RepSub(x: int, n: int, y: int, m: int)
    requires Rep(x, n) && Rep(y, m)
    ensures Rep(FSub(x, y), n - m)
  {
    assert Open(0);
    ResidueSub(n, m);
  }

  /** Two residues agree exactly when their representatives are congruent. */
  lemma RepEqual(x: int, n: int, y: int, m: int)
    requires Rep(x, n) && Rep(y, m)
    ensures x == y <==> Cong(n, m, P)
  {
    assert Open(0);
  }

  // ------------------------------------------- consequences of primality

  lemma NoZeroDivisors(x: int, y: int)
    requires Prime(P) && Residue(x) && Residue(y) && FMul(x, y) == 0
    ensures x == 0 || y == 0
  {
    assert Open(0);
    Euclid(x, y, P);
  }

  lemma Cancel(a: int, x: int, y: int)
    requires Prime(P) && Residue(a) && a != 0 && Residue(x) && Residue(y) && FMul(a, x) == FMul(a, y)
    ensures x == y
  {
    hide FMul;
    MulIs(a, x);
    MulIs(a, y);
    CancelLeft(a, x, y, P);
  }

  /** Equal squares have equal or opposite roots. */
  lemma Roots(x: int, y: int)
    requires Prime(P) && Residue(x) && Residue(y) && FMul(x, x) == FMul(y, y)
    ensures x == y || x == FNeg(y)
  {
    assert Open(0);
    assert Cong(x * x, y * y, P);
    hide FMul;
    SquareRoots(x, y, P);
    SmallMod(x, P);
    SmallMod(y, P);
  }
}
