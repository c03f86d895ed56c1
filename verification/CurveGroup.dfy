/** The points of the curve as a group.

    A group element is the affine form (x, y, 1, xy) of a valid point. Closure, identity,
    inverses and commutativity are proved here from the coordinate formulas; associativity
    is the one law taken as a hypothesis. */
module CurveGroup {
  import opened Modular
  import opened Field
  import opened FieldRing
  import opened FieldPowers
  import opened Curve
  import opened CurveLaws
  import opened PointEncoding

  /** What an element of the group is: the affine form of a point on the curve. */
  ghost predicate Normal(p: Ext) { Residue(p.X) && Residue(p.Y) && p == Affine(p.X, p.Y) && OnCurve(p) }

  ghost function Nf(p: Ext): Ext { Affine(AffineX(p), AffineY(p)) }

  /** The hypotheses under which the affine points form a commutative group. */
  ghost predicate Group()
  {
    Prime(P)
    && forall a: Ext, b: Ext, c: Ext :: Normal(a) && Normal(b) && Normal(c) ==> GAdd(GAdd(a, b), c) == GAdd(a, GAdd(b, c))
  }

  ghost function GAdd(a: Ext, b: Ext): Ext { Nf(SumOf(a, b)) }

  ghost function GNeg(a: Ext): Ext { Nf(Negate(a)) }

  // --------------------------------------------------- normal forms

  lemma NormalIsValid(p: Ext)
    requires Normal(p)
    ensures Valid(p) && p.Z == 1
  {
    hide OnCurve;
    Closed(p.X, p.Y);
  }

  lemma NfNormal(p: Ext)
    requires Prime(P) && Valid(p)
    ensures Normal(Nf(p)) && Same(Nf(p), p)
  {
    hide OnCurve, AffineX, AffineY, Same;
    AffineYRange(p);
    AffineOnCurve(p);
  }

  lemma NfOfNormal(p: Ext)
    requires Prime(P) && Normal(p)
    ensures Nf(p) == p
  {
    hide OnCurve, AffineX, AffineY;
    NormalIsValid(p);
    UnitAffine(p);
  }

  /** Points have one normal form exactly when Point.Equal holds. */
  lemma NfDecidesSame(p: Ext, q: Ext)
    requires Prime(P) && Valid(p) && Valid(q)
    ensures Same(p, q) <==> Nf(p) == Nf(q)
  {
    hide OnCurve, AffineX, AffineY, Same;
    if Same(p, q) { SameAffine(p, q); }
    NfNormal(p);
    NfNormal(q);
    if Nf(p) == Nf(q) { SameThrough(Nf(p), p, q); }
  }

  lemma IdentityNormal()
    ensures Normal(IDENTITY)
  {
    assert Open(0);
    IdentityOnCurve();
  }

  // ------------------------------------- addition respects the quotient

  ghost function Stretch(k: int, p: Ext): Ext { Ext(FMul(k, p.X), FMul(k, p.Y), FMul(k, p.Z), FMul(k, p.T)) }

  /** Every valid point is its Z times its normal form. */
  lemma StretchedNormal(p: Ext)
    requires Prime(P) && Valid(p)
    ensures p == Stretch(p.Z, Nf(p))
  {
    hide FAdd, FSub, FMul, FPow;
    AffineOnCurve(p);
    var i := FPow(p.Z, P - 2);
    Restretch(p.X, p.Z, i);
    Restretch(p.Y, p.Z, i);
    Restretch(p.T, p.Z, i);
    MulOne(p.Z);
    MulRegroup(p.X, i, p.Y, i);
    MulRegroup(p.T, i, p.Z, i);
    Closed(p.T, i);
    MulOne(FMul(p.T, i));
  }

  lemma Restretch(a: int, z: int, i: int)
    requires Residue(a) && FMul(z, i) == 1
    ensures FMul(z, FMul(a, i)) == a
  {
    hide FMul;
    MulComm(z, FMul(a, i));
    MulAssoc(a, i, z);
    MulComm(i, z);
    MulOne(a);
  }

  lemma StretchProduct(k: int, a: int, m: int, b: int)
    ensures FMul(FMul(k, a), FMul(m, b)) == FMul(FMul(k, m), FMul(a, b))
  {
    MulRegroup(k, a, m, b);
  }

  /** Stretching the summands stretches the completed sum. */
  lemma SumOfStretched(k: int, p: Ext, m: int, q: Ext)
    ensures AddCached(Stretch(k, p), Cache(Stretch(m, q))) == CurveLaws.Times(FMul(k, m), AddCached(p, Cache(q)))
  {
    hide FMul, FAdd, FSub;
    var km := FMul(k, m);
    MulAdd(k, p.Y, p.X);
    MulAdd(m, q.Y, q.X);
    StretchProduct(k, FAdd(p.Y, p.X), m, FAdd(q.Y, q.X));
    StretchProduct(k, FSub(p.Y, p.X), m, FSub(q.Y, q.X));
    MulAssoc(m, q.T, D2);
    StretchProduct(k, p.T, m, FMul(q.T, D2));
    StretchProduct(k, p.Z, m, q.Z);
    var A, B := FMul(FAdd(p.Y, p.X), FAdd(q.Y, q.X)), FMul(FSub(p.Y, p.X), FSub(q.Y, q.X));
    var C, zz := FMul(p.T, FMul(q.T, D2)), FMul(p.Z, q.Z);
    MulAdd(km, A, B);
    MulAdd(km, zz, zz);
    MulAdd(km, FAdd(zz, zz), C);
  }

  /** The normal form of a sum depends only on the normal forms of the summands. */
  lemma NfOfSum(p: Ext, q: Ext)
    requires Prime(P) && Valid(p) && Valid(q)
    ensures Nf(SumOf(p, q)) == GAdd(Nf(p), Nf(q))
  {
    hide OnCurve, AffineX, AffineY, Same, AddCached, Cache, ToExt, CurveLaws.Times, Stretch;
    var a, b := Nf(p), Nf(q);
    StretchedNormal(p);
    StretchedNormal(q);
    SumOfStretched(p.Z, a, q.Z, b);
    TimesSame(FMul(p.Z, q.Z), AddCached(a, Cache(b)));
    NfNormal(p);
    NfNormal(q);
    NormalIsValid(a);
    NormalIsValid(b);
    SumValid(p, q);
    SumValid(a, b);
    NfDecidesSame(SumOf(p, q), SumOf(a, b));
  }

  // ------------------------------------------------------- group laws

  lemma PlusNormal(a: Ext, b: Ext)
    requires Prime(P) && Normal(a) && Normal(b)
    ensures Normal(GAdd(a, b))
  {
    hide Normal, SumOf, Nf;
    NormalIsValid(a);
    NormalIsValid(b);
    SumValid(a, b);
    NfNormal(SumOf(a, b));
  }

  lemma SumComm(p: Ext, q: Ext)
    ensures SumOf(p, q) == SumOf(q, p)
  {
    hide FMul, FAdd, FSub;
    MulComm(FAdd(p.Y, p.X), FAdd(q.Y, q.X));
    MulComm(FSub(p.Y, p.X), FSub(q.Y, q.X));
    MulAssoc(p.T, q.T, D2);
    MulAssoc(q.T, p.T, D2);
    MulComm(p.T, q.T);
    MulComm(p.Z, q.Z);
  }

  /** Adding the identity: the completed sum is (2X, 2Y, 2Z, 2Z). */
  lemma SumWithIdentity(p: Ext)
    requires ResiduesE(p)
    ensures Same(SumOf(p, IDENTITY), p)
  {
    hide FMul, FAdd, FSub;
    var two := FAdd(1, 1);
    AdditionRep(p, IDENTITY);
    var c := AddCached(p, Cache(IDENTITY));
    Doubled(c.X, p.X);
    Doubled(c.Y, p.Y);
    Doubled(c.Z, p.Z);
    Doubled(c.T, p.Z);
    DoubledSame(p);
  }

  lemma Doubled(x: int, a: int)
    requires Rep(x, 2 * a)
    ensures x == FMul(2, a)
  {
    assert Open(0);
  }

  lemma DoubledSame(p: Ext)
    ensures Same(ToExt(Comp(FMul(2, p.X), FMul(2, p.Y), FMul(2, p.Z), FMul(2, p.Z))), p)
  {
    hide FMul;
    MulRegroup(2, p.X, 2, p.Z);
    MulRegroup(2, p.Y, 2, p.Z);
    MulRegroup(2, p.Z, 2, p.Z);
    var four := FMul(2, 2);
    MulAssoc(four, FMul(p.X, p.Z), p.Z);
    MulAssoc(four, FMul(p.Y, p.Z), p.Z);
    MulAssoc(p.X, p.Z, p.Z);
    MulAssoc(p.Y, p.Z, p.Z);
    var zz := FMul(p.Z, p.Z);
    MulComm(p.X, FMul(four, zz));
    MulComm(p.Y, FMul(four, zz));
    MulAssoc(four, zz, p.X);
    MulAssoc(four, zz, p.Y);
    MulComm(zz, p.X);
    MulComm(zz, p.Y);
  }

  lemma PlusComm(a: Ext, b: Ext)
    ensures GAdd(a, b) == GAdd(b, a)
  {
    hide SumOf;
    SumComm(a, b);
  }

  lemma PlusZero(a: Ext)
    requires Prime(P) && Normal(a)
    ensures GAdd(a, IDENTITY) == a == GAdd(IDENTITY, a)
  {
    hide OnCurve, AffineX, AffineY, Same, SumOf;
    NormalIsValid(a);
    IdentityNormal();
    NormalIsValid(IDENTITY);
    SumValid(a, IDENTITY);
    SumWithIdentity(a);
    NfDecidesSame(SumOf(a, IDENTITY), a);
    NfOfNormal(a);
    PlusComm(a, IDENTITY);
  }

  lemma PlusMinus(a: Ext)
    requires Prime(P) && Normal(a)
    ensures Normal(GNeg(a)) && GAdd(a, GNeg(a)) == IDENTITY
  {
    hide OnCurve, AffineX, AffineY, Same, SumOf, Normal, Negate;
    NormalIsValid(a);
    IdentityNormal();
    NormalIsValid(IDENTITY);
    NegateValid(a);
    NfNormal(Negate(a));
    SumValid(a, Negate(a));
    SumWithNegate(a);
    NfDecidesSame(SumOf(a, Negate(a)), IDENTITY);
    NfOfNormal(IDENTITY);
    NfOfSum(a, Negate(a));
    NfOfNormal(a);
  }

  lemma PlusAssoc(a: Ext, b: Ext, c: Ext)
    requires Group() && Normal(a) && Normal(b) && Normal(c)
    ensures GAdd(GAdd(a, b), c) == GAdd(a, GAdd(b, c))
  {
  }

  /** Inverses are unique: what adds up to the identity is the inverse. */
  lemma MinusUnique(a: Ext, b: Ext)
    requires Group() && Normal(a) && Normal(b) && GAdd(a, b) == IDENTITY
    ensures b == GNeg(a)
  {
    hide GAdd, Normal, GNeg;
    PlusMinus(a) by { hide GAdd; }
    PlusAssoc(GNeg(a), a, b);
    PlusComm(GNeg(a), a);
    PlusZero(b);
    PlusZero(GNeg(a));
  }

  /** The negated point represents the inverse. */
  lemma NfOfNegate(p: Ext)
    requires Group() && Valid(p)
    ensures Nf(Negate(p)) == GNeg(Nf(p))
  {
    hide Group, GAdd, Normal, GNeg, Nf, SumOf, Negate;
    GroupMeans();
    NegateValid(p);
    NfNormal(p);
    NfNormal(Negate(p));
    NfOfSum(p, Negate(p));
    SumWithNegate(p);
    SumValid(p, Negate(p));
    IdentityNormal();
    NormalIsValid(IDENTITY);
    NfDecidesSame(SumOf(p, Negate(p)), IDENTITY);
    NfOfNormal(IDENTITY);
    MinusUnique(Nf(p), Nf(Negate(p)));
  }

  lemma GroupMeans()
    requires Group()
    ensures Prime(P)
  {
  }

  // ------------------------------------------------------- multiples

  /** n times a, by repeated addition. */
  ghost function SMul(n: int, a: Ext): Ext
    decreases if n >= 0 then n else -n
  {
    if n == 0 then IDENTITY
    else if n > 0 then GAdd(SMul(n - 1, a), a)
    else GAdd(SMul(n + 1, a), GNeg(a))
  }

  lemma {:induction false} SMulNormal(n: int, a: Ext)
    requires Group() && Normal(a)
    ensures Normal(SMul(n, a))
    decreases if n >= 0 then n else -n
  {
    hide Group, GAdd, Normal, GNeg;
    GroupMeans();
    IdentityNormal();
    if n > 0 {
      SMulNormal(n - 1, a);
      PlusNormal(SMul(n - 1, a), a);
    } else if n < 0 {
      SMulNormal(n + 1, a);
      PlusMinus(a);
      PlusNormal(SMul(n + 1, a), GNeg(a));
    }
  }

  lemma SMulSucc(n: int, a: Ext)
    requires Group() && Normal(a)
    ensures SMul(n + 1, a) == GAdd(SMul(n, a), a)
  {
    hide Group, GAdd, Normal, GNeg;
    if n < 0 {
      GroupMeans();
      var b := SMul(n + 1, a);
      SMulNormal(n + 1, a);
      PlusMinus(a);
      PlusAssoc(b, GNeg(a), a);
      PlusComm(GNeg(a), a);
      PlusZero(b);
    }
  }

  lemma {:induction false} SMulAdd(m: int, n: int, a: Ext)
    requires Group() && Normal(a)
    ensures SMul(m + n, a) == GAdd(SMul(m, a), SMul(n, a))
    decreases if n >= 0 then n else -n
  {
    hide Group, GAdd, Normal, GNeg, SMul;
    GroupMeans();
    SMulNormal(m, a);
    if n == 0 {
      SMulZero(a);
      PlusZero(SMul(m, a));
    } else if n > 0 {
      SMulAdd(m, n - 1, a);
      SMulSucc(m + n - 1, a);
      SMulSucc(n - 1, a);
      SMulNormal(n - 1, a);
      PlusAssoc(SMul(m, a), SMul(n - 1, a), a);
    } else {
      SMulAdd(m, n + 1, a);
      SMulSucc(m + n, a);
      SMulSucc(n, a);
      SMulNormal(n, a);
      SMulNormal(m + n, a);
      PlusNormal(SMul(m, a), SMul(n, a));
      PlusAssoc(SMul(m, a), SMul(n, a), a);
      CancelRight(SMul(m + n, a), GAdd(SMul(m, a), SMul(n, a)), a);
    }
  }

  lemma SMulZero(a: Ext)
    ensures SMul(0, a) == IDENTITY
  {
  }

  lemma SMulOne(a: Ext)
    requires Group() && Normal(a)
    ensures SMul(1, a) == a
  {
    hide Group, GAdd, Normal;
    GroupMeans();
    PlusZero(a);
  }

  lemma CancelRight(x: Ext, y: Ext, a: Ext)
    requires Group() && Normal(x) && Normal(y) && Normal(a) && GAdd(x, a) == GAdd(y, a)
    ensures x == y
  {
    hide Group, GAdd, Normal, GNeg;
    GroupMeans();
    PlusMinus(a);
    PlusAssoc(x, a, GNeg(a));
    PlusAssoc(y, a, GNeg(a));
    PlusZero(x);
    PlusZero(y);
  }

  lemma SMulNeg(n: int, a: Ext)
    requires Group() && Normal(a)
    ensures SMul(-n, a) == GNeg(SMul(n, a))
  {
    hide Group, GAdd, Normal, GNeg, SMul;
    SMulNormal(n, a);
    SMulNormal(-n, a);
    SMulAdd(n, -n, a);
    SMulZero(a);
    MinusUnique(SMul(n, a), SMul(-n, a));
  }

  /** Multiples distribute over sums: (a+b)+(c+d) = (a+c)+(b+d). */
  lemma PlusRegroup(a: Ext, b: Ext, c: Ext, d: Ext)
    requires Group() && Normal(a) && Normal(b) && Normal(c) && Normal(d)
    ensures GAdd(GAdd(a, b), GAdd(c, d)) == GAdd(GAdd(a, c), GAdd(b, d))
  {
    hide Group, GAdd, Normal;
    GroupMeans();
    PlusNormal(c, d);
    PlusNormal(b, d);
    PlusAssoc(a, b, GAdd(c, d));
    PlusAssoc(b, c, d);
    PlusAssoc(c, b, d);
    PlusComm(b, c);
    PlusAssoc(a, c, GAdd(b, d));
  }

  lemma {:induction false} SMulPlus(n: nat, a: Ext, b: Ext)
    requires Group() && Normal(a) && Normal(b)
    ensures SMul(n, GAdd(a, b)) == GAdd(SMul(n, a), SMul(n, b))
  {
    hide Group, GAdd, Normal, SMul;
    GroupMeans();
    PlusNormal(a, b);
    if n == 0 {
      SMulZero(a);
      SMulZero(b);
      SMulZero(GAdd(a, b));
      IdentityNormal();
      PlusZero(IDENTITY);
    } else {
      SMulPlus(n - 1, a, b);
      SMulSucc(n - 1, a);
      SMulSucc(n - 1, b);
      SMulSucc(n - 1, GAdd(a, b));
      SMulNormal(n - 1, a);
      SMulNormal(n - 1, b);
      PlusRegroup(SMul(n - 1, a), SMul(n - 1, b), a, b);
    }
  }

  lemma {:induction false} SMulMul(m: nat, n: int, a: Ext)
    requires Group() && Normal(a)
    ensures SMul(m, SMul(n, a)) == SMul(m * n, a)
  {
    hide Group, GAdd, Normal, SMul;
    SMulNormal(n, a);
    if m == 0 {
      SMulZero(a);
      SMulZero(SMul(n, a));
    } else {
      SMulMul(m - 1, n, a);
      SMulSucc(m - 1, SMul(n, a));
      SMulAdd((m - 1) * n, n, a);
      assert (m - 1) * n + n == m * n;
    }
  }

  lemma {:induction false} SMulIdentity(n: nat)
    requires Group()
    ensures SMul(n, IDENTITY) == IDENTITY
  {
    hide Group, GAdd, Normal, SMul;
    GroupMeans();
    IdentityNormal();
    if n == 0 {
      SMulZero(IDENTITY);
    } else {
      SMulIdentity(n - 1);
      SMulSucc(n - 1, IDENTITY);
      PlusZero(IDENTITY);
    }
  }
}
