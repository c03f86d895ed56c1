/** Which group element the coordinates of each point type stand for, and what the formulas
    do to it. */
module PointGroup {
  import opened Modular
  import opened Field
  import opened FieldRing
  import opened FieldPowers
  import opened Curve
  import opened CurveLaws
  import opened PointEncoding
  import opened CurveGroup

  /** Extended coordinates standing for a. */
  ghost predicate IsE(p: Ext, a: Ext) { Valid(p) && Nf(p) == a }

  /** Completed coordinates. */
  ghost predicate IsC(c: Comp, a: Ext) { IsE(ToExt(c), a) }

  /** Projective coordinates: some extended point without its T. */
  ghost predicate IsP(p: Proj, a: Ext) { exists e: Ext :: IsE(e, a) && Drop(e) == p }

  /** A cached point. */
  ghost predicate IsK(c: Cached, a: Ext) { exists e: Ext :: IsE(e, a) && Cache(e) == c }

  /** An affine cached point, of which there is one per group element. */
  ghost predicate IsA(c: AffCached, a: Ext) { Normal(a) && c == Scaled(Cache(a), 1) }

  lemma ElementNormal(p: Ext, a: Ext)
    requires Prime(P) && IsE(p, a)
    ensures Normal(a)
  {
    hide Normal, Valid, Nf;
    NfNormal(p);
  }

  lemma IdentityIs()
    requires Prime(P)
    ensures IsE(IDENTITY, IDENTITY) && IsP(Drop(IDENTITY), IDENTITY) && IsK(Cache(IDENTITY), IDENTITY)
    ensures IsA(Scaled(Cache(IDENTITY), 1), IDENTITY)
  {
    hide Normal, Valid, Nf;
    IdentityNormal();
    NormalIsValid(IDENTITY);
    NfOfNormal(IDENTITY);
    assert IsE(IDENTITY, IDENTITY);
  }

  lemma Cached1(q: Ext, b: Ext)
    requires IsE(q, b)
    ensures IsK(Cache(q), b)
  {
  }

  /** FromP1xP1 to projective coordinates keeps the element. */
  lemma CompletedToProj(c: Comp, a: Ext)
    requires IsC(c, a)
    ensures IsP(ToProj(c), a)
  {
    hide FMul, Valid, Nf;
    assert Drop(ToExt(c)) == ToProj(c);
  }

  lemma ExtToProj(p: Ext, a: Ext)
    requires IsE(p, a)
    ensures IsP(Drop(p), a)
  {
  }

  lemma ProjToExtIs(p: Proj, a: Ext)
    requires Prime(P) && IsP(p, a)
    ensures IsE(ProjToExt(p), a)
  {
    hide FMul, Valid, Nf, ProjToExt, Drop;
    var e: Ext :| IsE(e, a) && Drop(e) == p;
    ProjToExtValid(e);
    NfDecidesSame(ProjToExt(p), e);
  }

  lemma DoubleIs(p: Proj, a: Ext)
    requires Prime(P) && IsP(p, a)
    ensures IsC(Double(p), GAdd(a, a))
  {
    hide Valid, Nf, Drop, Double, ToExt, SumOf, GAdd, Same;
    var e: Ext :| IsE(e, a) && Drop(e) == p;
    DoubleValid(e);
    SumValid(e, e);
    NfDecidesSame(SumOf(e, e), ToExt(Double(p)));
    NfOfSum(e, e);
  }

  lemma AddIs(p: Ext, a: Ext, c: Cached, b: Ext)
    requires Prime(P) && IsE(p, a) && IsK(c, b)
    ensures IsC(AddCached(p, c), GAdd(a, b))
  {
    hide Valid, Nf, ToExt, AddCached, Cache, GAdd;
    var q: Ext :| IsE(q, b) && Cache(q) == c;
    SumValid(p, q);
    NfOfSum(p, q);
  }

  lemma NegateCachedIs(c: Cached, b: Ext)
    requires Group() && IsK(c, b)
    ensures IsK(NegateCached(c), GNeg(b))
  {
    hide Group, Valid, Nf, Cache, Negate, GNeg, NegateCached;
    GroupMeans();
    var q: Ext :| IsE(q, b) && Cache(q) == c;
    NegateValid(q);
    CacheOfNegate(q);
    NfOfNegate(q);
    assert IsE(Negate(q), GNeg(b));
  }

  lemma SubIs(p: Ext, a: Ext, c: Cached, b: Ext)
    requires Group() && IsE(p, a) && IsK(c, b)
    ensures IsC(SubCached(p, c), GAdd(a, GNeg(b)))
  {
    hide Group, Valid, Nf, IsK, IsC, IsE, AddCached, SubCached, NegateCached, GAdd, GNeg;
    GroupMeans();
    SubCachedIsAdd(p, c);
    NegateCachedIs(c, b);
    AddIs(p, a, NegateCached(c), GNeg(b));
  }

  // --------------------------------------------------------- affine

  /** An affine cached point is the cached normal form without its Z. */
  lemma AddAffineIsAdd(p: Ext, b: Ext)
    requires ResiduesE(p) && Normal(b)
    ensures AddAffine(p, Scaled(Cache(b), 1)) == AddCached(p, Cache(b))
  {
    hide FMul, FAdd, FSub, OnCurve;
    MulOne(p.Z);
    ClosedSum(b.Y, b.X);
    MulOne(FAdd(b.Y, b.X));
    MulOne(FSub(b.Y, b.X));
    Closed(b.T, D2);
    MulOne(FMul(b.T, D2));
  }

  lemma AddAffineIs(p: Ext, a: Ext, c: AffCached, b: Ext)
    requires Prime(P) && IsE(p, a) && IsA(c, b)
    ensures IsC(AddAffine(p, c), GAdd(a, b))
  {
    hide OnCurve, Nf, ToExt, AddCached, AddAffine, Cache, Scaled, GAdd;
    AddAffineIsAdd(p, b);
    NormalIsValid(b);
    NfOfNormal(b);
    assert IsE(b, b);
    AddIs(p, a, Cache(b), b);
  }

  lemma NegateAffineIs(c: AffCached, b: Ext)
    requires Group() && IsA(c, b)
    ensures IsA(NegateAffine(c), GNeg(b))
  {
    hide Group, OnCurve, FMul, FNeg, Nf, GAdd, Cache, Scaled, NegateAffine, NegateCached;
    GroupMeans();
    ScaledNegate(Cache(b), 1);
    CacheOfNegate(b);
    NegateNormal(b);
  }

  lemma NegateNormal(b: Ext)
    requires Prime(P) && Normal(b)
    ensures Normal(Negate(b)) && GNeg(b) == Negate(b)
  {
    hide OnCurve, FMul, FNeg, Nf;
    NormalIsValid(b);
    NegateValid(b);
    MulNeg(b.X, b.Y);
    Closed(b.X, b.Y);
    NfOfNormal(Negate(b));
  }

  lemma SubAffineIs(p: Ext, a: Ext, c: AffCached, b: Ext)
    requires Group() && IsE(p, a) && IsA(c, b)
    ensures IsC(SubAffine(p, c), GAdd(a, GNeg(b)))
  {
    hide Group, IsA, IsC, IsE, AddAffine, SubAffine, NegateAffine, GAdd, GNeg;
    GroupMeans();
    SubAffineIsAdd(p, c);
    NegateAffineIs(c, b);
    AddAffineIs(p, a, NegateAffine(c), GNeg(b));
  }

  /** Scaling the cached form by the inverse of Z gives the affine cached form. */
  lemma ScaledCacheIs(q: Ext, b: Ext)
    requires Prime(P) && IsE(q, b)
    ensures IsA(Scaled(Cache(q), FPow(q.Z, P - 2)), b)
  {
    hide OnCurve, FMul, FAdd, FSub, FPow;
    NfNormal(q) by { hide Nf; }
    var i := FPow(q.Z, P - 2);
    StretchedNormal(q);
    AffineOnCurve(q);
    Closed(b.X, b.Y);
    StretchedT(q, i);
    SpreadOver(q.Y, q.X, i);
    MulAssoc(q.T, D2, i);
    MulComm(D2, i);
    MulAssoc(q.T, i, D2);
    Closed(FMul(q.Y, i), FMul(q.X, i));
    MulOne(FAdd(b.Y, b.X));
    MulOne(FSub(b.Y, b.X));
    Closed(b.T, D2);
    MulOne(FMul(b.T, D2));
  }

  lemma SpreadOver(y: int, x: int, i: int)
    ensures FMul(FAdd(y, x), i) == FAdd(FMul(y, i), FMul(x, i))
    ensures FMul(FSub(y, x), i) == FSub(FMul(y, i), FMul(x, i))
  {
    hide FMul, FAdd, FSub;
    MulComm(FAdd(y, x), i);
    MulComm(FSub(y, x), i);
    MulComm(y, i);
    MulComm(x, i);
    MulAdd(i, y, x);
  }

  lemma StretchedT(q: Ext, i: int)
    requires FMul(q.Z, i) == 1 && q == Stretch(q.Z, Nf(q)) && Residue(Nf(q).T)
    ensures Nf(q).T == FMul(q.T, i)
  {
    hide FMul, Nf;
    var t := Nf(q).T;
    MulComm(q.Z, t);
    MulAssoc(t, q.Z, i);
    MulOne(t);
  }
}
