/** How the alternative point formulas of edwards25519.go relate to plain addition, and why
    the sum of two points never degenerates. */
module CurveLaws {
  import opened Modular
  import opened Field
  import opened FieldRing
  import opened FieldPowers
  import opened SqrtRatio
  import opened Curve

  /** The comparison of Point.Equal: both quotients X/Z and Y/Z agree. */
  ghost predicate Same(p: Ext, q: Ext)
  {
    FMul(p.X, q.Z) == FMul(q.X, p.Z) && FMul(p.Y, q.Z) == FMul(q.Y, p.Z)
  }

  /** A point that the arithmetic may be applied to: residues on the curve, Z invertible. */
  ghost predicate Valid(p: Ext) { ResiduesE(p) && OnCurve(p) && p.Z != 0 }

  /** All four coordinates multiplied by k. */
  ghost function Times(k: int, c: Comp): Comp
  {
    Comp(FMul(k, c.X), FMul(k, c.Y), FMul(k, c.Z), FMul(k, c.T))
  }

  /** A common factor of completed coordinates does not change the point. */
  lemma TimesSame(k: int, c: Comp)
    ensures Same(ToExt(Times(k, c)), ToExt(c))
    ensures ToExt(Times(k, c)).Z == FMul(FMul(k, k), ToExt(c).Z)
  {
    hide FMul;
    MulRegroup(k, c.X, k, c.T);
    MulRegroup(k, c.Y, k, c.Z);
    MulRegroup(k, c.Z, k, c.T);
    var kk, x, y, z := FMul(k, k), FMul(c.X, c.T), FMul(c.Y, c.Z), FMul(c.Z, c.T);
    MulAssoc(kk, x, z);
    MulAssoc(kk, y, z);
    MulAssoc(kk, z, x);
    MulAssoc(kk, z, y);
    MulComm(z, x);
    MulComm(z, y);
    MulComm(x, FMul(kk, z));
    MulComm(y, FMul(kk, z));
  }

  // -------------------------------------------------------- doubling

  /** On the curve, adding a point to itself gives exactly twice what doubling gives, in all
      four completed coordinates. */
  lemma AddSelfIsTwiceDouble(p: Ext)
    requires ResiduesE(p) && OnCurve(p)
    ensures AddCached(p, Cache(p)) == Times(2, Double(Drop(p)))
  {
    hide FMul, Rep, AddCached, Double, OnCurve;
    assert Open(0);
    var X, Y, Z, T := p.X, p.Y, p.Z, p.T;
    AdditionRep(p, p);
    DoubleRep(Drop(p));
    var c := Double(Drop(p));
    RepTwo();
    RepMul(2, 2, c.X, 2 * (X * Y));
    RepMul(2, 2, c.Y, Y * Y + X * X);
    RepMul(2, 2, c.Z, Y * Y - X * X);
    RepMul(2, 2, c.T, 2 * (Z * Z) - (Y * Y - X * X));
    OnCurveRep(p, X, Y, Z, T) by { RepSelf(X); RepSelf(Y); RepSelf(Z); RepSelf(T); }
    var g, w := Y * Y - X * X, D * (T * T) + Z * Z;
    CongScale(g, w, 2, P);
    CongSub(4 * (Z * Z), 4 * (Z * Z), 2 * g, 2 * w, P);
    assert 2 * (X * Y + X * Y) == 2 * (2 * (X * Y));
    RepEqual(AddCached(p, Cache(p)).X, 2 * (X * Y + X * Y), FMul(2, c.X), 2 * (2 * (X * Y)));
    RepEqual(AddCached(p, Cache(p)).Y, 2 * (Y * Y + X * X), FMul(2, c.Y), 2 * (Y * Y + X * X));
    RepEqual(AddCached(p, Cache(p)).Z, 2 * (Z * Z + D * (T * T)), FMul(2, c.Z), 2 * g);
    RepEqual(AddCached(p, Cache(p)).T, 2 * (Z * Z - D * (T * T)), FMul(2, c.T), 2 * (2 * (Z * Z) - g));
  }

  lemma RepTwo()
    ensures Rep(2, 2)
  {
    assert Open(0);
    SmallMod(2, P);
  }

  // ----------------------------------------------- subtraction, negation

  ghost function NegateCached(c: Cached): Cached { Cached(c.YminusX, c.YplusX, c.Z, FNeg(c.T2d)) }

  ghost function NegateAffine(c: AffCached): AffCached { AffCached(c.YminusX, c.YplusX, FNeg(c.T2d)) }

  lemma CacheOfNegate(q: Ext)
    ensures Cache(Negate(q)) == NegateCached(Cache(q))
  {
    hide FMul, FAdd, FSub, FNeg;
    SubIsAddNeg(q.Y, q.X);
    MulNeg(q.T, D2);
  }

  lemma ScaledNegate(c: Cached, s: int)
    ensures Scaled(NegateCached(c), s) == NegateAffine(Scaled(c, s))
  {
    hide FMul, FNeg;
    MulNeg(c.T2d, s);
  }

  /** Sub(p, q) is Add(p, -q), coordinate for coordinate. */
  lemma SubIsAddOfNegate(p: Ext, q: Ext)
    ensures SubCached(p, Cache(q)) == AddCached(p, Cache(Negate(q)))
  {
    CacheOfNegate(q);
    SubCachedIsAdd(p, Cache(q));
  }

  lemma SubCachedIsAdd(p: Ext, c: Cached)
    ensures SubCached(p, c) == AddCached(p, NegateCached(c))
  {
    hide FMul, FAdd, FSub, FNeg;
    MulNeg(p.T, c.T2d);
    var zz := FMul(p.Z, c.Z);
    SubIsAddNeg(FAdd(zz, zz), FMul(p.T, c.T2d));
  }

  lemma SubAffineIsAdd(p: Ext, c: AffCached)
    ensures SubAffine(p, c) == AddAffine(p, NegateAffine(c))
  {
    hide FMul, FAdd, FSub, FNeg;
    MulNeg(p.T, c.T2d);
    SubIsAddNeg(FAdd(p.Z, p.Z), FMul(p.T, c.T2d));
  }

  /** A point plus its negation is the identity. */
  lemma SumWithNegate(p: Ext)
    requires ResiduesE(p) && OnCurve(p)
    ensures Same(SumOf(p, Negate(p)), IDENTITY)
  {
    hide OnCurve, AddCached, ToExt, Cache, Rep;
    var X, Y, Z, T := p.X, p.Y, p.Z, p.T;
    var n := Negate(p);
    NegateOnCurve(p);
    OnCurveRep(p, X, Y, Z, T) by { RepSelf(X); RepSelf(Y); RepSelf(Z); RepSelf(T); }
    AdditionWithNegate(p, n);
    var c := AddCached(p, Cache(n));
    RepToExt(c, 0, 2 * (Y * Y - X * X), 2 * (Z * Z - D * (T * T)), 2 * (Z * Z + D * (T * T)));
    var r := ToExt(c);
    var g, f := 2 * (Z * Z - D * (T * T)), 2 * (Z * Z + D * (T * T));
    assert Cong(2 * (Y * Y - X * X) * g, g * f, P) by {
      assert Open(0);
      CongScale(Y * Y - X * X, D * (T * T) + Z * Z, 2, P);
      CongScale(2 * (Y * Y - X * X), f, g, P);
      assert f * g == g * f;
    }
    ToExtResidues(c);
    assert r.X == 0 by { ZeroRep(r.X, f); }
    assert r.Y == r.Z by { RepEqual(r.Y, 2 * (Y * Y - X * X) * g, r.Z, g * f); }
    MulOne(r.X);
    MulOne(r.Y);
    TimesZero(r.Z);
    MulComm(0, r.Z);
    MulComm(1, r.Z);
    MulOne(r.Z);
  }

  lemma ZeroRep(x: int, f: int)
    requires Rep(x, 0 * f)
    ensures x == 0
  {
    assert Open(0);
  }

  lemma AdditionWithNegate(p: Ext, n: Ext)
    requires ResiduesE(p) && n == Negate(p) && ResiduesE(n)
    ensures RepC(AddCached(p, Cache(n)), 0, 2 * (p.Y * p.Y - p.X * p.X),
      2 * (p.Z * p.Z - D * (p.T * p.T)), 2 * (p.Z * p.Z + D * (p.T * p.T)))
  {
    hide AddCached, Cache;
    assert Open(0);
    AdditionRep(p, n);
    var c := AddCached(p, Cache(n));
    var X, Y, Z, T := p.X, p.Y, p.Z, p.T;
    assert Cong(n.X, -X, P) && Cong(n.T, -T, P) by { CongSelf(-X, P); CongSelf(-T, P); }
    hide FNeg;
    CongScale(n.X, -X, Y, P);
    CongScale(n.X, -X, X, P);
    CongScale(n.T, -T, T, P);
    assert -X * Y == -(X * Y) && -X * X == -(X * X) && X * -X == -(X * X) && T * -T == -(T * T) by { NegTimes(X, Y); NegTimes(X, X); NegTimes(T, T); }
    RepShift(c.X, 2 * (X * n.Y + n.X * Y), 0, X * Y, n.X * Y, -(X * Y), 2);
    RepShift(c.Y, 2 * (Y * n.Y + X * n.X), 2 * (Y * Y - X * X), Y * Y, X * n.X, -(X * X), 2);
    CongScale(T * n.T, -(T * T), D, P);
    assert D * -(T * T) == -(D * (T * T));
    RepShift(c.Z, 2 * (Z * n.Z + D * (T * n.T)), 2 * (Z * Z - D * (T * T)), Z * Z, D * (T * n.T), -(D * (T * T)), 2);
    CongScale(D * (T * n.T), -(D * (T * T)), -1, P);
    RepShift(c.T, 2 * (Z * n.Z - D * (T * n.T)), 2 * (Z * Z + D * (T * T)), Z * Z, -(D * (T * n.T)), D * (T * T), 2);
  }

  lemma RepShift(x: int, n: int, m: int, a: int, b: int, b': int, k: int)
    requires Rep(x, n) && n == k * (a + b) && m == k * (a + b') && Cong(b, b', P)
    ensures Rep(x, m)
  {
    assert Open(0);
    CongAdd(a, a, b, b', P);
    CongScale(a + b, a + b', k, P);
  }

  // ------------------------------------------------ affine (re)addition

  /** With s the inverse of q's Z, adding q is q's Z times adding q in affine form. */
  lemma AddIsScaledAddAffine(p: Ext, q: Ext, s: int)
    requires ResiduesE(p) && ResiduesE(q) && Residue(s) && FMul(q.Z, s) == 1
    ensures AddCached(p, Cache(q)) == Times(q.Z, AddAffine(p, Scaled(Cache(q), s)))
  {
    hide FMul, FAdd, FSub;
    var c, Z := Cache(q), q.Z;
    var yp, ym := FAdd(p.Y, p.X), FSub(p.Y, p.X);
    Unscale(yp, c.YplusX, s, Z) by { ClosedSum(q.Y, q.X); }
    Unscale(ym, c.YminusX, s, Z) by { ClosedSum(q.Y, q.X); }
    Unscale(p.T, c.T2d, s, Z) by { Closed(q.T, D2); }
    var a, b, t, z2 := FMul(yp, FMul(c.YplusX, s)), FMul(ym, FMul(c.YminusX, s)), FMul(p.T, FMul(c.T2d, s)), FAdd(p.Z, p.Z);
    MulAdd(Z, a, b);
    MulAdd(Z, p.Z, p.Z);
    MulAdd(Z, z2, t);
    MulComm(Z, p.Z);
  }

  lemma ClosedSum(x: int, y: int)
    ensures Residue(FAdd(x, y)) && Residue(FSub(x, y))
  {
  }

  lemma Unscale(a: int, c: int, s: int, Z: int)
    requires FMul(Z, s) == 1 && Residue(c)
    ensures FMul(Z, FMul(a, FMul(c, s))) == FMul(a, c)
  {
    hide FMul;
    MulAssoc(a, c, s);
    MulAssoc(Z, FMul(a, c), s);
    MulComm(Z, FMul(a, c));
    MulAssoc(FMul(a, c), Z, s);
    Closed(a, c) ;
    MulOne(FMul(a, c));
  }

  // ---------------------------------------------------------- completeness

  /** d is sqrt(-1) times the square of this number. */
  const TWIST: int := 0x60387df186b22085ff955fa43624cda972e90eb0abcb57d177a4e6db9eb46b

  lemma TwistOfD()
    ensures FMul(SQRT_M1, FMul(TWIST, TWIST)) == D
  {
    hide FMul;
    var square := 0x7db511f84cd3e54b0b3a3166443483cbb67ff7b680433e618e3be4ba61bae110;
    MulIs(TWIST, TWIST);
    CongWitness(TWIST * TWIST, square, 0x4854d5d8f94c8f7720a5cdeb3a429891878de126af42a7289d8c0180032d, P);
    SmallMod(square, P);
    MulIs(SQRT_M1, square);
    CongWitness(SQRT_M1 * square, D, 0x2abb9f32be61c4f51228a41b09e9666d1f496d6d3fa5247a0a61da9fbeb39e31, P);
    SmallMod(D, P);
  }

  /** The curve constant is not a square, because sqrt(-1) is none. This is what makes the addition
      law complete. */
  lemma NonSquareD(s: int)
    requires Prime(P) && Residue(s)
    ensures FMul(s, s) != D
  {
    hide FMul;
    TwistOfD();
    var square := FMul(TWIST, TWIST);
    TimesZero(SQRT_M1);
    if square == 0 { MulComm(SQRT_M1, 0); }
    Closed(s, s);
    Closed(TWIST, TWIST);
    MulOne(FMul(s, s));
    MulOne(square);
    RatioOfRoots(1, s, TWIST);
  }

  /** If d m^2 = n^2 with m nonzero then n/m is a square root of d. */
  lemma RatioSquare(m: int, n: int) returns (s: int)
    requires Prime(P) && Residue(m) && Residue(n) && m != 0 && FMul(D, FMul(m, m)) == FMul(n, n)
    ensures Residue(s) && FMul(s, s) == D
  {
    hide FMul, FPow;
    var t := FPow(m, P - 2);
    InvertCorrect(m);
    FPowRange(m, P - 2);
    s := FMul(n, t);
    Closed(n, t);
    MulRegroup(n, t, n, t);
    MulAssoc(D, FMul(m, m), FMul(t, t));
    MulRegroup(m, m, t, t);
    MulOne(1);
    MulOne(D);
  }

  lemma NoRatio(m: int, n: int)
    requires Prime(P) && Residue(m) && Residue(n) && FMul(D, FMul(m, m)) == FMul(n, n)
    ensures m == 0
  {
    hide FMul;
    if m != 0 {
      var s := RatioSquare(m, n);
      NonSquareD(s);
      assert false;
    }
  }

  /** j is a square root of -1, e is a sign, and d T1 T2 = e Z1 Z2. */
  ghost predicate Pole(j: int, e: int, T1: int, Z1: int, T2: int, Z2: int)
  {
    assert PoleIs(true, j, e, T1, Z1, T2, Z2) || PoleIs(false, j, e, T1, Z1, T2, Z2);
    var b: bool :| PoleIs(b, j, e, T1, Z1, T2, Z2);
    b
  }

  ghost predicate PoleIs(b: bool, j: int, e: int, T1: int, Z1: int, T2: int, Z2: int)
  {
    forall k: int {:trigger Open(k)} :: Open(k) ==>
      (b <==> Cong(j * j, -1, P) && e * e == 1 && Cong(D * (T1 * T2), e * (Z1 * Z2), P))
  }

  lemma PoleMeans(j: int, e: int, T1: int, Z1: int, T2: int, Z2: int)
    ensures Pole(j, e, T1, Z1, T2, Z2) <==> Cong(j * j, -1, P) && e * e == 1 && Cong(D * (T1 * T2), e * (Z1 * Z2), P)
  {
    hide Cong;
    assert Open(0);
  }

  /** The identity d (T1 (jX2+Y2))^2 = (Z2 (jX1+eY1))^2 with j^2 = -1, e^2 = 1, from the curve
      equations and d T1 T2 = e Z1 Z2. */
  lemma CompletenessIdentity(j: int, e: int, p: Ext, q: Ext)
    requires OnCurveZ(D, p.X, p.Y, p.Z, p.T) && OnCurveZ(D, q.X, q.Y, q.Z, q.T)
    requires Pole(j, e, p.T, p.Z, q.T, q.Z)
    ensures Cong(D * ((p.T * (j * q.X + q.Y)) * (p.T * (j * q.X + q.Y))),
      (q.Z * (j * p.X + e * p.Y)) * (q.Z * (j * p.X + e * p.Y)), P)
  {
    hide Cong, OnCurveZ, Pole;
    var T1, Z1, T2, Z2 := p.T, p.Z, q.T, q.Z;
    PoleMeans(j, e, T1, Z1, T2, Z2);
    SquareOfProduct(T1, j * q.X + q.Y);
    SquareOfProduct(Z2, j * p.X + e * p.Y);
    var m, n := D * (T2 * T2) + Z2 * Z2 + 2 * (j * (T2 * Z2)), D * (T1 * T1) + Z1 * Z1 + 2 * (j * e * (T1 * Z1));
    SquareOfSum(j, 1, q.X, q.Y, Z2, T2);
    SquareOfSum(j, e, p.X, p.Y, Z1, T1);
    CongScale((j * q.X + 1 * q.Y) * (j * q.X + 1 * q.Y), m, T1 * T1, P);
    CongScale((T1 * T1) * ((j * q.X + q.Y) * (j * q.X + q.Y)), (T1 * T1) * m, D, P);
    CongScale((j * p.X + e * p.Y) * (j * p.X + e * p.Y), n, Z2 * Z2, P);
    Balance(j, e, T1, Z1, T2, Z2);
    CongThree(D * ((T1 * T1) * ((j * q.X + q.Y) * (j * q.X + q.Y))), D * ((T1 * T1) * m), (Z2 * Z2) * n,
      (Z2 * Z2) * ((j * p.X + e * p.Y) * (j * p.X + e * p.Y)));
  }

  lemma CongThree(a: int, b: int, c: int, d: int)
    requires Cong(a, b, P) && Cong(b, c, P) && Cong(d, c, P)
    ensures Cong(a, d, P)
  {
  }

  lemma SquareOfSum(j: int, e: int, X: int, Y: int, Z: int, T: int)
    requires OnCurveZ(D, X, Y, Z, T) && Cong(j * j, -1, P) && e * e == 1
    ensures Cong((j * X + e * Y) * (j * X + e * Y), D * (T * T) + Z * Z + 2 * (j * e * (T * Z)), P)
  {
    assert Open(0);
    assert Cong(Y * Y - X * X, D * (T * T) + Z * Z, P) && Cong(X * Y, T * Z, P);
    hide Cong, OnCurveZ;
    Binomials(j * X, e * Y);
    SquareOfProduct(j, X);
    SquareOfProduct(e, Y);
    Regroup(j, X, e, Y);
    CongScale(j * j, -1, X * X, P);
    assert -1 * (X * X) == -(X * X);
    CongScale(X * Y, T * Z, 2 * (j * e), P);
    assert 2 * (j * e) * (X * Y) == 2 * ((j * e) * (X * Y)) && 2 * (j * e) * (T * Z) == 2 * (j * e * (T * Z));
    SelfCong(Y * Y);
    CongAdd((j * j) * (X * X), -(X * X), Y * Y, Y * Y, P);
    CongTwo((j * j) * (X * X) + Y * Y, -(X * X) + Y * Y, D * (T * T) + Z * Z);
    CongAdd((j * j) * (X * X) + Y * Y, D * (T * T) + Z * Z, 2 * ((j * e) * (X * Y)), 2 * (j * e * (T * Z)), P);
  }

  lemma CongTwo(a: int, b: int, c: int)
    requires Cong(a, b, P) && Cong(b, c, P)
    ensures Cong(a, c, P)
  {
  }

  lemma Squares(D: int, e: int, T1: int, Z1: int, T2: int, Z2: int)
    requires e * e == 1
    ensures (D * (T1 * T2)) * (D * (T1 * T2)) == (D * (T1 * T1)) * (D * (T2 * T2))
    ensures (e * (Z1 * Z2)) * (e * (Z1 * Z2)) == (Z1 * Z1) * (Z2 * Z2)
  {
    SquareOfProduct(D, T1 * T2);
    SquareOfProduct(T1, T2);
    Regroup(D, T1 * T1, D, T2 * T2);
    SquareOfProduct(e, Z1 * Z2);
    SquareOfProduct(Z1, Z2);
  }

  /** With u^2 = v^2 and u = v modulo p, the two spread-out sums agree. */
  lemma BalanceSum(u: int, v: int, w: int, s: int)
    requires Cong(u, v, P)
    ensures Cong(u * u + s + w * u, v * v + s + w * v, P)
  {
    CongMul(u, v, u, v, P);
    SelfCong(s);
    CongScale(u, v, w, P);
    CongAdd(u * u, v * v, s, s, P);
    CongAdd(u * u + s, v * v + s, w * u, w * v, P);
  }

  /** d T1^2 m - Z2^2 n = (dT1T2)^2 - (Z1Z2)^2 + 2jT1Z2 (dT1T2 - eZ1Z2). */
  lemma Balance(j: int, e: int, T1: int, Z1: int, T2: int, Z2: int)
    requires Pole(j, e, T1, Z1, T2, Z2)
    ensures Cong(D * ((T1 * T1) * (D * (T2 * T2) + Z2 * Z2 + 2 * (j * (T2 * Z2)))),
      (Z2 * Z2) * (D * (T1 * T1) + Z1 * Z1 + 2 * (j * e * (T1 * Z1))), P)
  {
    hide Cong, Pole;
    PoleMeans(j, e, T1, Z1, T2, Z2);
    BalanceSum(D * (T1 * T2), e * (Z1 * Z2), 2 * (j * (T1 * Z2)), (D * (T1 * T1)) * (Z2 * Z2));
    BalanceLeft(D, j, T1, T2, Z2);
    BalanceRight(D, j, e, T1, Z1, Z2);
  }

  lemma BalanceLeft(d: int, j: int, T1: int, T2: int, Z2: int)
    ensures d * ((T1 * T1) * (d * (T2 * T2) + Z2 * Z2 + 2 * (j * (T2 * Z2))))
      == (d * (T1 * T2)) * (d * (T1 * T2)) + (d * (T1 * T1)) * (Z2 * Z2) + 2 * (j * (T1 * Z2)) * (d * (T1 * T2))
  {
    Squares(d, 1, T1, 0, T2, 0);
    LeftProduct(j, d, T1, T2, Z2);
    SpreadThree(d, T1 * T1, d * (T2 * T2), Z2 * Z2, 2 * (j * (T2 * Z2)));
  }

  lemma BalanceRight(d: int, j: int, e: int, T1: int, Z1: int, Z2: int)
    requires e * e == 1
    ensures (Z2 * Z2) * (d * (T1 * T1) + Z1 * Z1 + 2 * (j * e * (T1 * Z1)))
      == (e * (Z1 * Z2)) * (e * (Z1 * Z2)) + (d * (T1 * T1)) * (Z2 * Z2) + 2 * (j * (T1 * Z2)) * (e * (Z1 * Z2))
  {
    Squares(0, e, 0, Z1, 0, Z2);
    RightProduct(j, e, T1, Z1, Z2);
    var a, b, c, z := d * (T1 * T1), Z1 * Z1, 2 * (j * e * (T1 * Z1)), Z2 * Z2;
    assert z * (a + b + c) == a * z + b * z + z * c;
  }

  lemma SpreadThree(d: int, t: int, a: int, b: int, c: int)
    ensures d * (t * (a + b + c)) == (d * t) * a + (d * t) * b + d * (t * c)
  {
    assert t * (a + b + c) == t * a + t * b + t * c;
    assert d * (t * a) == (d * t) * a && d * (t * b) == (d * t) * b;
  }

  lemma LeftProduct(j: int, d: int, T1: int, T2: int, Z2: int)
    ensures 2 * (j * (T1 * Z2)) * (d * (T1 * T2)) == d * ((T1 * T1) * (2 * (j * (T2 * Z2))))
  {
    Regroup(T1, Z2, T1, T2);
    assert Z2 * T2 == T2 * Z2;
    var a, b := T1 * Z2, T1 * T2;
    assert (j * a) * (d * b) == d * (j * (a * b)) by { Regroup(j, a, d, b); assert (j * d) * (a * b) == d * (j * (a * b)); }
    var x, y := T1 * T1, T2 * Z2;
    assert x * (2 * (j * y)) == 2 * (j * (x * y)) by { assert x * (j * y) == j * (x * y); }
  }

  lemma RightProduct(j: int, e: int, T1: int, Z1: int, Z2: int)
    ensures 2 * (j * (T1 * Z2)) * (e * (Z1 * Z2)) == (Z2 * Z2) * (2 * (j * e * (T1 * Z1)))
  {
    var a, b := T1 * Z2, Z1 * Z2;
    Regroup(j, a, e, b);
    Regroup(T1, Z2, Z1, Z2);
    var x, y := T1 * Z1, Z2 * Z2;
    assert (j * e) * (x * y) == y * ((j * e) * x);
    assert y * (2 * (j * e * x)) == 2 * (y * ((j * e) * x));
  }

  /** The factor T1 (jX2 + Y2) vanishes. */
  lemma FactorVanishes(j: int, e: int, p: Ext, q: Ext)
    requires Prime(P) && ResiduesE(p) && ResiduesE(q) && OnCurve(p) && OnCurve(q)
    requires Pole(j, e, p.T, p.Z, q.T, q.Z)
    ensures Cong(p.T * (j * q.X + q.Y), 0, P)
  {
    hide OnCurve, OnCurveZ, Rep, FMul, Pole;
    CurveIntegers(p);
    CurveIntegers(q);
    CompletenessIdentity(j, e, p, q);
    var M, N := p.T * (j * q.X + q.Y), q.Z * (j * p.X + e * p.Y);
    RatioOfIntegers(M, N);
    NoRatio(M % P, N % P);
    ZeroIffDivides(M, P);
  }

  lemma CurveIntegers(p: Ext)
    requires ResiduesE(p)
    ensures OnCurve(p) <==> OnCurveZ(D, p.X, p.Y, p.Z, p.T)
  {
    OnCurveRep(p, p.X, p.Y, p.Z, p.T) by { RepSelf(p.X); RepSelf(p.Y); RepSelf(p.Z); RepSelf(p.T); }
  }

  lemma RatioOfIntegers(M: int, N: int)
    requires Cong(D * (M * M), N * N, P)
    ensures Residue(M % P) && Residue(N % P)
    ensures FMul(D, FMul(M % P, M % P)) == FMul(N % P, N % P)
  {
    hide FMul;
    assert Open(0);
    var m, n := M % P, N % P;
    assert Rep(m, M) && Rep(n, N);
    hide Rep;
    RepConst();
    RepMul(m, M, m, M);
    RepMul(n, N, n, N);
    RepMul(D, D, FMul(m, m), M * M);
    RepEqual(FMul(D, FMul(m, m)), D * (M * M), FMul(n, n), N * N);
  }

  lemma ZeroFactor(a: int, b: int)
    requires Prime(P) && Cong(a * b, 0, P) && !Cong(a, 0, P)
    ensures Cong(b, 0, P)
  {
    Euclid(a, b, P);
  }

  lemma ZeroProduct(a: int, b: int)
    requires Cong(b, 0, P)
    ensures Cong(a * b, 0, P)
  {
    CongScale(b, 0, a, P);
  }

  lemma ResidueZero(x: int)
    requires Residue(x)
    ensures Cong(x, 0, P) <==> x == 0
  {
  }

  lemma SignZero(e: int, x: int)
    requires e * e == 1
    ensures Cong(e * x, 0, P) ==> Cong(x, 0, P)
  {
    if Cong(e * x, 0, P) {
      CongScale(e * x, 0, e, P);
      assert e * (e * x) == (e * e) * x;
    }
  }

  lemma SquareOfMinus(j: int)
    requires Cong(j * j, -1, P)
    ensures Cong((-j) * (-j), -1, P)
  {
    assert (-j) * (-j) == j * j;
  }

  lemma RootOfMinusOne()
    ensures Cong(SQRT_M1 * SQRT_M1, -1, P) && !Cong(SQRT_M1, 0, P)
  {
    SqrtM1Square();
    SmallMod(SQRT_M1, P);
  }

  /** From j x + y = 0 and -j x + y = 0 with j invertible, both x and y are zero. */
  lemma BothZero(j: int, x: int, y: int)
    requires Prime(P) && !Cong(j, 0, P) && Cong(j * x + y, 0, P) && Cong((-j) * x + y, 0, P)
    ensures Cong(x, 0, P) && Cong(y, 0, P)
  {
    CongAdd(j * x + y, 0, (-j) * x + y, 0, P);
    NegTimes(j, x);
    assert (j * x + y) + ((-j) * x + y) == 2 * y;
    assert !Cong(2, 0, P) by { SmallMod(2, P); }
    ZeroFactor(2, y);
    CongSub(j * x + y, 0, y, 0, P);
    ZeroFactor(j, x);
  }

  /** d T1 T2 = +-Z1 Z2 cannot happen at curve points with nonzero Z. */
  lemma NoPole(e: int, p: Ext, q: Ext)
    requires Prime(P) && ResiduesE(p) && ResiduesE(q) && OnCurve(p) && OnCurve(q)
    requires p.Z != 0 && q.Z != 0 && e * e == 1
    ensures !Cong(D * (p.T * q.T), e * (p.Z * q.Z), P)
  {
    if Cong(D * (p.T * q.T), e * (p.Z * q.Z), P) {
      hide OnCurve, Cong, FMul, Pole;
      RootOfMinusOne();
      SquareOfMinus(SQRT_M1);
      PoleMeans(SQRT_M1, e, p.T, p.Z, q.T, q.Z);
      PoleMeans(-SQRT_M1, e, p.T, p.Z, q.T, q.Z);
      Poleless(SQRT_M1, e, p.Z, q.Z, p.T, q.T);
      FactorVanishes(SQRT_M1, e, p, q);
      FactorVanishes(-SQRT_M1, e, p, q);
      ZeroFactor(p.T, SQRT_M1 * q.X + q.Y);
      ZeroFactor(p.T, (-SQRT_M1) * q.X + q.Y);
      BothZero(SQRT_M1, q.X, q.Y);
      ZeroPointDegenerates(q);
      assert false;
    }
  }

  lemma ZeroPointDegenerates(q: Ext)
    requires Prime(P) && ResiduesE(q) && OnCurve(q) && q.Z != 0 && Cong(q.X, 0, P)
    ensures Cong(q.T, 0, P)
  {
    hide FAdd, FSub;
    assert Open(0);
    ResidueZero(q.X);
    ResidueZero(q.T);
    assert FMul(0, q.Y) == 0;
    hide FMul;
    NoZeroDivisors(q.T, q.Z);
  }

  lemma Poleless(j: int, e: int, Z1: int, Z2: int, T1: int, T2: int)
    requires Prime(P) && Residue(Z1) && Residue(Z2) && Z1 != 0 && Z2 != 0 && Pole(j, e, T1, Z1, T2, Z2)
    ensures !Cong(T1, 0, P) && !Cong(T2, 0, P)
  {
    PoleMeans(j, e, T1, Z1, T2, Z2);
    ResidueZero(Z1);
    ResidueZero(Z2);
    if Cong(T1, 0, P) || Cong(T2, 0, P) {
      if Cong(T1, 0, P) { ZeroProduct(T2, T1); } else { ZeroProduct(T1, T2); }
      assert Cong(T1 * T2, 0, P);
      ZeroProduct(D, T1 * T2);
      SignZero(e, Z1 * Z2);
      Euclid(Z1, Z2, P);
      assert false;
    }
  }

  /** Point.Add never leaves the affine part: the sum of curve points with nonzero Z has
      nonzero Z. The only hypothesis is that p is prime. */
  lemma SumNeverDegenerates(p: Ext, q: Ext)
    requires Prime(P) && ResiduesE(p) && ResiduesE(q) && OnCurve(p) && OnCurve(q)
    requires p.Z != 0 && q.Z != 0
    ensures SumOf(p, q).Z != 0
    ensures AddCached(p, Cache(q)).Z != 0 && AddCached(p, Cache(q)).T != 0
  {
    hide OnCurve, FMul, Cache, AddCached, ToExt;
    var c := AddCached(p, Cache(q));
    AdditionRep(p, q);
    var u, v := p.Z * q.Z, D * (p.T * q.T);
    CompResidues(p, q);
    NoPole(1, p, q);
    NoPole(-1, p, q);
    if c.Z == 0 {
      HalfZero(c.Z, u + v);
      CongSub(u + v, 0, u, u, P);
    }
    if c.T == 0 {
      HalfZero(c.T, u - v);
      CongSub(u, u, u - v, 0, P);
    }
    assert ToExt(c).Z == FMul(c.Z, c.T) by { ToExtZ(c); }
    if FMul(c.Z, c.T) == 0 {
      NoZeroDivisors(c.Z, c.T);
    }
  }

  lemma ToExtZ(c: Comp)
    ensures ToExt(c).Z == FMul(c.Z, c.T)
  {
  }

  lemma CompResidues(p: Ext, q: Ext)
    ensures var c := AddCached(p, Cache(q)); Residue(c.X) && Residue(c.Y) && Residue(c.Z) && Residue(c.T)
  {
  }

  lemma HalfZero(x: int, n: int)
    requires Prime(P) && Rep(x, 2 * n) && x == 0
    ensures Cong(n, 0, P)
  {
    assert Open(0);
    SmallMod(2, P);
    SmallMod(0, P);
    ZeroFactor(2, n);
  }

  // --------------------------------- the four ways to a new valid point

  lemma SumValid(p: Ext, q: Ext)
    requires Prime(P) && Valid(p) && Valid(q)
    ensures Valid(SumOf(p, q))
  {
    hide SumOf;
    SumOnCurve(p, q);
    SumNeverDegenerates(p, q);
  }

  /** Point doubling is addition of the point to itself, as a point. */
  lemma DoubleValid(p: Ext)
    requires Prime(P) && Valid(p)
    ensures Valid(ToExt(Double(Drop(p)))) && Same(SumOf(p, p), ToExt(Double(Drop(p))))
  {
    hide FMul, OnCurve, AddCached, Cache, Times, Double, ToExt, Same;
    var c := Double(Drop(p));
    DoubleOnCurve(p);
    AddSelfIsTwiceDouble(p);
    TimesSame(2, c);
    SumNeverDegenerates(p, p);
    if ToExt(c).Z == 0 {
      TimesZero(FMul(2, 2));
      assert false;
    }
  }

  lemma NegateValid(p: Ext)
    requires Valid(p)
    ensures Valid(Negate(p))
  {
    hide OnCurve;
    NegateOnCurve(p);
  }

  lemma ProjToExtValid(p: Ext)
    requires Prime(P) && Valid(p)
    ensures Valid(ProjToExt(Drop(p))) && Same(ProjToExt(Drop(p)), p)
  {
    hide OnCurve, FMul;
    ProjToExtOnCurve(p);
    if FMul(p.Z, p.Z) == 0 { NoZeroDivisors(p.Z, p.Z); }
    MulAssoc(p.X, p.Z, p.Z);
    MulAssoc(p.Y, p.Z, p.Z);
  }
}
