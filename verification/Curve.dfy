/** The coordinate formulas of edwards25519.go on residues modulo p, and what they keep.

    Extended coordinates (X:Y:Z:T) stand for x = X/Z, y = Y/Z, xy = T/Z; completed ones for
    x = X/Z, y = Y/T; projective ones drop T. The curve is -x^2 + y^2 = 1 + d x^2 y^2. */
module Curve {
  import opened Modular
  import opened Field
  import opened FieldRing

  const D: int := 0x52036cee2b6ffe738cc740797779e89800700a4d4141d8ab75eb4dca135978a3

  const D2: int := 0x2406d9dc56dffce7198e80f2eef3d13000e0149a8283b156ebd69b9426b2f159

  datatype Ext = Ext(X: int, Y: int, Z: int, T: int)
  datatype Comp = Comp(X: int, Y: int, Z: int, T: int)
  datatype Proj = Proj(X: int, Y: int, Z: int)
  datatype Cached = Cached(YplusX: int, YminusX: int, Z: int, T2d: int)
  datatype AffCached = AffCached(YplusX: int, YminusX: int, T2d: int)

  // ------------------------------------------------------ the formulas

  const IDENTITY: Ext := Ext(0, 1, 1, 0)

  ghost function ToProj(c: Comp): Proj { Proj(FMul(c.X, c.T), FMul(c.Y, c.Z), FMul(c.Z, c.T)) }

  ghost function ToExt(c: Comp): Ext { Ext(FMul(c.X, c.T), FMul(c.Y, c.Z), FMul(c.Z, c.T), FMul(c.X, c.Y)) }

  function Drop(p: Ext): Proj { Proj(p.X, p.Y, p.Z) }

  ghost function ProjToExt(p: Proj): Ext { Ext(FMul(p.X, p.Z), FMul(p.Y, p.Z), FMul(p.Z, p.Z), FMul(p.X, p.Y)) }

  ghost function Cache(p: Ext): Cached { Cached(FAdd(p.Y, p.X), FSub(p.Y, p.X), p.Z, FMul(p.T, D2)) }

  ghost function Scaled(c: Cached, s: int): AffCached { AffCached(FMul(c.YplusX, s), FMul(c.YminusX, s), FMul(c.T2d, s)) }

  /** The shared shape of the four (re)addition formulas: A, B, C, D as in the source. */
  ghost function Combine(A: int, B: int, C: int, Z2: int): Comp
  {
    Comp(FSub(A, B), FAdd(A, B), FAdd(Z2, C), FSub(Z2, C))
  }

  ghost function Combine'(A: int, B: int, C: int, Z2: int): Comp
  {
    Comp(FSub(A, B), FAdd(A, B), FSub(Z2, C), FAdd(Z2, C))
  }

  ghost function AddCached(p: Ext, q: Cached): Comp
  {
    var zz := FMul(p.Z, q.Z);
    Combine(FMul(FAdd(p.Y, p.X), q.YplusX), FMul(FSub(p.Y, p.X), q.YminusX), FMul(p.T, q.T2d), FAdd(zz, zz))
  }

  ghost function SubCached(p: Ext, q: Cached): Comp
  {
    var zz := FMul(p.Z, q.Z);
    Combine'(FMul(FAdd(p.Y, p.X), q.YminusX), FMul(FSub(p.Y, p.X), q.YplusX), FMul(p.T, q.T2d), FAdd(zz, zz))
  }

  ghost function AddAffine(p: Ext, q: AffCached): Comp
  {
    Combine(FMul(FAdd(p.Y, p.X), q.YplusX), FMul(FSub(p.Y, p.X), q.YminusX), FMul(p.T, q.T2d), FAdd(p.Z, p.Z))
  }

  ghost function SubAffine(p: Ext, q: AffCached): Comp
  {
    Combine'(FMul(FAdd(p.Y, p.X), q.YminusX), FMul(FSub(p.Y, p.X), q.YplusX), FMul(p.T, q.T2d), FAdd(p.Z, p.Z))
  }

  ghost function Double(p: Proj): Comp
  {
    var xx, yy, zz := FMul(p.X, p.X), FMul(p.Y, p.Y), FMul(p.Z, p.Z);
    var s := FAdd(p.X, p.Y);
    var y, z := FAdd(yy, xx), FSub(yy, xx);
    Comp(FSub(FMul(s, s), y), y, z, FSub(FAdd(zz, zz), z))
  }

  ghost function Negate(p: Ext): Ext { Ext(FNeg(p.X), p.Y, p.Z, FNeg(p.T)) }

  /** Point.Add. */
  ghost function SumOf(p: Ext, q: Ext): Ext { ToExt(AddCached(p, Cache(q))) }

  // ----------------------------------------------------- curve equations

  predicate ResiduesE(p: Ext) { Residue(p.X) && Residue(p.Y) && Residue(p.Z) && Residue(p.T) }

  /** The two equations isOnCurve tests. */
  ghost predicate OnCurve(p: Ext)
  {
    FSub(FMul(p.Y, p.Y), FMul(p.X, p.X)) == FAdd(FMul(D, FMul(p.T, p.T)), FMul(p.Z, p.Z))
    && FMul(p.X, p.Y) == FMul(p.T, p.Z)
  }

  /** The same over integer representatives. */
  ghost predicate OnCurveZ(d: int, X: int, Y: int, Z: int, T: int)
  {
    assert OnCurveZIs(true, d, X, Y, Z, T) || OnCurveZIs(false, d, X, Y, Z, T);
    var b: bool :| OnCurveZIs(b, d, X, Y, Z, T);
    b
  }

  ghost predicate OnCurveZIs(b: bool, d: int, X: int, Y: int, Z: int, T: int)
  {
    forall k: int {:trigger Open(k)} :: Open(k) ==>
      (b <==> Cong(Y * Y - X * X, d * (T * T) + Z * Z, P) && Cong(X * Y, T * Z, P))
  }

  ghost predicate ProjCurveZ(d: int, X: int, Y: int, Z: int)
  {
    assert ProjCurveZIs(true, d, X, Y, Z) || ProjCurveZIs(false, d, X, Y, Z);
    var b: bool :| ProjCurveZIs(b, d, X, Y, Z);
    b
  }

  ghost predicate ProjCurveZIs(b: bool, d: int, X: int, Y: int, Z: int)
  {
    forall k: int {:trigger Open(k)} :: Open(k) ==>
      (b <==> Cong((Y * Y - X * X) * (Z * Z), (Z * Z) * (Z * Z) + d * ((X * X) * (Y * Y)), P))
  }

  ghost predicate CompCurveZ(d: int, X: int, Y: int, Z: int, T: int)
  {
    assert CompCurveZIs(true, d, X, Y, Z, T) || CompCurveZIs(false, d, X, Y, Z, T);
    var b: bool :| CompCurveZIs(b, d, X, Y, Z, T);
    b
  }

  ghost predicate CompCurveZIs(b: bool, d: int, X: int, Y: int, Z: int, T: int)
  {
    forall k: int {:trigger Open(k)} :: Open(k) ==>
      (b <==> Cong((Y * Y) * (Z * Z) - (X * X) * (T * T), (Z * Z) * (T * T) + d * ((X * X) * (Y * Y)), P))
  }

  ghost predicate RepE(p: Ext, X: int, Y: int, Z: int, T: int)
  {
    Rep(p.X, X) && Rep(p.Y, Y) && Rep(p.Z, Z) && Rep(p.T, T)
  }

  ghost predicate RepC(c: Comp, X: int, Y: int, Z: int, T: int)
  {
    Rep(c.X, X) && Rep(c.Y, Y) && Rep(c.Z, Z) && Rep(c.T, T)
  }

  lemma OnCurveRep(p: Ext, X: int, Y: int, Z: int, T: int)
    requires RepE(p, X, Y, Z, T)
    ensures OnCurve(p) <==> OnCurveZ(D, X, Y, Z, T)
  {
    hide FMul, FAdd, FSub, Rep;
    assert Open(0);
    RepMul(p.Y, Y, p.Y, Y);
    RepMul(p.X, X, p.X, X);
    RepMul(p.Z, Z, p.Z, Z);
    RepMul(p.T, T, p.T, T);
    RepMul(p.X, X, p.Y, Y);
    RepMul(p.T, T, p.Z, Z);
    RepConst();
    RepMul(D, D, FMul(p.T, p.T), T * T);
    RepSub(FMul(p.Y, p.Y), Y * Y, FMul(p.X, p.X), X * X);
    RepAdd(FMul(D, FMul(p.T, p.T)), D * (T * T), FMul(p.Z, p.Z), Z * Z);
    RepEqual(FSub(FMul(p.Y, p.Y), FMul(p.X, p.X)), Y * Y - X * X,
      FAdd(FMul(D, FMul(p.T, p.T)), FMul(p.Z, p.Z)), D * (T * T) + Z * Z);
    RepEqual(FMul(p.X, p.Y), X * Y, FMul(p.T, p.Z), T * Z);
  }

  lemma RepConst()
    ensures Rep(D, D) && Rep(D2, 2 * D) && Rep(0, 0) && Rep(1, 1)
  {
    assert Open(0);
    assert 2 * D == D2 + 1 * P;
    AddMultiple(D2, 1, P);
    SmallMod(D2, P);
    SmallMod(D, P);
    SmallMod(0, P);
    SmallMod(1, P);
  }

  // --------------------------- conversions keep the curve (over integers)

  lemma CompToExtKeeps(d: int, X: int, Y: int, Z: int, T: int)
    requires CompCurveZ(d, X, Y, Z, T)
    ensures OnCurveZ(d, X * T, Y * Z, Z * T, X * Y)
  {
    assert Open(0);
    SquareOfProduct(X, T);
    SquareOfProduct(Y, Z);
    SquareOfProduct(Z, T);
    SquareOfProduct(X, Y);
    Regroup(X, T, Y, Z);
    Regroup(X, Y, T, Z);
    assert Z * T == T * Z;
  }

  lemma SquareOfProduct(x: int, y: int)
    ensures (x * y) * (x * y) == (x * x) * (y * y)
  {
    Regroup(x, y, x, y);
  }

  lemma ProjToExtKeeps(d: int, X: int, Y: int, Z: int)
    requires ProjCurveZ(d, X, Y, Z)
    ensures OnCurveZ(d, X * Z, Y * Z, Z * Z, X * Y)
  {
    assert Open(0);
    SquareOfProduct(X, Z);
    SquareOfProduct(Y, Z);
    SquareOfProduct(X, Y);
    Regroup(X, Z, Y, Z);
    assert (Y * Y) * (Z * Z) - (X * X) * (Z * Z) == (Y * Y - X * X) * (Z * Z);
  }

  lemma DropKeeps(d: int, X: int, Y: int, Z: int, T: int)
    requires OnCurveZ(d, X, Y, Z, T)
    ensures ProjCurveZ(d, X, Y, Z)
  {
    assert Open(0);
    CongScale(Y * Y - X * X, d * (T * T) + Z * Z, Z * Z, P);
    CongMul(X * Y, T * Z, X * Y, T * Z, P);
    SquareOfProduct(X, Y);
    SquareOfProduct(T, Z);
    assert (d * (T * T) + Z * Z) * (Z * Z) == d * ((T * T) * (Z * Z)) + (Z * Z) * (Z * Z);
    CongScale((X * X) * (Y * Y), (T * T) * (Z * Z), d, P);
    CongAdd((Z * Z) * (Z * Z), (Z * Z) * (Z * Z), d * ((X * X) * (Y * Y)), d * ((T * T) * (Z * Z)), P);
  }

  // ----------------------------------------- addition keeps the curve

  /** With e = X1Y2+X2Y1, h = Y1Y2+X1X2, g = Z1Z2+dT1T2, f = Z1Z2-dT1T2 the sum of two points
      has completed coordinates (2e, 2h, 2g, 2f). */
  lemma AdditionRep(p: Ext, q: Ext)
    requires ResiduesE(p) && ResiduesE(q)
    ensures RepC(AddCached(p, Cache(q)), 2 * (p.X * q.Y + q.X * p.Y), 2 * (p.Y * q.Y + p.X * q.X),
      2 * (p.Z * q.Z + D * (p.T * q.T)), 2 * (p.Z * q.Z - D * (p.T * q.T)))
  {
    hide FMul, FAdd, FSub, Rep;
    RepSelf(p.X);
    RepSelf(p.Y);
    RepSelf(p.Z);
    RepSelf(p.T);
    RepSelf(q.X);
    RepSelf(q.Y);
    RepSelf(q.Z);
    RepSelf(q.T);
    RepConst();
    var c := Cache(q);
    RepAdd(p.Y, p.Y, p.X, p.X);
    RepSub(p.Y, p.Y, p.X, p.X);
    RepAdd(q.Y, q.Y, q.X, q.X);
    RepSub(q.Y, q.Y, q.X, q.X);
    RepMul(q.T, q.T, D2, 2 * D);
    var A, B := FMul(FAdd(p.Y, p.X), c.YplusX), FMul(FSub(p.Y, p.X), c.YminusX);
    var C, zz := FMul(p.T, c.T2d), FMul(p.Z, q.Z);
    RepMul(FAdd(p.Y, p.X), p.Y + p.X, c.YplusX, q.Y + q.X);
    RepMul(FSub(p.Y, p.X), p.Y - p.X, c.YminusX, q.Y - q.X);
    RepMul(p.T, p.T, c.T2d, q.T * (2 * D));
    RepMul(p.Z, p.Z, q.Z, q.Z);
    RepAdd(zz, p.Z * q.Z, zz, p.Z * q.Z);
    RepSub(A, (p.Y + p.X) * (q.Y + q.X), B, (p.Y - p.X) * (q.Y - q.X));
    RepAdd(A, (p.Y + p.X) * (q.Y + q.X), B, (p.Y - p.X) * (q.Y - q.X));
    RepAdd(FAdd(zz, zz), p.Z * q.Z + p.Z * q.Z, C, p.T * (q.T * (2 * D)));
    RepSub(FAdd(zz, zz), p.Z * q.Z + p.Z * q.Z, C, p.T * (q.T * (2 * D)));
    CrossTerms(p.X, p.Y, q.X, q.Y);
    TimesTwoD(p.T, q.T, D);
  }

  lemma CrossTerms(x1: int, y1: int, x2: int, y2: int)
    ensures (y1 + x1) * (y2 + x2) - (y1 - x1) * (y2 - x2) == 2 * (x1 * y2 + x2 * y1)
    ensures (y1 + x1) * (y2 + x2) + (y1 - x1) * (y2 - x2) == 2 * (y1 * y2 + x1 * x2)
  {
  }

  lemma TimesTwoD(t1: int, t2: int, d: int)
    ensures t1 * (t2 * (2 * d)) == 2 * (d * (t1 * t2))
  {
    assert t1 * (t2 * (2 * d)) == (t1 * t2) * (2 * d);
  }

  /** Polynomial identities behind the addition law, in X_i Y_i = p_i, Y_i^2 - X_i^2 = a_i and
      Y_i^2 + X_i^2 = s_i. */
  lemma SumAndDifference(x1: int, y1: int, x2: int, y2: int)
    ensures var e, h := x1 * y2 + x2 * y1, y1 * y2 + x1 * x2;
      h * h - e * e == (y1 * y1 - x1 * x1) * (y2 * y2 - x2 * x2)
      && e * h == (x1 * y1) * (y2 * y2 + x2 * x2) + (x2 * y2) * (y1 * y1 + x1 * x1)
      && h * h + e * e == (y1 * y1 + x1 * x1) * (y2 * y2 + x2 * x2) + 4 * ((x1 * y1) * (x2 * y2))
  {
    var e, h := x1 * y2 + x2 * y1, y1 * y2 + x1 * x2;
    Binomials(x1 * y2, x2 * y1);
    Binomials(y1 * y2, x1 * x2);
    SquareOfProduct(x1, y2);
    SquareOfProduct(x2, y1);
    SquareOfProduct(y1, y2);
    SquareOfProduct(x1, x2);
    Regroup(x1, y2, x2, y1);
    Regroup(y1, y2, x1, x2);
    Regroup(x1, y1, x2, y2);
    assert (x1 * x2) * (y2 * y1) == (y1 * x1) * (y2 * x2) == (x1 * y1) * (x2 * y2) by {
      Regroup(x1, x2, y1, y2);
    }
    var A1, B1, A2, B2 := x1 * x1, y1 * y1, x2 * x2, y2 * y2;
    assert (B1 - A1) * (B2 - A2) == B1 * B2 - B1 * A2 - A1 * B2 + A1 * A2;
    assert (B1 + A1) * (B2 + A2) == B1 * B2 + B1 * A2 + A1 * B2 + A1 * A2;
    assert e * h == (x1 * y1) * (y2 * y2) + (x1 * y2) * (x1 * x2) + (x2 * y1) * (y1 * y2) + (x2 * y1) * (x1 * x2) by {
      Regroup(x1, y2, y1, y2);
    }
    Regroup(x1, y2, x1, x2);
    Regroup(x2, y1, y1, y2);
    Regroup(x2, y1, x1, x2);
    assert (x2 * y1) * (y1 * y2) == (x2 * y2) * (y1 * y1) by { Regroup(x2, y1, y2, y1); }
    assert (x2 * y1) * (x1 * x2) == (x1 * y1) * (x2 * x2) by { Regroup(y1, x2, x1, x2); }
    assert (x1 * y2) * (x1 * x2) == (x2 * y2) * (x1 * x1) by { Regroup(y2, x1, x2, x1); }
  }

  lemma Binomials(a: int, b: int)
    ensures (a + b) * (a + b) == a * a + 2 * (a * b) + b * b
    ensures (a - b) * (a - b) == a * a - 2 * (a * b) + b * b
  {
  }

  lemma FourVariables(z1: int, y1: int, z2: int, y2: int)
    ensures ((z1 + y1) * (z2 + y2)) * (z1 * z2 + y1 * y2) == (z1 * z2 - y1 * y2) * (z1 * z2 - y1 * y2)
      + (z1 * y1) * ((z2 + y2) * (z2 + y2)) + (z2 * y2) * ((z1 + y1) * (z1 + y1))
  {
    var A, B, C, E := z1 * z2, z1 * y2, y1 * z2, y1 * y2;
    assert A * E == B * C by { Regroup(z1, z2, y1, y2); Regroup(z1, y2, y1, z2); assert z2 * y2 == y2 * z2; }
    assert (z1 + y1) * (z2 + y2) == A + B + C + E;
    assert (z1 * y1) * ((z2 + y2) * (z2 + y2)) == (A + B) * (C + E) by {
      Regroup(z1, y1, z2 + y2, z2 + y2);
      assert z1 * (z2 + y2) == A + B && y1 * (z2 + y2) == C + E;
    }
    assert (z2 * y2) * ((z1 + y1) * (z1 + y1)) == (A + C) * (B + E) by {
      Regroup(z2, y2, z1 + y1, z1 + y1);
      assert z2 * (z1 + y1) == A + C && y2 * (z1 + y1) == B + E;
    }
    FourProducts(A, B, C, E);
  }

  lemma FourProducts(A: int, B: int, C: int, E: int)
    requires A * E == B * C
    ensures (A + B + C + E) * (A + E) == (A - E) * (A - E) + (A + B) * (C + E) + (A + C) * (B + E)
  {
    assert (A + B + C + E) * (A + E) == A * A + B * A + C * A + E * A + A * E + B * E + C * E + E * E;
    assert (A + B) * (C + E) == A * C + A * E + B * C + B * E;
    assert (A + C) * (B + E) == A * B + A * E + C * B + C * E;
    assert (A - E) * (A - E) == A * A - A * E - E * A + E * E;
  }

  /** The quantities the proof of the addition law is organised around. */
  datatype Half = Half(a: int, s: int, p: int, z: int, y: int, w: int)

  function HalfOf(d: int, X: int, Y: int, Z: int, T: int): Half
  {
    Half(Y * Y - X * X, Y * Y + X * X, X * Y, Z * Z, d * (T * T), T * T)
  }

  lemma SumSquared(b: int, a: int)
    ensures (b + a) * (b + a) == (b - a) * (b - a) + 4 * (a * b)
  {
    Binomials(b, a);
  }

  /** What a point on the curve says about its half: a = z + y and p^2 = z w. */
  lemma HalfKnows(d: int, X: int, Y: int, Z: int, T: int)
    requires OnCurveZ(d, X, Y, Z, T)
    ensures var k := HalfOf(d, X, Y, Z, T);
      Cong(k.a, k.z + k.y, P) && Cong(k.p * k.p, k.z * k.w, P) && k.s * k.s == k.a * k.a + 4 * (k.p * k.p)
      && k.y == d * k.w && Cong(k.p, T * Z, P)
  {
    assert Open(0);
    var k := HalfOf(d, X, Y, Z, T);
    assert Cong(k.p * k.p, k.z * k.w, P) by {
      CongMul(X * Y, T * Z, X * Y, T * Z, P);
      SquareOfProduct(T, Z);
      assert (T * T) * (Z * Z) == k.z * k.w;
    }
    assert k.z + k.y == d * (T * T) + Z * Z;
    hide Cong;
    SquareOfProduct(X, Y);
    SumSquared(Y * Y, X * X);
  }

  /** The left side of the completed equation for a sum. */
  lemma LeftSide(H: int, E: int, u: int, v: int, d: int)
    ensures var g, f := u + d * v, u - d * v;
      H * (g * g) - E * (f * f) == (H - E) * (u * u + (d * v) * (d * v)) + (H + E) * (2 * (d * (u * v)))
      && (g * g) * (f * f) == (u * u - (d * v) * (d * v)) * (u * u - (d * v) * (d * v))
  {
    var c := d * v;
    Binomials(u, c);
    assert u * c == d * (u * v);
    var m, n := u * u + c * c, 2 * (u * c);
    assert H * (m + n) - E * (m - n) == (H - E) * m + (H + E) * n;
    SquareOfProduct(u + c, u - c);
    assert (u + c) * (u - c) == u * u - c * c;
  }

  /** (e h)^2 by the halves. */
  lemma RightSide(k1: Half, k2: Half, eh: int)
    requires eh == k1.p * k2.s + k2.p * k1.s
    requires k1.s * k1.s == k1.a * k1.a + 4 * (k1.p * k1.p) && k2.s * k2.s == k2.a * k2.a + 4 * (k2.p * k2.p)
    ensures var q := k1.p * k2.p;
      eh * eh == (k1.p * k1.p) * (k2.a * k2.a) + (k2.p * k2.p) * (k1.a * k1.a) + 8 * (q * q) + 2 * (q * (k1.s * k2.s))
  {
    var P1, P2 := k1.p * k1.p, k2.p * k2.p;
    Binomials(k1.p * k2.s, k2.p * k1.s);
    SquareOfProduct(k1.p, k2.s);
    SquareOfProduct(k2.p, k1.s);
    SquareOfProduct(k1.p, k2.p);
    assert (k1.p * k2.s) * (k2.p * k1.s) == (k1.p * k2.p) * (k1.s * k2.s) by {
      Regroup(k1.p, k2.s, k2.p, k1.s);
      assert k2.s * k1.s == k1.s * k2.s;
    }
    assert P1 * (k2.a * k2.a + 4 * P2) == P1 * (k2.a * k2.a) + 4 * (P1 * P2);
    assert P2 * (k1.a * k1.a + 4 * P1) == P2 * (k1.a * k1.a) + 4 * (P1 * P2);
  }

  /** The two sides agree once a and p are replaced by what the curve says they are. */
  lemma SidesAgree(d: int, k1: Half, k2: Half, m: int, U: int, W: int, S: int)
    requires k1.y == d * k1.w && k2.y == d * k2.w
    requires U == k1.z * k2.z + k1.y * k2.y && W == k1.z * k2.z - k1.y * k2.y
    ensures ((k1.z + k1.y) * (k2.z + k2.y)) * U + (S + 4 * m) * (2 * (d * m))
      == W * W + d * ((k1.z * k1.w) * ((k2.z + k2.y) * (k2.z + k2.y))
        + (k2.z * k2.w) * ((k1.z + k1.y) * (k1.z + k1.y)) + 8 * (m * m) + 2 * (m * S))
  {
    FourVariables(k1.z, k1.y, k2.z, k2.y);
    var A1, A2 := (k1.z + k1.y) * (k1.z + k1.y), (k2.z + k2.y) * (k2.z + k2.y);
    DTimes(d, k1.z, k1.w, A2);
    DTimes(d, k2.z, k2.w, A1);
    var B1, B2 := (k1.z * k1.w) * A2, (k2.z * k2.w) * A1;
    assert d * (B1 + B2 + 8 * (m * m) + 2 * (m * S)) == d * B1 + d * B2 + 8 * (d * (m * m)) + 2 * (d * (m * S));
    assert (S + 4 * m) * (2 * (d * m)) == 8 * (d * (m * m)) + 2 * (d * (m * S));
  }

  lemma DTimes(d: int, z: int, w: int, a: int)
    ensures d * ((z * w) * a) == (z * (d * w)) * a
  {
    assert d * (z * w) == z * (d * w);
    assert d * ((z * w) * a) == (d * (z * w)) * a;
  }

  /** The completed sum lies on the curve, given e, h, g, f in terms of the halves. */
  lemma AdditionLaw(d: int, k1: Half, k2: Half, e: int, h: int, u: int, v: int)
    requires Cong(k1.a, k1.z + k1.y, P) && Cong(k1.p * k1.p, k1.z * k1.w, P) && k1.y == d * k1.w
    requires Cong(k2.a, k2.z + k2.y, P) && Cong(k2.p * k2.p, k2.z * k2.w, P) && k2.y == d * k2.w
    requires k1.s * k1.s == k1.a * k1.a + 4 * (k1.p * k1.p) && k2.s * k2.s == k2.a * k2.a + 4 * (k2.p * k2.p)
    requires Cong(k1.p * k2.p, u * v, P) && u * u == k1.z * k2.z && v * v == k1.w * k2.w
    requires h * h - e * e == k1.a * k2.a && h * h + e * e == k1.s * k2.s + 4 * (k1.p * k2.p)
    requires e * h == k1.p * k2.s + k2.p * k1.s
    ensures CompCurveZ(d, e, h, u + d * v, u - d * v)
  {
    assert Open(0);
    var g, f := u + d * v, u - d * v;
    var q, m, S := k1.p * k2.p, u * v, k1.s * k2.s;
    var a1, a2 := k1.z + k1.y, k2.z + k2.y;
    var U, W := u * u + (d * v) * (d * v), u * u - (d * v) * (d * v);
    SquareOfProduct(d, v);
    Regroup(d, k1.w, d, k2.w);
    LeftSide(h * h, e * e, u, v, d);
    RightSide(k1, k2, e * h);
    SidesAgree(d, k1, k2, m, U, W, S);
    SquareOfProduct(e, h);

    var left := (k1.a * k2.a) * U + (S + 4 * q) * (2 * (d * m));
    var left' := (a1 * a2) * U + (S + 4 * m) * (2 * (d * m));
    assert Cong(left, left', P) by {
      CongMul(k1.a, a1, k2.a, a2, P);
      CongScale(k1.a * k2.a, a1 * a2, U, P);
      CongScale(q, m, 4, P);
      CongAdd(S, S, 4 * q, 4 * m, P);
      CongScale(S + 4 * q, S + 4 * m, 2 * (d * m), P);
      CongAdd((k1.a * k2.a) * U, (a1 * a2) * U, (S + 4 * q) * (2 * (d * m)), (S + 4 * m) * (2 * (d * m)), P);
    }
    HalfProduct(k1, k2);
    HalfProduct(k2, k1);
    RightCong(d, (k1.p * k1.p) * (k2.a * k2.a), (k1.z * k1.w) * (a2 * a2),
      (k2.p * k2.p) * (k1.a * k1.a), (k2.z * k2.w) * (a1 * a1), q, m, S, W);
  }

  lemma HalfProduct(k1: Half, k2: Half)
    requires Cong(k1.p * k1.p, k1.z * k1.w, P) && Cong(k2.a, k2.z + k2.y, P)
    ensures Cong((k1.p * k1.p) * (k2.a * k2.a), (k1.z * k1.w) * ((k2.z + k2.y) * (k2.z + k2.y)), P)
  {
    var a2 := k2.z + k2.y;
    CongMul(k2.a, a2, k2.a, a2, P);
    CongMul(k1.p * k1.p, k1.z * k1.w, k2.a * k2.a, a2 * a2, P);
  }

  lemma RightCong(d: int, b1: int, c1: int, b2: int, c2: int, q: int, m: int, S: int, W: int)
    requires Cong(b1, c1, P) && Cong(b2, c2, P) && Cong(q, m, P)
    ensures Cong(W * W + d * (b1 + b2 + 8 * (q * q) + 2 * (q * S)), W * W + d * (c1 + c2 + 8 * (m * m) + 2 * (m * S)), P)
  {
    CongMul(q, m, q, m, P);
    hide Cong;
    CongAdd(b1, c1, b2, c2, P);
    CongScale(q * q, m * m, 8, P);
    CongAdd(b1 + b2, c1 + c2, 8 * (q * q), 8 * (m * m), P);
    CongScale(q, m, S, P);
    CongScale(q * S, m * S, 2, P);
    var r, r' := b1 + b2 + 8 * (q * q), c1 + c2 + 8 * (m * m);
    CongAdd(r, r', 2 * (q * S), 2 * (m * S), P);
    CongScale(r + 2 * (q * S), r' + 2 * (m * S), d, P);
    CongAdd(W * W, W * W, d * (r + 2 * (q * S)), d * (r' + 2 * (m * S)), P) by { SelfCong(W * W); }
  }

  lemma SelfCong(x: int)
    ensures Cong(x, x, P)
  {
  }

  lemma DoubleCoordinates(d: int, X: int, Y: int, Z: int, T: int)
    requires CompCurveZ(d, X, Y, Z, T)
    ensures CompCurveZ(d, 2 * X, 2 * Y, 2 * Z, 2 * T)
  {
    assert Open(0);
    var a, b, c, e := X * X, Y * Y, Z * Z, T * T;
    CongScale(b * c - a * e, c * e + d * (a * b), 16, P);
    assert (2 * X) * (2 * X) == 4 * a && (2 * Y) * (2 * Y) == 4 * b && (2 * Z) * (2 * Z) == 4 * c && (2 * T) * (2 * T) == 4 * e;
    assert (4 * b) * (4 * c) - (4 * a) * (4 * e) == (b * c - a * e) * 16;
    assert (4 * c) * (4 * e) + d * ((4 * a) * (4 * b)) == (c * e + d * (a * b)) * 16;
  }

  lemma AddKeeps(d: int, X1: int, Y1: int, Z1: int, T1: int, X2: int, Y2: int, Z2: int, T2: int)
    requires OnCurveZ(d, X1, Y1, Z1, T1) && OnCurveZ(d, X2, Y2, Z2, T2)
    ensures CompCurveZ(d, 2 * (X1 * Y2 + X2 * Y1), 2 * (Y1 * Y2 + X1 * X2),
      2 * (Z1 * Z2 + d * (T1 * T2)), 2 * (Z1 * Z2 - d * (T1 * T2)))
  {
    hide OnCurveZ;
    var k1, k2 := HalfOf(d, X1, Y1, Z1, T1), HalfOf(d, X2, Y2, Z2, T2);
    HalfKnows(d, X1, Y1, Z1, T1);
    HalfKnows(d, X2, Y2, Z2, T2);
    SumAndDifference(X1, Y1, X2, Y2);
    var u, v := Z1 * Z2, T1 * T2;
    CongMul(k1.p, T1 * Z1, k2.p, T2 * Z2, P);
    Regroup(T1, Z1, T2, Z2);
    assert v * u == u * v;
    SquareOfProduct(Z1, Z2);
    SquareOfProduct(T1, T2);
    AdditionLaw(d, k1, k2, X1 * Y2 + X2 * Y1, Y1 * Y2 + X1 * X2, u, v);
    DoubleCoordinates(d, X1 * Y2 + X2 * Y1, Y1 * Y2 + X1 * X2, u + d * v, u - d * v);
  }

  // ---------------------------------------- doubling keeps the curve

  lemma DoubleRep(p: Proj)
    requires Residue(p.X) && Residue(p.Y) && Residue(p.Z)
    ensures RepC(Double(p), 2 * (p.X * p.Y), p.Y * p.Y + p.X * p.X, p.Y * p.Y - p.X * p.X,
      2 * (p.Z * p.Z) - (p.Y * p.Y - p.X * p.X))
  {
    hide FMul, FAdd, FSub, Rep;
    RepSelf(p.X);
    RepSelf(p.Y);
    RepSelf(p.Z);
    var xx, yy, zz, s := FMul(p.X, p.X), FMul(p.Y, p.Y), FMul(p.Z, p.Z), FAdd(p.X, p.Y);
    RepMul(p.X, p.X, p.X, p.X);
    RepMul(p.Y, p.Y, p.Y, p.Y);
    RepMul(p.Z, p.Z, p.Z, p.Z);
    RepAdd(p.X, p.X, p.Y, p.Y);
    RepMul(s, p.X + p.Y, s, p.X + p.Y);
    RepAdd(yy, p.Y * p.Y, xx, p.X * p.X);
    RepSub(yy, p.Y * p.Y, xx, p.X * p.X);
    RepAdd(zz, p.Z * p.Z, zz, p.Z * p.Z);
    RepSub(FMul(s, s), (p.X + p.Y) * (p.X + p.Y), FAdd(yy, xx), p.Y * p.Y + p.X * p.X);
    RepSub(FAdd(zz, zz), p.Z * p.Z + p.Z * p.Z, FSub(yy, xx), p.Y * p.Y - p.X * p.X);
    Binomials(p.X, p.Y);
  }

  /** With g = Y^2-X^2, e = 2XY, f = 2Z^2-g: h^2 = g^2 + e^2 and d e^2 = g^2 - f^2. */
  lemma DoubleKeeps(d: int, X: int, Y: int, Z: int)
    requires ProjCurveZ(d, X, Y, Z)
    ensures CompCurveZ(d, 2 * (X * Y), Y * Y + X * X, Y * Y - X * X, 2 * (Z * Z) - (Y * Y - X * X))
  {
    assert Open(0);
    var e, h, g := 2 * (X * Y), Y * Y + X * X, Y * Y - X * X;
    var z := Z * Z;
    var w := (X * X) * (Y * Y);
    assert Cong(g * z, z * z + d * w, P);
    hide Cong;
    SquareOfProduct(X, Y);
    SumSquared(Y * Y, X * X);
    SquaresDiffer(d, g, z, w);
    assert d * (e * e) == d * (4 * w);
    DoubleFrom(d, e, h, g, 2 * z - g);
  }

  /** g^2 - (2z - g)^2 = 4 (g z - z^2), which is 4 d w. */
  lemma SquaresDiffer(d: int, g: int, z: int, w: int)
    requires Cong(g * z, z * z + d * w, P)
    ensures Cong(g * g - (2 * z - g) * (2 * z - g), d * (4 * w), P)
  {
    hide Cong;
    CongSub(g * z, z * z + d * w, z * z, z * z, P) by { SelfCong(z * z); }
    CongScale(g * z - z * z, d * w, 4, P);
    Binomials(2 * z, g);
    assert (2 * z) * (2 * z) == 4 * (z * z) && (2 * z) * g == 2 * (g * z);
    assert d * (4 * w) == (d * w) * 4;
  }

  lemma DoubleFrom(d: int, e: int, h: int, g: int, f: int)
    requires h * h == g * g + e * e && Cong(g * g - f * f, d * (e * e), P)
    ensures CompCurveZ(d, e, h, g, f)
  {
    assert Open(0);
    var E, H, G, F := e * e, h * h, g * g, f * f;
    DoubleSides(d, E, H, G, F);
    CongScale(G - F, d * E, H, P);
    CongAdd(H * (G - F), H * (d * E), G * F, G * F, P);
  }

  lemma DoubleSides(d: int, E: int, H: int, G: int, F: int)
    requires H == G + E
    ensures H * G - E * F == H * (G - F) + G * F
    ensures G * F + d * (E * H) == H * (d * E) + G * F
  {
    assert H * G - E * F == H * (G - F) + (H * F - E * F);
    assert H * F == G * F + E * F;
    assert d * (E * H) == H * (d * E);
  }

  // ------------------------------------------------- on residues

  lemma RepToExt(c: Comp, X: int, Y: int, Z: int, T: int)
    requires RepC(c, X, Y, Z, T)
    ensures RepE(ToExt(c), X * T, Y * Z, Z * T, X * Y)
  {
    hide FMul, Rep;
    RepMul(c.X, X, c.T, T);
    RepMul(c.Y, Y, c.Z, Z);
    RepMul(c.Z, Z, c.T, T);
    RepMul(c.X, X, c.Y, Y);
  }

  lemma ToExtResidues(c: Comp)
    ensures ResiduesE(ToExt(c))
  {
  }

  /** Point.Add stays on the curve. */
  lemma SumOnCurve(p: Ext, q: Ext)
    requires ResiduesE(p) && ResiduesE(q) && OnCurve(p) && OnCurve(q)
    ensures ResiduesE(SumOf(p, q)) && OnCurve(SumOf(p, q))
  {
    hide OnCurve, OnCurveZ, CompCurveZ, AddCached, ToExt, FMul, Cache;
    OnCurveRep(p, p.X, p.Y, p.Z, p.T) by { RepSelf(p.X); RepSelf(p.Y); RepSelf(p.Z); RepSelf(p.T); }
    OnCurveRep(q, q.X, q.Y, q.Z, q.T) by { RepSelf(q.X); RepSelf(q.Y); RepSelf(q.Z); RepSelf(q.T); }
    AdditionRep(p, q);
    var X, Y := 2 * (p.X * q.Y + q.X * p.Y), 2 * (p.Y * q.Y + p.X * q.X);
    var Z, T := 2 * (p.Z * q.Z + D * (p.T * q.T)), 2 * (p.Z * q.Z - D * (p.T * q.T));
    AddKeeps(D, p.X, p.Y, p.Z, p.T, q.X, q.Y, q.Z, q.T);
    CompToExtKeeps(D, X, Y, Z, T);
    var c := AddCached(p, Cache(q));
    RepToExt(c, X, Y, Z, T);
    ToExtResidues(c);
    OnCurveRep(ToExt(c), X * T, Y * Z, Z * T, X * Y);
  }

  /** Doubling by way of projective and completed coordinates stays on the curve. */
  lemma DoubleOnCurve(p: Ext)
    requires ResiduesE(p) && OnCurve(p)
    ensures ResiduesE(ToExt(Double(Drop(p)))) && OnCurve(ToExt(Double(Drop(p))))
  {
    hide OnCurve, OnCurveZ, CompCurveZ, ProjCurveZ, Double, ToExt, FMul;
    OnCurveRep(p, p.X, p.Y, p.Z, p.T) by { RepSelf(p.X); RepSelf(p.Y); RepSelf(p.Z); RepSelf(p.T); }
    DropKeeps(D, p.X, p.Y, p.Z, p.T);
    DoubleRep(Drop(p));
    DoubleKeeps(D, p.X, p.Y, p.Z);
    var X, Y := 2 * (p.X * p.Y), p.Y * p.Y + p.X * p.X;
    var Z := p.Y * p.Y - p.X * p.X;
    var T := 2 * (p.Z * p.Z) - Z;
    CompToExtKeeps(D, X, Y, Z, T);
    var c := Double(Drop(p));
    RepToExt(c, X, Y, Z, T);
    ToExtResidues(c);
    OnCurveRep(ToExt(c), X * T, Y * Z, Z * T, X * Y);
  }

  lemma NegateOnCurve(p: Ext)
    requires ResiduesE(p) && OnCurve(p)
    ensures ResiduesE(Negate(p)) && OnCurve(Negate(p))
  {
    hide FMul, FNeg, FAdd, FSub;
    SquareOfNeg(p.X);
    SquareOfNeg(p.T);
    MulNeg(p.X, p.Y);
    MulNeg(p.T, p.Z);
    NegNeg(p.X);
    NegNeg(p.T);
  }

  lemma ProjToExtOnCurve(p: Ext)
    requires ResiduesE(p) && OnCurve(p)
    ensures ResiduesE(ProjToExt(Drop(p))) && OnCurve(ProjToExt(Drop(p)))
  {
    hide OnCurve, OnCurveZ, ProjCurveZ, FMul, Rep;
    RepSelf(p.X);
    RepSelf(p.Y);
    RepSelf(p.Z);
    RepSelf(p.T);
    OnCurveRep(p, p.X, p.Y, p.Z, p.T);
    DropKeeps(D, p.X, p.Y, p.Z, p.T);
    ProjToExtKeeps(D, p.X, p.Y, p.Z);
    RepMul(p.X, p.X, p.Z, p.Z);
    RepMul(p.Y, p.Y, p.Z, p.Z);
    RepMul(p.Z, p.Z, p.Z, p.Z);
    RepMul(p.X, p.X, p.Y, p.Y);
    Closed(p.X, p.Z);
    Closed(p.Y, p.Z);
    Closed(p.Z, p.Z);
    Closed(p.X, p.Y);
    OnCurveRep(ProjToExt(Drop(p)), p.X * p.Z, p.Y * p.Z, p.Z * p.Z, p.X * p.Y);
  }

  lemma IdentityOnCurve()
    ensures ResiduesE(IDENTITY) && OnCurve(IDENTITY)
  {
    assert Open(0);
  }
}
