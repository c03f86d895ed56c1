/** The point types of edwards25519.go and their operations in place.

    A coordinate is an element with bounded limbs, held by value as in the source. Each
    method assigns coordinates in the order the source does, so receivers and arguments may
    be one object. Its contract gives the new coordinates, as residues, by a formula of
    module Curve over the coordinates on entry. */
module Points {
  import opened Bits
  import opened Modular
  import opened Words
  import opened Field
  import opened FieldElement
  import opened FieldPowers
  import opened FieldRing
  import opened SqrtRatio
  import opened Curve
  import opened CurveLaws
  import opened PointEncoding

  type Elem = a: Fe | Bounded(a) witness ZERO

  // --------------------------------------- element operations by value

  /** What Element.Multiply, Add, Subtract and Negate store, by their contracts. */
  function EMul(a: Elem, b: Elem): (r: Elem)
    ensures R(r) == FMul(R(a), R(b))
  {
    hide R, FMul, Bounded;
    MulCorrect(a, b);
    Mul(a, b)
  }

  function EAdd(a: Elem, b: Elem): (r: Elem)
    ensures R(r) == FAdd(R(a), R(b))
  {
    hide R, FAdd, Bounded;
    AddCorrect(a, b);
    Field.Add(a, b)
  }

  function ESub(a: Elem, b: Elem): (r: Elem)
    ensures R(r) == FSub(R(a), R(b))
  {
    hide R, FSub, Bounded;
    SubCorrect(a, b);
    Field.Sub(a, b)
  }

  function ENeg(a: Elem): (r: Elem)
    ensures R(r) == FNeg(R(a))
  {
    hide R, FNeg, Bounded;
    NegCorrect(a);
    Neg(a)
  }

  const ONE_ELEM: Elem := ONE

  const D_ELEM: Elem := Fe(929955233495203, 466365720129213, 1662059464998953, 2033849074728123, 1442794654840575)

  lemma Constants()
    ensures R(ZERO) == 0 && R(ONE_ELEM) == 1 && R(D_ELEM) == D && R(EAdd(D_ELEM, D_ELEM)) == D2
  {
    assert Open(0);
    ZeroOne();
    assert Val(D_ELEM) == D;
    SmallMod(D, P);
    assert FAdd(D, D) == D2;
  }

  lemma IdentityCached()
    ensures Cache(IDENTITY) == Cached(1, 1, 1, 0) && Scaled(Cache(IDENTITY), 1) == AffCached(1, 1, 0)
  {
    assert Open(0);
    TimesZero(D2);
  }

  method Load(a: Elem) returns (e: Element)
    ensures fresh(e) && e.Limbs() == a
  {
    e := new Element();
    e.l0, e.l1, e.l2, e.l3, e.l4 := a.l0, a.l1, a.l2, a.l3, a.l4;
  }

  method InverseOf(a: Elem) returns (r: Elem)
    ensures R(r) == FPow(R(a), P - 2)
  {
    hide R, FPow;
    var e := Load(a);
    Invert(e, e);
    r := Fe(e.l0, e.l1, e.l2, e.l3, e.l4);
    assert r == e.Limbs();
  }

  method SameElement(a: Elem, b: Elem) returns (r: bit)
    ensures r == 1 <==> R(a) == R(b)
  {
    var e := Load(a);
    var f := Load(b);
    r := e.Equal(f);
  }

  /** Field elements of a decoded y: SqrtRatio on freshly computed arguments. */
  method RootOfRatio(u: Elem, v: Elem) returns (r: Elem, wasSquare: bit)
    ensures (wasSquare, R(r)) == Outcome(R(u), R(v))
  {
    hide R, Outcome;
    var eu := Load(u);
    var ev := Load(v);
    var e := new Element();
    wasSquare := SqrtRatio.SqrtRatio(e, eu, ev);
    r := Fe(e.l0, e.l1, e.l2, e.l3, e.l4);
    assert r == e.Limbs();
  }

  /** isOnCurve: exactly the two curve equations. */
  method IsOnCurve(X: Elem, Y: Elem, Z: Elem, T: Elem) returns (ok: bool)
    ensures ok <==> OnCurve(Ext(R(X), R(Y), R(Z), R(T)))
  {
    hide R, Bounded, EMul, EAdd, ESub, ENeg, FMul, FAdd, FSub;
    Constants();
    var XX, YY, ZZ, TT := EMul(X, X), EMul(Y, Y), EMul(Z, Z), EMul(T, T);
    var lhs := ESub(YY, XX);
    var rhs := EMul(D_ELEM, TT);
    rhs := EAdd(rhs, ZZ);
    var same := SameElement(lhs, rhs);
    if same != 1 {
      return false;
    }
    lhs := EMul(X, Y);
    rhs := EMul(T, Z);
    same := SameElement(lhs, rhs);
    return same == 1;
  }

  // ------------------------------------------------------ cached points

  class ProjCached {
    var YplusX: Elem
    var YminusX: Elem
    var Z: Elem
    var T2d: Elem

    ghost function Co(): Cached
      reads this
    {
      Cached(R(YplusX), R(YminusX), R(Z), R(T2d))
    }

    /** The zero value, all limbs zero, which is no cached point yet. */
    constructor ()
      ensures Co() == Cached(0, 0, 0, 0)
    {
      hide R;
      ZeroOne();
      YplusX, YminusX, Z, T2d := ZERO, ZERO, ZERO, ZERO;
    }

    method Zero()
      modifies this
      ensures Co() == Cache(IDENTITY)
    {
      hide R, EAdd, Cache, Scaled;
      Constants();
      IdentityCached();
      YplusX, YminusX, Z, T2d := ONE_ELEM, ONE_ELEM, ONE_ELEM, ZERO;
    }

    method FromP3(p: Point)
      modifies this
      ensures Co() == Cache(p.Co())
    {
      hide R, Bounded, EMul, EAdd, ESub, ENeg, FMul, FAdd, FSub;
      Constants();
      YplusX := EAdd(p.y, p.x);
      YminusX := ESub(p.y, p.x);
      Z := p.z;
      T2d := EMul(p.t, EAdd(D_ELEM, D_ELEM));
    }

    method Select(a: ProjCached, b: ProjCached, cond: bit)
      modifies this
      ensures Co() == if cond == 1 then old(a.Co()) else old(b.Co())
    {
      YplusX := if cond == 1 then a.YplusX else b.YplusX;
      YminusX := if cond == 1 then a.YminusX else b.YminusX;
      Z := if cond == 1 then a.Z else b.Z;
      T2d := if cond == 1 then a.T2d else b.T2d;
    }

    /** Exchanging Y+X with Y-X and negating T2d is the cached form of the negated point. */
    method CondNeg(cond: bit)
      modifies this
      ensures Co() == if cond == 1 then NegateCached(old(Co())) else old(Co())
    {
      hide R, Bounded, EMul, EAdd, ESub, ENeg, FNeg;
      YplusX, YminusX := if cond == 1 then YminusX else YplusX, if cond == 1 then YplusX else YminusX;
      T2d := if cond == 1 then ENeg(T2d) else T2d;
    }
  }

  class AffineCached {
    var YplusX: Elem
    var YminusX: Elem
    var T2d: Elem

    ghost function Co(): AffCached
      reads this
    {
      AffCached(R(YplusX), R(YminusX), R(T2d))
    }

    constructor ()
      ensures Co() == AffCached(0, 0, 0)
    {
      hide R;
      ZeroOne();
      YplusX, YminusX, T2d := ZERO, ZERO, ZERO;
    }

    method Zero()
      modifies this
      ensures Co() == Scaled(Cache(IDENTITY), 1)
    {
      hide R, EAdd, Cache, Scaled;
      Constants();
      IdentityCached();
      YplusX, YminusX, T2d := ONE_ELEM, ONE_ELEM, ZERO;
    }

    method FromP3(p: Point)
      modifies this
      ensures Co() == Scaled(Cache(p.Co()), FPow(p.Co().Z, P - 2))
    {
      hide R, Bounded, EMul, EAdd, ESub, ENeg, FMul, FAdd, FSub, FPow;
      Constants();
      YplusX := EAdd(p.y, p.x);
      YminusX := ESub(p.y, p.x);
      T2d := EMul(p.t, EAdd(D_ELEM, D_ELEM));
      var invZ := InverseOf(p.z);
      YplusX := EMul(YplusX, invZ);
      YminusX := EMul(YminusX, invZ);
      T2d := EMul(T2d, invZ);
    }

    method Select(a: AffineCached, b: AffineCached, cond: bit)
      modifies this
      ensures Co() == if cond == 1 then old(a.Co()) else old(b.Co())
    {
      YplusX := if cond == 1 then a.YplusX else b.YplusX;
      YminusX := if cond == 1 then a.YminusX else b.YminusX;
      T2d := if cond == 1 then a.T2d else b.T2d;
    }

    method CondNeg(cond: bit)
      modifies this
      ensures Co() == if cond == 1 then NegateAffine(old(Co())) else old(Co())
    {
      hide R, Bounded, EMul, EAdd, ESub, ENeg, FNeg;
      YplusX, YminusX := if cond == 1 then YminusX else YplusX, if cond == 1 then YplusX else YminusX;
      T2d := if cond == 1 then ENeg(T2d) else T2d;
    }
  }

  // ---------------------------------------------- completed, projective

  class P1xP1 {
    var X: Elem
    var Y: Elem
    var Z: Elem
    var T: Elem

    ghost function Co(): Comp
      reads this
    {
      Comp(R(X), R(Y), R(Z), R(T))
    }

    constructor ()
      ensures Co() == Comp(0, 0, 0, 0)
    {
      hide R;
      ZeroOne();
      X, Y, Z, T := ZERO, ZERO, ZERO, ZERO;
    }

    method Add(p: Point, q: ProjCached)
      modifies this
      ensures Co() == AddCached(p.Co(), q.Co())
    {
      hide R, Bounded, EMul, EAdd, ESub, ENeg, FMul, FAdd, FSub;
      var YplusX, YminusX := EAdd(p.y, p.x), ESub(p.y, p.x);
      var PP, MM := EMul(YplusX, q.YplusX), EMul(YminusX, q.YminusX);
      var TT2d, ZZ2 := EMul(p.t, q.T2d), EMul(p.z, q.Z);
      ZZ2 := EAdd(ZZ2, ZZ2);
      X := ESub(PP, MM);
      Y := EAdd(PP, MM);
      Z := EAdd(ZZ2, TT2d);
      T := ESub(ZZ2, TT2d);
    }

    method Sub(p: Point, q: ProjCached)
      modifies this
      ensures Co() == SubCached(p.Co(), q.Co())
    {
      hide R, Bounded, EMul, EAdd, ESub, ENeg, FMul, FAdd, FSub;
      var YplusX, YminusX := EAdd(p.y, p.x), ESub(p.y, p.x);
      var PP, MM := EMul(YplusX, q.YminusX), EMul(YminusX, q.YplusX);
      var TT2d, ZZ2 := EMul(p.t, q.T2d), EMul(p.z, q.Z);
      ZZ2 := EAdd(ZZ2, ZZ2);
      X := ESub(PP, MM);
      Y := EAdd(PP, MM);
      Z := ESub(ZZ2, TT2d);
      T := EAdd(ZZ2, TT2d);
    }

    method AddAffine(p: Point, q: AffineCached)
      modifies this
      ensures Co() == Curve.AddAffine(p.Co(), q.Co())
    {
      hide R, Bounded, EMul, EAdd, ESub, ENeg, FMul, FAdd, FSub;
      var YplusX, YminusX := EAdd(p.y, p.x), ESub(p.y, p.x);
      var PP, MM := EMul(YplusX, q.YplusX), EMul(YminusX, q.YminusX);
      var TT2d, Z2 := EMul(p.t, q.T2d), EAdd(p.z, p.z);
      X := ESub(PP, MM);
      Y := EAdd(PP, MM);
      Z := EAdd(Z2, TT2d);
      T := ESub(Z2, TT2d);
    }

    method SubAffine(p: Point, q: AffineCached)
      modifies this
      ensures Co() == Curve.SubAffine(p.Co(), q.Co())
    {
      hide R, Bounded, EMul, EAdd, ESub, ENeg, FMul, FAdd, FSub;
      var YplusX, YminusX := EAdd(p.y, p.x), ESub(p.y, p.x);
      var PP, MM := EMul(YplusX, q.YminusX), EMul(YminusX, q.YplusX);
      var TT2d, Z2 := EMul(p.t, q.T2d), EAdd(p.z, p.z);
      X := ESub(PP, MM);
      Y := EAdd(PP, MM);
      Z := ESub(Z2, TT2d);
      T := EAdd(Z2, TT2d);
    }

    method Double(p: P2)
      modifies this
      ensures Co() == Curve.Double(p.Co())
    {
      hide R, Bounded, EMul, EAdd, ESub, ENeg, FMul, FAdd, FSub;
      var XX, YY, ZZ2 := EMul(p.X, p.X), EMul(p.Y, p.Y), EMul(p.Z, p.Z);
      ZZ2 := EAdd(ZZ2, ZZ2);
      var XplusYsq := EAdd(p.X, p.Y);
      XplusYsq := EMul(XplusYsq, XplusYsq);
      Y := EAdd(YY, XX);
      Z := ESub(YY, XX);
      X := ESub(XplusYsq, Y);
      T := ESub(ZZ2, Z);
    }
  }

  class P2 {
    var X: Elem
    var Y: Elem
    var Z: Elem

    ghost function Co(): Proj
      reads this
    {
      Proj(R(X), R(Y), R(Z))
    }

    constructor ()
      ensures Co() == Proj(0, 0, 0)
    {
      hide R;
      ZeroOne();
      X, Y, Z := ZERO, ZERO, ZERO;
    }

    method Zero()
      modifies this
      ensures Co() == Drop(IDENTITY)
    {
      hide R, EAdd;
      Constants();
      X, Y, Z := ZERO, ONE_ELEM, ONE_ELEM;
    }

    method FromP1xP1(p: P1xP1)
      modifies this
      ensures Co() == ToProj(p.Co())
    {
      hide R, Bounded, EMul, EAdd, ESub, ENeg, FMul;
      X := EMul(p.X, p.T);
      Y := EMul(p.Y, p.Z);
      Z := EMul(p.Z, p.T);
    }

    method FromP3(p: Point)
      modifies this
      ensures Co() == Drop(p.Co())
    {
      X, Y, Z := p.x, p.y, p.z;
    }
  }

  // ------------------------------------------------------------- points

  class Point {
    var x: Elem
    var y: Elem
    var z: Elem
    var t: Elem

    ghost function Co(): Ext
      reads this
    {
      Ext(R(x), R(y), R(z), R(t))
    }

    /** The zero value: valid only as a receiver. */
    constructor ()
      ensures Co() == Ext(0, 0, 0, 0)
    {
      hide R;
      ZeroOne();
      x, y, z, t := ZERO, ZERO, ZERO, ZERO;
    }

    constructor Identity()
      ensures Co() == IDENTITY
    {
      hide R, EAdd;
      new;
      Constants();
      x, y, z, t := ZERO, ONE_ELEM, ONE_ELEM, ZERO;
    }

    method Set(u: Point)
      modifies this
      ensures Co() == old(u.Co())
    {
      x, y, z, t := u.x, u.y, u.z, u.t;
    }

    method FromP1xP1(p: P1xP1)
      modifies this
      ensures Co() == ToExt(p.Co())
    {
      hide R, Bounded, EMul, EAdd, ESub, ENeg, FMul;
      x := EMul(p.X, p.T);
      y := EMul(p.Y, p.Z);
      z := EMul(p.Z, p.T);
      t := EMul(p.X, p.Y);
    }

    method FromP2(p: P2)
      modifies this
      ensures Co() == ProjToExt(p.Co())
    {
      hide R, Bounded, EMul, EAdd, ESub, ENeg, FMul;
      x := EMul(p.X, p.Z);
      y := EMul(p.Y, p.Z);
      z := EMul(p.Z, p.Z);
      t := EMul(p.X, p.Y);
    }

    method Add(p: Point, q: Point)
      modifies this
      ensures Co() == SumOf(old(p.Co()), old(q.Co()))
    {
      hide R, Bounded, EMul, EAdd, ESub, ENeg, AddCached, Cache, ToExt;
      var qCached := new ProjCached();
      qCached.FromP3(q);
      var result := new P1xP1();
      result.Add(p, qCached);
      FromP1xP1(result);
    }

    /** Subtracting is adding the negated point, coordinate for coordinate. */
    method Subtract(p: Point, q: Point)
      modifies this
      ensures Co() == SumOf(old(p.Co()), Curve.Negate(old(q.Co())))
    {
      hide R, Bounded, EMul, EAdd, ESub, ENeg, AddCached, SubCached, Cache, ToExt, Curve.Negate;
      SubIsAddOfNegate(p.Co(), q.Co());
      var qCached := new ProjCached();
      qCached.FromP3(q);
      var result := new P1xP1();
      result.Sub(p, qCached);
      FromP1xP1(result);
    }

    method Negate(p: Point)
      modifies this
      ensures Co() == Curve.Negate(old(p.Co()))
    {
      hide R, Bounded, EMul, EAdd, ESub, ENeg, FNeg;
      x := ENeg(p.x);
      y := p.y;
      z := p.z;
      t := ENeg(p.t);
    }

    method Equal(u: Point) returns (r: bit)
      ensures r == 1 <==> Same(Co(), u.Co())
    {
      hide R, Bounded, EMul, EAdd, ESub, ENeg, FMul;
      var t1, t2, t3, t4 := EMul(x, u.z), EMul(u.x, z), EMul(y, u.z), EMul(u.y, z);
      var a := SameElement(t1, t2);
      var b := SameElement(t3, t4);
      r := if a == 1 && b == 1 then 1 else 0;
    }

    /** Three doublings through projective coordinates. */
    method MultByCofactor(p: Point)
      modifies this
      ensures Co() == ToExt(Curve.Double(ToProj(Curve.Double(ToProj(Curve.Double(Drop(old(p.Co()))))))))
    {
      hide R, Bounded, EMul, EAdd, ESub, ENeg, Curve.Double, ToProj, ToExt;
      var result := new P1xP1();
      var pp := new P2();
      pp.FromP3(p);
      result.Double(pp);
      pp.FromP1xP1(result);
      result.Double(pp);
      pp.FromP1xP1(result);
      result.Double(pp);
      FromP1xP1(result);
    }

    /** Accepts exactly the coordinates on the curve, and otherwise leaves the receiver alone. */
    method SetExtendedCoordinates(X: Elem, Y: Elem, Z: Elem, T: Elem) returns (ok: bool)
      modifies this
      ensures ok <==> OnCurve(Ext(R(X), R(Y), R(Z), R(T)))
      ensures ok ==> Co() == Ext(R(X), R(Y), R(Z), R(T))
      ensures !ok ==> Co() == old(Co())
    {
      ok := IsOnCurve(X, Y, Z, T);
      if !ok {
        return;
      }
      x, y, z, t := X, Y, Z, T;
    }

    method SetBytes(b: seq<byte>) returns (ok: bool)
      modifies this
      ensures ok <==> Decode(b).Found?
      ensures ok ==> Co() == Decode(b).p
      ensures !ok ==> Co() == old(Co())
    {
      hide R, Bounded, EMul, EAdd, ESub, ENeg, FMul, FAdd, FSub, FNeg, Outcome, LittleEndian;
      var e := new Element();
      var read := e.SetBytes(b);
      if !read {
        return false;
      }
      ReadValue(LittleEndian(b), e.Limbs());
      var y1: Elem := Fe(e.l0, e.l1, e.l2, e.l3, e.l4);
      Constants();
      var y2 := EMul(y1, y1);
      var u := ESub(y2, ONE_ELEM);
      var vv := EMul(y2, D_ELEM);
      vv := EAdd(vv, ONE_ELEM);
      var xx, wasSquare := RootOfRatio(u, vv);
      if wasSquare == 0 {
        return false;
      }
      var xxNeg := ENeg(xx);
      xx := if b[31] / 128 == 1 then xxNeg else xx;
      x := xx;
      y := y1;
      z := ONE_ELEM;
      t := EMul(xx, y1);
      return true;
    }

    /** The canonical encoding. */
    method Bytes() returns (out: array<byte>)
      ensures fresh(out) && out[..] == Encode(Co())
    {
      hide R, Bounded, EMul, EAdd, ESub, ENeg, FMul, FPow, ToBytes, LittleEndian, Encode, Or;
      var zInv := InverseOf(z);
      var x1 := EMul(x, zInv);
      var y1 := EMul(y, zInv);
      var ey := Load(y1);
      out := ey.Bytes();
      var ex := Load(x1);
      var sign := ex.IsNegative();
      ghost var s := out[..];
      SignByte(Co(), s, sign);
      var top: byte := if sign == 1 then 128 else 0;
      out[31] := Or(out[31], top);
      assert out[..] == s[31 := Or(s[31], top)];
    }
  }

  lemma ReadValue(n: nat, a: Fe)
    requires a == FromInt(n % (P + 19))
    ensures Bounded(a) && R(a) == n % (P + 19) % P
  {
    FromIntValue(n % (P + 19));
  }

  /** Or-ing the sign into byte 31 of an encoded y gives the encoded point. */
  lemma SignByte(p: Ext, s: seq<byte>, sign: bit)
    requires s == ToBytes(AffineY(p), 32) && sign == AffineX(p) % 2
    ensures var top := if sign == 1 then 128 else 0;
      s[31] < 128 && Or(s[31], top) == s[31] + top < 256 && s[31 := Or(s[31], top)] == Encode(p)
  {
    hide FMul, FPow, ToBytes, LittleEndian, Or, Pow2, Pow256;
    AffineYRange(p);
    Pow256Table();
    ToBytesValue(AffineY(p), 32);
    SignPlace(AffineY(p), 0, s);
    var top := if sign == 1 then 128 else 0;
    SignOr(s[31], top);
    LittleEndianUpdate(s, 31, s[31] + top);
    TopPlace();
    EncodedNumber(p);
    LittleEndianInjective(s[31 := s[31] + top], Encode(p));
  }

  lemma TopPlace()
    ensures Pow256(31) * 128 == P + 19
  {
    hide Pow256;
    Pow256Add(31, 1);
    Pow256Table();
    OneByte(0);
  }

  lemma SignOr(x: byte, top: int)
    requires x < 128 && (top == 0 || top == 128)
    ensures Or(x, top) == x + top
  {
    hide Or;
    assert Pow2(7) == 128;
    OrDisjoint(x, top, 7);
  }
}
