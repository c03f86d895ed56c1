/** The 32-byte encoding of points (sections 5.1.2 and 5.1.3 of RFC 8032, relaxed as the
    comments of Point.SetBytes say) on residues: what decoding accepts and what the two
    directions undo. */
module PointEncoding {
  import opened Modular
  import opened Words
  import opened Field
  import opened FieldRing
  import opened FieldPowers
  import opened SqrtRatio
  import opened Curve
  import opened CurveLaws

  datatype Decoded = Found(p: Ext) | Invalid

  /** u = y^2 - 1 and v = d y^2 + 1: x^2 must be u/v. */
  ghost function Numerator(y: int): int { FSub(FMul(y, y), 1) }

  ghost function Denominator(y: int): int { FAdd(FMul(FMul(y, y), D), 1) }

  ghost function Affine(x: int, y: int): Ext { Ext(x, y, 1, FMul(x, y)) }

  /** The square root of u/v with the requested sign, or nothing. */
  ghost function DecodeY(y: int, sign: bit): Decoded
  {
    var (wasSquare, xx) := Outcome(Numerator(y), Denominator(y));
    if wasSquare == 0 then Invalid else Found(Affine(if sign == 1 then FNeg(xx) else xx, y))
  }

  /** What a byte string decodes to: the low 255 bits, reduced, are y; the top bit is the sign of x. */
  ghost function Decode(b: seq<byte>): Decoded
  {
    if |b| != 32 then Invalid else DecodeY(LittleEndian(b) % (P + 19) % P, b[31] / 128)
  }

  /** The affine coordinates X/Z and Y/Z. */
  ghost function AffineX(p: Ext): int { FMul(p.X, FPow(p.Z, P - 2)) }

  ghost function AffineY(p: Ext): int { FMul(p.Y, FPow(p.Z, P - 2)) }

  /** The canonical encoding: y in the low 255 bits, the low bit of x on top. */
  ghost function Encode(p: Ext): seq<byte>
  {
    AffineYRange(p);
    ToBytes(AffineY(p) + (P + 19) * (AffineX(p) % 2), 32)
  }

  lemma AffineYRange(p: Ext)
    ensures Residue(AffineY(p)) && Residue(AffineX(p))
  {
    hide FPow;
  }

  // ------------------------------------------- the equation being solved

  /** v x^2 = u is the curve equation at (x, y). */
  lemma RatioIsCurve(x: int, y: int)
    requires Residue(x) && Residue(y)
    ensures Check(Denominator(y), x) == Numerator(y) <==> OnCurve(Affine(x, y))
    ensures ResiduesE(Affine(x, y))
  {
    hide FMul, FAdd, FSub, Rep, OnCurve, OnCurveZ;
    RepSelf(x);
    RepSelf(y);
    RepConst();
    var yy, xx, t := FMul(y, y), FMul(x, x), FMul(x, y);
    RepMul(y, y, y, y);
    RepMul(x, x, x, x);
    RepMul(x, x, y, y);
    RepSub(yy, y * y, 1, 1);
    RepMul(yy, y * y, D, D);
    RepAdd(FMul(yy, D), (y * y) * D, 1, 1);
    RepMul(Denominator(y), (y * y) * D + 1, xx, x * x);
    RepEqual(Check(Denominator(y), x), ((y * y) * D + 1) * (x * x), Numerator(y), y * y - 1);
    Closed(x, y);
    OnCurveRep(Affine(x, y), x, y, 1, x * y);
    EquationOverIntegers(x, y);
  }

  lemma EquationOverIntegers(x: int, y: int)
    ensures Cong(((y * y) * D + 1) * (x * x), y * y - 1, P) <==> OnCurveZ(D, x, y, 1, x * y)
  {
    assert Open(0);
    var a, b := y * y, x * x;
    SquareOfProduct(x, y);
    var m := D * (b * a);
    assert (a * D + 1) * b == m + b;
    assert D * ((x * y) * (x * y)) + 1 * 1 == m + 1;
    hide Cong;
    if Cong(m + b, a - 1, P) {
      SelfCong(a - b - (a - 1));
      CongSub(a - b - (a - 1), a - b - (a - 1), 0, 0, P) by { SelfCong(0); }
      CongFlip(m + b, a - 1);
      CongAdd(a - 1, m + b, 1 - b, 1 - b, P) by { SelfCong(1 - b); }
      assert Cong(a - b, m + 1, P);
      SelfCong((x * y) * 1);
    }
    if Cong(a - b, m + 1, P) {
      CongFlip(a - b, m + 1);
      CongAdd(m + 1, a - b, b - 1, b - 1, P) by { SelfCong(b - 1); }
    }
    assert OnCurveZ(D, x, y, 1, x * y) <==> Cong(a - b, m + 1, P) by { SelfCong(x * y); assert x * y == (x * y) * 1; }
  }

  lemma CongFlip(a: int, b: int)
    requires Cong(a, b, P)
    ensures Cong(b, a, P)
  {
  }

  // ------------------------------------------------ what decoding accepts

  /** Every successful decoding is a point on the curve. No hypothesis is needed. */
  lemma DecodeOnCurve(b: seq<byte>)
    requires Decode(b).Found?
    ensures Valid(Decode(b).p) && Decode(b).p.Z == 1
  {
    hide FMul, FAdd, FSub, FNeg, Outcome, OnCurve, LittleEndian;
    var y, sign := LittleEndian(b) % (P + 19) % P, b[31] / 128;
    var xx := Outcome(Numerator(y), Denominator(y)).1;
    SqrtRatioSound(Numerator(y), Denominator(y)) by { RatioRange(y); }
    SquareOfNeg(xx);
    NegRange(xx);
    var x := if sign == 1 then FNeg(xx) else xx;
    assert Check(Denominator(y), x) == Numerator(y);
    RatioIsCurve(x, y);
  }

  lemma NegRange(x: int)
    ensures Residue(FNeg(x))
  {
  }

  lemma RatioRange(y: int)
    ensures Residue(Numerator(y)) && Residue(Denominator(y))
  {
  }

  /** Decoding fails only when it must: exactly when no point of the curve has this y. */
  lemma DecodeFailsOnlyOffCurve(b: seq<byte>)
    requires Prime(P) && |b| == 32
    ensures var y := LittleEndian(b) % (P + 19) % P;
      Decode(b).Invalid? <==> forall x: int :: Residue(x) ==> !OnCurve(Affine(x, y))
  {
    hide FMul, FAdd, FSub, FNeg, Outcome, OnCurve, LittleEndian, Prime, Check;
    var y := LittleEndian(b) % (P + 19) % P;
    RatioRange(y);
    SqrtRatioDecides(Numerator(y), Denominator(y));
    forall x: int | Residue(x)
      ensures Check(Denominator(y), x) == Numerator(y) <==> OnCurve(Affine(x, y))
    {
      RatioIsCurve(x, y);
    }
  }

  // ------------------------------------------------------- round trips

  /** At a curve point the denominator d y^2 + 1 is not zero. */
  lemma DenominatorNonzero(x: int, y: int)
    requires Residue(x) && Residue(y) && Check(Denominator(y), x) == Numerator(y)
    ensures Denominator(y) != 0
  {
    if Denominator(y) == 0 {
      ZeroRatio(x);
      NumeratorZero(y);
      assert false;
    }
  }

  lemma NumeratorZero(y: int)
    requires Numerator(y) == 0
    ensures Denominator(y) != 0
  {
    assert Open(0);
    var yy := FMul(y, y);
    assert Residue(yy);
    hide FMul;
    assert yy == 1;
    MulOne(D);
  }

  /** Of x and -x only one is even, unless both are 0. */
  lemma ParityOfOpposite(x: int)
    requires Residue(x) && x != 0
    ensures FNeg(x) % 2 != x % 2
  {
    NegIsMinus(x);
  }

  /** Decoding a y-coordinate with the right sign finds exactly the curve point (x, y). */
  lemma DecodeFinds(x: int, y: int)
    requires Prime(P) && Residue(x) && Residue(y) && OnCurve(Affine(x, y))
    ensures DecodeY(y, x % 2) == Found(Affine(x, y))
  {
    hide FMul, FAdd, FSub, FNeg, Outcome, OnCurve, Check;
    var u, v := Numerator(y), Denominator(y);
    RatioRange(y);
    RatioIsCurve(x, y);
    DenominatorNonzero(x, y);
    SqrtRatioDecides(u, v);
    SqrtRatioSound(u, v);
    var r := Outcome(u, v).1;
    OneOfTwoRoots(v, r, x);
    if x != 0 { ParityOfOpposite(x); }
    NegNeg(x);
    NegIsMinus(0);
  }

  lemma OneOfTwoRoots(v: int, r: int, x: int)
    requires Prime(P) && Residue(v) && v != 0 && Residue(r) && Residue(x) && Check(v, r) == Check(v, x)
    ensures r == x || r == FNeg(x)
  {
    hide FMul, FNeg;
    Closed(r, r);
    Closed(x, x);
    Cancel(v, FMul(r, r), FMul(x, x));
    Roots(r, x);
  }

  /** Dividing by Z keeps the point on the curve. */
  lemma AffineOnCurve(p: Ext)
    requires Prime(P) && Valid(p)
    ensures OnCurve(Affine(AffineX(p), AffineY(p))) && FMul(p.Z, FPow(p.Z, P - 2)) == 1
    ensures Same(Affine(AffineX(p), AffineY(p)), p)
  {
    hide FMul, FAdd, FSub, FPow;
    var i := FPow(p.Z, P - 2);
    InvertCorrect(p.Z);
    FPowRange(p.Z, P - 2);
    var x, y := FMul(p.X, i), FMul(p.Y, i);
    var ii := FMul(i, i);
    MulRegroup(p.X, i, p.X, i);
    MulRegroup(p.Y, i, p.Y, i);
    MulRegroup(p.X, i, p.Y, i);
    MulRegroup(p.Z, i, p.Z, i);
    MulOne(1);
    var t := FMul(p.T, i);
    assert FMul(x, y) == t by {
      MulRegroup(p.T, i, p.Z, i);
      Closed(p.T, i);
      MulOne(t);
    }
    MulRegroup(p.T, i, p.T, i);
    assert FMul(D, FMul(t, t)) == FMul(FMul(D, FMul(p.T, p.T)), ii) by { MulAssoc(D, FMul(p.T, p.T), ii); }
    Distribute(ii, FMul(p.Y, p.Y), FMul(p.X, p.X), FMul(D, FMul(p.T, p.T)), FMul(p.Z, p.Z));
    Closed(x, y);
    MulOne(t);
    Unscaled(p.X, i, p.Z);
    Unscaled(p.Y, i, p.Z);
  }

  lemma Distribute(s: int, a: int, b: int, c: int, e: int)
    ensures FSub(FMul(a, s), FMul(b, s)) == FMul(FSub(a, b), s)
    ensures FAdd(FMul(c, s), FMul(e, s)) == FMul(FAdd(c, e), s)
  {
    hide FMul, FAdd, FSub;
    MulComm(a, s);
    MulComm(b, s);
    MulComm(c, s);
    MulComm(e, s);
    MulComm(FSub(a, b), s);
    MulComm(FAdd(c, e), s);
    MulAdd(s, a, b);
    MulAdd(s, c, e);
  }

  lemma Unscaled(a: int, i: int, z: int)
    requires Residue(a) && FMul(z, i) == 1
    ensures FMul(FMul(a, i), z) == FMul(a, 1)
  {
    hide FMul;
    MulAssoc(a, i, z);
    MulComm(i, z);
  }

  lemma EncodedNumber(p: Ext)
    ensures |Encode(p)| == 32
    ensures LittleEndian(Encode(p)) == AffineY(p) + (P + 19) * (AffineX(p) % 2)
    ensures LittleEndian(Encode(p)) % (P + 19) == AffineY(p) && Encode(p)[31] / 128 == AffineX(p) % 2
  {
    hide FMul, FPow, LittleEndian, Pow256, ToBytes;
    AffineYRange(p);
    var y, s := AffineY(p), AffineX(p) % 2;
    var n := y + (P + 19) * s;
    Pow256Table();
    ToBytesValue(n, 32);
    SignPlace(y, s, Encode(p));
  }

  lemma SignPlace(y: int, s: int, b: seq<byte>)
    requires Residue(y) && 0 <= s < 2 && |b| == 32 && LittleEndian(b) == y + (P + 19) * s
    ensures LittleEndian(b) % (P + 19) == y && b[31] / 128 == s
  {
    hide LittleEndian;
    FieldElement.TopBitValue(b);
    QuotientUnique(LittleEndian(b), s, y, P + 19);
    QuotientUnique(LittleEndian(b), FieldElement.TopBit(b), LittleEndian(b) % (P + 19), P + 19);
  }

  /** Decoding undoes encoding, exactly up to dividing by Z: the decoded point is the affine
      form of p, and Point.Equal holds. */
  lemma DecodeEncode(p: Ext)
    requires Prime(P) && Valid(p)
    ensures Decode(Encode(p)) == Found(Affine(AffineX(p), AffineY(p)))
    ensures Same(Decode(Encode(p)).p, p)
  {
    hide FMul, FPow, LittleEndian, Encode, DecodeY, OnCurve, AffineX, AffineY;
    AffineYRange(p);
    EncodedNumber(p);
    AffineOnCurve(p);
    SmallMod(AffineY(p), P);
    DecodeFinds(AffineX(p), AffineY(p));
  }

  lemma SameAffine(p: Ext, q: Ext)
    requires Prime(P) && Valid(p) && Valid(q) && Same(p, q)
    ensures AffineX(p) == AffineX(q) && AffineY(p) == AffineY(q)
  {
    hide FMul, FPow, OnCurve;
    AffineOnCurve(p);
    AffineOnCurve(q);
    CrossToQuotient(p.X, p.Z, FPow(p.Z, P - 2), q.X, q.Z, FPow(q.Z, P - 2));
    CrossToQuotient(p.Y, p.Z, FPow(p.Z, P - 2), q.Y, q.Z, FPow(q.Z, P - 2));
  }

  /** From a/z = b/w written crosswise to the quotients themselves. */
  lemma CrossToQuotient(a: int, z: int, i: int, b: int, w: int, j: int)
    requires FMul(a, w) == FMul(b, z) && FMul(z, i) == 1 && FMul(w, j) == 1
    ensures FMul(a, i) == FMul(b, j)
  {
    hide FMul;
    MulRegroup(a, w, i, j);
    MulRegroup(b, z, j, i);
    MulComm(i, j);
    Closed(a, i);
    Closed(b, j);
    MulOne(FMul(a, i));
    MulOne(FMul(b, j));
  }

  /** Encodings agree exactly when Point.Equal says the points are equal. */
  lemma EncodeDecidesEquality(p: Ext, q: Ext)
    requires Prime(P) && Valid(p) && Valid(q)
    ensures Encode(p) == Encode(q) <==> Same(p, q)
  {
    hide Encode, Decode, AffineX, AffineY, FMul, OnCurve;
    if Same(p, q) {
      SameAffine(p, q);
      EncodeFromAffine(p, q);
    }
    if Encode(p) == Encode(q) {
      DecodeEncode(p);
      DecodeEncode(q);
      var a := Affine(AffineX(p), AffineY(p));
      SameThrough(a, p, q);
    }
  }

  lemma EncodeFromAffine(p: Ext, q: Ext)
    requires AffineX(p) == AffineX(q) && AffineY(p) == AffineY(q)
    ensures Encode(p) == Encode(q)
  {
    hide AffineX, AffineY, ToBytes;
  }

  /** Two points equal to one affine point are equal. */
  lemma SameThrough(a: Ext, p: Ext, q: Ext)
    requires ResiduesE(p) && ResiduesE(q) && a.Z == 1 && Same(a, p) && Same(a, q)
    ensures Same(p, q)
  {
    hide FMul;
    ThroughAffine(a.X, p.X, p.Z, q.X, q.Z);
    ThroughAffine(a.Y, p.Y, p.Z, q.Y, q.Z);
  }

  lemma ThroughAffine(x: int, a: int, z: int, b: int, w: int)
    requires Residue(a) && Residue(b) && FMul(x, z) == FMul(a, 1) && FMul(x, w) == FMul(b, 1)
    ensures FMul(a, w) == FMul(b, z)
  {
    hide FMul;
    MulOne(a);
    MulOne(b);
    MulAssoc(x, z, w);
    MulAssoc(x, w, z);
    MulComm(z, w);
  }

  /** Encoding undoes decoding exactly on the canonical inputs: y below p, and not the sign
      bit on x = 0. The two exceptions are the non-canonical encodings SetBytes documents. */
  lemma EncodeDecode(b: seq<byte>)
    requires Prime(P) && Decode(b).Found?
    ensures Encode(Decode(b).p) == b
      <==> LittleEndian(b) % (P + 19) < P && !(Decode(b).p.X == 0 && b[31] / 128 == 1)
  {
    hide FMul, FNeg, FPow, LittleEndian, Encode, DecodeY, OnCurve, Decode, AffineX, AffineY;
    var p := Decode(b).p;
    DecodeOnCurve(b);
    DecodedSign(b);
    UnitAffine(p);
    EncodedNumber(p);
    var e := Encode(p);
    FieldElement.TopBitValue(b);
    if LittleEndian(b) % (P + 19) < P && !(p.X == 0 && b[31] / 128 == 1) {
      SmallMod(LittleEndian(b) % (P + 19), P);
      assert LittleEndian(e) == LittleEndian(b);
      LittleEndianInjective(e, b);
    }
  }

  lemma UnitAffine(p: Ext)
    requires Prime(P) && ResiduesE(p) && p.Z == 1
    ensures AffineX(p) == p.X && AffineY(p) == p.Y
  {
    hide FMul, FPow;
    InvertCorrect(1);
    FPowRange(1, P - 2);
    MulOne(FPow(1, P - 2));
    MulOne(p.X);
    MulOne(p.Y);
  }

  /** The decoded x has the requested sign, unless it is zero. */
  lemma DecodedSign(b: seq<byte>)
    requires Decode(b).Found?
    ensures |b| == 32 && Decode(b).p.Y == LittleEndian(b) % (P + 19) % P
    ensures Decode(b).p.X % 2 == b[31] / 128 || Decode(b).p.X == 0
  {
    hide FMul, FAdd, FSub, FNeg, Outcome, LittleEndian;
    var y, sign := LittleEndian(b) % (P + 19) % P, b[31] / 128;
    RatioRange(y);
    SqrtRatioSound(Numerator(y), Denominator(y));
    var xx := Outcome(Numerator(y), Denominator(y)).1;
    if xx != 0 { ParityOfOpposite(xx); } else { NegIsMinus(0); }
  }
}
