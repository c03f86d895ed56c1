/** The generator of the prime-order subgroup (edwards25519.go, section 5.1 of RFC 8032). */
module Basepoint {
  import opened Words
  import opened Modular
  import opened Field
  import opened FieldRing
  import opened FieldPowers
  import opened Curve
  import opened CurveLaws
  import opened PointEncoding
  import opened CurveGroup
  import opened Points

  /** y = 4/5 and x even. */
  const BASE_X: int := 0x216936d3cd6e53fec0a4e231fdd6dc5c692cc7609525a7b2c9562d608f25d51a

  const BASE_Y: int := 0x6666666666666666666666666666666666666666666666666666666666666658

  ghost function B(): Ext { Affine(BASE_X, BASE_Y) }

  /** The encoding the generator is read from. */
  const GENERATOR: seq<byte> := [0x58] + Sixes(31)

  function Sixes(n: nat): (s: seq<byte>)
    ensures |s| == n
  {
    seq(n, i => 0x66)
  }

  lemma BasepointNormal()
    ensures Normal(B())
  {
    assert Open(0);
    var x, y := BASE_X, BASE_Y;
    hide FMul, OnCurve;
    SmallMod(x, P);
    SmallMod(y, P);
    RepConst();
    RepProduct(x, y);
    OnCurveRep(Affine(x, y), x, y, 1, x * y);
    CongWitness(y * y - x * x, D * ((x * y) * (x * y)) + 1 * 1, -313912869351021175552095638354475319435719866822403256103793839727111434695402522007437748672709022944181123840026140012976076642505601989877288187536393899427418215919658923821043034718165221043996317890960162518762831745378375357102403309936170782468110973434315685750709096189645234905588967493870803545, P);
    CongWitness(x * y, (x * y) * 1, 0, P);
  }

  lemma RepProduct(x: int, y: int)
    ensures Rep(FMul(x, y), x * y)
  {
    assert Open(0);
  }

  /** The number with n bytes 0x66. */
  function SixesValue(n: nat): nat { if n == 0 then 0 else 0x66 + 256 * SixesValue(n - 1) }

  lemma {:induction false} SixesBytes(n: nat)
    ensures ToBytes(SixesValue(n), n) == Sixes(n)
  {
    if n > 0 {
      SixesBytes(n - 1);
      var more := SixesValue(n - 1);
      assert (0x66 + 256 * more) % 256 == 0x66 && (0x66 + 256 * more) / 256 == more;
      assert Sixes(n) == [0x66] + Sixes(n - 1);
    }
  }

  lemma {:induction false} SixesClosed(n: nat)
    ensures 255 * SixesValue(n) == 0x66 * (Pow256(n) - 1)
  {
    if n > 0 { SixesClosed(n - 1); }
  }

  /** The generator's bytes decode to the basepoint. */
  lemma GeneratorDecodes()
    requires Prime(P)
    ensures Decode(GENERATOR) == Found(B())
  {
    hide FMul, FPow, OnCurve, Decode, ToBytes;
    BasepointNormal();
    NormalIsValid(B());
    UnitAffine(B());
    DecodeEncode(B());
    GeneratorEncodes();
  }

  lemma GeneratorEncodes()
    ensures ToBytes(BASE_Y, 32) == GENERATOR
  {
    SixesBytes(31);
    SixesClosed(31);
    Pow256Table();
    assert SixesValue(31) == BASE_Y / 256;
  }

  /** NewGeneratorPoint. */
  method NewGeneratorPoint() returns (p: Point)
    requires Prime(P)
    ensures fresh(p) && p.Co() == B()
  {
    hide Decode;
    GeneratorDecodes();
    p := new Point();
    var ok := p.SetBytes(GENERATOR);
  }
}
