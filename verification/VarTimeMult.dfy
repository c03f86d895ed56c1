/** Multiplication by non-adjacent forms: a A + b B (scalarmult.go). */
module VarTimeMult {
  import opened Bits
  import opened Words
  import opened Modular
  import opened Field
  import opened Curve
  import opened CurveLaws
  import opened PointEncoding
  import opened CurveGroup
  import opened PointGroup
  import opened Points
  import opened Basepoint
  import opened Recoding
  import opened Scalars
  import opened Tables
  import opened ScalarMult
  import opened ScalarBaseMult

  // ------------------------------------------------------- digit by digit

  /** The digits of a non-adjacent form as a value. */
  method NafOf(x: Scalar, w: nat) returns (d: seq<int8>)
    requires 2 <= w <= 8
    ensures |d| == 256 && NonAdjacent(d, w) && Digits(2, d) == x.Value()
  {
    hide Digits, NonAdjacent, R;
    var naf := x.NonAdjacentForm(w);
    d := naf[..];
  }

  /** What a digit of width 5 or 8 can be. */
  lemma DigitOfNaf(d: seq<int8>, w: nat, i: nat)
    requires (w == 5 || w == 8) && NonAdjacent(d, w) && i < |d|
    ensures d[i] != 0 ==> d[i] % 2 == 1
    ensures w == 5 ==> Within(d[i], 16)
    ensures w == 8 ==> Within(d[i], 128)
  {
    assert NafDigit(d[i], w);
    assert Pow2(4) == 16 && Pow2(7) == 128;
  }

  /** Subtracting (-d) Q is adding d Q. */
  lemma SubtractNegative(c: Ext, d: int, a: Ext)
    requires Group() && Normal(a)
    ensures GAdd(c, GNeg(SMul(-d, a))) == GAdd(c, SMul(d, a))
  {
    hide Group, Normal, SMul, GAdd, GNeg;
    SMulNeg(-d, a);
    assert -(-d) == d;
  }

  lemma AddNothing(c: Ext, a: Ext)
    requires Group() && Normal(c)
    ensures GAdd(c, SMul(0, a)) == c
  {
    hide Group, Normal, SMul, GAdd;
    GroupMeans();
    SMulZero(a);
    PlusZero(c);
  }

  /** One digit of a width-5 form: nothing, an addition or a subtraction. */
  method ApplyDigit(v: Point, tmp1: P1xP1, table: NafLookupTable5, multiple: ProjCached, d: int8, ghost c: Ext, ghost a: Ext)
    requires Group() && IsC(tmp1.Co(), c) && table.Holds(a) && Normal(a) && multiple !in table.points
    requires (d != 0 ==> d % 2 == 1) && Within(d, 16)
    modifies v, tmp1, multiple
    ensures IsC(tmp1.Co(), GAdd(c, SMul(d, a)))
  {
    hide Group, IsC, IsE, IsK, GAdd, GNeg, SMul, R, Normal, AddCached, SubCached, ToExt, NafLookupTable5.Holds;
    GroupMeans();
    CompletedMeans(tmp1.Co(), c);
    if d > 0 {
      v.FromP1xP1(tmp1);
      table.SelectInto(multiple, d, a);
      AddIs(v.Co(), c, multiple.Co(), SMul(d, a));
      tmp1.Add(v, multiple);
    } else if d < 0 {
      v.FromP1xP1(tmp1);
      table.SelectInto(multiple, -d, a);
      SubIs(v.Co(), c, multiple.Co(), SMul(-d, a));
      SubtractNegative(c, d, a);
      tmp1.Sub(v, multiple);
    } else {
      CompletedNormal(tmp1.Co(), c);
      AddNothing(c, a);
    }
  }

  /** One digit of a width-8 form against the basepoint table. */
  method ApplyBaseDigit(v: Point, tmp1: P1xP1, table: NafLookupTable8, multiple: AffineCached, d: int8, ghost c: Ext, ghost b: Ext)
    requires Group() && IsC(tmp1.Co(), c) && table.Holds(b) && Normal(b) && multiple !in table.points
    requires (d != 0 ==> d % 2 == 1) && Within(d, 128)
    modifies v, tmp1, multiple
    ensures IsC(tmp1.Co(), GAdd(c, SMul(d, b)))
  {
    hide Group, IsC, IsE, IsA, GAdd, GNeg, SMul, R, Normal, Curve.AddAffine, Curve.SubAffine, ToExt, NafLookupTable8.Holds;
    GroupMeans();
    CompletedMeans(tmp1.Co(), c);
    if d > 0 {
      v.FromP1xP1(tmp1);
      table.SelectInto(multiple, d, b);
      AddAffineIs(v.Co(), c, multiple.Co(), SMul(d, b));
      tmp1.AddAffine(v, multiple);
    } else if d < 0 {
      v.FromP1xP1(tmp1);
      table.SelectInto(multiple, -d, b);
      SubAffineIs(v.Co(), c, multiple.Co(), SMul(-d, b));
      SubtractNegative(c, d, b);
      tmp1.SubAffine(v, multiple);
    } else {
      CompletedNormal(tmp1.Co(), c);
      AddNothing(c, b);
    }
  }

  /** Doubling m a + n b and adding d a and e b. */
  lemma PairStep(m: int, n: int, d: int, e: int, a: Ext, b: Ext)
    requires Group() && Normal(a) && Normal(b)
    ensures var c := GAdd(SMul(m, a), SMul(n, b));
      GAdd(GAdd(GAdd(c, c), SMul(d, a)), SMul(e, b)) == GAdd(SMul(d + 2 * m, a), SMul(e + 2 * n, b))
  {
    hide Group, Normal, SMul, GAdd;
    GroupMeans();
    var ma, nb, da, eb := SMul(m, a), SMul(n, b), SMul(d, a), SMul(e, b);
    SMulNormal(m, a);
    SMulNormal(n, b);
    SMulNormal(d, a);
    SMulNormal(e, b);
    PlusRegroup(ma, nb, ma, nb);
    DoubleMultiple(m, a);
    DoubleMultiple(n, b);
    var m2, n2 := SMul(2 * m, a), SMul(2 * n, b);
    SMulNormal(2 * m, a);
    SMulNormal(2 * n, b);
    PlusNormal(m2, n2);
    PlusAssoc(GAdd(m2, n2), da, eb);
    PlusRegroup(m2, n2, da, eb);
    SMulAdd(2 * m, d, a);
    SMulAdd(2 * n, e, b);
  }

  /** One round of the double-base loop. */
  method PairRound(v: Point, tmp1: P1xP1, tmp2: P2, aTable: NafLookupTable5, multA: ProjCached, bTable: NafLookupTable8, multB: AffineCached,
      d: int8, e: int8, ghost m: int, ghost n: int, ghost a: Ext, ghost b: Ext)
    requires Group() && Normal(a) && Normal(b) && IsP(tmp2.Co(), GAdd(SMul(m, a), SMul(n, b)))
    requires aTable.Holds(a) && bTable.Holds(b) && multA !in aTable.points && multB !in bTable.points
    requires (d != 0 ==> d % 2 == 1) && Within(d, 16) && (e != 0 ==> e % 2 == 1) && Within(e, 128)
    modifies v, tmp1, tmp2, multA, multB
    ensures IsP(tmp2.Co(), GAdd(SMul(d + 2 * m, a), SMul(e + 2 * n, b)))
    ensures aTable.Holds(a) && bTable.Holds(b)
  {
    hide Group, IsC, IsP, GAdd, SMul, R, Normal, Curve.Double, ToProj, NafLookupTable5.Holds, NafLookupTable8.Holds;
    GroupMeans();
    ghost var c := GAdd(SMul(m, a), SMul(n, b));
    DoubleIs(tmp2.Co(), c);
    tmp1.Double(tmp2);
    ApplyDigit(v, tmp1, aTable, multA, d, GAdd(c, c), a);
    ApplyBaseDigit(v, tmp1, bTable, multB, e, GAdd(GAdd(c, c), SMul(d, a)), b);
    PairStep(m, n, d, e, a, b);
    CompletedToProj(tmp1.Co(), GAdd(SMul(d + 2 * m, a), SMul(e + 2 * n, b)));
    tmp2.FromP1xP1(tmp1);
  }

  /** From the top bit down. The scan for the first nonzero digit in the source breaks out
      without moving the start, so all 256 rounds always run. */
  method PairLoop(v: Point, tmp2: P2, aTable: NafLookupTable5, bTable: NafLookupTable8, aNaf: seq<int8>, bNaf: seq<int8>, ghost a: Ext, ghost b: Ext)
    requires Group() && Normal(a) && Normal(b) && IsP(tmp2.Co(), IDENTITY) && aTable.Holds(a) && bTable.Holds(b)
    requires |aNaf| == |bNaf| == 256 && NonAdjacent(aNaf, 5) && NonAdjacent(bNaf, 8)
    modifies v, tmp2
    ensures IsP(tmp2.Co(), GAdd(SMul(Digits(2, aNaf), a), SMul(Digits(2, bNaf), b)))
  {
    hide Group, IsC, IsP, GAdd, SMul, R, Normal, Digits, NonAdjacent, NafLookupTable5.Holds, NafLookupTable8.Holds;
    GroupMeans();
    var multA := new ProjCached();
    var multB := new AffineCached();
    var tmp1 := new P1xP1();
    SMulZero(a);
    SMulZero(b);
    IdentityNormal();
    PlusZero(IDENTITY);
    DigitsEnd(2, aNaf);
    DigitsEnd(2, bNaf);
    var i := 255;
    while i >= 0
      invariant -1 <= i <= 255 && fresh(multA) && fresh(multB) && fresh(tmp1)
      invariant aTable.Holds(a) && bTable.Holds(b)
      invariant IsP(tmp2.Co(), GAdd(SMul(Digits(2, aNaf[i + 1..]), a), SMul(Digits(2, bNaf[i + 1..]), b)))
    {
      DigitOfNaf(aNaf, 5, i);
      DigitOfNaf(bNaf, 8, i);
      PairRound(v, tmp1, tmp2, aTable, multA, bTable, multB, aNaf[i], bNaf[i],
        Digits(2, aNaf[i + 1..]), Digits(2, bNaf[i + 1..]), a, b);
      DigitsStep(2, aNaf, i);
      DigitsStep(2, bNaf, i);
      i := i - 1;
    }
  }

  /** basepointNafTable: the odd multiples of B up to 127 B. */
  method BasepointNafTable() returns (table: NafLookupTable8)
    requires Group()
    ensures fresh(table) && table.Holds(B())
  {
    hide Group, IsE, SMul, Normal, R, NafLookupTable8.Holds, B;
    GroupMeans();
    BasepointNormal();
    NormalIs(B());
    var generator := NewGeneratorPoint();
    table := new NafLookupTable8();
    table.FromP3(generator, B());
  }

  /** VarTimeDoubleScalarBaseMult: v = x A + y B. */
  method VarTimeDoubleScalarBaseMult(v: Point, x: Scalar, A: Point, y: Scalar, bTable: NafLookupTable8)
    requires Group() && Valid(A.Co()) && bTable.Holds(B())
    modifies v
    ensures Valid(v.Co())
    ensures Nf(v.Co()) == GAdd(SMul(x.Value(), old(Nf(A.Co()))), SMul(y.Value(), B()))
  {
    hide Group, IsP, GAdd, SMul, R, Normal, Digits, NonAdjacent, NafLookupTable5.Holds, NafLookupTable8.Holds, Nf, Valid, ProjToExt, B;
    GroupMeans();
    BasepointNormal();
    ghost var b := B();
    ghost var a := Nf(A.Co());
    ElementNormal(A.Co(), a);
    var aTable := new NafLookupTable5();
    aTable.FromP3(A, a);
    var aNaf := NafOf(x, 5);
    var bNaf := NafOf(y, 8);
    var tmp2 := new P2();
    tmp2.Zero();
    IdentityIs();
    PairLoop(v, tmp2, aTable, bTable, aNaf, bNaf, a, b);
    ghost var r := GAdd(SMul(x.Value(), a), SMul(y.Value(), b));
    ProjToExtIs(tmp2.Co(), r);
    v.FromP2(tmp2);
    ElementMeans(v.Co(), r);
  }
}
