/** Scalar multiplication by tables and signed digits (scalarmult.go).

    The receiver is the parameter v; it may be one of the points multiplied. The only
    hypothesis is Group(): p is prime and addition is associative. */
module ScalarMult {
  import opened Bits
  import opened Words
  import opened Modular
  import opened Field
  import opened Curve
  import opened CurveLaws
  import opened PointEncoding
  import opened CurveGroup
  import opened PointGroup
  import opened Points
  import opened Recoding
  import opened Scalars
  import opened Tables

  // ---------------------------------------------------- steps on multiples

  lemma DoubleMultiple(n: int, a: Ext)
    requires Group() && Normal(a)
    ensures GAdd(SMul(n, a), SMul(n, a)) == SMul(2 * n, a)
  {
    hide Group, Normal, SMul, GAdd;
    SMulAdd(n, n, a);
  }

  /** One doubling of whatever stands in tmp1, by way of projective coordinates. */
  method DoubleStep(tmp1: P1xP1, tmp2: P2, ghost b: Ext)
    requires Group() && IsC(tmp1.Co(), b)
    modifies tmp1, tmp2
    ensures IsC(tmp1.Co(), GAdd(b, b))
  {
    hide Group, IsC, IsP, GAdd, ToProj, Curve.Double, R;
    GroupMeans();
    CompletedToProj(tmp1.Co(), b);
    tmp2.FromP1xP1(tmp1);
    DoubleIs(tmp2.Co(), b);
    tmp1.Double(tmp2);
  }

  /** Four doublings multiply by 16. */
  method TimesSixteen(tmp1: P1xP1, tmp2: P2, ghost b: Ext)
    requires Group() && IsC(tmp1.Co(), b)
    modifies tmp1, tmp2
    ensures IsC(tmp1.Co(), SMul(16, b))
  {
    hide Group, IsC, GAdd, SMul, R, Normal;
    CompletedNormal(tmp1.Co(), b);
    SMulOne(b);
    DoubleMultiple(1, b);
    DoubleMultiple(2, b);
    DoubleMultiple(4, b);
    DoubleMultiple(8, b);
    DoubleStep(tmp1, tmp2, b);
    DoubleStep(tmp1, tmp2, SMul(2, b));
    DoubleStep(tmp1, tmp2, SMul(4, b));
    DoubleStep(tmp1, tmp2, SMul(8, b));
  }

  lemma CompletedNormal(c: Comp, a: Ext)
    requires Group() && IsC(c, a)
    ensures Normal(a)
  {
    hide Group, IsE, Normal, ToExt;
    GroupMeans();
    ElementNormal(ToExt(c), a);
  }

  /** MultByCofactor leaves a valid point, and it is 8 times the point. */
  lemma CofactorIsEight(p: Ext)
    requires Group() && Valid(p)
    ensures IsE(ToExt(Curve.Double(ToProj(Curve.Double(ToProj(Curve.Double(Drop(p))))))), SMul(8, Nf(p)))
  {
    hide Group, IsC, IsP, GAdd, SMul, R, Normal, Nf, Valid, ToExt, ToProj, Drop, Curve.Double;
    var a := Nf(p);
    GroupMeans();
    NfNormal(p);
    ExtToProj(p, a);
    SMulOne(a);
    DoubleMultiple(1, a);
    DoubleMultiple(2, a);
    DoubleMultiple(4, a);
    DoubleIs(Drop(p), a);
    var c := Curve.Double(Drop(p));
    CompletedToProj(c, SMul(2, a));
    DoubleIs(ToProj(c), SMul(2, a));
    var c' := Curve.Double(ToProj(c));
    CompletedToProj(c', SMul(4, a));
    DoubleIs(ToProj(c'), SMul(4, a));
    CompletedMeans(Curve.Double(ToProj(c')), SMul(8, a));
  }

  /** tmp1 = v + d Q by the signed table. */
  method AddDigit(v: Point, tmp1: P1xP1, table: ProjLookupTable, multiple: ProjCached, d: int8, ghost b: Ext, ghost a: Ext)
    requires Group() && IsE(v.Co(), b) && table.Holds(a) && -8 <= d <= 8 && multiple !in table.points
    modifies multiple, tmp1
    ensures IsC(tmp1.Co(), GAdd(b, SMul(d, a)))
  {
    hide Group, IsC, IsE, IsK, GAdd, SMul, R, Normal, Picked, Multiples, AddCached;
    GroupMeans();
    PickedIs(Stored(table.points), d, a);
    table.SelectInto(multiple, d);
    AddIs(v.Co(), b, multiple.Co(), SMul(d, a));
    tmp1.Add(v, multiple);
  }

  lemma DigitsStep(base: int, d: seq<int>, i: nat)
    requires i < |d|
    ensures Digits(base, d[i..]) == d[i] + base * Digits(base, d[i + 1..])
  {
    assert d[i..][1..] == d[i + 1..];
  }

  lemma DigitsEnd(base: int, d: seq<int>)
    ensures Digits(base, d[|d|..]) == 0 && d[0..] == d
  {
  }

  /** n Q after doubling four times and adding d Q is (d + 16 n) Q. */
  lemma HornerMultiple(n: int, d: int, a: Ext)
    requires Group() && Normal(a)
    ensures GAdd(SMul(16, SMul(n, a)), SMul(d, a)) == SMul(d + 16 * n, a)
  {
    hide Group, Normal, SMul, GAdd;
    SMulMul(16, n, a);
    SMulAdd(16 * n, d, a);
  }

  /** The body of the loop: 16 times what stands in tmp1, plus d Q. */
  method HornerDigit(v: Point, tmp1: P1xP1, tmp2: P2, table: ProjLookupTable, multiple: ProjCached, d: int8, ghost n: int, ghost a: Ext)
    requires Group() && IsC(tmp1.Co(), SMul(n, a)) && table.Holds(a) && -8 <= d <= 8 && multiple !in table.points
    modifies v, tmp1, tmp2, multiple
    ensures IsC(tmp1.Co(), SMul(d + 16 * n, a))
  {
    hide Group, IsC, IsE, GAdd, SMul, R, Normal, Multiples, Stored, ToExt;
    TimesSixteen(tmp1, tmp2, SMul(n, a));
    CompletedMeans(tmp1.Co(), SMul(16, SMul(n, a)));
    v.FromP1xP1(tmp1);
    AddDigit(v, tmp1, table, multiple, d, SMul(16, SMul(n, a)), a);
    HornerMultiple(n, d, a);
  }

  lemma StartMultiple(d: int, a: Ext)
    requires Group() && Normal(a)
    ensures GAdd(IDENTITY, SMul(d, a)) == SMul(d, a)
  {
    hide Group, Normal, SMul, GAdd;
    GroupMeans();
    SMulNormal(d, a);
    PlusZero(SMul(d, a));
  }

  /** The signed radix-16 digits as a value, as the source returns them. */
  method DigitsOf(x: Scalar) returns (d: seq<int8>)
    ensures |d| == 64 && (forall i :: 0 <= i < 64 ==> -8 <= d[i] <= 8) && Digits(16, d) == x.Value()
  {
    hide Digits, R;
    var digits := x.SignedRadix16();
    d := digits[..];
    assert digits[63] == d[63];
  }

  /** The digits from the top down; tmp1 ends up with the whole multiple. */
  method HornerLoop(v: Point, tmp1: P1xP1, tmp2: P2, table: ProjLookupTable, multiple: ProjCached, d: seq<int8>, ghost a: Ext)
    requires Group() && IsE(v.Co(), IDENTITY) && table.Holds(a) && Normal(a) && multiple !in table.points
    requires |d| == 64 && forall i :: 0 <= i < 64 ==> -8 <= d[i] <= 8
    modifies v, tmp1, tmp2, multiple
    ensures IsC(tmp1.Co(), SMul(Digits(16, d), a))
  {
    hide Group, IsC, IsE, GAdd, SMul, R, Normal, Digits, Multiples, Stored;
    AddDigit(v, tmp1, table, multiple, d[63], IDENTITY, a);
    StartMultiple(d[63], a);
    DigitsEnd(16, d);
    DigitsStep(16, d, 63);
    var i := 62;
    while i >= 0
      invariant -1 <= i <= 62
      invariant table.Holds(a)
      invariant IsC(tmp1.Co(), SMul(Digits(16, d[i + 1..]), a))
    {
      HornerDigit(v, tmp1, tmp2, table, multiple, d[i], Digits(16, d[i + 1..]), a);
      DigitsStep(16, d, i);
      i := i - 1;
    }
  }

  /** ScalarMult: v = x q, for every scalar and every point of the curve. */
  method ScalarMult(v: Point, x: Scalar, q: Point)
    requires Group() && Valid(q.Co())
    modifies v
    ensures Valid(v.Co()) && Nf(v.Co()) == SMul(x.Value(), old(Nf(q.Co())))
  {
    hide Group, IsC, Nf, Valid, SMul, R, Normal, Digits, ProjLookupTable.Holds, ToExt;
    GroupMeans();
    ghost var a := Nf(q.Co());
    ElementNormal(q.Co(), a);
    var table := new ProjLookupTable();
    table.FromP3(q, a);
    TableSize(table, a);
    var digits := DigitsOf(x);
    var multiple := new ProjCached();
    var tmp1 := new P1xP1();
    var tmp2 := new P2();
    var identity := new Point.Identity();
    v.Set(identity);
    IdentityIs();
    HornerLoop(v, tmp1, tmp2, table, multiple, digits, a);
    CompletedMeans(tmp1.Co(), SMul(Digits(16, digits), a));
    v.FromP1xP1(tmp1);
  }

  lemma TableSize(t: ProjLookupTable, a: Ext)
    requires t.Holds(a)
    ensures |t.points| == 8
  {
  }

  lemma CompletedMeans(c: Comp, a: Ext)
    requires IsC(c, a)
    ensures IsE(ToExt(c), a)
  {
  }
}
