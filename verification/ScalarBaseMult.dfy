/** Fixed-base multiplication with 32 precomputed tables (scalarmult.go). */
module ScalarBaseMult {
  import opened Words
  import opened Modular
  import opened Field
  import opened Curve
  import opened CurveLaws
  import opened PointEncoding
  import opened CurveGroup
  import opened PointGroup
  import opened Points
  import opened Basepoint
  import opened Recoding
  import opened Scalars
  import opened Tables
  import opened ScalarMult

  // ------------------------------------------------- even and odd digits

  /** Every second digit, from the first. */
  function Evens(d: seq<int>): (e: seq<int>)
    ensures |e| == (|d| + 1) / 2 && forall j :: 0 <= j < |e| ==> e[j] == d[2 * j]
  {
    seq((|d| + 1) / 2, j requires 0 <= j < (|d| + 1) / 2 => d[2 * j])
  }

  /** Every second digit, from the second. */
  function Odds(d: seq<int>): (o: seq<int>)
    ensures |o| == |d| / 2 && forall j :: 0 <= j < |o| ==> o[j] == d[2 * j + 1]
  {
    seq(|d| / 2, j requires 0 <= j < |d| / 2 => d[2 * j + 1])
  }

  /** Radix 16 splits into two interleaved numbers in radix 256. */
  lemma {:induction false} Interleaved(d: seq<int>)
    requires |d| % 2 == 0
    ensures Digits(16, d) == Digits(256, Evens(d)) + 16 * Digits(256, Odds(d))
  {
    if d != [] {
      var r := d[1..][1..];
      Interleaved(r);
      assert Evens(d)[1..] == Evens(r);
      assert Odds(d)[1..] == Odds(r);
      assert Digits(16, d) == d[0] + 16 * Digits(16, d[1..]) && Digits(16, d[1..]) == d[1] + 16 * Digits(16, r);
    }
  }

  lemma {:induction false} DigitsAppend(base: nat, d: seq<int>, x: int)
    ensures Digits(base, d + [x]) == Digits(base, d) + Weight(base, |d|) * x
  {
    if d == [] {
      assert ([] + [x])[1..] == [];
    } else {
      assert (d + [x])[1..] == d[1..] + [x];
      DigitsAppend(base, d[1..], x);
      assert Weight(base, |d|) == base * Weight(base, |d| - 1);
      assert Digits(base, d + [x]) == d[0] + base * Digits(base, d[1..] + [x]);
      hide Digits, Weight;
      SpreadOut(base, Digits(base, d[1..]), Weight(base, |d| - 1), x);
    }
  }

  lemma SpreadOut(base: int, n: int, w: int, x: int)
    ensures base * (n + w * x) == base * n + (base * w) * x
  {
    assert base * (w * x) == (base * w) * x;
  }

  lemma DigitsPrefix(base: nat, d: seq<int>, i: nat)
    requires i < |d|
    ensures Digits(base, d[..i + 1]) == Digits(base, d[..i]) + Weight(base, i) * d[i]
  {
    assert d[..i + 1] == d[..i] + [d[i]];
    DigitsAppend(base, d[..i], d[i]);
  }

  /** Multiples of multiples, for negative factors too. */
  lemma SMulMulInt(m: int, n: int, a: Ext)
    requires Group() && Normal(a)
    ensures SMul(m, SMul(n, a)) == SMul(m * n, a)
  {
    hide Group, Normal, SMul, GAdd, GNeg;
    if m >= 0 {
      SMulMul(m, n, a);
    } else {
      SMulMul(-m, n, a);
      SMulNormal(n, a);
      SMulNeg(-m, SMul(n, a));
      SMulNeg((-m) * n, a);
      assert -((-m) * n) == m * n;
    }
  }

  // ------------------------------------------------------------- tables

  /** Table i is built on 256^i B. */
  ghost predicate BaseTables(tables: seq<AffineLookupTable>, b: Ext)
    reads tables, set i, k | 0 <= i < |tables| && 0 <= k < |tables[i].points| :: tables[i].points[k]
  {
    |tables| == 32 && forall i :: 0 <= i < 32 ==> tables[i].Holds(SMul(Weight(256, i), b))
  }

  /** basepointTable: the multiples of 256^i B for i below 32, with eight doublings between tables. */
  method BasepointTable() returns (tables: seq<AffineLookupTable>)
    requires Group()
    ensures BaseTables(tables, B())
    ensures forall t :: t in tables ==> fresh(t) && forall i :: 0 <= i < |t.points| ==> fresh(t.points[i])
  {
    hide Group, IsE, SMul, Normal, R, SumOf, GAdd, AffineLookupTable.Holds, Weight, B;
    GroupMeans();
    BasepointNormal();
    ghost var b := B();
    var p := NewGeneratorPoint();
    NormalIs(b);
    SMulOne(b);
    FirstWeight();
    tables := [];
    for i := 0 to 32
      invariant |tables| == i && IsE(p.Co(), SMul(Weight(256, i), b))
      invariant forall j :: 0 <= j < i ==> tables[j].Holds(SMul(Weight(256, j), b))
      invariant forall j :: 0 <= j < i ==> fresh(tables[j]) && |tables[j].points| == 8
      invariant forall j, k :: 0 <= j < i && 0 <= k < 8 ==> fresh(tables[j].points[k])
    {
      ghost var n := Weight(256, i);
      var t := new AffineLookupTable();
      t.FromP3(p, SMul(n, b));
      TableSize(t, SMul(n, b));
      EightDoublings(p, n, b);
      NextWeight(i);
      tables := tables + [t];
    }
  }

  lemma TableSize(t: AffineLookupTable, a: Ext)
    requires t.Holds(a)
    ensures |t.points| == 8
  {
  }

  lemma NormalIs(b: Ext)
    requires Prime(P) && Normal(b)
    ensures IsE(b, b)
  {
    hide Normal, Nf, Valid;
    NormalIsValid(b);
    NfOfNormal(b);
  }

  lemma FirstWeight()
    ensures Weight(256, 0) == 1
  {
  }

  lemma NextWeight(i: nat)
    ensures Weight(256, i + 1) == 256 * Weight(256, i)
  {
  }

  method EightDoublings(p: Point, ghost n: int, ghost b: Ext)
    requires Group() && Normal(b) && IsE(p.Co(), SMul(n, b))
    modifies p
    ensures IsE(p.Co(), SMul(256 * n, b))
  {
    hide Group, IsE, SMul, Normal, R, SumOf, GAdd;
    ghost var m := n;
    for j := 0 to 8
      invariant IsE(p.Co(), SMul(m, b))
      invariant m == Twice(n, j)
    {
      SumIs(p.Co(), SMul(m, b));
      DoubleMultiple(m, b);
      p.Add(p, p);
      m := 2 * m;
    }
    TwiceEight(n);
  }

  /** n doubled j times, for j up to eight. */
  ghost function Twice(n: int, j: nat): int
  {
    if j == 0 then n else 2 * Twice(n, j - 1)
  }

  lemma TwiceEight(n: int)
    ensures Twice(n, 8) == 256 * n
  {
    assert Twice(n, 1) == 2 * n;
    assert Twice(n, 2) == 4 * n;
    assert Twice(n, 4) == 4 * Twice(n, 2);
    assert Twice(n, 6) == 4 * Twice(n, 4);
    assert Twice(n, 8) == 4 * Twice(n, 6);
  }

  lemma SumIs(p: Ext, a: Ext)
    requires Group() && IsE(p, a)
    ensures IsE(SumOf(p, p), GAdd(a, a))
  {
    hide Group, Valid, Nf, SumOf, GAdd;
    GroupMeans();
    SumValid(p, p);
    NfOfSum(p, p);
  }

  // ------------------------------------------------------ multiplication

  /** v + d (n B) by an affine table built on n B. */
  method AddAffineDigit(v: Point, tmp1: P1xP1, table: AffineLookupTable, multiple: AffineCached, d: int8,
      ghost m: int, ghost n: int, ghost b: Ext)
    requires Group() && Normal(b) && IsE(v.Co(), SMul(m, b)) && table.Holds(SMul(n, b)) && -8 <= d <= 8 && multiple !in table.points
    modifies v, multiple, tmp1
    ensures IsE(v.Co(), SMul(m + n * d, b))
  {
    hide Group, IsC, IsE, IsA, GAdd, SMul, R, Normal, PickedAffine, AffineMultiples, Curve.AddAffine, ToExt;
    GroupMeans();
    PickedAffineIs(StoredAffine(table.points), d, SMul(n, b));
    table.SelectInto(multiple, d);
    AddAffineIs(v.Co(), SMul(m, b), multiple.Co(), SMul(d, SMul(n, b)));
    SMulMulInt(d, n, b);
    SMulAdd(m, d * n, b);
    assert d * n == n * d;
    tmp1.AddAffine(v, multiple);
    CompletedMeans(tmp1.Co(), SMul(m + n * d, b));
    v.FromP1xP1(tmp1);
  }

  /** Adds the digits d_start, d_start+2, ... with weights 256^j. */
  method Accumulate(v: Point, tmp1: P1xP1, multiple: AffineCached, tables: seq<AffineLookupTable>, d: seq<int8>, start: nat,
      ghost e: seq<int>, ghost m: int, ghost b: Ext)
    requires Group() && Normal(b) && IsE(v.Co(), SMul(m, b)) && BaseTables(tables, b)
    requires forall t :: t in tables ==> multiple !in t.points
    requires |d| == 64 && start <= 1 && (forall i :: 0 <= i < 64 ==> -8 <= d[i] <= 8)
    requires |e| == 32 && forall j :: 0 <= j < 32 ==> e[j] == d[2 * j + start]
    modifies v, tmp1, multiple
    ensures IsE(v.Co(), SMul(m + Digits(256, e), b))
  {
    hide Group, IsE, GAdd, SMul, R, Normal, Digits, Weight, AffineLookupTable.Holds;
    assert e[..0] == [];
    NoDigits(256);
    var i := start;
    while i < 64
      invariant start <= i <= 64 + start && (i - start) % 2 == 0
      invariant BaseTables(tables, b)
      invariant IsE(v.Co(), SMul(m + Digits(256, e[..(i - start) / 2]), b))
    {
      ghost var j := (i - start) / 2;
      assert i / 2 == j;
      AddAffineDigit(v, tmp1, tables[i / 2], multiple, d[i], m + Digits(256, e[..j]), Weight(256, j), b);
      DigitsPrefix(256, e, j);
      i := i + 2;
    }
    assert e[..32] == e;
  }

  lemma NoDigits(base: int)
    ensures Digits(base, []) == 0
  {
  }

  /** 16 v: the three projective steps and the last one into v. */
  method SixteenTimes(v: Point, tmp1: P1xP1, tmp2: P2, ghost n: int, ghost b: Ext)
    requires Group() && Normal(b) && IsE(v.Co(), SMul(n, b))
    modifies v, tmp1, tmp2
    ensures IsE(v.Co(), SMul(16 * n, b))
  {
    hide Group, IsC, IsP, IsE, GAdd, SMul, R, Normal, Curve.Double, ToExt, Drop;
    GroupMeans();
    ExtToProj(v.Co(), SMul(n, b));
    tmp2.FromP3(v);
    DoubleIs(tmp2.Co(), SMul(n, b));
    tmp1.Double(tmp2);
    DoubleMultiple(n, b);
    DoubleMultiple(2 * n, b);
    DoubleMultiple(4 * n, b);
    DoubleMultiple(8 * n, b);
    DoubleStep(tmp1, tmp2, SMul(2 * n, b));
    DoubleStep(tmp1, tmp2, SMul(4 * n, b));
    DoubleStep(tmp1, tmp2, SMul(8 * n, b));
    CompletedMeans(tmp1.Co(), SMul(16 * n, b));
    v.FromP1xP1(tmp1);
  }

  /** The two accumulations around the multiplication by 16. */
  method BothHalves(v: Point, tmp1: P1xP1, tmp2: P2, multiple: AffineCached, tables: seq<AffineLookupTable>, d: seq<int8>, ghost b: Ext)
    requires Group() && Normal(b) && IsE(v.Co(), IDENTITY) && BaseTables(tables, b)
    requires forall t :: t in tables ==> multiple !in t.points
    requires |d| == 64 && forall i :: 0 <= i < 64 ==> -8 <= d[i] <= 8
    modifies v, tmp1, tmp2, multiple
    ensures IsE(v.Co(), SMul(Digits(16, d), b))
  {
    hide Group, IsE, SMul, R, Normal, Digits, AffineLookupTable.Holds;
    SMulZero(b);
    ghost var odds, evens := Odds(d), Evens(d);
    Interleaved(d);
    Accumulate(v, tmp1, multiple, tables, d, 1, odds, 0, b);
    SixteenTimes(v, tmp1, tmp2, Digits(256, odds), b);
    Accumulate(v, tmp1, multiple, tables, d, 0, evens, 16 * Digits(256, odds), b);
  }

  /** ScalarBaseMult: v = x B, odd digits first, then 16 times that, then even digits. */
  method ScalarBaseMult(v: Point, x: Scalar, tables: seq<AffineLookupTable>)
    requires Group() && BaseTables(tables, B())
    modifies v
    ensures Valid(v.Co()) && Nf(v.Co()) == SMul(x.Value(), B())
  {
    hide Group, IsE, Nf, Valid, SMul, R, Normal, Digits, AffineLookupTable.Holds, B;
    GroupMeans();
    BasepointNormal();
    ghost var b := B();
    IdentityIs();
    var digits := DigitsOf(x);
    var multiple := new AffineCached();
    var tmp1 := new P1xP1();
    var tmp2 := new P2();
    var identity := new Point.Identity();
    v.Set(identity);
    BothHalves(v, tmp1, tmp2, multiple, tables, digits, b);
    ElementMeans(v.Co(), SMul(x.Value(), b));
  }

  lemma ElementMeans(p: Ext, a: Ext)
    requires IsE(p, a)
    ensures Valid(p) && Nf(p) == a
  {
  }
}
