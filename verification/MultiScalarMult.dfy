/** Sums of any number of multiples (extra.go): VarTimeMultiScalarMult, which computes what it
    documents, and MultiScalarMult, which adds 16^63 times whatever its receiver held. */
module MultiScalarMult {
  import opened Bits
  import opened Words
  import opened Modular
  import opened Field
  import opened FieldRing
  import opened FieldPowers
  import opened Curve
  import opened CurveLaws
  import opened PointEncoding
  import opened CurveGroup
  import opened PointGroup
  import opened Points
  import opened Basepoint
  import opened Recoding
  import opened Scalars
  import opened Tables
  import opened ScalarMult
  import opened ScalarBaseMult
  import opened VarTimeMult
  import Montgomery

  /** n_0 a_0 + n_1 a_1 + ... */
  ghost function Combination(ns: seq<int>, points: seq<Ext>): Ext
    requires |ns| == |points|
  {
    if ns == [] then IDENTITY
    else GAdd(SMul(ns[0], points[0]), Combination(ns[1..], points[1..]))
  }

  ghost predicate AllNormal(points: seq<Ext>) { forall i :: 0 <= i < |points| ==> Normal(points[i]) }

  lemma {:induction false} CombinationNormal(ns: seq<int>, points: seq<Ext>)
    requires Group() && |ns| == |points| && AllNormal(points)
    ensures Normal(Combination(ns, points))
  {
    hide Group, Normal, SMul, GAdd;
    GroupMeans();
    if ns == [] {
      IdentityNormal();
    } else {
      CombinationNormal(ns[1..], points[1..]);
      SMulNormal(ns[0], points[0]);
      PlusNormal(SMul(ns[0], points[0]), Combination(ns[1..], points[1..]));
    }
  }

  /** Adding d a_j raises one coefficient. */
  lemma {:induction false} RaiseCoefficient(ns: seq<int>, points: seq<Ext>, j: nat, d: int)
    requires Group() && |ns| == |points| && AllNormal(points) && j < |ns|
    ensures GAdd(Combination(ns, points), SMul(d, points[j])) == Combination(ns[j := ns[j] + d], points)
  {
    hide Group, Normal, SMul, GAdd;
    GroupMeans();
    var first, rest := SMul(ns[0], points[0]), Combination(ns[1..], points[1..]);
    SMulNormal(ns[0], points[0]);
    SMulNormal(d, points[j]);
    CombinationNormal(ns[1..], points[1..]);
    if j == 0 {
      assert ns[0 := ns[0] + d][1..] == ns[1..];
      SMulAdd(ns[0], d, points[0]);
      PlusAssoc(first, rest, SMul(d, points[0]));
      PlusComm(rest, SMul(d, points[0]));
      PlusAssoc(first, SMul(d, points[0]), rest);
    } else {
      assert ns[j := ns[j] + d][1..] == ns[1..][j - 1 := ns[1..][j - 1] + d];
      RaiseCoefficient(ns[1..], points[1..], j - 1, d);
      PlusAssoc(first, rest, SMul(d, points[j]));
    }
  }

  function Scale(k: int, ns: seq<int>): (r: seq<int>)
    ensures |r| == |ns| && forall i :: 0 <= i < |ns| ==> r[i] == k * ns[i]
  {
    seq(|ns|, i requires 0 <= i < |ns| => k * ns[i])
  }

  /** Multiplying a combination multiplies its coefficients. */
  lemma {:induction false} ScaleCombination(k: nat, ns: seq<int>, points: seq<Ext>)
    requires Group() && |ns| == |points| && AllNormal(points)
    ensures SMul(k, Combination(ns, points)) == Combination(Scale(k, ns), points)
  {
    hide Group, Normal, SMul, GAdd;
    if ns == [] {
      SMulIdentity(k);
    } else {
      ScaleCombination(k, ns[1..], points[1..]);
      assert Scale(k, ns)[1..] == Scale(k, ns[1..]);
      SMulNormal(ns[0], points[0]);
      CombinationNormal(ns[1..], points[1..]);
      SMulPlus(k, SMul(ns[0], points[0]), Combination(ns[1..], points[1..]));
      SMulMul(k, ns[0], points[0]);
    }
  }

  lemma {:induction false} ZeroCombination(ns: seq<int>, points: seq<Ext>)
    requires Group() && |ns| == |points| && (forall i :: 0 <= i < |ns| ==> ns[i] == 0)
    ensures Combination(ns, points) == IDENTITY
  {
    hide Group, Normal, SMul, GAdd;
    GroupMeans();
    if ns != [] {
      ZeroCombination(ns[1..], points[1..]);
      SMulZero(points[0]);
      IdentityNormal();
      PlusZero(IDENTITY);
    }
  }

  // ----------------------------------------------------------- columns

  /** What the digits above place i amount to, one number per scalar. */
  function Tails(base: int, ds: seq<seq<int>>, i: nat): (r: seq<int>)
    requires forall j :: 0 <= j < |ds| ==> i <= |ds[j]|
    ensures |r| == |ds| && forall j :: 0 <= j < |ds| ==> r[j] == Digits(base, ds[j][i..])
  {
    seq(|ds|, j requires 0 <= j < |ds| => Digits(base, ds[j][i..]))
  }

  /** The same with digit i already added for the first k scalars and only the shift for the rest. */
  function Partway(base: int, ds: seq<seq<int>>, i: nat, k: nat): (r: seq<int>)
    requires forall j :: 0 <= j < |ds| ==> i < |ds[j]|
    ensures |r| == |ds|
    ensures forall j :: 0 <= j < |ds| ==> r[j] == (if j < k then ds[j][i] else 0) + base * Digits(base, ds[j][i + 1..])
  {
    seq(|ds|, j requires 0 <= j < |ds| => (if j < k then ds[j][i] else 0) + base * Digits(base, ds[j][i + 1..]))
  }

  lemma PartwayStart(base: int, ds: seq<seq<int>>, i: nat)
    requires forall j :: 0 <= j < |ds| ==> i < |ds[j]|
    ensures Partway(base, ds, i, 0) == Scale(base, Tails(base, ds, i + 1))
  {
  }

  lemma PartwayStep(base: int, ds: seq<seq<int>>, i: nat, k: nat)
    requires (forall j :: 0 <= j < |ds| ==> i < |ds[j]|) && k < |ds|
    ensures var p := Partway(base, ds, i, k); Partway(base, ds, i, k + 1) == p[k := p[k] + ds[k][i]]
  {
  }

  lemma PartwayEnd(base: int, ds: seq<seq<int>>, i: nat)
    requires forall j :: 0 <= j < |ds| ==> i < |ds[j]|
    ensures Partway(base, ds, i, |ds|) == Tails(base, ds, i)
  {
    forall j | 0 <= j < |ds| ensures Partway(base, ds, i, |ds|)[j] == Tails(base, ds, i)[j] {
      DigitsStep(base, ds[j], i);
    }
  }

  ghost function Values(xs: seq<Scalar>): (r: seq<int>)
    reads xs
    ensures |r| == |xs| && forall j :: 0 <= j < |xs| ==> r[j] == xs[j].Value()
  {
    seq(|xs|, j requires 0 <= j < |xs| reads xs => xs[j].Value())
  }

  ghost function Normals(ps: seq<Point>): (r: seq<Ext>)
    reads ps
    ensures |r| == |ps| && forall j :: 0 <= j < |ps| ==> r[j] == Nf(ps[j].Co())
  {
    seq(|ps|, j requires 0 <= j < |ps| reads ps => Nf(ps[j].Co()))
  }

  // ------------------------------------------- the variable-time version

  ghost predicate NafTables(tables: seq<NafLookupTable5>, points: seq<Ext>)
    reads tables, set i, k | 0 <= i < |tables| && 0 <= k < |tables[i].points| :: tables[i].points[k]
  {
    |tables| == |points| && forall i :: 0 <= i < |tables| ==> tables[i].Holds(points[i])
  }

  method BuildNafTables(ps: seq<Point>) returns (tables: seq<NafLookupTable5>)
    requires Group() && forall j :: 0 <= j < |ps| ==> Valid(ps[j].Co())
    ensures NafTables(tables, Normals(ps)) && AllNormal(Normals(ps))
    ensures forall t :: t in tables ==> fresh(t) && forall k :: 0 <= k < |t.points| ==> fresh(t.points[k])
  {
    hide Group, Nf, Valid, Normal, R, NafLookupTable5.Holds;
    GroupMeans();
    tables := [];
    ghost var a := Normals(ps);
    for i := 0 to |ps|
      invariant |tables| == i
      invariant forall j :: 0 <= j < i ==> tables[j].Holds(a[j]) && Normal(a[j])
      invariant forall j :: 0 <= j < i ==> fresh(tables[j]) && |tables[j].points| == 8
      invariant forall j, k :: 0 <= j < i && 0 <= k < 8 ==> fresh(tables[j].points[k])
    {
      var t := new NafLookupTable5();
      ElementNormal(ps[i].Co(), a[i]);
      t.FromP3(ps[i], a[i]);
      NafTableSize(t, a[i]);
      tables := tables + [t];
    }
  }

  lemma NafTableSize(t: NafLookupTable5, a: Ext)
    requires t.Holds(a)
    ensures |t.points| == 8
  {
  }

  method BuildNafs(xs: seq<Scalar>) returns (nafs: seq<seq<int8>>)
    ensures |nafs| == |xs|
    ensures forall j :: 0 <= j < |xs| ==> |nafs[j]| == 256 && NonAdjacent(nafs[j], 5) && Digits(2, nafs[j]) == xs[j].Value()
  {
    hide Digits, NonAdjacent, R;
    nafs := [];
    for i := 0 to |xs|
      invariant |nafs| == i
      invariant forall j :: 0 <= j < i ==> |nafs[j]| == 256 && NonAdjacent(nafs[j], 5) && Digits(2, nafs[j]) == xs[j].Value()
    {
      var naf := NafOf(xs[i], 5);
      nafs := nafs + [naf];
    }
  }

  /** The inner loop: digit i of every scalar. */
  method NafColumn(v: Point, tmp1: P1xP1, multiple: ProjCached, tables: seq<NafLookupTable5>, nafs: seq<seq<int8>>, i: nat, ghost points: seq<Ext>)
    requires Group() && AllNormal(points) && NafTables(tables, points) && |nafs| == |points| && i < 256
    requires forall j :: 0 <= j < |nafs| ==> |nafs[j]| == 256 && NonAdjacent(nafs[j], 5)
    requires forall t :: t in tables ==> multiple !in t.points
    requires IsC(tmp1.Co(), Combination(Partway(2, nafs, i, 0), points))
    modifies v, tmp1, multiple
    ensures IsC(tmp1.Co(), Combination(Tails(2, nafs, i), points))
    ensures NafTables(tables, points)
  {
    hide Group, IsC, GAdd, SMul, R, Normal, Digits, NonAdjacent, NafLookupTable5.Holds, Combination, Partway, Tails;
    for j := 0 to |nafs|
      invariant NafTables(tables, points)
      invariant IsC(tmp1.Co(), Combination(Partway(2, nafs, i, j), points))
    {
      ghost var p := Partway(2, nafs, i, j);
      DigitOfNaf(nafs[j], 5, i);
      ApplyDigit(v, tmp1, tables[j], multiple, nafs[j][i], Combination(p, points), points[j]);
      RaiseCoefficient(p, points, j, nafs[j][i]);
      PartwayStep(2, nafs, i, j);
    }
    PartwayEnd(2, nafs, i);
  }

  lemma DoubleCombination(ns: seq<int>, points: seq<Ext>)
    requires Group() && |ns| == |points| && AllNormal(points)
    ensures var c := Combination(ns, points); GAdd(c, c) == Combination(Scale(2, ns), points)
  {
    hide Group, Normal, SMul, GAdd, Combination, Scale;
    var c := Combination(ns, points);
    CombinationNormal(ns, points);
    SMulOne(c);
    DoubleMultiple(1, c);
    ScaleCombination(2, ns, points);
  }

  method NafRound(v: Point, tmp1: P1xP1, tmp2: P2, multiple: ProjCached, tables: seq<NafLookupTable5>, nafs: seq<seq<int8>>, i: nat, ghost points: seq<Ext>)
    requires Group() && AllNormal(points) && NafTables(tables, points) && |nafs| == |points| && i < 256
    requires forall j :: 0 <= j < |nafs| ==> |nafs[j]| == 256 && NonAdjacent(nafs[j], 5)
    requires forall t :: t in tables ==> multiple !in t.points
    requires IsP(tmp2.Co(), Combination(Tails(2, nafs, i + 1), points))
    modifies v, tmp1, tmp2, multiple
    ensures IsP(tmp2.Co(), Combination(Tails(2, nafs, i), points))
    ensures NafTables(tables, points)
  {
    hide Group, IsC, IsP, GAdd, SMul, R, Normal, Digits, NonAdjacent, NafLookupTable5.Holds, Combination, Partway, Tails, Scale, Curve.Double, ToProj;
    GroupMeans();
    ghost var ns := Tails(2, nafs, i + 1);
    DoubleIs(tmp2.Co(), Combination(ns, points));
    DoubleCombination(ns, points);
    PartwayStart(2, nafs, i);
    tmp1.Double(tmp2);
    NafColumn(v, tmp1, multiple, tables, nafs, i, points);
    CompletedToProj(tmp1.Co(), Combination(Tails(2, nafs, i), points));
    tmp2.FromP1xP1(tmp1);
  }

  method NafLoop(v: Point, tmp2: P2, tables: seq<NafLookupTable5>, nafs: seq<seq<int8>>, ghost points: seq<Ext>)
    requires Group() && AllNormal(points) && NafTables(tables, points) && |nafs| == |points|
    requires forall j :: 0 <= j < |nafs| ==> |nafs[j]| == 256 && NonAdjacent(nafs[j], 5)
    requires IsP(tmp2.Co(), IDENTITY)
    modifies v, tmp2
    ensures IsP(tmp2.Co(), Combination(Tails(2, nafs, 0), points))
  {
    hide Group, IsC, IsP, GAdd, SMul, R, Normal, NonAdjacent, NafLookupTable5.Holds, Combination, Tails;
    EmptyTails(2, nafs);
    ZeroCombination(Tails(2, nafs, 256), points);
    hide Digits;
    var multiple := new ProjCached();
    var tmp1 := new P1xP1();
    var i := 255;
    while i >= 0
      invariant -1 <= i <= 255 && fresh(multiple) && fresh(tmp1)
      invariant NafTables(tables, points) && forall t :: t in tables ==> multiple !in t.points
      invariant IsP(tmp2.Co(), Combination(Tails(2, nafs, i + 1), points))
    {
      NafRound(v, tmp1, tmp2, multiple, tables, nafs, i, points);
      i := i - 1;
    }
  }

  lemma EmptyTails(base: int, ds: seq<seq<int>>)
    requires forall j :: 0 <= j < |ds| ==> |ds[j]| == 256
    ensures forall j :: 0 <= j < |ds| ==> Tails(base, ds, 256)[j] == 0
  {
  }

  lemma WholeTails(base: int, ds: seq<seq<int>>, ns: seq<int>)
    requires |ds| == |ns| && forall j :: 0 <= j < |ds| ==> Digits(base, ds[j]) == ns[j]
    ensures Tails(base, ds, 0) == ns
  {
    forall j | 0 <= j < |ds| ensures Tails(base, ds, 0)[j] == ns[j] {
      assert ds[j][0..] == ds[j];
    }
  }

  /** VarTimeMultiScalarMult: v = sum of x_i P_i, whatever v held before, for any number of
      pairs; v may be one of the points. */
  method VarTimeMultiScalarMult(v: Point, xs: seq<Scalar>, ps: seq<Point>)
    requires Group() && |xs| == |ps| && forall j :: 0 <= j < |ps| ==> Valid(ps[j].Co())
    modifies v
    ensures Valid(v.Co())
    ensures Nf(v.Co()) == Combination(old(Values(xs)), old(Normals(ps)))
  {
    hide Group, IsP, R, Normal, Digits, NonAdjacent, NafLookupTable5.Holds, Nf, Valid, ProjToExt, Combination, Tails;
    GroupMeans();
    ghost var points, ns := Normals(ps), Values(xs);
    var tables := BuildNafTables(ps);
    var nafs := BuildNafs(xs);
    WholeTails(2, nafs, ns);
    var tmp2 := new P2();
    tmp2.Zero();
    IdentityIs();
    NafLoop(v, tmp2, tables, nafs, points);
    ProjToExtIs(tmp2.Co(), Combination(ns, points));
    v.FromP2(tmp2);
    ElementMeans(v.Co(), Combination(ns, points));
  }

  // ------------------------------------- MultiScalarMult and its receiver

  /** The zero value of Point, as new(Point) makes it: Z is 0, so it is not a point. */
  const NO_POINT: Ext := Ext(0, 0, 0, 0)

  /** What the accumulator holds: nothing but zeros for ever, or a group element. */
  ghost predicate Stands(p: Ext, zero: bool, c: Ext) { if zero then p == NO_POINT else IsE(p, c) }

  /** Zeros stay zeros under addition of anything and under doubling. */
  lemma ZerosStay(k: Cached)
    ensures ToExt(AddCached(NO_POINT, k)) == NO_POINT
    ensures ToExt(Double(Drop(NO_POINT))) == NO_POINT
    ensures Drop(ToExt(Double(Drop(NO_POINT)))) == Drop(NO_POINT)
  {
    assert Open(0);
    ZeroTimes(k.YplusX);
    ZeroTimes(k.YminusX);
    ZeroTimes(k.T2d);
    ZeroTimes(k.Z);
    ZeroTimes(0);
    SmallMod(0, P);
  }

  lemma ZeroTimes(x: int)
    ensures FMul(0, x) == 0
  {
    assert Open(0);
  }

  /** v = v + d a by the signed table. */
  method AddAny(v: Point, tmp1: P1xP1, table: ProjLookupTable, multiple: ProjCached, d: int8, ghost zero: bool, ghost c: Ext, ghost a: Ext)
    requires Group() && Stands(v.Co(), zero, c) && table.Holds(a) && -8 <= d <= 8 && multiple !in table.points
    modifies v, multiple, tmp1
    ensures Stands(v.Co(), zero, GAdd(c, SMul(d, a)))
  {
    hide Group, IsE, IsK, GAdd, SMul, R, Normal, Picked, Multiples, AddCached, ToExt;
    GroupMeans();
    PickedIs(Stored(table.points), d, a);
    table.SelectInto(multiple, d);
    ZerosStay(multiple.Co());
    if !zero { AddIs(v.Co(), c, multiple.Co(), SMul(d, a)); }
    tmp1.Add(v, multiple);
    v.FromP1xP1(tmp1);
  }

  /** The source's four doublings, from P3 through P2 back to P3. */
  method SixteenAny(v: Point, tmp1: P1xP1, tmp2: P2, ghost zero: bool, ghost c: Ext)
    requires Group() && Stands(v.Co(), zero, c) && tmp2.Co() == Drop(v.Co()) && (zero || Normal(c))
    modifies v, tmp1, tmp2
    ensures Stands(v.Co(), zero, SMul(16, c))
  {
    hide Group, IsE, IsC, IsP, GAdd, SMul, R, Normal, Curve.Double, ToExt, ToProj;
    GroupMeans();
    ZerosStay(Cached(0, 0, 0, 0));
    ZeroProj();
    if !zero {
      ExtToProj(v.Co(), c);
      DoubleIs(tmp2.Co(), c);
      SMulOne(c);
      DoubleMultiple(1, c);
      DoubleMultiple(2, c);
      DoubleMultiple(4, c);
      DoubleMultiple(8, c);
    }
    tmp1.Double(tmp2);
    DoubleAny(tmp1, tmp2, zero, SMul(2, c));
    DoubleAny(tmp1, tmp2, zero, SMul(4, c));
    DoubleAny(tmp1, tmp2, zero, SMul(8, c));
    if !zero { CompletedMeans(tmp1.Co(), SMul(16, c)); }
    v.FromP1xP1(tmp1);
  }

  ghost predicate StandsC(k: Comp, zero: bool, c: Ext) { if zero then k == Comp(0, 0, 0, 0) else IsC(k, c) }

  lemma ZeroProj()
    ensures Double(Drop(NO_POINT)) == Comp(0, 0, 0, 0) && ToProj(Comp(0, 0, 0, 0)) == Drop(NO_POINT)
    ensures ToExt(Comp(0, 0, 0, 0)) == NO_POINT
  {
    hide FMul;
    ZeroTimes(0);
    ModIs(0);
  }

  method DoubleAny(tmp1: P1xP1, tmp2: P2, ghost zero: bool, ghost b: Ext)
    requires Group() && StandsC(tmp1.Co(), zero, b)
    modifies tmp1, tmp2
    ensures StandsC(tmp1.Co(), zero, GAdd(b, b))
  {
    hide Group, IsC, GAdd, R, Curve.Double, ToProj;
    if !zero {
      ghost var k := tmp1.Co();
      GroupMeans();
      CompletedToProj(k, b);
      DoubleIs(ToProj(k), b);
    }
    ZeroProj();
    tmp2.FromP1xP1(tmp1);
    tmp1.Double(tmp2);
  }

  /** w v0 plus a combination. */
  ghost function Shifted(w: int, v0: Ext, ns: seq<int>, points: seq<Ext>): Ext
    requires |ns| == |points|
  {
    GAdd(SMul(w, v0), Combination(ns, points))
  }

  lemma RaiseShifted(w: int, v0: Ext, ns: seq<int>, points: seq<Ext>, j: nat, d: int)
    requires Group() && Normal(v0) && |ns| == |points| && AllNormal(points) && j < |ns|
    ensures GAdd(Shifted(w, v0, ns, points), SMul(d, points[j])) == Shifted(w, v0, ns[j := ns[j] + d], points)
  {
    hide Group, Normal, SMul, GAdd, Combination;
    SMulNormal(w, v0);
    SMulNormal(d, points[j]);
    CombinationNormal(ns, points);
    PlusAssoc(SMul(w, v0), Combination(ns, points), SMul(d, points[j]));
    RaiseCoefficient(ns, points, j, d);
  }

  lemma ScaleShifted(w: int, v0: Ext, ns: seq<int>, points: seq<Ext>)
    requires Group() && Normal(v0) && |ns| == |points| && AllNormal(points)
    ensures SMul(16, Shifted(w, v0, ns, points)) == Shifted(16 * w, v0, Scale(16, ns), points)
    ensures Normal(Shifted(w, v0, ns, points))
  {
    hide Group, Normal, SMul, GAdd, Combination, Scale;
    GroupMeans();
    SMulNormal(w, v0);
    CombinationNormal(ns, points);
    PlusNormal(SMul(w, v0), Combination(ns, points));
    SMulPlus(16, SMul(w, v0), Combination(ns, points));
    SMulMul(16, w, v0);
    ScaleCombination(16, ns, points);
  }

  ghost predicate ProjTables(tables: seq<ProjLookupTable>, points: seq<Ext>)
    reads tables, set i, k | 0 <= i < |tables| && 0 <= k < |tables[i].points| :: tables[i].points[k]
  {
    |tables| == |points| && forall i :: 0 <= i < |tables| ==> tables[i].Holds(points[i])
  }

  method BuildProjTables(ps: seq<Point>) returns (tables: seq<ProjLookupTable>)
    requires Group() && forall j :: 0 <= j < |ps| ==> Valid(ps[j].Co())
    ensures ProjTables(tables, Normals(ps)) && AllNormal(Normals(ps))
    ensures forall t :: t in tables ==> fresh(t) && forall k :: 0 <= k < |t.points| ==> fresh(t.points[k])
  {
    hide Group, Nf, Valid, Normal, R, ProjLookupTable.Holds;
    GroupMeans();
    tables := [];
    ghost var a := Normals(ps);
    for i := 0 to |ps|
      invariant |tables| == i
      invariant forall j :: 0 <= j < i ==> tables[j].Holds(a[j]) && Normal(a[j])
      invariant forall j :: 0 <= j < i ==> fresh(tables[j]) && |tables[j].points| == 8
      invariant forall j, k :: 0 <= j < i && 0 <= k < 8 ==> fresh(tables[j].points[k])
    {
      var t := new ProjLookupTable();
      ElementNormal(ps[i].Co(), a[i]);
      t.FromP3(ps[i], a[i]);
      ScalarMult.TableSize(t, a[i]);
      tables := tables + [t];
    }
  }

  method BuildDigits(xs: seq<Scalar>) returns (ds: seq<seq<int8>>)
    ensures |ds| == |xs| && forall j :: 0 <= j < |xs| ==> SmallDigits(ds[j]) && Digits(16, ds[j]) == xs[j].Value()
  {
    hide Digits, R;
    ds := [];
    for i := 0 to |xs|
      invariant |ds| == i
      invariant forall j :: 0 <= j < i ==> SmallDigits(ds[j]) && Digits(16, ds[j]) == xs[j].Value()
    {
      var d := DigitsOf(xs[i]);
      ds := ds + [d];
    }
  }

  predicate SmallDigits(d: seq<int8>) { |d| == 64 && forall i :: 0 <= i < 64 ==> -8 <= d[i] <= 8 }

  /** The inner loop: digit i of every scalar. */
  method DigitColumn(v: Point, tmp1: P1xP1, multiple: ProjCached, tables: seq<ProjLookupTable>, ds: seq<seq<int8>>, i: nat,
      ghost zero: bool, ghost w: int, ghost v0: Ext, ghost points: seq<Ext>)
    requires Group() && AllNormal(points) && Normal(v0) && ProjTables(tables, points) && |ds| == |points| && i < 64
    requires forall j :: 0 <= j < |ds| ==> |ds[j]| == 64
    requires forall j :: 0 <= j < |ds| ==> SmallDigits(ds[j])
    requires forall t :: t in tables ==> multiple !in t.points
    requires Stands(v.Co(), zero, Shifted(w, v0, Partway(16, ds, i, 0), points))
    modifies v, tmp1, multiple
    ensures Stands(v.Co(), zero, Shifted(w, v0, Tails(16, ds, i), points))
    ensures ProjTables(tables, points)
  {
    hide Group, Stands, GAdd, SMul, R, Normal, Digits, ProjLookupTable.Holds, Shifted, Partway, Tails;
    for j := 0 to |ds|
      invariant ProjTables(tables, points)
      invariant Stands(v.Co(), zero, Shifted(w, v0, Partway(16, ds, i, j), points))
    {
      ghost var p := Partway(16, ds, i, j);
      AddAny(v, tmp1, tables[j], multiple, ds[j][i], zero, Shifted(w, v0, p, points), points[j]);
      RaiseShifted(w, v0, p, points, j, ds[j][i]);
      PartwayStep(16, ds, i, j);
    }
    PartwayEnd(16, ds, i);
  }

  /** One round: sixteen times, then the column. */
  method DigitRound(v: Point, tmp1: P1xP1, tmp2: P2, multiple: ProjCached, tables: seq<ProjLookupTable>, ds: seq<seq<int8>>, i: nat,
      ghost zero: bool, ghost w: int, ghost v0: Ext, ghost points: seq<Ext>)
    requires Group() && AllNormal(points) && Normal(v0) && ProjTables(tables, points) && |ds| == |points| && i < 63
    requires forall j :: 0 <= j < |ds| ==> |ds[j]| == 64
    requires forall j :: 0 <= j < |ds| ==> SmallDigits(ds[j])
    requires forall t :: t in tables ==> multiple !in t.points
    requires tmp2.Co() == Drop(v.Co()) && Stands(v.Co(), zero, Shifted(w, v0, Tails(16, ds, i + 1), points))
    modifies v, tmp1, tmp2, multiple
    ensures tmp2.Co() == Drop(v.Co()) && Stands(v.Co(), zero, Shifted(16 * w, v0, Tails(16, ds, i), points))
    ensures ProjTables(tables, points)
  {
    hide Group, Stands, GAdd, SMul, R, Normal, Digits, ProjLookupTable.Holds, Shifted, Partway, Tails, Scale;
    ghost var ns := Tails(16, ds, i + 1);
    ScaleShifted(w, v0, ns, points);
    SixteenAny(v, tmp1, tmp2, zero, Shifted(w, v0, ns, points));
    PartwayStart(16, ds, i);
    DigitColumn(v, tmp1, multiple, tables, ds, i, zero, 16 * w, v0, points);
    tmp2.FromP3(v);
  }

  method DigitLoop(v: Point, tables: seq<ProjLookupTable>, ds: seq<seq<int8>>, ghost zero: bool, ghost v0: Ext, ghost points: seq<Ext>)
    requires Group() && AllNormal(points) && Normal(v0) && ProjTables(tables, points) && |ds| == |points|
    requires forall j :: 0 <= j < |ds| ==> |ds[j]| == 64
    requires forall j :: 0 <= j < |ds| ==> SmallDigits(ds[j])
    requires Stands(v.Co(), zero, v0)
    modifies v
    ensures Stands(v.Co(), zero, Shifted(Weight(16, 63), v0, Tails(16, ds, 0), points))
  {
    hide Group, Stands, GAdd, SMul, R, Normal, Digits, ProjLookupTable.Holds, Shifted, Partway, Tails, Weight;
    var multiple := new ProjCached();
    var tmp1 := new P1xP1();
    var tmp2 := new P2();
    FirstColumn(ds, v0, points);
    DigitColumn(v, tmp1, multiple, tables, ds, 63, zero, 1, v0, points);
    tmp2.FromP3(v);
    WeightOne();
    var i := 62;
    while i >= 0
      invariant -1 <= i <= 62 && fresh(multiple) && fresh(tmp1) && fresh(tmp2)
      invariant ProjTables(tables, points) && forall t :: t in tables ==> multiple !in t.points
      invariant tmp2.Co() == Drop(v.Co()) && Stands(v.Co(), zero, Shifted(Weight(16, 62 - i), v0, Tails(16, ds, i + 1), points))
    {
      WeightNext(62 - i);
      DigitRound(v, tmp1, tmp2, multiple, tables, ds, i, zero, Weight(16, 62 - i), v0, points);
      i := i - 1;
    }
  }

  lemma WeightOne()
    ensures Weight(16, 0) == 1
  {
  }

  lemma WeightNext(k: nat)
    ensures Weight(16, k + 1) == 16 * Weight(16, k)
  {
  }

  /** Before the first column the combination is empty and the receiver counts once. */
  lemma FirstColumn(ds: seq<seq<int>>, v0: Ext, points: seq<Ext>)
    requires Group() && Normal(v0) && |ds| == |points| && forall j :: 0 <= j < |ds| ==> |ds[j]| == 64
    ensures Shifted(1, v0, Partway(16, ds, 63, 0), points) == v0
  {
    hide Group, GAdd, SMul, Normal;
    GroupMeans();
    forall j | 0 <= j < |ds| ensures Partway(16, ds, 63, 0)[j] == 0 {
      DigitsEnd(16, ds[j]);
    }
    ZeroCombination(Partway(16, ds, 63, 0), points);
    SMulOne(v0);
    PlusZero(v0);
  }

  /** MultiScalarMult: what it computes is 16^63 v0 + sum of x_i P_i, where v0 is the receiver
      on entry; and a zero-value receiver stays the invalid zero value. */
  method MultiScalarMult(v: Point, xs: seq<Scalar>, ps: seq<Point>)
    requires Group() && |xs| == |ps| && forall j :: 0 <= j < |ps| ==> Valid(ps[j].Co())
    requires Valid(v.Co()) || v.Co() == NO_POINT
    modifies v
    ensures old(v.Co()) == NO_POINT ==> v.Co() == NO_POINT
    ensures old(Valid(v.Co())) ==> Valid(v.Co())
    ensures old(Valid(v.Co())) ==> Nf(v.Co()) == GAdd(SMul(Weight(16, 63), old(Nf(v.Co()))), Combination(old(Values(xs)), old(Normals(ps))))
  {
    hide Group, GAdd, SMul, R, Normal, Digits, ProjLookupTable.Holds, Nf, Combination, Tails, Weight, OnCurve;
    GroupMeans();
    ghost var points, ns := Normals(ps), Values(xs);
    ghost var zero := v.Co() == NO_POINT;
    ghost var v0 := if zero then IDENTITY else Nf(v.Co());
    IdentityNormal();
    if !zero { ElementNormal(v.Co(), v0); }
    var tables := BuildProjTables(ps);
    var ds := BuildDigits(xs);
    WholeTails(16, ds, ns);
    DigitLoop(v, tables, ds, zero, v0, points);
  }

  /** So the documented sum comes out exactly when 16^63 v0 is the identity. */
  lemma SumExactlyWhenShiftVanishes(v0: Ext, ns: seq<int>, points: seq<Ext>)
    requires Group() && Normal(v0) && |ns| == |points| && AllNormal(points)
    ensures GAdd(SMul(Weight(16, 63), v0), Combination(ns, points)) == Combination(ns, points)
      <==> SMul(Weight(16, 63), v0) == IDENTITY
  {
    hide Group, GAdd, SMul, Normal, Weight, Combination;
    GroupMeans();
    var c, u := Combination(ns, points), SMul(Weight(16, 63), v0);
    CombinationNormal(ns, points);
    SMulNormal(Weight(16, 63), v0);
    IdentityNormal();
    PlusZero(c);
    if GAdd(u, c) == c { CancelRight(u, IDENTITY, c); }
  }

  // ----------------------------------------- which receivers are harmless

  /** The order of the curve group is 8 l: a fact about the curve, taken as a hypothesis. */
  ghost predicate Exponent()
  {
    forall a: Ext :: Normal(a) ==> SMul(8 * Montgomery.L, a) == IDENTITY
  }

  lemma ExponentAt(a: Ext)
    requires Exponent() && Normal(a)
    ensures SMul(8 * Montgomery.L, a) == IDENTITY
  {
  }

  const TWO_249: int := 0x200000000000000000000000000000000000000000000000000000000000000

  lemma ShiftWeight()
    ensures Weight(16, 63) == 8 * TWO_249
  {
    assert Weight(16, 7) == 0x10000000 by { assert Weight(16, 4) == 0x10000; }
    hide Weight;
    WeightAdd(16, 7, 7);
    WeightAdd(16, 14, 7);
    WeightAdd(16, 21, 21);
    WeightAdd(16, 42, 21);
  }

  lemma {:induction false} WeightAdd(base: nat, m: nat, n: nat)
    ensures Weight(base, m + n) == Weight(base, m) * Weight(base, n)
  {
    if m > 0 {
      WeightAdd(base, m - 1, n);
      assert base * (Weight(base, m - 1) * Weight(base, n)) == (base * Weight(base, m - 1)) * Weight(base, n);
    }
  }

  /** 2^252 and 8 l have greatest common divisor 8: u 2^252 - w 8 l = 8. */
  const BEZOUT_U: int := 0xdb637937f48c1b0a73aa1c7fd1b5f559ef31375f848dd14ddcc20165c9fffca

  const BEZOUT_W: int := 775252096242244240105146087358656129955233913752307489509620973240078073371

  /** The documented sum comes out exactly when 8 v0 is the identity: for a receiver the caller
      can test with MultByCofactor, and for no receiver of order divisible by l. */
  lemma ShiftVanishesOnTorsion(v0: Ext)
    requires Group() && Exponent() && Normal(v0)
    ensures SMul(Weight(16, 63), v0) == IDENTITY <==> SMul(8, v0) == IDENTITY
  {
    hide Group, Exponent, SMul, Normal, GAdd, Weight;
    GroupMeans();
    ShiftWeight();
    if SMul(8, v0) == IDENTITY {
      SMulMul(TWO_249, 8, v0);
      SMulIdentity(TWO_249);
    }
    if SMul(Weight(16, 63), v0) == IDENTITY {
      SMulMul(BEZOUT_U, 8 * TWO_249, v0);
      SMulIdentity(BEZOUT_U);
      ExponentAt(v0);
      SMulMulInt(-BEZOUT_W, 8 * Montgomery.L, v0);
      SMulIdentity(BEZOUT_W);
      SMulNeg(BEZOUT_W, IDENTITY) by { IdentityNormal(); }
      OppositeOfIdentity();
      SMulAdd(BEZOUT_U * (8 * TWO_249), -BEZOUT_W * (8 * Montgomery.L), v0);
      IdentityNormal();
      PlusZero(IDENTITY);
      assert BEZOUT_U * (8 * TWO_249) + -BEZOUT_W * (8 * Montgomery.L) == 8;
    }
  }

  lemma OppositeOfIdentity()
    requires Group()
    ensures GNeg(IDENTITY) == IDENTITY
  {
    hide Group, Normal, GAdd, GNeg;
    GroupMeans();
    IdentityNormal();
    PlusZero(IDENTITY);
    MinusUnique(IDENTITY, IDENTITY);
  }

  /** Concretely: the zero value is a receiver for which the result is wrong even for no pairs
      at all. It passes isOnCurve and Equal against anything, yet it is not a point, and its
      encoding is not that of the identity. */
  lemma ZeroReceiverIsWrong()
    ensures !Valid(NO_POINT) && OnCurve(NO_POINT) && Same(NO_POINT, IDENTITY)
    ensures Encode(NO_POINT) != Encode(IDENTITY)
  {
    assert Open(0);
    assert OnCurve(NO_POINT);
    hide FPow, ToBytes, LittleEndian;
    EncodedNumber(NO_POINT);
    EncodedNumber(IDENTITY);
    var i, j := FPow(0, P - 2), FPow(1, P - 2);
    ZeroTimes(i);
    FPowRange(1, P - 2);
    OneToThe(P - 2);
    MulOne(1);
  }

  lemma OneToThe(e: nat)
    ensures FPow(1, e) == 1
  {
    PowOne(e);
    SmallMod(1, P);
  }

  lemma ProductIs(x: int, y: int, q: int, r: int)
    requires x * y == q * P + r && 0 <= r < P
    ensures FMul(x, y) == r
  {
    assert Open(0);
    QuotientUnique(x * y, q, r, P);
  }

  lemma SumIsResidue(x: int, y: int, r: int)
    requires (x + y == r || x + y == r + P) && 0 <= r < P
    ensures FAdd(x, y) == r
  {
    assert Open(0);
    QuotientUnique(x + y, if x + y == r then 0 else 1, r, P);
  }

  lemma DifferenceIsResidue(x: int, y: int, r: int)
    requires (x - y == r || x - y == r - P) && 0 <= r < P
    ensures FSub(x, y) == r
  {
    assert Open(0);
    QuotientUnique(x - y, if x - y == r then 0 else -1, r, P);
  }

  /** The basepoint doubled three times, in projective coordinates. */
  const ONE_B: Proj := Proj(BASE_X, BASE_Y, 1)

  const TWO_B: Proj := Proj(0x4edbe2246583dab515ddb478484f06f677913e22058e9da4854579b3e7cff596,
    0x4cdb67b39336cc2496487d03c536ae09f5b85599d441cde36db4d326a1d28016,
    0x16793a8694a883a8bf672e05c4bd9d6d142c9effcc6d662e9c8b56c2fd872182)

  const FOUR_B: Proj := Proj(0x5291d6f6d2e606a16c040cbad08804427c11ee467fecf24fa52587116fdfa58,
    0x6d367c51ff6f52cac627ee7a1560b7b2419bc2293bb3d6f0b3c3ad867f4cf711,
    0x7919469cdf5224eeab72f275f27470023af6529b388233d1db6c3eebbea1435)

  const EIGHT_B: Proj := Proj(0x1eec76255170af77471d9b193f040fcc9c2aea98151359a75f7fef6e26624a13,
    0x7fa6c48d0bc95630e8f0bea65bb157cefa19515f04161aeb2eeae0d8108fa7be,
    0x2ade1a3dcfba471a4f8f714e987f8a8d090c8c78a59143404708bc4ca36e81fe)

  lemma Doubling1()
    ensures ToProj(Double(ONE_B)) == TWO_B
  {
    hide FMul, FAdd, FSub;
    ProductIs(0x216936d3cd6e53fec0a4e231fdd6dc5c692cc7609525a7b2c9562d608f25d51a, 0x216936d3cd6e53fec0a4e231fdd6dc5c692cc7609525a7b2c9562d608f25d51a, 0x8b896c140e6001ed198b5b7b564c5e7c4cea7656ac92ed1492ba58553286991, 0x39e5a76b6f33fadbc92a232fdb1c32f2ebe39c555ccb6a7d690b8a0f82e81c67);
    ProductIs(0x6666666666666666666666666666666666666666666666666666666666666658, 0x6666666666666666666666666666666666666666666666666666666666666658, 0x51eb851eb851eb851eb851eb851eb851eb851eb851eb851eb851eb851eb851e0, 0x51eb851eb851eb851eb851eb851eb851eb851eb851eb851eb851eb851eb851e0);
    ProductIs(0x1, 0x1, 0x0, 0x1);
    SumIsResidue(0x1, 0x1, 0x2);
    SumIsResidue(0x216936d3cd6e53fec0a4e231fdd6dc5c692cc7609525a7b2c9562d608f25d51a, 0x6666666666666666666666666666666666666666666666666666666666666658, 0x7cf9d3a33d4ba65270b4898643d42c2cf932dc6fb8c0e192fbc93c6f58c3b85);
    ProductIs(0x7cf9d3a33d4ba65270b4898643d42c2cf932dc6fb8c0e192fbc93c6f58c3b85, 0x7cf9d3a33d4ba65270b4898643d42c2cf932dc6fb8c0e192fbc93c6f58c3b85, 0x7a05f1a70bca0ad67579f5a1c72614b9750ff71aa5a40ee427e54a389e663e, 0x5adfeaa9d69cd32bb5b712382992b23f1949fa0e9d599586fd1a8afbed1029b3);
    SumIsResidue(0x51eb851eb851eb851eb851eb851eb851eb851eb851eb851eb851eb851eb851e0, 0x39e5a76b6f33fadbc92a232fdb1c32f2ebe39c555ccb6a7d690b8a0f82e81c67, 0xbd12c8a2785e660e7e2751b603aeb44d768bb0daeb6ef9c215d7594a1a06e5a);
    DifferenceIsResidue(0x51eb851eb851eb851eb851eb851eb851eb851eb851eb851eb851eb851eb851e0, 0x39e5a76b6f33fadbc92a232fdb1c32f2ebe39c555ccb6a7d690b8a0f82e81c67, 0x1805ddb3491df0a9558e2ebbaa02855effa18262f5201aa14f4661759bd03579);
    DifferenceIsResidue(0x5adfeaa9d69cd32bb5b712382992b23f1949fa0e9d599586fd1a8afbed1029b3, 0xbd12c8a2785e660e7e2751b603aeb44d768bb0daeb6ef9c215d7594a1a06e5a, 0x4f0ebe1faf16eccacdd49d1cc957c6fa41e13f00eea2a5eadbbd15674b6fbb59);
    DifferenceIsResidue(0x2, 0x1805ddb3491df0a9558e2ebbaa02855effa18262f5201aa14f4661759bd03579, 0x67fa224cb6e20f56aa71d14455fd7aa1005e7d9d0adfe55eb0b99e8a642fca76);
    ProductIs(0x4f0ebe1faf16eccacdd49d1cc957c6fa41e13f00eea2a5eadbbd15674b6fbb59, 0x67fa224cb6e20f56aa71d14455fd7aa1005e7d9d0adfe55eb0b99e8a642fca76, 0x40385af820fc4e79b898a285afff81e1933dcd72b64258d04adfee4f6937cf30, 0x4edbe2246583dab515ddb478484f06f677913e22058e9da4854579b3e7cff596);
    ProductIs(0xbd12c8a2785e660e7e2751b603aeb44d768bb0daeb6ef9c215d7594a1a06e5a, 0x1805ddb3491df0a9558e2ebbaa02855effa18262f5201aa14f4661759bd03579, 0x237c2fd58f986e057b432dd55beebf96560a1cf8effdab40fe2a837c85e9dc4, 0x4cdb67b39336cc2496487d03c536ae09f5b85599d441cde36db4d326a1d28016);
    ProductIs(0x1805ddb3491df0a9558e2ebbaa02855effa18262f5201aa14f4661759bd03579, 0x67fa224cb6e20f56aa71d14455fd7aa1005e7d9d0adfe55eb0b99e8a642fca76, 0x1383aa4b3bb2ec78fbb42b8d69c0bca431e96616ced9877a2000d9e89ef486d4, 0x16793a8694a883a8bf672e05c4bd9d6d142c9effcc6d662e9c8b56c2fd872182);
  }

  lemma Doubling2()
    ensures ToProj(Double(TWO_B)) == FOUR_B
  {
    hide FMul, FAdd, FSub;
    ProductIs(0x4edbe2246583dab515ddb478484f06f677913e22058e9da4854579b3e7cff596, 0x4edbe2246583dab515ddb478484f06f677913e22058e9da4854579b3e7cff596, 0x30957555bfcca2901d4a1ea43c92772e33ed7c08c23772235a06460617dd36d4, 0x19b71d7379bba5e65b17d5a3922509b4190d3ef091e6b7a88235645b8d9785a0);
    ProductIs(0x4cdb67b39336cc2496487d03c536ae09f5b85599d441cde36db4d326a1d28016, 0x4cdb67b39336cc2496487d03c536ae09f5b85599d441cde36db4d326a1d28016, 0x2e26033a6d50cec896c6210acca973815ec2e668669f3133db3731224ed85e4c, 0x544def67abf9ef6d07a89a82d2f4ad60843724bb7b88f898ff56245ea3d0188);
    ProductIs(0x16793a8694a883a8bf672e05c4bd9d6d142c9effcc6d662e9c8b56c2fd872182, 0x16793a8694a883a8bf672e05c4bd9d6d142c9effcc6d662e9c8b56c2fd872182, 0x3f21eef044d801391a07bfb9d480a7fca33bdd69d5823e34c80be744feadf49, 0x50b0de312985755a77d8c5c177c51f72082440132ba5e5078720a3393ded586f);
    SumIsResidue(0x50b0de312985755a77d8c5c177c51f72082440132ba5e5078720a3393ded586f, 0x50b0de312985755a77d8c5c177c51f72082440132ba5e5078720a3393ded586f, 0x2161bc62530aeab4efb18b82ef8a3ee410488026574bca0f0e4146727bdab0f1);
    SumIsResidue(0x4edbe2246583dab515ddb478484f06f677913e22058e9da4854579b3e7cff596, 0x4cdb67b39336cc2496487d03c536ae09f5b85599d441cde36db4d326a1d28016, 0x1bb749d7f8baa6d9ac26317c0d85b5006d4993bbd9d06b87f2fa4cda89a275bf);
    ProductIs(0x1bb749d7f8baa6d9ac26317c0d85b5006d4993bbd9d06b87f2fa4cda89a275bf, 0x1bb749d7f8baa6d9ac26317c0d85b5006d4993bbd9d06b87f2fa4cda89a275bf, 0x600599c6d13b83547b57c68f2592645d941b8d7ed63a87221b4cfec014b9939, 0x3e2b615ac5b8607fd71be60b355c1fc75aaf164018a9ce1cbe10a8efc28083bc);
    SumIsResidue(0x544def67abf9ef6d07a89a82d2f4ad60843724bb7b88f898ff56245ea3d0188, 0x19b71d7379bba5e65b17d5a3922509b4190d3ef091e6b7a88235645b8d9785a0, 0x1efbfc69f47b44dd2b925f4bbf54548a2150b13c499f4732122ac6a177d48728);
    DifferenceIsResidue(0x544def67abf9ef6d07a89a82d2f4ad60843724bb7b88f898ff56245ea3d0188, 0x19b71d7379bba5e65b17d5a3922509b4190d3ef091e6b7a88235645b8d9785a0, 0x6b8dc1830103f9107562b4049b0a4121ef36335b25d1d7e10dbffdea5ca57bd5);
    DifferenceIsResidue(0x3e2b615ac5b8607fd71be60b355c1fc75aaf164018a9ce1cbe10a8efc28083bc, 0x1efbfc69f47b44dd2b925f4bbf54548a2150b13c499f4732122ac6a177d48728, 0x1f2f64f0d13d1ba2ab8986bf7607cb3d395e6503cf0a86eaabe5e24e4aabfc94);
    DifferenceIsResidue(0x2161bc62530aeab4efb18b82ef8a3ee410488026574bca0f0e4146727bdab0f1, 0x6b8dc1830103f9107562b4049b0a4121ef36335b25d1d7e10dbffdea5ca57bd5, 0x35d3fadf5206f1a47a4ed77e547ffdc221124ccb3179f22e008148881f353509);
    ProductIs(0x1f2f64f0d13d1ba2ab8986bf7607cb3d395e6503cf0a86eaabe5e24e4aabfc94, 0x35d3fadf5206f1a47a4ed77e547ffdc221124ccb3179f22e008148881f353509, 0xd1d450b15507a271b85a798ee12386e948e6177851377d03f37f3b4b7d7c2cc, 0x5291d6f6d2e606a16c040cbad08804427c11ee467fecf24fa52587116fdfa58);
    ProductIs(0x1efbfc69f47b44dd2b925f4bbf54548a2150b13c499f4732122ac6a177d48728, 0x6b8dc1830103f9107562b4049b0a4121ef36335b25d1d7e10dbffdea5ca57bd5, 0x1a08f56c47d16097bd60e670dcb861b4a5f68ed570979e434aae1ceba44d7d33, 0x6d367c51ff6f52cac627ee7a1560b7b2419bc2293bb3d6f0b3c3ad867f4cf711);
    ProductIs(0x6b8dc1830103f9107562b4049b0a4121ef36335b25d1d7e10dbffdea5ca57bd5, 0x35d3fadf5206f1a47a4ed77e547ffdc221124ccb3179f22e008148881f353509, 0x2d3ad099c036f78d02a4fa95fbbaca1998f3de5c63030a4d9ea98c37407e2368, 0x7919469cdf5224eeab72f275f27470023af6529b388233d1db6c3eebbea1435);
  }

  lemma Doubling3()
    ensures ToProj(Double(FOUR_B)) == EIGHT_B
  {
    hide FMul, FAdd, FSub;
    ProductIs(0x5291d6f6d2e606a16c040cbad08804427c11ee467fecf24fa52587116fdfa58, 0x5291d6f6d2e606a16c040cbad08804427c11ee467fecf24fa52587116fdfa58, 0x35438196ae6fb6cafdef8a426b71b6fc60cad639deb956a1caf0a673b756e9, 0x128467230c034a6997d7ca142a18581e86d04c4cbc59339a2cd4010a7d5b718b);
    ProductIs(0x6d367c51ff6f52cac627ee7a1560b7b2419bc2293bb3d6f0b3c3ad867f4cf711, 0x6d367c51ff6f52cac627ee7a1560b7b2419bc2293bb3d6f0b3c3ad867f4cf711, 0x5d2ee2ed04f8325e2b9ecb1b06c4f4f2dbb9a171d9d38f4ad5be05420c3357d3, 0x341cf90440ddf15a76baf88a78bf9ed6e87ad5a7c663ede790cd77f9665953ca);
    ProductIs(0x7919469cdf5224eeab72f275f27470023af6529b388233d1db6c3eebbea1435, 0x7919469cdf5224eeab72f275f27470023af6529b388233d1db6c3eebbea1435, 0x7291ce7e5272de6d5f9fc9fc4faf077f101613d617b85e067247d91d6b1449, 0x86823aad25a11f2ac7fa8d6df885ec2a02481714d22988dc3cd75378f6ed464);
    SumIsResidue(0x86823aad25a11f2ac7fa8d6df885ec2a02481714d22988dc3cd75378f6ed464, 0x86823aad25a11f2ac7fa8d6df885ec2a02481714d22988dc3cd75378f6ed464, 0x10d04755a4b423e558ff51adbf10bd85404902e29a45311b879aea6f1edda8c8);
    SumIsResidue(0x5291d6f6d2e606a16c040cbad08804427c11ee467fecf24fa52587116fdfa58, 0x6d367c51ff6f52cac627ee7a1560b7b2419bc2293bb3d6f0b3c3ad867f4cf711, 0x725f99c16c9db334dce82f45c26937f6695ce10da3b2a615ae1605f7964af169);
    ProductIs(0x725f99c16c9db334dce82f45c26937f6695ce10da3b2a615ae1605f7964af169, 0x725f99c16c9db334dce82f45c26937f6695ce10da3b2a615ae1605f7964af169, 0x663291477d47ad3f141b29137864fc07d9d7725ab4da269649e825c9863470c4, 0x32ae27e9548dfc72744c9dececf15b6ffbd906924893f4c0008ea96a763f3b9d);
    SumIsResidue(0x341cf90440ddf15a76baf88a78bf9ed6e87ad5a7c663ede790cd77f9665953ca, 0x128467230c034a6997d7ca142a18581e86d04c4cbc59339a2cd4010a7d5b718b, 0x46a160274ce13bc40e92c29ea2d7f6f56f4b21f482bd2181bda17903e3b4c555);
    DifferenceIsResidue(0x341cf90440ddf15a76baf88a78bf9ed6e87ad5a7c663ede790cd77f9665953ca, 0x128467230c034a6997d7ca142a18581e86d04c4cbc59339a2cd4010a7d5b718b, 0x219891e134daa6f0dee32e764ea746b861aa895b0a0aba4d63f976eee8fde23f);
    DifferenceIsResidue(0x32ae27e9548dfc72744c9dececf15b6ffbd906924893f4c0008ea96a763f3b9d, 0x46a160274ce13bc40e92c29ea2d7f6f56f4b21f482bd2181bda17903e3b4c555, 0x6c0cc7c207acc0ae65b9db4e4a19647a8c8de49dc5d6d33e42ed3066928a7635);
    DifferenceIsResidue(0x10d04755a4b423e558ff51adbf10bd85404902e29a45311b879aea6f1edda8c8, 0x219891e134daa6f0dee32e764ea746b861aa895b0a0aba4d63f976eee8fde23f, 0x6f37b5746fd97cf47a1c2337706976ccde9e7987903a76ce23a1738035dfc676);
    ProductIs(0x6c0cc7c207acc0ae65b9db4e4a19647a8c8de49dc5d6d33e42ed3066928a7635, 0x6f37b5746fd97cf47a1c2337706976ccde9e7987903a76ce23a1738035dfc676, 0x5de21be4747f2e62eeb99e1ded0c9e7f6bb5d61c6c18143d592d951080f21867, 0x1eec76255170af77471d9b193f040fcc9c2aea98151359a75f7fef6e26624a13);
    ProductIs(0x46a160274ce13bc40e92c29ea2d7f6f56f4b21f482bd2181bda17903e3b4c555, 0x219891e134daa6f0dee32e764ea746b861aa895b0a0aba4d63f976eee8fde23f, 0x1289caeb643f1d11baa13b75863804163c18fdd7dccb32f33621023ab469f341, 0x7fa6c48d0bc95630e8f0bea65bb157cefa19515f04161aeb2eeae0d8108fa7be);
    ProductIs(0x219891e134daa6f0dee32e764ea746b861aa895b0a0aba4d63f976eee8fde23f, 0x6f37b5746fd97cf47a1c2337706976ccde9e7987903a76ce23a1738035dfc676, 0x1d30edb048825f8246d6f2fd19621c4e2a2820f831c09d4224ebf513e1c3ebbc, 0x2ade1a3dcfba471a4f8f714e987f8a8d090c8c78a59143404708bc4ca36e81fe);
  }

  /** A receiver holding the basepoint is not harmless either: eight times it is no identity. */
  lemma BasepointReceiverIsWrong()
    requires Group()
    ensures Normal(B()) && SMul(8, B()) != IDENTITY
  {
    hide Group, SMul, GAdd, Double, ToProj, ToExt, OnCurve, FMul, Nf, Valid;
    GroupMeans();
    var b := B();
    BasepointNormal();
    NormalIsValid(b);
    NfOfNormal(b);
    SMulOne(b);
    ExtToProj(b, b);
    DoubleMultiple(1, b);
    DoubleMultiple(2, b);
    DoubleMultiple(4, b);
    DoubleIs(ONE_B, b);
    CompletedToProj(Double(ONE_B), SMul(2, b));
    Doubling1();
    DoubleIs(TWO_B, SMul(2, b));
    CompletedToProj(Double(TWO_B), SMul(4, b));
    Doubling2();
    DoubleIs(FOUR_B, SMul(4, b));
    CompletedToProj(Double(FOUR_B), SMul(8, b));
    Doubling3();
    NotIdentity(EIGHT_B, SMul(8, b));
  }

  lemma NotIdentity(p: Proj, a: Ext)
    requires Group() && IsP(p, a) && p.X != 0
    ensures a != IDENTITY
  {
    hide Group, OnCurve, FMul, Nf, Valid;
    GroupMeans();
    var e: Ext :| IsE(e, a) && Drop(e) == p;
    if a == IDENTITY {
      IdentityNormal();
      NormalIsValid(IDENTITY);
      NfOfNormal(IDENTITY);
      NfDecidesSame(e, IDENTITY);
      ValidResidue(e);
      MulOne(e.X);
      ZeroTimes(e.Z);
      assert false;
    }
  }

  lemma ValidResidue(e: Ext)
    requires Valid(e)
    ensures Residue(e.X)
  {
  }
}
