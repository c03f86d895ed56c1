/** The four lookup tables of tables.go and their selectors. */
module Tables {
  import opened Words
  import opened Modular
  import opened Field
  import opened FieldPowers
  import opened Curve
  import opened CurveLaws
  import opened PointEncoding
  import opened CurveGroup
  import opened PointGroup
  import opened Points
  import opened Recoding

  /** |x| as the selectors compute it: (x + m) ^ m with m = x >> 7, all ones for a negative x. */
  function AbsByMask(x: int): (r: int)
    requires -128 <= x < 128
    ensures r == if x < 0 then -x else x
  {
    if x < 0 then -1 - (x - 1) else x
  }

  /** The stored multiple that digit x asks for. */
  ghost function Picked(points: seq<Cached>, x: int): Cached
    requires |points| == 8 && -8 <= x <= 8
  {
    if x == 0 then Cache(IDENTITY) else if x > 0 then points[x - 1] else NegateCached(points[-x - 1])
  }

  ghost function PickedAffine(points: seq<AffCached>, x: int): AffCached
    requires |points| == 8 && -8 <= x <= 8
  {
    if x == 0 then Scaled(Cache(IDENTITY), 1) else if x > 0 then points[x - 1] else NegateAffine(points[-x - 1])
  }

  /** Entry i is (first + i * step) * a. */
  ghost predicate Multiples(points: seq<Cached>, first: int, step: int, a: Ext)
  {
    forall i :: 0 <= i < |points| ==> IsK(points[i], SMul(first + i * step, a))
  }

  ghost predicate AffineMultiples(points: seq<AffCached>, first: int, step: int, a: Ext)
  {
    forall i :: 0 <= i < |points| ==> IsA(points[i], SMul(first + i * step, a))
  }

  lemma PickedIs(points: seq<Cached>, x: int, a: Ext)
    requires Group() && Normal(a) && |points| == 8 && -8 <= x <= 8 && Multiples(points, 1, 1, a)
    ensures IsK(Picked(points, x), SMul(x, a))
  {
    hide Group, Normal, IsK, SMul, NegateCached, GNeg, Cache;
    GroupMeans();
    if x == 0 {
      IdentityIs();
      SMulZero(a);
    } else if x > 0 {
      assert 1 + (x - 1) * 1 == x;
    } else {
      assert 1 + (-x - 1) * 1 == -x;
      NegateCachedIs(points[-x - 1], SMul(-x, a));
      SMulNeg(-x, a);
    }
  }

  lemma PickedAffineIs(points: seq<AffCached>, x: int, a: Ext)
    requires Group() && Normal(a) && |points| == 8 && -8 <= x <= 8 && AffineMultiples(points, 1, 1, a)
    ensures IsA(PickedAffine(points, x), SMul(x, a))
  {
    hide Group, Normal, IsA, SMul, NegateAffine, GNeg, Cache, Scaled;
    GroupMeans();
    if x == 0 {
      IdentityIs();
      SMulZero(a);
    } else if x > 0 {
      assert 1 + (x - 1) * 1 == x;
    } else {
      assert 1 + (-x - 1) * 1 == -x;
      NegateAffineIs(points[-x - 1], SMul(-x, a));
      SMulNeg(-x, a);
    }
  }

  /** Adding step * a to one entry gives the next. */
  lemma NextMultiple(first: int, step: int, i: nat, a: Ext, b: Ext)
    requires Group() && Normal(a) && b == SMul(step, a)
    ensures GAdd(b, SMul(first + i * step, a)) == SMul(first + (i + 1) * step, a)
  {
    hide Group, Normal, SMul, GAdd;
    SMulAdd(step, first + i * step, a);
    assert step + (first + i * step) == first + (i + 1) * step;
  }

  ghost function Stored(points: seq<ProjCached>): (s: seq<Cached>)
    reads points
    ensures |s| == |points| && forall i :: 0 <= i < |s| ==> s[i] == points[i].Co()
  {
    seq(|points|, i requires 0 <= i < |points| reads points => points[i].Co())
  }

  ghost function StoredAffine(points: seq<AffineCached>): (s: seq<AffCached>)
    reads points
    ensures |s| == |points| && forall i :: 0 <= i < |s| ==> s[i] == points[i].Co()
  {
    seq(|points|, i requires 0 <= i < |points| reads points => points[i].Co())
  }

  /** One entry from the one before: base + prev, cached. */
  method NextProj(base: Point, prev: ProjCached, tmpP3: Point, tmpP1xP1: P1xP1, ghost b: Ext, ghost y: Ext) returns (next: ProjCached)
    requires Group() && IsE(base.Co(), b) && IsK(prev.Co(), y)
    modifies tmpP3, tmpP1xP1
    ensures fresh(next) && IsK(next.Co(), GAdd(b, y))
  {
    hide Group, IsK, IsE, AddCached, ToExt, Cache, GAdd, R;
    GroupMeans();
    AddIs(base.Co(), b, prev.Co(), y);
    tmpP1xP1.Add(base, prev);
    tmpP3.FromP1xP1(tmpP1xP1);
    next := new ProjCached();
    next.FromP3(tmpP3);
    Cached1(tmpP3.Co(), GAdd(b, y));
  }

  method NextAffine(base: Point, prev: AffineCached, tmpP3: Point, tmpP1xP1: P1xP1, ghost b: Ext, ghost y: Ext)
    returns (next: AffineCached)
    requires Group() && IsE(base.Co(), b) && IsA(prev.Co(), y)
    modifies tmpP3, tmpP1xP1
    ensures fresh(next) && IsA(next.Co(), GAdd(b, y))
  {
    hide Group, IsA, IsE, Curve.AddAffine, ToExt, Cache, Scaled, GAdd, R, FPow;
    GroupMeans();
    AddAffineIs(base.Co(), b, prev.Co(), y);
    tmpP1xP1.AddAffine(base, prev);
    tmpP3.FromP1xP1(tmpP1xP1);
    next := new AffineCached();
    next.FromP3(tmpP3);
    ScaledCacheIs(tmpP3.Co(), GAdd(b, y));
  }

  /** The loop all projective tables share: each entry is base plus the one before. */
  method FillProj(q: Point, base: Point, n: nat, ghost a: Ext, ghost step: int) returns (points: seq<ProjCached>)
    requires Group() && n > 0 && IsE(q.Co(), a) && IsE(base.Co(), SMul(step, a))
    ensures |points| == n && Multiples(Stored(points), 1, step, a)
    ensures forall i :: 0 <= i < n ==> fresh(points[i])
  {
    hide Group, IsK, IsC, IsE, SMul, AddCached, ToExt, Cache, GAdd, R, Normal;
    GroupMeans();
    ElementNormal(q.Co(), a);
    SMulOne(a);
    var first := new ProjCached();
    first.FromP3(q);
    Cached1(q.Co(), a);
    points := [first];
    assert 1 + 0 * step == 1;
    var tmpP3 := new Point();
    var tmpP1xP1 := new P1xP1();
    for i := 0 to n - 1
      invariant |points| == i + 1 && fresh(tmpP3) && fresh(tmpP1xP1)
      invariant forall j :: 0 <= j <= i ==> fresh(points[j])
      invariant forall j :: 0 <= j <= i ==> IsK(points[j].Co(), SMul(1 + j * step, a))
      invariant base.Co() == old(base.Co())
    {
      ghost var x, y := SMul(step, a), SMul(1 + i * step, a);
      NextMultiple(1, step, i, a, x);
      var next := NextProj(base, points[i], tmpP3, tmpP1xP1, x, y);
      points := points + [next];
    }
  }

  method FillAffine(q: Point, base: Point, n: nat, ghost a: Ext, ghost step: int) returns (points: seq<AffineCached>)
    requires Group() && n > 0 && IsE(q.Co(), a) && IsE(base.Co(), SMul(step, a))
    ensures |points| == n && AffineMultiples(StoredAffine(points), 1, step, a)
    ensures forall i :: 0 <= i < n ==> fresh(points[i])
  {
    hide Group, IsA, IsC, IsE, SMul, Curve.AddAffine, ToExt, Cache, Scaled, GAdd, R, Normal, FPow;
    GroupMeans();
    ElementNormal(q.Co(), a);
    SMulOne(a);
    var first := new AffineCached();
    first.FromP3(q);
    ScaledCacheIs(q.Co(), a);
    points := [first];
    assert 1 + 0 * step == 1;
    var tmpP3 := new Point();
    var tmpP1xP1 := new P1xP1();
    for i := 0 to n - 1
      invariant |points| == i + 1 && fresh(tmpP3) && fresh(tmpP1xP1)
      invariant forall j :: 0 <= j <= i ==> fresh(points[j])
      invariant forall j :: 0 <= j <= i ==> IsA(points[j].Co(), SMul(1 + j * step, a))
      invariant base.Co() == old(base.Co())
    {
      ghost var x, y := SMul(step, a), SMul(1 + i * step, a);
      NextMultiple(1, step, i, a, x);
      var next := NextAffine(base, points[i], tmpP3, tmpP1xP1, x, y);
      points := points + [next];
    }
  }

  /** Q, 2Q, ..., 8Q for constant-time lookups of -8Q .. 8Q. */
  class ProjLookupTable {
    var points: seq<ProjCached>

    constructor ()
      ensures points == []
    {
      points := [];
    }

    ghost predicate Holds(a: Ext)
      reads this, points
    {
      |points| == 8 && Normal(a) && Multiples(Stored(points), 1, 1, a)
    }

    method FromP3(q: Point, ghost a: Ext)
      requires Group() && IsE(q.Co(), a)
      modifies this
      ensures Holds(a) && forall i :: 0 <= i < 8 ==> fresh(points[i])
    {
      hide Group, IsE, SMul, Normal, Multiples, Stored, R;
      GroupMeans();
      ElementNormal(q.Co(), a);
      SMulOne(a);
      points := FillProj(q, q, 8, a, 1);
    }

    /** Reads all eight entries whatever the digit, then negates under a condition. */
    method SelectInto(dest: ProjCached, x: int8)
      requires |points| == 8 && -8 <= x <= 8 && dest !in points
      modifies dest
      ensures dest.Co() == Picked(old(Stored(points)), x)
    {
      hide NegateCached, Cache, R;
      var xabs := AbsByMask(x);
      dest.Zero();
      for j := 1 to 9
        invariant dest.Co() == if 1 <= xabs < j then points[xabs - 1].Co() else Cache(IDENTITY)
      {
        dest.Select(points[j - 1], dest, if xabs == j then 1 else 0);
      }
      dest.CondNeg(if x < 0 then 1 else 0);
    }
  }

  /** The same for a fixed base, in affine form. */
  class AffineLookupTable {
    var points: seq<AffineCached>

    constructor ()
      ensures points == []
    {
      points := [];
    }

    ghost predicate Holds(a: Ext)
      reads this, points
    {
      |points| == 8 && Normal(a) && AffineMultiples(StoredAffine(points), 1, 1, a)
    }

    method FromP3(q: Point, ghost a: Ext)
      requires Group() && IsE(q.Co(), a)
      modifies this
      ensures Holds(a) && forall i :: 0 <= i < 8 ==> fresh(points[i])
    {
      hide Group, IsE, SMul, Normal, AffineMultiples, StoredAffine, R;
      GroupMeans();
      ElementNormal(q.Co(), a);
      SMulOne(a);
      points := FillAffine(q, q, 8, a, 1);
    }

    method SelectInto(dest: AffineCached, x: int8)
      requires |points| == 8 && -8 <= x <= 8 && dest !in points
      modifies dest
      ensures dest.Co() == PickedAffine(old(StoredAffine(points)), x)
    {
      hide NegateAffine, Cache, Scaled, R;
      var xabs := AbsByMask(x);
      dest.Zero();
      for j := 1 to 9
        invariant dest.Co() == if 1 <= xabs < j then points[xabs - 1].Co() else Scaled(Cache(IDENTITY), 1)
      {
        dest.Select(points[j - 1], dest, if xabs == j then 1 else 0);
      }
      dest.CondNeg(if x < 0 then 1 else 0);
    }
  }

  /** Q, 3Q, ..., 15Q for the digits of a width-5 non-adjacent form. */
  class NafLookupTable5 {
    var points: seq<ProjCached>

    constructor ()
      ensures points == []
    {
      points := [];
    }

    ghost predicate Holds(a: Ext)
      reads this, points
    {
      |points| == 8 && Normal(a) && Multiples(Stored(points), 1, 2, a)
    }

    method FromP3(q: Point, ghost a: Ext)
      requires Group() && IsE(q.Co(), a)
      modifies this
      ensures Holds(a) && forall i :: 0 <= i < 8 ==> fresh(points[i])
    {
      hide Group, IsE, SMul, Normal, Multiples, Stored, R, SumOf;
      GroupMeans();
      ElementNormal(q.Co(), a);
      var q2 := new Point();
      q2.Add(q, q);
      TwiceIs(q.Co(), a);
      points := FillProj(q, q2, 8, a, 2);
    }

    /** The stored odd multiple. */
    method SelectInto(dest: ProjCached, x: int8, ghost a: Ext)
      requires Holds(a) && 0 < x < 16 && x % 2 == 1 && dest !in points
      modifies dest
      ensures IsK(dest.Co(), SMul(x, a))
    {
      hide IsK, SMul, Normal, R;
      assert 1 + (x / 2) * 2 == x;
      dest.Select(points[x / 2], dest, 1);
    }
  }

  /** B, 3B, ..., 127B for the digits of a width-8 non-adjacent form. */
  class NafLookupTable8 {
    var points: seq<AffineCached>

    constructor ()
      ensures points == []
    {
      points := [];
    }

    ghost predicate Holds(a: Ext)
      reads this, points
    {
      |points| == 64 && Normal(a) && AffineMultiples(StoredAffine(points), 1, 2, a)
    }

    method FromP3(q: Point, ghost a: Ext)
      requires Group() && IsE(q.Co(), a)
      modifies this
      ensures Holds(a) && forall i :: 0 <= i < 64 ==> fresh(points[i])
    {
      hide Group, IsE, SMul, Normal, AffineMultiples, StoredAffine, R, SumOf;
      GroupMeans();
      ElementNormal(q.Co(), a);
      var q2 := new Point();
      q2.Add(q, q);
      TwiceIs(q.Co(), a);
      points := FillAffine(q, q2, 64, a, 2);
    }

    method SelectInto(dest: AffineCached, x: int8, ghost a: Ext)
      requires Holds(a) && 0 < x && x % 2 == 1 && dest !in points
      modifies dest
      ensures IsA(dest.Co(), SMul(x, a))
    {
      hide IsA, SMul, Normal, R;
      assert 1 + (x / 2) * 2 == x;
      dest.Select(points[x / 2], dest, 1);
    }
  }

  lemma TwiceIs(q: Ext, a: Ext)
    requires Group() && IsE(q, a)
    ensures IsE(SumOf(q, q), SMul(2, a))
  {
    hide Group, Normal, SMul, GAdd, SumOf, Valid, Nf;
    GroupMeans();
    ElementNormal(q, a);
    SumValid(q, q);
    NfOfSum(q, q);
    SMulOne(a);
    SMulSucc(1, a);
  }
}
