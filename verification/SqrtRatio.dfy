/** Square roots of ratios modulo p (field/fe.go, SqrtRatio). */
module SqrtRatio {
  import opened Words
  import opened Modular
  import opened Field
  import opened FieldElement
  import opened FieldPowers
  import opened FieldRing

  const SQRT_M1: int := 0x2b8324804fc1df0b2b4d00993dfbd7a72f431806ad2fe478c4ee1b274a0ea0b0

  const SQRT_M1_LIMBS: Fe := Fe(1718705420411056, 234908883556509, 2233514472574048, 2117202627021982, 765476049583133)

  /** (u v^3) (u v^7)^((p-5)/8). */
  ghost function Candidate(u: int, v: int): int
  {
    FMul(FMul(u, FMul(FMul(v, v), v)), FPow(FMul(FMul(u, FMul(FMul(v, v), v)), FMul(FMul(v, v), FMul(v, v))), (P - 5) / 8))
  }

  /** The even representative of x and -x. */
  ghost function FAbs(x: int): int { if x % 2 == 1 then FNeg(x) else x }

  /** The flag and the root returned for residues u and v. */
  ghost function Outcome(u: int, v: int): (bit, int)
  {
    var x := Candidate(u, v);
    var check := FMul(v, FMul(x, x));
    var flipped := check == FNeg(u) || check == FMul(FNeg(u), SQRT_M1);
    (if check == u || check == FNeg(u) then 1 else 0, FAbs(if flipped then FMul(x, SQRT_M1) else x))
  }

  method CandidateRoot(u: Element, v: Element) returns (rr: Element)
    requires Bounded(u.Limbs()) && Bounded(v.Limbs())
    ensures fresh(rr) && Bounded(rr.Limbs()) && R(rr.Limbs()) == Candidate(R(u.Limbs()), R(v.Limbs()))
  {
    hide R, Bounded, FMul, FPow;
    var t0 := new Element();
    var v2 := new Element();
    v2.Square(v);
    var uv3 := new Element();
    t0.Multiply(v2, v);
    uv3.Multiply(u, t0);
    var uv7 := new Element();
    t0.Square(v2);
    uv7.Multiply(uv3, t0);
    rr := new Element();
    Pow22523(t0, uv7);
    rr.Multiply(uv3, t0);
  }

  lemma SqrtM1Limbs()
    ensures Bounded(SQRT_M1_LIMBS) && R(SQRT_M1_LIMBS) == SQRT_M1
  {
    assert Val(SQRT_M1_LIMBS) == SQRT_M1;
    SmallMod(SQRT_M1, P);
  }

  method LoadSqrtM1() returns (e: Element)
    ensures fresh(e) && Bounded(e.Limbs()) && R(e.Limbs()) == SQRT_M1
  {
    e := new Element();
    e.l0, e.l1, e.l2, e.l3, e.l4 := 1718705420411056, 234908883556509, 2233514472574048, 2117202627021982, 765476049583133;
    SqrtM1Limbs();
  }

  /** The three comparisons that decide what to return. */
  method Compare(check: Element, u: Element, sqrtM1: Element) returns (correct: bit, flipped: bit, flippedI: bit)
    requires Bounded(check.Limbs()) && Bounded(u.Limbs()) && Bounded(sqrtM1.Limbs()) && R(sqrtM1.Limbs()) == SQRT_M1
    ensures correct == 1 <==> R(check.Limbs()) == R(u.Limbs())
    ensures flipped == 1 <==> R(check.Limbs()) == FNeg(R(u.Limbs()))
    ensures flippedI == 1 <==> R(check.Limbs()) == FMul(FNeg(R(u.Limbs())), SQRT_M1)
  {
    hide R, Bounded, FMul, FNeg;
    NegCorrect(u.Limbs());
    var uNeg := new Element();
    uNeg.Negate(u);
    correct := check.Equal(u);
    flipped := check.Equal(uNeg);
    var t0 := new Element();
    t0.Multiply(uNeg, sqrtM1);
    flippedI := check.Equal(t0);
  }

  method SqrtRatio(r: Element, u: Element, v: Element) returns (wasSquare: bit)
    requires Bounded(u.Limbs()) && Bounded(v.Limbs())
    modifies r
    ensures Bounded(r.Limbs())
    ensures (wasSquare, R(r.Limbs())) == Outcome(old(R(u.Limbs())), old(R(v.Limbs())))
  {
    hide R, Bounded, FMul, FNeg, Candidate;
    var rr := CandidateRoot(u, v);
    var check := new Element();
    var t0 := new Element();
    t0.Square(rr);
    check.Multiply(v, t0);
    var sqrtM1 := LoadSqrtM1();
    var correct, flipped, flippedI := Compare(check, u, sqrtM1);
    var rPrime := new Element();
    rPrime.Multiply(rr, sqrtM1);
    rr.Select(rPrime, rr, if flipped == 1 || flippedI == 1 then 1 else 0);
    NegCorrect(rr.Limbs());
    r.Absolute(rr);
    wasSquare := if correct == 1 || flipped == 1 then 1 else 0;
  }

  // ------------------------------------------------- what the outcome means

  /** v x^2, the quantity the function compares with u. */
  ghost function Check(v: int, x: int): int { FMul(v, FMul(x, x)) }

  lemma SqrtM1Square()
    ensures FMul(SQRT_M1, SQRT_M1) == FNeg(1)
  {
    assert Open(0);
    CongWitness(SQRT_M1 * SQRT_M1, -1, 0xecaa2e2f6a2302ccedb31ac05720688238ced2078f3eb0ec9f22e8f621972e5, P);
  }

  /** Multiplying by sqrt(-1) twice negates. */
  lemma TwiceSqrtM1(x: int)
    requires Residue(x)
    ensures FMul(FMul(x, SQRT_M1), SQRT_M1) == FNeg(x)
  {
    hide FMul, FNeg;
    SqrtM1Square();
    MulAssoc(x, SQRT_M1, SQRT_M1);
    MulNeg(x, 1);
    MulOne(x);
  }

  /** Multiplying the root by sqrt(-1) negates the check. */
  lemma FlipSquare(v: int, x: int)
    ensures Check(v, FMul(x, SQRT_M1)) == FNeg(Check(v, x))
  {
    hide FMul, FNeg;
    MulRegroup(x, SQRT_M1, x, SQRT_M1);
    SqrtM1Square();
    Closed(x, x);
    MulNeg(FMul(x, x), 1);
    MulOne(FMul(x, x));
    MulNeg(v, FMul(x, x));
  }

  lemma AbsSquare(v: int, x: int)
    requires Residue(x)
    ensures Check(v, FAbs(x)) == Check(v, x) && Residue(FAbs(x)) && FAbs(x) % 2 == 0
  {
    hide FMul, FNeg;
    SquareOfNeg(x);
    NegIsMinus(x);
  }

  /** u and -u*sqrt(-1) coincide only at zero. */
  lemma NotBothSigns(u: int)
    requires Residue(u) && u == FMul(FNeg(u), SQRT_M1)
    ensures u == 0
  {
    hide FMul, FNeg;
    NegNeg(u);
    TwiceSqrtM1(FNeg(u));
    MulNeg(u, SQRT_M1);
    Closed(u, SQRT_M1);
    NegNeg(FMul(u, SQRT_M1));
    SelfOpposite(u);
  }

  /** Whenever the flag is 1 the root is a genuine square root of u/v, and the root is
      always the even one of the pair. No primality is needed for this half. */
  lemma SqrtRatioSound(u: int, v: int)
    requires Residue(u) && Residue(v)
    ensures Residue(Outcome(u, v).1) && Outcome(u, v).1 % 2 == 0
    ensures Outcome(u, v).0 == 1 ==> Check(v, Outcome(u, v).1) == u
  {
    hide Candidate, FMul, FNeg, FAbs;
    var x := Candidate(u, v);
    CandidateRange(u, v);
    var y := FMul(x, SQRT_M1);
    Closed(x, SQRT_M1);
    FlipSquare(v, x);
    AbsSquare(v, x);
    AbsSquare(v, y);
    NegNeg(u);
    if Check(v, x) == u && u == FMul(FNeg(u), SQRT_M1) {
      NotBothSigns(u);
      NegIsMinus(u);
    }
  }

  lemma CandidateRange(u: int, v: int)
    ensures Residue(Candidate(u, v))
  {
  }

  /** Four times as high a power as the check carries: u v^7, whose quarter powers decide. */
  ghost function Base(u: int, v: int): int
  {
    FMul(FMul(u, FMul(FMul(v, v), v)), FMul(FMul(v, v), FMul(v, v)))
  }

  /** The check is u times a fourth root of unity: v x^2 = u (u v^7)^((p-1)/4). */
  lemma CheckIsQuarterPower(u: int, v: int)
    ensures Check(v, Candidate(u, v)) == FMul(u, FPow(Base(u, v), (P - 1) / 4))
  {
    hide FMul, FPow;
    var v2 := FMul(v, v);
    var v3, v4 := FMul(v2, v), FMul(v2, v2);
    var a := FMul(u, v3);
    var y := FMul(a, v4);
    var q := FPow(y, (P - 5) / 8);
    assert FMul(v, FMul(FMul(a, q), FMul(a, q))) == FMul(FMul(v, FMul(a, a)), FMul(q, q)) by {
      MulRegroup(a, q, a, q);
      MulAssoc(v, FMul(a, a), FMul(q, q));
    }
    assert FMul(v, FMul(a, a)) == FMul(u, y) by {
      MulAssoc(v, a, a);
      assert FMul(v, a) == FMul(u, v4) by {
        MulAssoc(v, u, v3);
        MulComm(v, u);
        MulAssoc(u, v, v3);
        MulComm(v, v3);
        MulAssoc(v2, v, v);
      }
      MulAssoc(u, v4, a);
      MulComm(v4, a);
    }
    assert FMul(y, FMul(q, q)) == FPow(y, (P - 1) / 4) by {
      FPowMul(y, (P - 5) / 8, (P - 5) / 8);
      assert Residue(y) by { Closed(a, v4); }
      FPowOnce(y);
      FPowMul(y, 1, 2 * ((P - 5) / 8));
    }
    MulAssoc(u, y, FMul(q, q));
  }

  /** A fourth root of unity is a power of sqrt(-1). */
  lemma FourthRoots(w: int)
    requires Prime(P) && Residue(w) && FMul(FMul(w, w), FMul(w, w)) == 1
    ensures w == 1 || w == FNeg(1) || w == SQRT_M1 || w == FNeg(SQRT_M1)
  {
    hide FMul, FNeg;
    Closed(w, w);
    MulOne(1);
    Roots(FMul(w, w), 1);
    SqrtM1Square();
    if FMul(w, w) == 1 {
      Roots(w, 1);
    } else {
      Roots(w, SQRT_M1);
    }
  }

  lemma BaseNonzero(u: int, v: int)
    requires Prime(P) && Residue(u) && Residue(v) && u != 0 && v != 0
    ensures Residue(Base(u, v)) && Base(u, v) != 0
  {
    hide FMul;
    var v2 := FMul(v, v);
    Closed(v, v);
    Closed(v2, v);
    Closed(v2, v2);
    Closed(u, FMul(v2, v));
    Closed(FMul(u, FMul(v2, v)), FMul(v2, v2));
    if v2 == 0 { NoZeroDivisors(v, v); }
    if FMul(v2, v) == 0 { NoZeroDivisors(v2, v); }
    if FMul(v2, v2) == 0 { NoZeroDivisors(v2, v2); }
    if FMul(u, FMul(v2, v)) == 0 { NoZeroDivisors(u, FMul(v2, v)); }
    if Base(u, v) == 0 { NoZeroDivisors(FMul(u, FMul(v2, v)), FMul(v2, v2)); }
  }

  /** For nonzero u and v the check is one of u, -u, u*sqrt(-1), -u*sqrt(-1). */
  lemma FourOutcomes(u: int, v: int)
    requires Prime(P) && Residue(u) && Residue(v) && u != 0 && v != 0
    ensures var c := Check(v, Candidate(u, v));
      c == u || c == FNeg(u) || c == FMul(u, SQRT_M1) || c == FMul(FNeg(u), SQRT_M1)
  {
    hide FMul, FNeg, FPow, Candidate, Base;
    var y := Base(u, v);
    var w := FPow(y, (P - 1) / 4);
    CheckIsQuarterPower(u, v);
    BaseNonzero(u, v);
    FPowRange(y, (P - 1) / 4);
    FPowMul(y, (P - 1) / 4, (P - 1) / 4);
    FPowMul(y, (P - 1) / 2, (P - 1) / 2);
    FermatResidue(y);
    FourthRoots(w);
    MulOne(u);
    MulNeg(u, 1);
    MulNeg(u, SQRT_M1);
  }

  /** sqrt(-1) itself is not a square: its ((p-1)/2)-th power is -1. */
  lemma SqrtM1NotSquare(s: int)
    requires Prime(P) && Residue(s)
    ensures FMul(s, s) != SQRT_M1
  {
    hide FMul, FNeg, FPow;
    if FMul(s, s) == SQRT_M1 {
      if s == 0 { TimesZero(0); }
      FPowOnce(s);
      FPowMul(s, 1, 1);
      FPowMul(s, 2, 2);
      SqrtM1Square();
      QuarterTurns(s);
      FermatResidue(s);
      FPowMul(s, 4, P - 5);
      MulNeg(1, 1);
      MulOne(1);
      NegIsMinus(1);
      assert false;
    }
  }

  /** If s^4 = -1 then s^(p-5) = 1: p - 5 is a multiple of 8. */
  lemma QuarterTurns(s: int)
    requires FPow(s, 4) == FNeg(1)
    ensures FPow(s, P - 5) == 1
  {
    hide FMul, FNeg, FPow;
    FPowMul(s, 4, 4);
    SquareOfNeg(1);
    MulOne(1);
    Eighths(s, (P - 5) / 8);
  }

  lemma {:induction false} Eighths(s: int, k: nat)
    requires FPow(s, 8) == 1
    ensures FPow(s, 8 * k) == 1
  {
    hide FMul, FNeg;
    if k == 0 {
      SmallMod(1, P);
    } else {
      hide FPow;
      Eighths(s, k - 1);
      FPowMul(s, 8, 8 * (k - 1));
      MulOne(1);
    }
  }

  /** When the flag is 0 and v is not zero, the root is the square root of sqrt(-1) u/v. */
  lemma SqrtRatioOfNonsquare(u: int, v: int)
    requires Prime(P) && Residue(u) && Residue(v) && v != 0 && Outcome(u, v).0 == 0
    ensures u != 0 && Check(v, Outcome(u, v).1) == FMul(SQRT_M1, u)
  {
    hide Candidate, FMul, FNeg, FAbs;
    var x := Candidate(u, v);
    CandidateRange(u, v);
    if u == 0 {
      CheckIsQuarterPower(u, v);
      MulComm(0, FPow(Base(u, v), (P - 1) / 4));
      TimesZero(FPow(Base(u, v), (P - 1) / 4));
      assert false;
    }
    FourOutcomes(u, v);
    var y := FMul(x, SQRT_M1);
    Closed(x, SQRT_M1);
    FlipSquare(v, x);
    AbsSquare(v, x);
    AbsSquare(v, y);
    MulNeg(u, SQRT_M1);
    MulComm(u, SQRT_M1);
    Closed(u, SQRT_M1);
    NegNeg(FMul(u, SQRT_M1));
  }

  /** The flag is exact: it is 1 if and only if u/v is a square, read as "v s^2 = u for some s". */
  lemma SqrtRatioDecides(u: int, v: int)
    requires Prime(P) && Residue(u) && Residue(v)
    ensures Outcome(u, v).0 == 1 <==> exists s: int :: Residue(s) && Check(v, s) == u
  {
    SqrtRatioSound(u, v);
    if exists s: int :: Residue(s) && Check(v, s) == u {
      var s: int :| Residue(s) && Check(v, s) == u;
      NoSquareMissed(u, v, s);
    }
  }

  /** With the flag at 0, a square root s of u/v would make sqrt(-1) the square (r/s)^2. */
  lemma NoSquareMissed(u: int, v: int, s: int)
    requires Prime(P) && Residue(u) && Residue(v) && Residue(s) && Check(v, s) == u
    ensures Outcome(u, v).0 == 1
  {
    hide Outcome, FMul, FNeg, FPow, Candidate;
    if v == 0 {
      ZeroRatio(s);
      ZeroOutcome();
    } else if Outcome(u, v).0 != 1 {
      assert Outcome(u, v).0 == 0;
      SqrtRatioOfNonsquare(u, v);
      SqrtRatioSound(u, v);
      RatioOfRoots(v, Outcome(u, v).1, s);
      assert false;
    }
  }

  /** v r^2 = sqrt(-1) v s^2 is impossible for nonzero v and s. */
  lemma RatioOfRoots(v: int, r: int, s: int)
    requires Prime(P) && Residue(v) && Residue(r) && Residue(s) && Check(v, s) != 0
    ensures Check(v, r) != FMul(SQRT_M1, Check(v, s))
  {
    hide FMul, FNeg, FPow;
    TimesZero(v);
    TimesZero(0);
    MulComm(0, FMul(s, s));
    TimesZero(FMul(s, s));
    if Check(v, r) == FMul(SQRT_M1, Check(v, s)) {
      var t := FPow(s, P - 2);
      InvertCorrect(s);
      FPowRange(s, P - 2);
      var q := FMul(r, t);
      Closed(r, t);
      Closed(r, r);
      Closed(s, s);
      Closed(FMul(s, s), SQRT_M1);
      assert FMul(v, FMul(r, r)) == FMul(v, FMul(FMul(s, s), SQRT_M1)) by {
        MulAssoc(v, FMul(s, s), SQRT_M1);
        MulComm(Check(v, s), SQRT_M1);
      }
      Cancel(v, FMul(r, r), FMul(FMul(s, s), SQRT_M1));
      assert FMul(q, q) == SQRT_M1 by {
        MulRegroup(r, t, r, t);
        MulComm(FMul(s, s), SQRT_M1);
        MulAssoc(SQRT_M1, FMul(s, s), FMul(t, t));
        MulRegroup(s, s, t, t);
        MulOne(1);
        MulOne(SQRT_M1);
      }
      SqrtM1NotSquare(q);
      assert false;
    }
  }

  lemma ZeroRatio(s: int)
    ensures Check(0, s) == 0
  {
    assert Open(0);
  }

  lemma ZeroOutcome()
    ensures Outcome(0, 0).0 == 1
  {
    hide Candidate;
    ZeroRatio(Candidate(0, 0));
  }
}
