/** Arithmetic modulo p = 2^255 - 19 on five 51-bit limbs (package field of edwards25519).

    An Fe is the mathematical content of an Element: five limbs. The functions below say,
    limb for limb, what each operation stores; the class Element carries the operations in
    place, with arbitrary aliasing; the lemmas say what the stored limbs mean modulo p. */
module Field {
  import opened Modular
  import opened Words

  const P: int := 0x7fffffffffffffffffffffffffffffffffffffffffffffffffffffffffffffed
  const T51: int := 0x8000000000000

  datatype Fe = Fe(l0: int, l1: int, l2: int, l3: int, l4: int)

  /** The integer the limbs denote, before reduction. */
  function Val(a: Fe): int
  {
    a.l0 + a.l1 * 0x8000000000000 + a.l2 * 0x40000000000000000000000000
      + a.l3 * 0x200000000000000000000000000000000000000
      + a.l4 * 0x1000000000000000000000000000000000000000000000000000
  }

  /** The residue an element stands for. */
  function R(a: Fe): (r: int)
    ensures 0 <= r < P
  {
    Val(a) % P
  }

  predicate Limb(x: int, bound: int) { 0 <= x < bound }

  predicate AllBelow(a: Fe, bound: int)
  {
    Limb(a.l0, bound) && Limb(a.l1, bound) && Limb(a.l2, bound) && Limb(a.l3, bound) && Limb(a.l4, bound)
  }

  /** The invariant every operation needs and restores. The bound is 2^51 + 2^38: carry
      propagation leaves at most 2^51 + 19*2^13, Mult32 at most 2^51 + 2^38. */
  predicate Bounded(a: Fe) { AllBelow(a, 0x8004000000000) }

  // ------------------------------------------------- residues modulo p

  /** Mentioned in a proof, this works out its residues and products of residues; everywhere else
      they stay folded, which spares the solver a great many products of variables. */
  predicate Open(k: int) { true }

  ghost predicate IsResidue(r: int, n: int)
  {
    forall k: int {:trigger Open(k)} :: Open(k) ==> r == n % P
  }

  ghost predicate IsProduct(r: int, x: int, y: int)
  {
    forall k: int {:trigger Open(k)} :: Open(k) ==> r == (x * y) % P
  }

  /** The residue of n. */
  ghost function Mod(n: int): (r: int)
    ensures 0 <= r < P
  {
    assert Open(0) && IsResidue(n % P, n);
    var residue: int :| IsResidue(residue, n);
    residue
  }

  ghost function FMul(x: int, y: int): (r: int)
    ensures 0 <= r < P
  {
    assert Open(0) && IsProduct((x * y) % P, x, y);
    var product: int :| IsProduct(product, x, y);
    product
  }

  ghost function FAdd(x: int, y: int): int { Mod(x + y) }
  ghost function FSub(x: int, y: int): int { Mod(x - y) }
  ghost function FNeg(x: int): int { Mod(-x) }

  lemma ModIs(n: int)
    ensures Mod(n) == n % P
  {
    assert Open(0);
  }

  lemma MulIs(x: int, y: int)
    ensures FMul(x, y) == (x * y) % P
  {
    assert Open(0);
  }

  // ---------------------------------------- what each operation stores

  function Carry(a: Fe): Fe
  {
    Fe(a.l0 % 0x8000000000000 + 19 * (a.l4 / 0x8000000000000),
       a.l1 % 0x8000000000000 + a.l0 / 0x8000000000000,
       a.l2 % 0x8000000000000 + a.l1 / 0x8000000000000,
       a.l3 % 0x8000000000000 + a.l2 / 0x8000000000000,
       a.l4 % 0x8000000000000 + a.l3 / 0x8000000000000)
  }

  /** The five columns of the schoolbook product after folding 2^255 to 19. */
  function Columns(a: Fe, b: Fe): Fe
  {
    Fe(a.l0 * b.l0 + 19 * (a.l1 * b.l4 + a.l2 * b.l3 + a.l3 * b.l2 + a.l4 * b.l1),
       a.l0 * b.l1 + a.l1 * b.l0 + 19 * (a.l2 * b.l4 + a.l3 * b.l3 + a.l4 * b.l2),
       a.l0 * b.l2 + a.l1 * b.l1 + a.l2 * b.l0 + 19 * (a.l3 * b.l4 + a.l4 * b.l3),
       a.l0 * b.l3 + a.l1 * b.l2 + a.l2 * b.l1 + a.l3 * b.l0 + 19 * (a.l4 * b.l4),
       a.l0 * b.l4 + a.l1 * b.l3 + a.l2 * b.l2 + a.l3 * b.l1 + a.l4 * b.l0)
  }

  function Mul(a: Fe, b: Fe): Fe { Carry(Carry(Columns(a, b))) }

  function Plus(a: Fe, b: Fe): Fe
  {
    Fe(a.l0 + b.l0, a.l1 + b.l1, a.l2 + b.l2, a.l3 + b.l3, a.l4 + b.l4)
  }

  function Add(a: Fe, b: Fe): Fe { Carry(Plus(a, b)) }

  const ZERO: Fe := Fe(0, 0, 0, 0, 0)
  const ONE: Fe := Fe(1, 0, 0, 0, 0)

  /** Twice p, spread over the limbs so that no limb of a bounded subtrahend exceeds it. */
  const TWO_P: Fe := Fe(0xFFFFFFFFFFFDA, 0xFFFFFFFFFFFFE, 0xFFFFFFFFFFFFE, 0xFFFFFFFFFFFFE, 0xFFFFFFFFFFFFE)

  function Minus(a: Fe, b: Fe): Fe
  {
    Fe(a.l0 - b.l0, a.l1 - b.l1, a.l2 - b.l2, a.l3 - b.l3, a.l4 - b.l4)
  }

  function Sub(a: Fe, b: Fe): Fe { Carry(Minus(Plus(a, TWO_P), b)) }

  function Neg(a: Fe): Fe { Sub(ZERO, a) }

  // ------------------------------------------------------- their meaning

  lemma ResidueOf(a: Fe, x: int, k: int)
    requires Val(a) == x + k * P
    ensures R(a) == x % P
  {
    CongWitness(Val(a), x, k, P);
  }

  /** A carry step moves 2^255 to 19: it changes the value by a multiple of p. */
  lemma CarryValue(a: Fe)
    ensures Val(Carry(a)) == Val(a) - (a.l4 / 0x8000000000000) * P
    ensures R(Carry(a)) == R(a)
  {
    var q := a.l4 / 0x8000000000000;
    assert Val(Carry(a)) == Val(a) - q * P;
    ResidueOf(Carry(a), Val(a), -q);
  }

  /** From any five words, one carry step restores the invariant, with the tight bounds. */
  lemma CarryBounds(a: Fe)
    requires AllBelow(a, 0x1_0000_0000_0000_0000)
    ensures 0 <= Carry(a).l0 < 0x8000000000000 + 19 * 0x2000
    ensures Limb(Carry(a).l1, 0x8000000002000) && Limb(Carry(a).l2, 0x8000000002000)
    ensures Limb(Carry(a).l3, 0x8000000002000) && Limb(Carry(a).l4, 0x8000000002000)
    ensures Bounded(Carry(a))
  {
  }

  function Row(x: int, b: Fe): Fe
  {
    Fe(x * b.l0, x * b.l1, x * b.l2, x * b.l3, x * b.l4)
  }

  /** Adds up shifted rows, folding what reaches 2^255 and beyond with weight 19. */
  function Fold(r0: Fe, r1: Fe, r2: Fe, r3: Fe, r4: Fe): Fe
  {
    Fe(r0.l0 + 19 * (r1.l4 + r2.l3 + r3.l2 + r4.l1),
       r0.l1 + r1.l0 + 19 * (r2.l4 + r3.l3 + r4.l2),
       r0.l2 + r1.l1 + r2.l0 + 19 * (r3.l4 + r4.l3),
       r0.l3 + r1.l2 + r2.l1 + r3.l0 + 19 * r4.l4,
       r0.l4 + r1.l3 + r2.l2 + r3.l1 + r4.l0)
  }

  lemma FoldValue(r0: Fe, r1: Fe, r2: Fe, r3: Fe, r4: Fe) returns (k: int)
    ensures Val(Fold(r0, r1, r2, r3, r4)) == Val(r0) + 0x8000000000000 * Val(r1)
      + 0x40000000000000000000000000 * Val(r2) + 0x200000000000000000000000000000000000000 * Val(r3)
      + 0x1000000000000000000000000000000000000000000000000000 * Val(r4) + k * P
  {
    k := -Val(Fe(r1.l4 + r2.l3 + r3.l2 + r4.l1, r2.l4 + r3.l3 + r4.l2, r3.l4 + r4.l3, r4.l4, 0));
  }

  lemma RowValue(x: int, b: Fe)
    ensures Val(Row(x, b)) == x * Val(b)
  {
  }

  lemma Distribute(a: Fe, v: int)
    ensures Val(a) * v == a.l0 * v + 0x8000000000000 * (a.l1 * v) + 0x40000000000000000000000000 * (a.l2 * v)
      + 0x200000000000000000000000000000000000000 * (a.l3 * v)
      + 0x1000000000000000000000000000000000000000000000000000 * (a.l4 * v)
  {
  }

  lemma ColumnsValue(a: Fe, b: Fe)
    ensures Cong(Val(Columns(a, b)), Val(a) * Val(b), P)
  {
    var r0, r1, r2, r3, r4 := Row(a.l0, b), Row(a.l1, b), Row(a.l2, b), Row(a.l3, b), Row(a.l4, b);
    assert Columns(a, b) == Fold(r0, r1, r2, r3, r4);
    var k := FoldValue(r0, r1, r2, r3, r4);
    assert Val(Columns(a, b)) == Val(a) * Val(b) + k * P by {
      RowValue(a.l0, b);
      RowValue(a.l1, b);
      RowValue(a.l2, b);
      RowValue(a.l3, b);
      RowValue(a.l4, b);
      Distribute(a, Val(b));
    }
    CongWitness(Val(Columns(a, b)), Val(a) * Val(b), k, P);
  }

  lemma ColumnBounds(a: Fe, b: Fe)
    requires Bounded(a) && Bounded(b)
    ensures AllBelow(Columns(a, b), 77 * 0x8004000000000 * 0x8004000000000)
    ensures 0 <= Columns(a, b).l4 < 5 * 0x8004000000000 * 0x8004000000000
  {
    forall x: int, y: int | 0 <= x < 0x8004000000000 && 0 <= y < 0x8004000000000
      ensures 0 <= x * y < 0x8004000000000 * 0x8004000000000
    {
      ProductBound(x, y, 0x8004000000000 - 1, 0x8004000000000 - 1);
    }
  }

  lemma ResidueMul(x: int, y: int)
    ensures FMul(x % P, y % P) == (x * y) % P
  {
    assert Open(0);
    CongSelf(x, P);
    CongSelf(y, P);
    CongMul(x % P, x, y % P, y, P);
  }

  lemma ResidueAdd(x: int, y: int)
    ensures FAdd(x % P, y % P) == (x + y) % P
  {
    assert Open(0);
    CongSelf(x, P);
    CongSelf(y, P);
    CongAdd(x % P, x, y % P, y, P);
  }

  lemma ResidueSub(x: int, y: int)
    ensures FSub(x % P, y % P) == (x - y) % P
  {
    assert Open(0);
    CongSelf(x, P);
    CongSelf(y, P);
    CongSub(x % P, x, y % P, y, P);
  }

  lemma MulBounds(a: Fe, b: Fe)
    requires Bounded(a) && Bounded(b)
    ensures AllBelow(Carry(Columns(a, b)), 0x1_0000_0000_0000_0000)
    ensures Bounded(Mul(a, b))
  {
    ColumnBounds(a, b);
    WideCarry(Columns(a, b));
    CarryBounds(Carry(Columns(a, b)));
  }

  lemma WideCarry(c: Fe)
    requires AllBelow(c, 77 * 0x8004000000000 * 0x8004000000000)
    requires c.l4 < 5 * 0x8004000000000 * 0x8004000000000
    ensures AllBelow(Carry(c), 0x1_0000_0000_0000_0000)
  {
  }

  /** Field multiplication: the invariant is restored and the residue is the product. */
  lemma MulCorrect(a: Fe, b: Fe)
    requires Bounded(a) && Bounded(b)
    ensures Bounded(Mul(a, b)) && R(Mul(a, b)) == FMul(R(a), R(b))
  {
    MulBounds(a, b);
    var c := Columns(a, b);
    assert R(Mul(a, b)) == R(c) by {
      CarryValue(c);
      CarryValue(Carry(c));
    }
    assert R(c) == (Val(a) * Val(b)) % P by {
      ColumnsValue(a, b);
    }
    ResidueMul(Val(a), Val(b));
  }

  lemma PlusBounds(a: Fe, b: Fe)
    requires Bounded(a) && Bounded(b)
    ensures AllBelow(Plus(a, b), 0x1_0000_0000_0000_0000) && Val(Plus(a, b)) == Val(a) + Val(b)
    ensures AllBelow(Minus(Plus(a, TWO_P), b), 0x1_0000_0000_0000_0000)
    ensures Val(Minus(Plus(a, TWO_P), b)) == Val(a) - Val(b) + 2 * P
  {
  }

  lemma AddCorrect(a: Fe, b: Fe)
    requires Bounded(a) && Bounded(b)
    ensures Bounded(Add(a, b)) && R(Add(a, b)) == FAdd(R(a), R(b))
  {
    hide Val, Carry, Plus, Bounded, FAdd;
    PlusBounds(a, b);
    var s := Plus(a, b);
    CarryBounds(s);
    CarryValue(s);
    ResidueAdd(Val(a), Val(b));
  }

  lemma SubCorrect(a: Fe, b: Fe)
    requires Bounded(a) && Bounded(b)
    ensures Bounded(Sub(a, b)) && R(Sub(a, b)) == FSub(R(a), R(b))
  {
    hide Val, Carry, Plus, Minus, Bounded, FSub;
    PlusBounds(a, b);
    var d := Minus(Plus(a, TWO_P), b);
    CarryValue(d);
    CarryBounds(d);
    CongWitness(Val(d), Val(a) - Val(b), 2, P);
    ResidueSub(Val(a), Val(b));
  }

  lemma ZeroOne()
    ensures R(ZERO) == 0 && R(ONE) == 1
  {
    SmallMod(0, P);
    SmallMod(1, P);
  }

  lemma NegCorrect(a: Fe)
    requires Bounded(a)
    ensures Bounded(Neg(a)) && R(Neg(a)) == FNeg(R(a))
  {
    SubCorrect(ZERO, a);
    ZeroOne();
    assert 0 - R(a) == -R(a);
  }

  // ------------------------------------------------ canonical limbs

  /** One pass of carries from the lowest limb up: the limbs below 2^51 and what leaves the top. */
  function Ripple(a: Fe): (Fe, int)
  {
    var c0 := a.l0 / 0x8000000000000;
    var c1 := (a.l1 + c0) / 0x8000000000000;
    var c2 := (a.l2 + c1) / 0x8000000000000;
    var c3 := (a.l3 + c2) / 0x8000000000000;
    var c4 := (a.l4 + c3) / 0x8000000000000;
    (Fe(a.l0 % 0x8000000000000, (a.l1 + c0) % 0x8000000000000, (a.l2 + c1) % 0x8000000000000,
        (a.l3 + c2) % 0x8000000000000, (a.l4 + c3) % 0x8000000000000), c4)
  }

  lemma RippleValue(a: Fe)
    ensures AllBelow(Ripple(a).0, 0x8000000000000)
    ensures 0 <= Val(Ripple(a).0) < P + 19
    ensures Val(a) == Val(Ripple(a).0) + (P + 19) * Ripple(a).1
  {
    BelowRange(Ripple(a).0);
  }

  lemma BelowRange(a: Fe)
    requires AllBelow(a, 0x8000000000000)
    ensures 0 <= Val(a) < 0x8000000000000000000000000000000000000000000000000000000000000000
  {
  }

  /** Base-2^51 digits are unique. */
  lemma DigitUnique(x: int, u: int, y: int, v: int)
    requires 0 <= x < 0x8000000000000 && 0 <= y < 0x8000000000000
    requires x + 0x8000000000000 * u == y + 0x8000000000000 * v
    ensures x == y && u == v
  {
  }

  /** Limbs below 2^51 are determined by their value. */
  lemma LimbsUnique(a: Fe, b: Fe)
    requires AllBelow(a, 0x8000000000000) && AllBelow(b, 0x8000000000000) && Val(a) == Val(b)
    ensures a == b
  {
    var a3, b3 := a.l3 + 0x8000000000000 * a.l4, b.l3 + 0x8000000000000 * b.l4;
    var a2, b2 := a.l2 + 0x8000000000000 * a3, b.l2 + 0x8000000000000 * b3;
    var a1, b1 := a.l1 + 0x8000000000000 * a2, b.l1 + 0x8000000000000 * b2;
    DigitUnique(a.l0, a1, b.l0, b1);
    DigitUnique(a.l1, a2, b.l1, b2);
    DigitUnique(a.l2, a3, b.l2, b3);
    DigitUnique(a.l3, a.l4, b.l3, b.l4);
  }

  /** The limbs of a number below 2^255. */
  function FromInt(x: int): Fe { Ripple(Fe(x, 0, 0, 0, 0)).0 }

  lemma FromIntValue(x: int)
    requires 0 <= x < P + 19
    ensures AllBelow(FromInt(x), 0x8000000000000) && Val(FromInt(x)) == x
  {
    hide Ripple;
    RippleValue(Fe(x, 0, 0, 0, 0));
  }

  /** Plus 19 at the bottom: the trial carry and the final pass of a reduction. */
  function Bump(a: Fe, n: int): Fe { a.(l0 := a.l0 + n) }

  lemma CarriedRange(a: Fe)
    requires AllBelow(a, 0x1_0000_0000_0000_0000)
    ensures 0 <= Val(Carry(a)) < 2 * P
  {
    CarryBounds(a);
    ValBelow(Carry(a));
  }

  lemma ValBelow(a: Fe)
    requires Bounded(a)
    ensures 0 <= Val(a) < 2 * P
  {
  }

  /** With 19 added, a number below 2p crosses 2^255 exactly when it is not below p. */
  lemma TrialCarryDecides(v: int, d: int, c: int)
    requires 0 <= v < 2 * P && v + 19 == d + (P + 19) * c && 0 <= d < P + 19
    ensures 0 <= c <= 1 && 0 <= v - c * P < P
  {
  }

  /** What the two carry chains of a reduction leave, given an already carried element. */
  lemma ReduceCorrect(a: Fe)
    requires 0 <= Val(a) < 2 * P
    ensures 0 <= Ripple(Bump(a, 19)).1 <= 1
    ensures Ripple(Bump(a, 19 * Ripple(Bump(a, 19)).1)).0 == FromInt(R(a))
  {
    hide Ripple, FromInt, AllBelow;
    var v := Val(a);
    var (d, c) := Ripple(Bump(a, 19));
    RippleValue(Bump(a, 19));
    TrialCarryDecides(v, Val(d), c);
    var (e, f) := Ripple(Bump(a, 19 * c));
    RippleValue(Bump(a, 19 * c));
    assert f == c && Val(e) == v - c * P;
    QuotientUnique(v, c, Val(e), P);
    FromIntValue(R(a));
    LimbsUnique(e, FromInt(R(a)));
  }

  /** The whole reduction, from any five words. */
  lemma ReduceWords(a: Fe)
    requires AllBelow(a, 0x1_0000_0000_0000_0000)
    ensures var c := Ripple(Bump(Carry(a), 19)).1;
      0 <= c <= 1 && AllBelow(Bump(Carry(a), 19 * c), 0x10000000000000)
      && Ripple(Bump(Carry(a), 19 * c)).0 == FromInt(R(a))
  {
    CarryValue(a);
    CarryBounds(a);
    CarriedRange(a);
    ReduceCorrect(Carry(a));
  }
}
