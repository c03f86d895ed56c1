/** The limb bound that field/fe.go documents ("lower than 2^52") against what Subtract needs. */
module SubtractBound {
  import opened Modular
  import opened Field
  import opened Words

  /** The documented bound. */
  predicate Documented(a: Fe) { AllBelow(a, 0x10_0000_0000_0000) }

  /** The machine difference of two words. */
  function Difference(x: int, y: int): int { if x >= y then x - y else x - y + 0x1_0000_0000_0000_0000 }

  /** 1 where it wraps around. */
  function Borrow(x: int, y: int): int { if x >= y then 0 else 1 }

  /** The five differences of Subtract, after adding 2p. */
  function Differences(a: Fe, b: Fe): Fe
  {
    Fe(Difference(a.l0 + 0xFFFFFFFFFFFDA, b.l0), Difference(a.l1 + 0xFFFFFFFFFFFFE, b.l1),
       Difference(a.l2 + 0xFFFFFFFFFFFFE, b.l2), Difference(a.l3 + 0xFFFFFFFFFFFFE, b.l3),
       Difference(a.l4 + 0xFFFFFFFFFFFFE, b.l4))
  }

  function Borrows(a: Fe, b: Fe): Fe
  {
    Fe(Borrow(a.l0 + 0xFFFFFFFFFFFDA, b.l0), Borrow(a.l1 + 0xFFFFFFFFFFFFE, b.l1),
       Borrow(a.l2 + 0xFFFFFFFFFFFFE, b.l2), Borrow(a.l3 + 0xFFFFFFFFFFFFE, b.l3),
       Borrow(a.l4 + 0xFFFFFFFFFFFFE, b.l4))
  }

  /** No limb of b exceeds the limb of a plus that of 2p. */
  predicate NoBorrow(a: Fe, b: Fe)
  {
    b.l0 <= a.l0 + 0xFFFFFFFFFFFDA && b.l1 <= a.l1 + 0xFFFFFFFFFFFFE && b.l2 <= a.l2 + 0xFFFFFFFFFFFFE
    && b.l3 <= a.l3 + 0xFFFFFFFFFFFFE && b.l4 <= a.l4 + 0xFFFFFFFFFFFFE
  }

  lemma DifferenceFits(x: int, y: int)
    requires 0 <= x < 0x20_0000_0000_0000 && 0 <= y < 0x10_0000_0000_0000
    ensures Limb(Difference(x, y), 0x1_0000_0000_0000_0000)
    ensures Difference(x, y) == x - y + 0x1_0000_0000_0000_0000 * Borrow(x, y)
    ensures 0 <= Borrow(x, y) <= 1 && (Borrow(x, y) == 0 <==> y <= x)
    ensures y <= x ==> Difference(x, y) == x - y
  {
  }

  lemma DifferenceIs(x: u64, y: u64)
    ensures WrappingSub(x, y) == Difference(x, y)
  {
  }

  lemma SumsFit(a: Fe)
    requires Documented(a)
    ensures Limb(a.l0, 0x10_0000_0000_0000) && Limb(a.l1, 0x10_0000_0000_0000) && Limb(a.l2, 0x10_0000_0000_0000)
    ensures Limb(a.l3, 0x10_0000_0000_0000) && Limb(a.l4, 0x10_0000_0000_0000)
  {
  }

  lemma DifferencesFit(a: Fe, b: Fe)
    requires Documented(a) && Documented(b)
    ensures AllBelow(Differences(a, b), 0x1_0000_0000_0000_0000)
    ensures NoBorrow(a, b) ==> Differences(a, b) == Minus(Plus(a, TWO_P), b)
  {
    hide Difference, Borrow;
    DifferenceFits(a.l0 + 0xFFFFFFFFFFFDA, b.l0);
    DifferenceFits(a.l1 + 0xFFFFFFFFFFFFE, b.l1);
    DifferenceFits(a.l2 + 0xFFFFFFFFFFFFE, b.l2);
    DifferenceFits(a.l3 + 0xFFFFFFFFFFFFE, b.l3);
    DifferenceFits(a.l4 + 0xFFFFFFFFFFFFE, b.l4);
  }

  lemma DifferencesValue(a: Fe, b: Fe)
    requires Documented(a) && Documented(b)
    ensures Val(Differences(a, b)) == Val(a) - Val(b) + 2 * P + 0x1_0000_0000_0000_0000 * Val(Borrows(a, b))
  {
    hide Difference, Borrow;
    DifferenceFits(a.l0 + 0xFFFFFFFFFFFDA, b.l0);
    DifferenceFits(a.l1 + 0xFFFFFFFFFFFFE, b.l1);
    DifferenceFits(a.l2 + 0xFFFFFFFFFFFFE, b.l2);
    DifferenceFits(a.l3 + 0xFFFFFFFFFFFFE, b.l3);
    DifferenceFits(a.l4 + 0xFFFFFFFFFFFFE, b.l4);
  }

  lemma BorrowsValue(a: Fe, b: Fe)
    requires Documented(a) && Documented(b)
    ensures NoBorrow(a, b) <==> Val(Borrows(a, b)) == 0
    ensures 0 <= Val(Borrows(a, b)) < 0x2000_0000_0000_0000_0000_0000_0000_0000_0000_0000_0000_0000_0000
  {
    hide Difference, Borrow;
    DifferenceFits(a.l0 + 0xFFFFFFFFFFFDA, b.l0);
    DifferenceFits(a.l1 + 0xFFFFFFFFFFFFE, b.l1);
    DifferenceFits(a.l2 + 0xFFFFFFFFFFFFE, b.l2);
    DifferenceFits(a.l3 + 0xFFFFFFFFFFFFE, b.l3);
    DifferenceFits(a.l4 + 0xFFFFFFFFFFFFE, b.l4);
  }

  /** 2^64 is invertible modulo p: 2^191 times it is 19. */
  lemma WrapsShow(n: int)
    requires 0 <= n < 0x2000_0000_0000_0000_0000_0000_0000_0000_0000_0000_0000_0000_0000
    requires Cong(0x1_0000_0000_0000_0000 * n, 0, P)
    ensures n == 0
  {
    var k := 0x8000_0000_0000_0000_0000_0000_0000_0000_0000_0000_0000_0000;
    CongScale(0x1_0000_0000_0000_0000 * n, 0, k, P);
    assert k * (0x1_0000_0000_0000_0000 * n) == 19 * n + n * P;
    CongWitness(19 * n, k * (0x1_0000_0000_0000_0000 * n), -n, P);
    SmallMod(19 * n, P);
    SmallMod(0, P);
  }

  /** Over limbs below 2^52, what Subtract stores is a - b modulo p exactly when no limb borrows. */
  lemma SubtractCorrectIff(a: Fe, b: Fe)
    requires Documented(a) && Documented(b)
    ensures R(Carry(Differences(a, b))) == FSub(R(a), R(b)) <==> NoBorrow(a, b)
  {
    hide Val, Carry, Differences, Borrows, NoBorrow, Documented;
    var d, x, n := Differences(a, b), Val(a) - Val(b), Val(Borrows(a, b));
    BorrowsValue(a, b);
    DifferencesValue(a, b);
    CarryValue(d);
    ResidueSub(Val(a), Val(b));
    CongWitness(Val(d), x + 0x1_0000_0000_0000_0000 * n, 2, P);
    if R(Carry(d)) == FSub(R(a), R(b)) {
      CongSub(x + 0x1_0000_0000_0000_0000 * n, x, x, x, P);
      WrapsShow(n);
    }
  }

  /** The bound that carry propagation gives is enough, whatever a is. */
  lemma BoundedNeverBorrows(a: Fe, b: Fe)
    requires Documented(a) && Bounded(b)
    ensures NoBorrow(a, b)
  {
  }

  /** The documented bound is not: 0 - (2^52 - 1) 2^51 comes out wrong. What fails is the comment
      and not a reachable value: every operation leaves bounded limbs. SubtractCorrectIff has the
      exact guard. */
  lemma DocumentedBoundTooWeak()
    ensures var b := Fe(0, 0xF_FFFF_FFFF_FFFF, 0, 0, 0);
      Documented(ZERO) && Documented(b) && R(Carry(Differences(ZERO, b))) != FSub(R(ZERO), R(b))
  {
    var b := Fe(0, 0xF_FFFF_FFFF_FFFF, 0, 0, 0);
    assert !NoBorrow(ZERO, b);
    SubtractCorrectIff(ZERO, b);
  }
}
