/** Four-word Montgomery arithmetic modulo l = 2^252 + 27742317777372353535851937790883648493
    (scalar_fiat.go).

    The straight-line code repeats one round four times: add a row x * b to an accumulator,
    then add the multiple of l that clears the lowest word, and drop that word. The round is
    written and proved once here. */
module Montgomery {
  import opened Bits
  import opened Modular
  import opened Words

  const L: int := 0x1000000000000000000000000000000014def9dea2f79cd65812631a5cf5d3ed

  const RADIX: int := 0x10000000000000000000000000000000000000000000000000000000000000000

  /** The inverse of 2^256 modulo l. */
  const RADIX_INVERSE: int := 0x9db6c6f26fe9183614e75438ffa36beb7f5c66a973f754cc766cca43d5f0d24

  datatype Words4 = Words4(w0: u64, w1: u64, w2: u64, w3: u64)

  datatype Words5 = Words5(low: Words4, top: u64)

  function Eval(w: Words4): (n: nat)
    ensures n < RADIX
  {
    w.w0 + w.w1 * 0x10000000000000000 + w.w2 * 0x100000000000000000000000000000000
      + w.w3 * 0x1000000000000000000000000000000000000000000000000
  }

  function Eval5(w: Words5): nat
  {
    Eval(w.low) + w.top * 0x10000000000000000000000000000000000000000000000000000000000000000
  }

  // ------------------------------------------------------- one round

  lemma RowSpread(x: int, b: Words4)
    ensures x * Eval(b) == x * b.w0 + (x * b.w1) * 0x10000000000000000
      + (x * b.w2) * 0x100000000000000000000000000000000 + (x * b.w3) * 0x1000000000000000000000000000000000000000000000000
  {
  }

  lemma RowFits(x: u64, b: Words4)
    ensures 0 <= x * Eval(b) < 0x100000000000000000000000000000000000000000000000000000000000000000000000000000000
  {
    hide Eval;
    ProductBound(x, Eval(b), 0xFFFFFFFFFFFFFFFF, RADIX - 1);
  }

  /** x * b as five words: four wide products and a chain of carries. */
  method MulRow(x: u64, b: Words4) returns (r: Words5)
    ensures Eval5(r) == x * Eval(b)
  {
    var (h3, l3) := Mul64(x, b.w3);
    var (h2, l2) := Mul64(x, b.w2);
    var (h1, l1) := Mul64(x, b.w1);
    var (h0, l0) := Mul64(x, b.w0);
    var (r1, c1) := Add64(h0, l1, 0);
    var (r2, c2) := Add64(h1, l2, c1);
    var (r3, c3) := Add64(h2, l3, c2);
    RowSpread(x, b);
    RowFits(x, b);
    hide Mul64, Add64;
    r := Words5(Words4(l0, r1, r2, r3), c3 + h3);
  }

  /** The accumulator plus a row, with the carry out of the fifth word. */
  method AddRow(a: Words5, r: Words5) returns (t: Words5, carry: bit)
    ensures Eval5(t) + carry * 0x100000000000000000000000000000000000000000000000000000000000000000000000000000000
      == Eval5(a) + Eval5(r)
  {
    var (t0, c0) := Add64(a.low.w0, r.low.w0, 0);
    var (t1, c1) := Add64(a.low.w1, r.low.w1, c0);
    var (t2, c2) := Add64(a.low.w2, r.low.w2, c1);
    var (t3, c3) := Add64(a.low.w3, r.low.w3, c2);
    var (t4, c4) := Add64(a.top, r.top, c3);
    t, carry := Words5(Words4(t0, t1, t2, t3), t4), c4;
  }

  /** The factor that makes the lowest word of t + q l vanish: 0xd2b51da312547e1b is -1/l
      modulo 2^64. */
  function Factor(t0: u64): u64 { Mul64(t0, 0xd2b51da312547e1b).1 }

  lemma FactorClears(t0: u64)
    ensures (t0 + (Factor(t0) * 0x5812631a5cf5d3ed) % 0x10000000000000000) % 0x10000000000000000 == 0
  {
    var m, b := t0 * 0xd2b51da312547e1b, 0x10000000000000000;
    CongSelf(m, b);
    assert Factor(t0) == m % b;
    hide Factor;
    CongScale(m % b, m, 0x5812631a5cf5d3ed, b);
    CongSelf((m % b) * 0x5812631a5cf5d3ed, b);
    CongAdd(t0, t0, ((m % b) * 0x5812631a5cf5d3ed) % b, m * 0x5812631a5cf5d3ed, b);
    ClearingMultiple(t0);
  }

  lemma ClearingMultiple(t: int)
    ensures (t + (t * 0xd2b51da312547e1b) * 0x5812631a5cf5d3ed) % 0x10000000000000000 == 0
  {
    var k := (1 + 0xd2b51da312547e1b * 0x5812631a5cf5d3ed) / 0x10000000000000000;
    assert t + (t * 0xd2b51da312547e1b) * 0x5812631a5cf5d3ed == 0 + (t * k) * 0x10000000000000000;
    AddMultiple(0, t * k, 0x10000000000000000);
  }

  /** q l as five words; the third word of l is zero. */
  method MulModulus(q: u64) returns (m: Words5)
    ensures Eval5(m) == q * L
    ensures m.low.w0 == (q * 0x5812631a5cf5d3ed) % 0x10000000000000000
  {
    var (h3, l3) := Mul64(q, 0x1000000000000000);
    var (h1, l1) := Mul64(q, 0x14def9dea2f79cd6);
    var (h0, l0) := Mul64(q, 0x5812631a5cf5d3ed);
    var (s, c) := Add64(h0, l1, 0);
    m := Words5(Words4(l0, s, c + h1, l3), h3);
  }

  /** Adds the clearing multiple of l and drops the lowest word. */
  method CancelLow(t: Words5, carry: bit) returns (a: Words5, ghost q: u64)
    ensures 0x10000000000000000 * Eval5(a) == Eval5(t)
      + carry * 0x100000000000000000000000000000000000000000000000000000000000000000000000000000000 + q * L
  {
    var f := Factor(t.low.w0);
    q := f;
    FactorClears(t.low.w0);
    hide Factor;
    var m := MulModulus(f);
    var (zero, k0) := Add64(t.low.w0, m.low.w0, 0);
    assert zero == 0;
    var (a0, k1) := Add64(t.low.w1, m.low.w1, k0);
    var (a1, k2) := Add64(t.low.w2, m.low.w2, k1);
    var (a2, k3) := Add64(t.low.w3, m.low.w3, k2);
    var (a3, k4) := Add64(t.top, m.top, k3);
    a := Words5(Words4(a0, a1, a2, a3), k4 + carry);
    hide Add64;
  }

  /** Which accumulators a round can meet: at most l - 1 more than b. */
  lemma RoundBound(a: int, a': int, x: int, b: int, q: int)
    requires 0 <= a < L + b && 0 <= x < 0x10000000000000000 && 0 <= q < 0x10000000000000000 && 0 <= b
    requires 0x10000000000000000 * a' == a + x * b + q * L
    ensures a' < L + b
  {
    MulMono(x, 0xFFFFFFFFFFFFFFFF, b);
  }

  /** One Montgomery round: 2^64 a' = a + x b + q l. */
  method Round(a: Words5, x: u64, b: Words4) returns (a': Words5, ghost q: u64)
    requires Eval5(a) < L + Eval(b)
    ensures 0x10000000000000000 * Eval5(a') == Eval5(a) + x * Eval(b) + q * L
    ensures Eval5(a') < L + Eval(b)
  {
    hide Eval, Eval5;
    var row := MulRow(x, b);
    var t, carry := AddRow(a, row);
    a', q := CancelLow(t, carry);
    RoundBound(Eval5(a), Eval5(a'), x, Eval(b), q);
  }

  /** The round of the two conversions, whose accumulator stays within four words: the
      high words are summed without carry outputs. */
  method NarrowRound(a: Words4, row: Words5) returns (a': Words4, ghost q: u64)
    requires Eval(a) + Eval5(row) + 0xFFFFFFFFFFFFFFFF * L < 0x100000000000000000000000000000000000000000000000000000000000000000000000000000000
    ensures 0x10000000000000000 * Eval(a') == Eval(a) + Eval5(row) + q * L
  {
    hide Add64, Factor, Eval, Eval5;
    var (s0, c0) := Add64(a.w0, row.low.w0, 0);
    var (s1, c1) := Add64(a.w1, row.low.w1, c0);
    var (s2, c2) := Add64(a.w2, row.low.w2, c1);
    var (s3, c3) := Add64(a.w3, row.low.w3, c2);
    var f := Factor(s0);
    q := f;
    var m := MulModulus(f);
    var (zero, k0) := Add64(s0, m.low.w0, 0);
    LowVanishes(s0, m.low.w0, zero, k0);
    var (a0, k1) := Add64(s1, m.low.w1, k0);
    var (a1, k2) := Add64(s2, m.low.w2, k1);
    var (a2, k3) := Add64(s3, m.low.w3, k2);
    NarrowTop(a, row, m, q, s0, s1, s2, s3, c0, c1, c2, c3, k0, k1, k2, k3, a0, a1, a2);
    a' := Words4(a0, a1, a2, k3 + (c3 + row.top) + m.top);
  }

  /** The lowest word of t + q l is zero. */
  lemma LowVanishes(t0: u64, m0: u64, zero: u64, k: bit)
    requires m0 == (Factor(t0) * 0x5812631a5cf5d3ed) % 0x10000000000000000
    requires zero + k * 0x10000000000000000 == t0 + m0
    ensures zero == 0
  {
    FactorClears(t0);
  }

  lemma NarrowTop(a: Words4, row: Words5, m: Words5, q: u64, s0: u64, s1: u64, s2: u64, s3: u64,
      c0: bit, c1: bit, c2: bit, c3: bit, k0: bit, k1: bit, k2: bit, k3: bit, a0: u64, a1: u64, a2: u64)
    requires Eval(a) + Eval5(row) + 0xFFFFFFFFFFFFFFFF * L < 0x100000000000000000000000000000000000000000000000000000000000000000000000000000000
    requires Eval5(m) == q * L
    requires s0 + c0 * 0x10000000000000000 == a.w0 + row.low.w0
    requires s1 + c1 * 0x10000000000000000 == a.w1 + row.low.w1 + c0
    requires s2 + c2 * 0x10000000000000000 == a.w2 + row.low.w2 + c1
    requires s3 + c3 * 0x10000000000000000 == a.w3 + row.low.w3 + c2
    requires k0 * 0x10000000000000000 == s0 + m.low.w0
    requires a0 + k1 * 0x10000000000000000 == s1 + m.low.w1 + k0
    requires a1 + k2 * 0x10000000000000000 == s2 + m.low.w2 + k1
    requires a2 + k3 * 0x10000000000000000 == s3 + m.low.w3 + k2
    ensures k3 + (c3 + row.top) + m.top < 0x10000000000000000
    ensures 0x10000000000000000 * Eval(Words4(a0, a1, a2, k3 + (c3 + row.top) + m.top)) == Eval(a) + Eval5(row) + q * L
  {
  }

  /** fiatScalarCmovznzU64. */
  function Cmovznz(cond: bit, x: u64, y: u64): (r: u64)
    ensures r == if cond == 0 then x else y
  {
    SelectWord(y, x, cond)
  }

  /** Subtracts l unless that borrows. */
  method CondSubtract(v: Words5) returns (r: Words4)
    ensures Eval5(v) < L ==> Eval(r) == Eval5(v)
    ensures L <= Eval5(v) < 2 * L ==> Eval(r) == Eval5(v) - L
  {
    hide Cmovznz;
    var (d0, b0) := Sub64(v.low.w0, 0x5812631a5cf5d3ed, 0);
    var (d1, b1) := Sub64(v.low.w1, 0x14def9dea2f79cd6, b0);
    var (d2, b2) := Sub64(v.low.w2, 0, b1);
    var (d3, b3) := Sub64(v.low.w3, 0x1000000000000000, b2);
    var (d4, b4) := Sub64(v.top, 0, b3);
    assert Eval(Words4(d0, d1, d2, d3)) + d4 * RADIX - b4 * (RADIX * 0x10000000000000000) == Eval5(v) - L;
    r := Words4(Cmovznz(b4, d0, v.low.w0), Cmovznz(b4, d1, v.low.w1), Cmovznz(b4, d2, v.low.w2), Cmovznz(b4, d3, v.low.w3));
    assert b4 == 1 ==> r == v.low;
    assert b4 == 0 ==> r == Words4(d0, d1, d2, d3);
  }

  // --------------------------------------------- the field operations

  /** Four rounds clear four words: 2^256 e4 = a b + (q0 + q1 2^64 + q2 2^128 + q3 2^192) l. */
  lemma FourRounds(a: Words4, b: int, e1: int, e2: int, e3: int, e4: int, q0: int, q1: int, q2: int, q3: int)
    requires 0x10000000000000000 * e1 == a.w0 * b + q0 * L
    requires 0x10000000000000000 * e2 == e1 + a.w1 * b + q1 * L
    requires 0x10000000000000000 * e3 == e2 + a.w2 * b + q2 * L
    requires 0x10000000000000000 * e4 == e3 + a.w3 * b + q3 * L
    ensures Cong(RADIX * e4, Eval(a) * b, L)
  {
    hide Cong, Eval;
    var q := q0 + q1 * 0x10000000000000000 + q2 * 0x100000000000000000000000000000000
      + q3 * 0x1000000000000000000000000000000000000000000000000;
    RowSpread(b, a);
    Telescope(b * a.w0, b * a.w1, b * a.w2, b * a.w3, q0, q1, q2, q3, e1, e2, e3, e4);
    assert RADIX * e4 == b * Eval(a) + q * L;
    CongWitness(RADIX * e4, Eval(a) * b, q, L);
  }

  lemma Telescope(p0: int, p1: int, p2: int, p3: int, q0: int, q1: int, q2: int, q3: int, e1: int, e2: int, e3: int, e4: int)
    requires 0x10000000000000000 * e1 == p0 + q0 * L
    requires 0x10000000000000000 * e2 == e1 + p1 + q1 * L
    requires 0x10000000000000000 * e3 == e2 + p2 + q2 * L
    requires 0x10000000000000000 * e4 == e3 + p3 + q3 * L
    ensures RADIX * e4 == p0 + p1 * 0x10000000000000000 + p2 * 0x100000000000000000000000000000000
      + p3 * 0x1000000000000000000000000000000000000000000000000 + (q0 + q1 * 0x10000000000000000
      + q2 * 0x100000000000000000000000000000000 + q3 * 0x1000000000000000000000000000000000000000000000000) * L
  {
  }

  /** Subtracting l at the end changes nothing modulo l. */
  lemma Corrected(e: int, r: int)
    requires r == e || r == e - L
    ensures Cong(RADIX * r, RADIX * e, L)
  {
    CongWitness(RADIX * r, RADIX * e, if r == e then 0 else -RADIX, L);
  }

  /** fiatScalarMul: r 2^256 = a b modulo l, fully reduced. */
  method MontgomeryMul(a: Words4, b: Words4) returns (r: Words4)
    requires Eval(b) < L
    ensures Eval(r) < L && Cong(RADIX * Eval(r), Eval(a) * Eval(b), L)
  {
    hide Eval, Eval5, Cong;
    ZeroWords();
    var e0 := Words5(Words4(0, 0, 0, 0), 0);
    var e1, q0 := Round(e0, a.w0, b);
    var e2, q1 := Round(e1, a.w1, b);
    var e3, q2 := Round(e2, a.w2, b);
    var e4, q3 := Round(e3, a.w3, b);
    FourRounds(a, Eval(b), Eval5(e1), Eval5(e2), Eval5(e3), Eval5(e4), q0, q1, q2, q3);
    r := CondSubtract(e4);
    Corrected(Eval5(e4), Eval(r));
    CongChain(RADIX * Eval(r), RADIX * Eval5(e4), Eval(a) * Eval(b));
  }

  lemma ZeroWords()
    ensures Eval(Words4(0, 0, 0, 0)) == 0 && Eval5(Words5(Words4(0, 0, 0, 0), 0)) == 0
  {
  }

  lemma CongChain(a: int, b: int, c: int)
    requires Cong(a, b, L) && Cong(b, c, L)
    ensures Cong(a, c, L)
  {
  }

  lemma SingleWord(w: u64)
    ensures Eval5(Words5(Words4(w, 0, 0, 0), 0)) == w
  {
  }

  lemma Widened(a: Words4)
    ensures Eval5(Words5(a, 0)) == Eval(a)
  {
  }

  /** fiatScalarFromMontgomery: the rounds with the single word a_i in place of a row. */
  method FromMontgomery(a: Words4) returns (r: Words4)
    ensures Eval(r) < L && Cong(RADIX * Eval(r), Eval(a), L)
  {
    hide Eval, Eval5, Cong;
    ZeroWords();
    var e1, q0 := UnitRound(Words4(0, 0, 0, 0), a.w0);
    var e2, q1 := UnitRound(e1, a.w1);
    var e3, q2 := UnitRound(e2, a.w2);
    var e4, q3 := UnitRound(e3, a.w3);
    FourRounds(a, 1, Eval(e1), Eval(e2), Eval(e3), Eval(e4), q0, q1, q2, q3);
    Widened(e4);
    r := CondSubtract(Words5(e4, 0));
    Corrected(Eval(e4), Eval(r));
    CongChain(RADIX * Eval(r), RADIX * Eval(e4), Eval(a) * 1);
  }

  method UnitRound(a: Words4, w: u64) returns (a': Words4, ghost q: u64)
    requires Eval(a) <= L
    ensures 0x10000000000000000 * Eval(a') == Eval(a) + w * 1 + q * L
    ensures Eval(a') <= L
  {
    hide Eval, Eval5;
    SingleWord(w);
    a', q := NarrowRound(a, Words5(Words4(w, 0, 0, 0), 0));
    RoundBound(Eval(a), Eval(a'), w, 1, q);
  }

  /** 2^512 modulo l, the factor that brings a number into the Montgomery domain. */
  const RADIX_SQUARED: Words4 := Words4(0xa40611e3449c0f01, 0xd00e1ba768859347, 0xceec73d217f5be65, 0x399411b7c309a3d)

  lemma RadixSquared()
    ensures Eval(RADIX_SQUARED) < L && Cong(Eval(RADIX_SQUARED), RADIX * RADIX, L)
  {
    assert Eval(RADIX_SQUARED) == 0x399411b7c309a3dceec73d217f5be65d00e1ba768859347a40611e3449c0f01;
    CongWitness(RADIX * RADIX, Eval(RADIX_SQUARED),
      0xfffffffffffffffffffffffffffffffeb2106215d086329a7ed9ce5a30a2c131b, L);
  }

  /** fiatScalarToMontgomery: the rounds with the row of 2^512 modulo l. */
  method ToMontgomery(a: Words4) returns (r: Words4)
    ensures Eval(r) < L && Cong(Eval(r), RADIX * Eval(a), L)
  {
    hide Eval, Eval5, Cong;
    ZeroWords();
    RadixSquared();
    var e1, q0 := ConstantRound(Words4(0, 0, 0, 0), a.w0);
    var e2, q1 := ConstantRound(e1, a.w1);
    var e3, q2 := ConstantRound(e2, a.w2);
    var e4, q3 := ConstantRound(e3, a.w3);
    FourRounds(a, Eval(RADIX_SQUARED), Eval(e1), Eval(e2), Eval(e3), Eval(e4), q0, q1, q2, q3);
    Widened(e4);
    r := CondSubtract(Words5(e4, 0));
    Corrected(Eval(e4), Eval(r));
    CongChain(RADIX * Eval(r), RADIX * Eval(e4), Eval(a) * Eval(RADIX_SQUARED));
    CongScale(Eval(RADIX_SQUARED), RADIX * RADIX, Eval(a), L);
    CongChain(RADIX * Eval(r), Eval(a) * Eval(RADIX_SQUARED), Eval(a) * (RADIX * RADIX));
    CancelRadix(Eval(r), RADIX * Eval(a));
  }

  method ConstantRound(a: Words4, w: u64) returns (a': Words4, ghost q: u64)
    requires Eval(a) < L + Eval(RADIX_SQUARED)
    ensures 0x10000000000000000 * Eval(a') == Eval(a) + w * Eval(RADIX_SQUARED) + q * L
    ensures Eval(a') < L + Eval(RADIX_SQUARED)
  {
    hide Eval, Eval5;
    RadixSquared();
    var row := MulRow(w, RADIX_SQUARED);
    MulMono(w, 0xFFFFFFFFFFFFFFFF, Eval(RADIX_SQUARED));
    a', q := NarrowRound(a, row);
    RoundBound(Eval(a), Eval(a'), w, Eval(RADIX_SQUARED), q);
  }

  /** 2^256 and RADIX_INVERSE are inverse to each other modulo l. */
  lemma RadixInverse()
    ensures Cong(RADIX * RADIX_INVERSE, 1, L)
  {
    CongWitness(RADIX * RADIX_INVERSE, 1, 71336056475231800826343715077027849978041630819377026201054086228062141447707, L);
  }

  lemma CancelRadix(x: int, y: int)
    requires Cong(RADIX * x, RADIX * y, L)
    ensures Cong(x, y, L)
  {
    hide Cong;
    InverseApplies(x);
    InverseApplies(y);
    CongScale(RADIX * x, RADIX * y, RADIX_INVERSE, L);
    CongFlip(RADIX_INVERSE * (RADIX * x), x);
    CongChain(x, RADIX_INVERSE * (RADIX * x), RADIX_INVERSE * (RADIX * y));
    CongChain(x, RADIX_INVERSE * (RADIX * y), y);
  }

  lemma CongFlip(a: int, b: int)
    requires Cong(a, b, L)
    ensures Cong(b, a, L)
  {
  }

  lemma InverseApplies(x: int)
    ensures Cong(RADIX_INVERSE * (RADIX * x), x, L)
  {
    RadixInverse();
    CongScale(RADIX * RADIX_INVERSE, 1, x, L);
    assert RADIX_INVERSE * (RADIX * x) == (RADIX * RADIX_INVERSE) * x;
  }

  /** fiatScalarAdd. */
  method ModularAdd(a: Words4, b: Words4) returns (r: Words4)
    requires Eval(a) < L && Eval(b) < L
    ensures Eval(r) == (Eval(a) + Eval(b)) % L
  {
    var (x0, c0) := Add64(a.w0, b.w0, 0);
    var (x1, c1) := Add64(a.w1, b.w1, c0);
    var (x2, c2) := Add64(a.w2, b.w2, c1);
    var (x3, c3) := Add64(a.w3, b.w3, c2);
    hide Add64;
    assert Eval5(Words5(Words4(x0, x1, x2, x3), c3)) == Eval(a) + Eval(b);
    r := CondSubtract(Words5(Words4(x0, x1, x2, x3), c3));
    hide Eval, Eval5;
    WrapOnce(Eval(a) + Eval(b), Eval(r));
  }

  lemma WrapOnce(s: int, r: int)
    requires 0 <= r < L && (r == s || r == s - L || r == s + L)
    ensures r == s % L
  {
    QuotientUnique(s, if r == s then 0 else if r == s - L then 1 else -1, r, L);
  }

  /** Adds l back, masked by the borrow: the shared tail of subtraction and negation. */
  method AddBack(d: Words4, borrow: bit, ghost n: int) returns (r: Words4)
    requires -L < n < L && Eval(d) == n + borrow * RADIX && (borrow == 1 <==> n < 0)
    ensures Eval(r) == n % L
  {
    hide Mask, And;
    var mask := Mask(borrow);
    MaskAnd(borrow, 0x5812631a5cf5d3ed);
    MaskAnd(borrow, 0x14def9dea2f79cd6);
    MaskAnd(borrow, 0x1000000000000000);
    var (r0, c0) := Add64(d.w0, And(mask, 0x5812631a5cf5d3ed), 0);
    var (r1, c1) := Add64(d.w1, And(mask, 0x14def9dea2f79cd6), c0);
    var (r2, c2) := Add64(d.w2, 0, c1);
    var (r3, c3) := Add64(d.w3, And(mask, 0x1000000000000000), c2);
    hide Add64;
    r := Words4(r0, r1, r2, r3);
    assert Eval(r) + c3 * RADIX == Eval(d) + borrow * L;
    hide Eval;
    WrapOnce(n, Eval(r));
  }

  /** fiatScalarSub. */
  method ModularSub(a: Words4, b: Words4) returns (r: Words4)
    requires Eval(a) < L && Eval(b) < L
    ensures Eval(r) == (Eval(a) - Eval(b)) % L
  {
    var (x0, c0) := Sub64(a.w0, b.w0, 0);
    var (x1, c1) := Sub64(a.w1, b.w1, c0);
    var (x2, c2) := Sub64(a.w2, b.w2, c1);
    var (x3, c3) := Sub64(a.w3, b.w3, c2);
    hide Sub64;
    assert Eval(Words4(x0, x1, x2, x3)) == Eval(a) - Eval(b) + c3 * RADIX;
    r := AddBack(Words4(x0, x1, x2, x3), c3, Eval(a) - Eval(b));
  }

  /** fiatScalarOpp. */
  method ModularOpp(a: Words4) returns (r: Words4)
    requires Eval(a) < L
    ensures Eval(r) == (0 - Eval(a)) % L
  {
    var (x0, c0) := Sub64(0, a.w0, 0);
    var (x1, c1) := Sub64(0, a.w1, c0);
    var (x2, c2) := Sub64(0, a.w2, c1);
    var (x3, c3) := Sub64(0, a.w3, c2);
    hide Sub64;
    assert Eval(Words4(x0, x1, x2, x3)) == 0 - Eval(a) + c3 * RADIX;
    r := AddBack(Words4(x0, x1, x2, x3), c3, 0 - Eval(a));
  }

  /** fiatScalarNonzero: the or of the four words. */
  function Nonzero(a: Words4): (r: nat)
    ensures r == 0 <==> Eval(a) == 0
  {
    OrZeroBoth(a.w2, a.w3);
    OrZeroBoth(a.w1, Or(a.w2, a.w3));
    OrZeroBoth(a.w0, Or(a.w1, Or(a.w2, a.w3)));
    Or(a.w0, Or(a.w1, Or(a.w2, a.w3)))
  }

  lemma {:induction false} OrZeroBoth(x: nat, y: nat)
    ensures Or(x, y) == 0 <==> x == 0 && y == 0
    decreases x
  {
    if x > 0 { OrZeroBoth(x / 2, y / 2); }
  }

  // ---------------------------------------------- the number represented

  /** The residue that Montgomery words stand for. */
  function Std(a: Words4): int { (Eval(a) * RADIX_INVERSE) % L }

  lemma StdIs(a: Words4, x: int)
    requires 0 <= x < L && Cong(Eval(a), RADIX * x, L)
    ensures Std(a) == x
  {
    hide Eval;
    CongScale(Eval(a), RADIX * x, RADIX_INVERSE, L);
    InverseApplies(x);
    SmallMod(x, L);
  }

  lemma ZeroEval(w: Words4)
    requires w == Words4(0, 0, 0, 0)
    ensures Eval(w) == 0
  {
  }

  lemma ZeroStd(w: Words4)
    requires Eval(w) == 0
    ensures Std(w) == 0
  {
    hide Eval;
    SmallMod(0, L);
  }

  lemma StdMeans(a: Words4)
    ensures 0 <= Std(a) < L && Cong(Eval(a), RADIX * Std(a), L)
  {
    hide Eval;
    var x := Eval(a) * RADIX_INVERSE;
    CongSelf(x, L);
    CongScale(Std(a), x, RADIX, L);
    InverseApplies(Eval(a));
    assert RADIX * x == RADIX_INVERSE * (RADIX * Eval(a));
  }

  /** Multiplication of the words multiplies the residues. */
  lemma StdOfMul(a: Words4, b: Words4, r: Words4)
    requires Cong(RADIX * Eval(r), Eval(a) * Eval(b), L)
    ensures Std(r) == (Std(a) * Std(b)) % L
  {
    hide Eval, Std, Cong;
    StdMeans(a);
    StdMeans(b);
    var x, y := Std(a), Std(b);
    CongMul(Eval(a), RADIX * x, Eval(b), RADIX * y, L);
    CongChain(RADIX * Eval(r), Eval(a) * Eval(b), (RADIX * x) * (RADIX * y));
    assert (RADIX * x) * (RADIX * y) == RADIX * (RADIX * (x * y)) by { Regroup(RADIX, x, RADIX, y); }
    CancelRadix(Eval(r), RADIX * (x * y));
    CongSelf(x * y, L);
    CongFlip((x * y) % L, x * y);
    CongScale(x * y, (x * y) % L, RADIX, L);
    CongChain(Eval(r), RADIX * (x * y), RADIX * ((x * y) % L));
    StdIs(r, (x * y) % L);
  }

  lemma StdOfSum(a: Words4, b: Words4, r: Words4)
    requires Eval(r) == (Eval(a) + Eval(b)) % L
    ensures Std(r) == (Std(a) + Std(b)) % L
  {
    hide Eval, Std;
    StdMeans(a);
    StdMeans(b);
    var x, y := Std(a), Std(b);
    CongAdd(Eval(a), RADIX * x, Eval(b), RADIX * y, L);
    CongSelf(Eval(a) + Eval(b), L);
    CongSelf(x + y, L);
    CongScale((x + y) % L, x + y, RADIX, L);
    assert RADIX * (x + y) == RADIX * x + RADIX * y;
    StdIs(r, (x + y) % L);
  }

  lemma StdOfDifference(a: Words4, b: Words4, r: Words4)
    requires Eval(r) == (Eval(a) - Eval(b)) % L
    ensures Std(r) == (Std(a) - Std(b)) % L
  {
    hide Eval, Std;
    StdMeans(a);
    StdMeans(b);
    var x, y := Std(a), Std(b);
    CongSub(Eval(a), RADIX * x, Eval(b), RADIX * y, L);
    CongSelf(Eval(a) - Eval(b), L);
    CongSelf(x - y, L);
    CongScale((x - y) % L, x - y, RADIX, L);
    assert RADIX * (x - y) == RADIX * x - RADIX * y;
    StdIs(r, (x - y) % L);
  }

  /** Leaving the Montgomery domain gives the residue itself. */
  lemma StdOfFrom(a: Words4, r: Words4)
    requires Eval(r) < L && Cong(RADIX * Eval(r), Eval(a), L)
    ensures Eval(r) == Std(a)
  {
    hide Eval, Std;
    CongFlip(RADIX * Eval(r), Eval(a));
    StdIs(a, Eval(r));
  }

  /** Entering it represents the number modulo l. */
  lemma StdOfTo(a: Words4, r: Words4)
    requires Cong(Eval(r), RADIX * Eval(a), L)
    ensures Std(r) == Eval(a) % L
  {
    hide Eval, Std;
    CongSelf(Eval(a), L);
    CongScale(Eval(a) % L, Eval(a), RADIX, L);
    StdIs(r, Eval(a) % L);
  }

  /** Reduced words are determined by the residue they stand for. */
  lemma StdInjective(a: Words4, b: Words4)
    requires Eval(a) < L && Eval(b) < L
    ensures Std(a) == Std(b) <==> a == b
  {
    if Std(a) == Std(b) {
      StdMeans(a);
      StdMeans(b);
      SmallMod(Eval(a), L);
      SmallMod(Eval(b), L);
      EvalUnique(a, b);
    }
  }

  lemma EvalUnique(a: Words4, b: Words4)
    requires Eval(a) == Eval(b)
    ensures a == b
  {
    WordUnique(a.w0, a.w1 + 0x10000000000000000 * (a.w2 + 0x10000000000000000 * a.w3),
      b.w0, b.w1 + 0x10000000000000000 * (b.w2 + 0x10000000000000000 * b.w3));
    WordUnique(a.w1, a.w2 + 0x10000000000000000 * a.w3, b.w1, b.w2 + 0x10000000000000000 * b.w3);
    WordUnique(a.w2, a.w3, b.w2, b.w3);
  }

  lemma WordUnique(x: u64, u: int, y: u64, v: int)
    requires x + 0x10000000000000000 * u == y + 0x10000000000000000 * v
    ensures x == y && u == v
  {
  }

  /** The two conversions undo each other: out of the domain after into it. */
  lemma FromAfterTo(a: Words4, m: Words4, r: Words4)
    requires Eval(a) < L && Eval(r) < L
    requires Cong(Eval(m), RADIX * Eval(a), L) && Cong(RADIX * Eval(r), Eval(m), L)
    ensures r == a
  {
    hide Eval, Std;
    StdOfTo(a, m);
    StdOfFrom(m, r);
    SmallMod(Eval(a), L);
    EvalUnique(a, r);
  }

  /** And into the domain after out of it. */
  lemma ToAfterFrom(m: Words4, a: Words4, r: Words4)
    requires Eval(m) < L && Eval(r) < L && Eval(a) < L
    requires Cong(RADIX * Eval(a), Eval(m), L) && Cong(Eval(r), RADIX * Eval(a), L)
    ensures r == m
  {
    SmallMod(Eval(m), L);
    SmallMod(Eval(r), L);
    EvalUnique(r, m);
  }
}
