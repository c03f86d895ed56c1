/** Bitwise operations on naturals, bit by bit, and the arithmetic they amount to. */
module Bits {
  import opened Modular
  import opened Words

  function And(x: nat, y: nat): nat
  {
    if x == 0 || y == 0 then 0
    else (if x % 2 == 1 && y % 2 == 1 then 1 else 0) + 2 * And(x / 2, y / 2)
  }

  function Or(x: nat, y: nat): nat
    decreases x + y
  {
    if x == 0 then y
    else (if x % 2 == 1 || y % 2 == 1 then 1 else 0) + 2 * Or(x / 2, y / 2)
  }

  function Xor(x: nat, y: nat): nat
  {
    if x == 0 then y
    else (if x % 2 != y % 2 then 1 else 0) + 2 * Xor(x / 2, y / 2)
  }

  function Pow2(n: nat): (p: nat)
    ensures p > 0
  {
    if n == 0 then 1 else 2 * Pow2(n - 1)
  }

  /** "& (2^n - 1)" is the remainder by 2^n. */
  lemma {:induction false} AndMask(x: nat, n: nat)
    ensures And(x, Pow2(n) - 1) == And(Pow2(n) - 1, x) == x % Pow2(n)
    decreases n
  {
    if n == 0 {
    } else if x > 0 {
      AndMask(x / 2, n - 1);
      var p := Pow2(n - 1);
      assert (2 * p - 1) / 2 == p - 1 && (2 * p - 1) % 2 == 1;
      HalfMod(x, p);
    }
  }

  lemma HalfMod(x: nat, p: nat)
    requires p > 0
    ensures x % (2 * p) == x % 2 + 2 * ((x / 2) % p)
  {
    var q, r := (x / 2) / p, (x / 2) % p;
    assert x / 2 == q * p + r;
    assert x == q * (2 * p) + (x % 2 + 2 * r);
    QuotientUnique(x, q, x % 2 + 2 * r, 2 * p);
  }

  /** "|" of numbers with disjoint bits is their sum. */
  lemma {:induction false} OrDisjoint(x: nat, y: nat, n: nat)
    requires x < Pow2(n) && y % Pow2(n) == 0
    ensures Or(x, y) == x + y
  {
    if x > 0 {
      HalfMod(y, Pow2(n - 1));
      OrDisjoint(x / 2, y / 2, n - 1);
    }
  }

  lemma OrZero(x: nat)
    ensures Or(x, 0) == x
  {
    if x > 0 { OrZero(x / 2); }
  }

  lemma {:induction false} XorTwice(x: nat, y: nat)
    ensures Xor(x, Xor(x, y)) == y && Xor(y, Xor(x, y)) == x
    decreases x + y
  {
    var z := Xor(x, y);
    if x == 0 {
      if y > 0 { XorSelf(y); }
    } else {
      XorTwice(x / 2, y / 2);
      if y > 0 {
        assert z % 2 == (if x % 2 != y % 2 then 1 else 0) && z / 2 == Xor(x / 2, y / 2);
      } else {
        XorRight(x);
      }
    }
  }

  lemma {:induction false} XorSelf(y: nat)
    ensures Xor(y, y) == 0
  {
    if y > 0 { XorSelf(y / 2); }
  }

  lemma {:induction false} XorRight(x: nat)
    ensures Xor(x, 0) == x
  {
    if x > 0 { XorRight(x / 2); }
  }

  lemma {:induction false} Pow2Add(m: nat, n: nat)
    ensures Pow2(m + n) == Pow2(m) * Pow2(n)
  {
    if m > 0 { Pow2Add(m - 1, n); }
  }

  lemma Pow2Of64()
    ensures Pow2(64) == 0x1_0000_0000_0000_0000
  {
    assert Pow2(8) == 0x100;
    assert Pow2(16) == 0x1_0000 by { assert Pow2(12) == 0x1000; }
    assert Pow2(24) == 0x100_0000 by { assert Pow2(20) == 0x10_0000; }
    assert Pow2(32) == 0x1_0000_0000 by { assert Pow2(28) == 0x1000_0000; }
    assert Pow2(40) == 0x100_0000_0000 by { assert Pow2(36) == 0x10_0000_0000; }
    assert Pow2(48) == 0x1_0000_0000_0000 by { assert Pow2(44) == 0x1000_0000_0000; }
    assert Pow2(56) == 0x100_0000_0000_0000 by { assert Pow2(52) == 0x10_0000_0000_0000; }
    assert Pow2(64) == 0x1_0000_0000_0000_0000 by { assert Pow2(60) == 0x1000_0000_0000_0000; }
  }

  /** The all-ones or all-zeros mask made from a condition bit: ^(cond - 1). */
  function Mask(cond: bit): u64
  {
    if cond == 1 then 0xFFFF_FFFF_FFFF_FFFF else 0
  }

  function Not64(x: u64): u64 { 0xFFFF_FFFF_FFFF_FFFF - x }

  lemma MaskAnd(cond: bit, x: u64)
    ensures And(Mask(cond), x) == (if cond == 1 then x else 0)
    ensures And(Not64(Mask(cond)), x) == (if cond == 1 then 0 else x)
  {
    Pow2Of64();
    AndMask(x, 64);
  }

  /** (m & a) | (^m & b) picks a or b. */
  function SelectWord(a: u64, b: u64, cond: bit): (r: u64)
    ensures r == if cond == 1 then a else b
  {
    MaskAnd(cond, a);
    MaskAnd(cond, b);
    OrZero(a);
    Or(And(Mask(cond), a), And(Not64(Mask(cond)), b))
  }

  /** m & (a ^ b): what both words are or-ed exclusively with to be exchanged, or kept. */
  function SwapMask(a: u64, b: u64, cond: bit): (t: nat)
    ensures Xor(a, t) == if cond == 1 then b else a
    ensures Xor(b, t) == if cond == 1 then a else b
  {
    Pow2Of64();
    XorRange(a, b, 64);
    MaskAnd(cond, Xor(a, b));
    XorTwice(a, b);
    XorRight(a);
    XorRight(b);
    And(Mask(cond), Xor(a, b))
  }

  lemma {:induction false} XorRange(x: nat, y: nat, n: nat)
    requires x < Pow2(n) && y < Pow2(n)
    ensures Xor(x, y) < Pow2(n)
  {
    if x > 0 { XorRange(x / 2, y / 2, n - 1); }
  }
}
