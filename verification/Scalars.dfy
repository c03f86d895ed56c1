/** Scalars modulo l in the Montgomery domain (scalar.go and the scalar half of extra.go). */
module Scalars {
  import opened Bits
  import opened Modular
  import opened Words
  import opened Montgomery
  import Recoding

  type Reduced = w: Words4 | Eval(w) < L witness Words4(0, 0, 0, 0)

  // ------------------------------------------------------ bytes and words

  /** fiatScalarFromBytes: eight bytes to a word. */
  function FromBytes(b: seq<byte>): (w: Words4)
    requires |b| == 32
  {
    Words4(Word(b[0..8]), Word(b[8..16]), Word(b[16..24]), Word(b[24..32]))
  }

  lemma FromBytesValue(b: seq<byte>)
    requires |b| == 32
    ensures Eval(FromBytes(b)) == LittleEndian(b)
  {
    hide LittleEndian, Word, Pow256;
    var b0, b1, b2, b3 := b[0..8], b[8..16], b[16..24], b[24..32];
    assert b == b0 + (b1 + (b2 + b3));
    LittleEndianConcat(b0, b1 + (b2 + b3));
    LittleEndianConcat(b1, b2 + b3);
    LittleEndianConcat(b2, b3);
    Pow256Table();
    Recoding.WordMeans(b0);
    Recoding.WordMeans(b1);
    Recoding.WordMeans(b2);
    Recoding.WordMeans(b3);
  }

  /** fiatScalarToBytes: each word low byte first. */
  function WordsToBytes(w: Words4): (b: seq<byte>)
    ensures |b| == 32
  {
    ToBytes(w.w0, 8) + ToBytes(w.w1, 8) + ToBytes(w.w2, 8) + ToBytes(w.w3, 8)
  }

  lemma WordsToBytesValue(w: Words4)
    ensures WordsToBytes(w) == ToBytes(Eval(w), 32)
  {
    hide ToBytes, LittleEndian, Pow256;
    var b := WordsToBytes(w);
    Pow256Table();
    ToBytesValue(w.w0, 8);
    ToBytesValue(w.w1, 8);
    ToBytesValue(w.w2, 8);
    ToBytesValue(w.w3, 8);
    var b0, b1, b2, b3 := ToBytes(w.w0, 8), ToBytes(w.w1, 8), ToBytes(w.w2, 8), ToBytes(w.w3, 8);
    assert b == b0 + (b1 + (b2 + b3));
    LittleEndianConcat(b0, b1 + (b2 + b3));
    LittleEndianConcat(b1, b2 + b3);
    LittleEndianConcat(b2, b3);
    LittleEndianToBytes(b);
  }

  /** The canonical encoding of a reduced number never sets the top bit. */
  lemma EncodedTop(n: nat)
    requires n < L
    ensures LittleEndian(ToBytes(n, 32)) == n && ToBytes(n, 32)[31] <= 31
  {
    hide ToBytes, LittleEndian, Pow256;
    Pow256Table();
    ToBytesValue(n, 32);
    TopPlace();
    SmallNumberTail(ToBytes(n, 32), 31, 32);
  }

  lemma TopPlace()
    ensures Pow256(31) == 0x100000000000000000000000000000000000000000000000000000000000000
  {
    hide Pow256;
    Pow256Add(31, 1);
    Pow256Table();
    ByteWeight();
  }

  lemma ByteWeight()
    ensures Pow256(1) == 256
  {
  }

  // --------------------------------------------------- comparing with l

  /** l - 1 in little-endian bytes. */
  const SCALAR_MINUS_ONE: seq<byte> := [236, 211, 245, 92, 26, 99, 18, 88] + ([214, 156, 247, 162, 222, 249, 222, 20]
    + ([0, 0, 0, 0, 0, 0, 0, 0] + [0, 0, 0, 0, 0, 0, 0, 16]))

  lemma MinusOneValue()
    ensures |SCALAR_MINUS_ONE| == 32 && LittleEndian(SCALAR_MINUS_ONE) == L - 1
  {
    hide LittleEndian, Pow256;
    var b0: seq<byte>, b1: seq<byte> := [236, 211, 245, 92, 26, 99, 18, 88], [214, 156, 247, 162, 222, 249, 222, 20];
    var b2: seq<byte>, b3: seq<byte> := [0, 0, 0, 0, 0, 0, 0, 0], [0, 0, 0, 0, 0, 0, 0, 16];
    EightBytes(236, 211, 245, 92, 26, 99, 18, 88);
    EightBytes(214, 156, 247, 162, 222, 249, 222, 20);
    EightBytes(0, 0, 0, 0, 0, 0, 0, 0);
    EightBytes(0, 0, 0, 0, 0, 0, 0, 16);
    Pow256Table();
    LittleEndianConcat(b0, b1 + (b2 + b3));
    LittleEndianConcat(b1, b2 + b3);
    LittleEndianConcat(b2, b3);
  }

  lemma EightBytes(a: byte, b: byte, c: byte, d: byte, e: byte, f: byte, g: byte, h: byte)
    ensures LittleEndian([a, b, c, d, e, f, g, h])
      == a + 256 * (b + 256 * (c + 256 * (d + 256 * (e + 256 * (f + 256 * (g + 256 * h))))))
  {
    assert [a, b, c, d, e, f, g, h][1..] == [b, c, d, e, f, g, h];
    assert [b, c, d, e, f, g, h][1..] == [c, d, e, f, g, h];
    assert [c, d, e, f, g, h][1..] == [d, e, f, g, h];
    assert [d, e, f, g, h][1..] == [e, f, g, h];
    assert [e, f, g, h][1..] == [f, g, h];
    assert [f, g, h][1..] == [g, h];
    assert [g, h][1..] == [h];
    assert [h][1..] == [];
    assert LittleEndian([h]) == h;
    assert LittleEndian([g, h]) == g + 256 * LittleEndian([h]);
    assert LittleEndian([f, g, h]) == f + 256 * LittleEndian([g, h]);
    assert LittleEndian([e, f, g, h]) == e + 256 * LittleEndian([f, g, h]);
    assert LittleEndian([d, e, f, g, h]) == d + 256 * LittleEndian([e, f, g, h]);
    assert LittleEndian([c, d, e, f, g, h]) == c + 256 * LittleEndian([d, e, f, g, h]);
    assert LittleEndian([b, c, d, e, f, g, h]) == b + 256 * LittleEndian([c, d, e, f, g, h]);
  }

  /** The most significant byte where two strings differ decides which number is larger. */
  lemma HighestDifference(x: seq<byte>, y: seq<byte>, i: nat)
    requires |x| == |y| && i < |x| && x[i] < y[i] && x[i + 1..] == y[i + 1..]
    ensures LittleEndian(x) < LittleEndian(y)
  {
    hide LittleEndian, Pow256;
    assert x == x[..i] + ([x[i]] + x[i + 1..]);
    assert y == y[..i] + ([y[i]] + y[i + 1..]);
    LittleEndianConcat(x[..i], [x[i]] + x[i + 1..]);
    LittleEndianConcat(y[..i], [y[i]] + y[i + 1..]);
    FirstByte(x[i], x[i + 1..]);
    FirstByte(y[i], y[i + 1..]);
    LittleEndianBound(x[..i]);
    LargerAbove(LittleEndian(x[..i]), LittleEndian(y[..i]), Pow256(i), x[i], y[i], LittleEndian(x[i + 1..]));
  }

  lemma LargerAbove(low: nat, low': nat, p: nat, a: int, b: int, t: int)
    requires low < p && a < b
    ensures low + p * (a + 256 * t) < low' + p * (b + 256 * t)
  {
    MulMono(a + 256 * t + 1, b + 256 * t, p);
  }

  lemma FirstByte(b: byte, s: seq<byte>)
    ensures LittleEndian([b] + s) == b + 256 * LittleEndian(s)
  {
    assert ([b] + s)[1..] == s;
  }

  /** The comparison loop: from the most significant byte down to the first difference. */
  method AtMost(s: seq<byte>, m: seq<byte>) returns (r: bool)
    requires |s| == |m|
    ensures r <==> LittleEndian(s) <= LittleEndian(m)
  {
    hide LittleEndian;
    var i := |s| - 1;
    while i >= 0
      invariant -1 <= i < |s|
      invariant s[i + 1..] == m[i + 1..]
    {
      if s[i] > m[i] {
        HighestDifference(m, s, i);
        return false;
      } else if s[i] < m[i] {
        HighestDifference(s, m, i);
        return true;
      }
      assert s[i..] == [s[i]] + s[i + 1..];
      i := i - 1;
    }
    assert s == m;
    return true;
  }

  /** isReduced: true exactly for 32 bytes denoting a number below l. */
  method IsReduced(s: seq<byte>) returns (r: bool)
    ensures r <==> |s| == 32 && LittleEndian(s) < L
  {
    hide LittleEndian;
    if |s| != 32 {
      return false;
    }
    MinusOneValue();
    r := AtMost(s, SCALAR_MINUS_ONE);
  }

  // ------------------------------------------------------ wide reduction

  const TWO_168: Reduced := Words4(0x5b8ab432eac74798, 0x38afddd6de59d5d7, 0xa2c131b399411b7c, 0x6329a7ed9ce5a30)

  const TWO_336: Reduced := Words4(0xbd3d108e2b35ecc5, 0x5c3a3718bdf9c90b, 0x63aa97a331b4f2ee, 0x3d217f5be65cb5c)

  /** 2^336 modulo l. */
  const TWO_336_MOD_L: int := 0xffffffffffeb2106215d086329a7ed9e3392a8164279cd65812631a5cf5d3ed

  lemma Split168()
    ensures Std(TWO_168) == 0x1000000000000000000000000000000000000000000
  {
    CongWitness(Eval(TWO_168), RADIX * 0x1000000000000000000000000000000000000000000, -0xfffffffffffffffffffffffffffffffeb2106215d08, L);
    StdIs(TWO_168, 0x1000000000000000000000000000000000000000000);
  }

  lemma Split336()
    ensures Std(TWO_336) == TWO_336_MOD_L
    ensures Cong(TWO_336_MOD_L, 0x1000000000000000000000000000000000000000000 * 0x1000000000000000000000000000000000000000000, L)
  {
    CongWitness(Eval(TWO_336), RADIX * TWO_336_MOD_L, -0xffffffffffeb2106215d086329a7ed9ce5a30a2c131b399411b7c309a3dceec7, L);
    StdIs(TWO_336, TWO_336_MOD_L);
    CongWitness(0x1000000000000000000000000000000000000000000 * 0x1000000000000000000000000000000000000000000, TWO_336_MOD_L, 0xfffffffffffffffffffff, L);
  }

  /** x = a + b 2^168 + c 2^336 for the 21-, 21- and 22-byte pieces. */
  lemma ThreePieces(x: seq<byte>)
    requires |x| == 64
    ensures LittleEndian(x) == LittleEndian(x[..21]) + 0x1000000000000000000000000000000000000000000
      * (LittleEndian(x[21..42]) + 0x1000000000000000000000000000000000000000000 * LittleEndian(x[42..]))
  {
    hide LittleEndian, Pow256;
    assert x == x[..21] + (x[21..42] + x[42..]);
    LittleEndianConcat(x[..21], x[21..42] + x[42..]);
    LittleEndianConcat(x[21..42], x[42..]);
    Pow256Table();
  }

  /** The three reduced pieces add up to the number modulo l. */
  lemma PiecesAddUp(a: nat, b: nat, c: nat)
    ensures (((a % L + ((b % L) * 0x1000000000000000000000000000000000000000000) % L) % L) + ((c % L) * TWO_336_MOD_L) % L) % L
      == (a + 0x1000000000000000000000000000000000000000000 * (b + 0x1000000000000000000000000000000000000000000 * c)) % L
  {
    var t, u := 0x1000000000000000000000000000000000000000000, TWO_336_MOD_L;
    Split336();
    CongSelf(a, L);
    CongSelf(b, L);
    CongSelf(c, L);
    CongScale(b % L, b, t, L);
    CongMul(c % L, c, u, t * t, L);
    ReducedSum(a % L, a, (b % L) * t, b * t, (c % L) * u, c * (t * t));
    assert a + t * (b + t * c) == a + b * t + c * (t * t);
  }

  lemma ReducedSum(a: int, a': int, b: int, b': int, c: int, c': int)
    requires Cong(a, a', L) && Cong(b, b', L) && Cong(c, c', L)
    ensures ((a + b % L) % L + c % L) % L == (a' + b' + c') % L
  {
    CongSelf(b, L);
    CongSelf(c, L);
    CongSelf(a + b % L, L);
    CongAdd(a, a', b % L, b', L);
    CongAdd((a + b % L) % L, a' + b', c % L, c', L);
  }

  // ------------------------------------------------------------ clamping

  /** Section 5.1.5 of RFC 8032: the lowest three bits cleared, bit 255 cleared, bit 254 set. */
  function Clamp(n: nat): nat
  {
    0x4000000000000000000000000000000000000000000000000000000000000000
      + 8 * ((n % 0x4000000000000000000000000000000000000000000000000000000000000000) / 8)
  }

  /** The three masked updates of SetBytesWithClamping. */
  function Prune(x: seq<byte>): (y: seq<byte>)
    requires |x| == 32
    ensures |y| == 32
  {
    PruneBytes(x[0], x[31]);
    x[0 := And(x[0], 248)][31 := Or(And(x[31], 63), 64)]
  }

  lemma PruneBytes(low: byte, high: byte)
    ensures And(low, 248) == low - low % 8
    ensures Or(And(high, 63), 64) == high % 64 + 64
  {
    assert Pow2(6) == 64 && Pow2(3) == 8;
    AndMask(high, 6);
    OrDisjoint(high % 64, 64, 6);
    ClearLow(low);
  }

  lemma ClearLow(low: byte)
    ensures And(low, 248) == low - low % 8
  {
    AndEven(low, 124);
    AndEven(low / 2, 62);
    AndEven(low / 2 / 2, 31);
    assert low / 2 / 2 / 2 == low / 8;
    hide And;
    FiveBits(low / 8);
  }

  lemma AndEven(x: nat, y: nat)
    ensures And(x, 2 * y) == 2 * And(x / 2, y)
  {
  }

  lemma FiveBits(x: nat)
    requires x < 32
    ensures And(x, 31) == x
  {
    hide And;
    assert Pow2(5) == 32;
    AndMask(x, 5);
  }

  lemma PruneIsClamp(x: seq<byte>)
    requires |x| == 32
    ensures LittleEndian(Prune(x)) == Clamp(LittleEndian(x))
  {
    hide LittleEndian, And, Or, Clamp, Ends;
    PruneBytes(x[0], x[31]);
    var y := Prune(x);
    assert y[1..31] == x[1..31];
    OuterBytes(x);
    OuterBytes(y);
    MiddleBound(x[1..31]);
    ClampArithmetic(x[0], LittleEndian(x[1..31]), x[31]);
  }

  /** A number by its lowest byte, its 30 middle bytes and its highest byte. */
  function Ends(low: int, middle: int, high: int): int
  {
    low + 256 * (middle + 0x1000000000000000000000000000000000000000000000000000000000000 * high)
  }

  lemma OuterBytes(x: seq<byte>)
    requires |x| == 32
    ensures LittleEndian(x) == Ends(x[0], LittleEndian(x[1..31]), x[31])
  {
    hide LittleEndian, Pow256;
    var m := x[1..31];
    assert x == [x[0]] + (m + [x[31]]);
    FirstByte(x[0], m + [x[31]]);
    LittleEndianConcat(m, [x[31]]);
    Recoding.SingleByte(x[31]);
    MiddlePlace();
  }

  lemma MiddleBound(m: seq<byte>)
    requires |m| == 30
    ensures LittleEndian(m) < 0x1000000000000000000000000000000000000000000000000000000000000
  {
    hide LittleEndian, Pow256;
    LittleEndianBound(m);
    MiddlePlace();
  }

  lemma MiddlePlace()
    ensures Pow256(30) == 0x1000000000000000000000000000000000000000000000000000000000000
  {
    hide Pow256;
    Pow256Add(30, 1);
    TopPlace();
    ByteWeight();
  }

  lemma ClampArithmetic(low: byte, middle: nat, high: byte)
    requires middle < 0x1000000000000000000000000000000000000000000000000000000000000
    ensures 0 <= Ends(low, middle, high)
    ensures Clamp(Ends(low, middle, high)) == Ends(low - low % 8, middle, high % 64 + 64)
  {
    var p := 0x1000000000000000000000000000000000000000000000000000000000000;
    var n := low + 256 * (middle + p * high);
    var r := low + 256 * (middle + p * (high % 64));
    assert high == 64 * (high / 64) + high % 64;
    QuotientUnique(n, high / 64, r, 0x4000000000000000000000000000000000000000000000000000000000000000);
    QuotientUnique(r, low / 8 + 32 * (middle + p * (high % 64)), low % 8, 8);
  }

  // ------------------------------------------------------------- equality

  lemma {:induction false} OrMod(x: nat, y: nat, k: nat)
    ensures Or(x, y) % Pow2(k) == Or(x % Pow2(k), y % Pow2(k))
    decreases k
  {
    if k > 0 {
      HalfMod(x, Pow2(k - 1));
      HalfMod(y, Pow2(k - 1));
      OrMod(x / 2, y / 2, k - 1);
      OrDouble(x, y);
      HalfMod(Or(x, y), Pow2(k - 1));
      OrDouble(x % Pow2(k), y % Pow2(k));
    }
  }

  lemma OrDouble(x: nat, y: nat)
    ensures Or(x, y) / 2 == Or(x / 2, y / 2)
    ensures Or(x, y) % 2 == if x % 2 == 1 || y % 2 == 1 then 1 else 0
  {
  }

  predicate Divides(p: nat, x: nat)
    requires p > 0
  {
    x % p == 0
  }

  function Quotient(x: nat, p: nat): nat
    requires p > 0
  {
    x / p
  }

  /** Or-ing in the upper half keeps in the lower half whether anything was set. */
  lemma Smear(x: nat, k: nat, p: nat, pp: nat)
    requires p == Pow2(k) && pp == p * p
    ensures p > 0 && pp > 0 && (Divides(p, Or(x, Quotient(x, p))) <==> Divides(pp, x))
  {
    hide Pow2, Or, Divides, Quotient;
    TwoDigits(x, p, pp);
    OrVanishes(x, Quotient(x, p), k, p);
  }

  lemma OrVanishes(x: nat, y: nat, k: nat, p: nat)
    requires p == Pow2(k)
    ensures Divides(p, Or(x, y)) <==> Divides(p, x) && Divides(p, y)
  {
    hide Pow2, Or;
    OrMod(x, y, k);
    OrZeroBoth(x % p, y % p);
  }

  lemma TwoDigits(x: nat, p: nat, pp: nat)
    requires p > 0 && pp == p * p
    ensures pp > 0 && (Divides(pp, x) <==> Divides(p, x) && Divides(p, Quotient(x, p)))
  {
    var q, r := x / p, x % p;
    Recoding.SplitTwice(x, q, r, p, p);
    SumZero(r, p, q % p);
  }

  lemma SumZero(r: nat, p: nat, v: nat)
    requires p > 0
    ensures r + p * v == 0 <==> r == 0 && v == 0
  {
    if v >= 1 { MulMono(1, v, p); }
  }

  lemma SmearSizes()
    ensures Pow2(32) == 0x100000000 && Pow2(16) == 0x10000 && Pow2(8) == 0x100 && Pow2(4) == 0x10 && Pow2(2) == 4 && Pow2(1) == 2
  {
    assert Pow2(8) == 0x100;
    hide Pow2;
    Pow2Add(8, 8);
    Pow2Add(16, 16);
    assert Pow2(4) == 16 && Pow2(2) == 4 && Pow2(1) == 2 by { SmallShifts(); }
  }

  lemma SmallShifts()
    ensures Pow2(4) == 16 && Pow2(2) == 4 && Pow2(1) == 2
  {
  }

  /** The six shifts of Equal leave in bit 0 whether any bit was set. */
  method AnyBit(x: u64) returns (r: nat)
    ensures r % 2 == 0 <==> x == 0
  {
    hide Or, Pow2;
    SmearSizes();
    Smear(x, 32, 0x100000000, 0x10000000000000000);
    r := Or(x, x / 0x100000000);
    Smear(r, 16, 0x10000, 0x100000000);
    r := Or(r, r / 0x10000);
    Smear(r, 8, 0x100, 0x10000);
    r := Or(r, r / 0x100);
    Smear(r, 4, 0x10, 0x100);
    r := Or(r, r / 0x10);
    Smear(r, 2, 4, 16);
    r := Or(r, r / 4);
    Smear(r, 1, 2, 4);
    r := Or(r, r / 2);
  }

  // --------------------------------------------------------------- powers

  function SPow(x: int, e: nat): int { Pow(x, e) % L }

  lemma SPowMul(x: int, e: nat, f: nat)
    ensures (SPow(x, e) * SPow(x, f)) % L == SPow(x, e + f)
  {
    hide Pow;
    PowAdd(x, e, f);
    CongSelf(Pow(x, e), L);
    CongSelf(Pow(x, f), L);
    CongMul(SPow(x, e), Pow(x, e), SPow(x, f), Pow(x, f), L);
  }

  lemma SPowOnce(x: int)
    requires 0 <= x < L
    ensures SPow(x, 1) == x
  {
    assert Pow(x, 1) == x * Pow(x, 0);
    SmallMod(x, L);
  }

  /** The exponent after k squarings. */
  function Shift(e: nat, k: nat): nat { e * Pow2(k) }

  class Scalar {
    var s: Reduced

    /** The residue modulo l that the scalar stands for. */
    ghost function Value(): (v: int)
      reads this
      ensures 0 <= v < L
    {
      Std(s)
    }

    /** The zero value is the scalar zero. */
    constructor ()
      ensures Value() == 0
    {
      hide Std, Eval;
      var zero := Words4(0, 0, 0, 0);
      ZeroEval(zero);
      ZeroStd(zero);
      s := zero;
    }

    method Set(x: Scalar)
      modifies this
      ensures Value() == old(x.Value())
    {
      s := x.s;
    }

    method Add(x: Scalar, y: Scalar)
      modifies this
      ensures Value() == (old(x.Value()) + old(y.Value())) % L
    {
      hide Eval, Std;
      ghost var a, b := x.s, y.s;
      s := ModularAdd(x.s, y.s);
      StdOfSum(a, b, s);
    }

    method Subtract(x: Scalar, y: Scalar)
      modifies this
      ensures Value() == (old(x.Value()) - old(y.Value())) % L
    {
      hide Eval, Std;
      ghost var a, b := x.s, y.s;
      s := ModularSub(x.s, y.s);
      StdOfDifference(a, b, s);
    }

    method Negate(x: Scalar)
      modifies this
      ensures Value() == (0 - old(x.Value())) % L
    {
      hide Eval, Std;
      ghost var a := x.s;
      s := ModularOpp(x.s);
      ghost var zero := Words4(0, 0, 0, 0);
      ZeroEval(zero);
      ZeroStd(zero);
      StdOfDifference(zero, a, s);
    }

    method Multiply(x: Scalar, y: Scalar)
      modifies this
      ensures Value() == (old(x.Value()) * old(y.Value())) % L
    {
      hide Eval, Std, Cong;
      ghost var a, b := x.s, y.s;
      s := MontgomeryMul(x.s, y.s);
      StdOfMul(a, b, s);
    }

    /** z is copied first: it may be the receiver. */
    method MultiplyAdd(x: Scalar, y: Scalar, z: Scalar)
      modifies this
      ensures Value() == (old(x.Value()) * old(y.Value()) + old(z.Value())) % L
    {
      hide Std;
      var zCopy := new Scalar();
      zCopy.Set(z);
      Multiply(x, y);
      Add(this, zCopy);
      ReducedProduct(old(x.Value()) * old(y.Value()), old(z.Value()));
    }

    /** Reads fewer than 32 bytes, which never exceed l by much, modulo l. */
    method SetShortBytes(x: seq<byte>)
      requires |x| < 32
      modifies this
      ensures Value() == LittleEndian(x) % L
    {
      hide Eval, Std, LittleEndian, Cong, FromBytes;
      var buf := x + seq(32 - |x|, _ => 0);
      PaddedValue(x, buf);
      FromBytesValue(buf);
      var w := FromBytes(buf);
      s := ToMontgomery(w);
      StdOfTo(w, s);
    }

    /** Any 64 bytes, modulo l; other lengths are refused and leave the receiver alone. */
    method SetUniformBytes(x: seq<byte>) returns (ok: bool)
      modifies this
      ensures ok <==> |x| == 64
      ensures ok ==> Value() == LittleEndian(x) % L
      ensures !ok ==> Value() == old(Value())
    {
      hide Eval, Std, LittleEndian;
      if |x| != 64 {
        return false;
      }
      Split168();
      Split336();
      ThreePieces(x);
      PiecesAddUp(LittleEndian(x[..21]), LittleEndian(x[21..42]), LittleEndian(x[42..]));
      var two168 := Constant(TWO_168);
      var two336 := Constant(TWO_336);
      SetShortBytes(x[..21]);
      var t := new Scalar();
      t.SetShortBytes(x[21..42]);
      t.Multiply(t, two168);
      Add(this, t);
      t.SetShortBytes(x[42..]);
      t.Multiply(t, two336);
      Add(this, t);
      return true;
    }

    /** Accepts exactly the 32-byte encodings of numbers below l. */
    method SetCanonicalBytes(x: seq<byte>) returns (ok: bool)
      modifies this
      ensures ok <==> |x| == 32 && LittleEndian(x) < L
      ensures ok ==> Value() == LittleEndian(x)
      ensures !ok ==> Value() == old(Value())
    {
      hide Eval, Std, LittleEndian, Cong, FromBytes;
      if |x| != 32 {
        return false;
      }
      var reduced := IsReduced(x);
      if !reduced {
        return false;
      }
      FromBytesValue(x);
      var w := FromBytes(x);
      s := ToMontgomery(w);
      StdOfTo(w, s);
      SmallMod(LittleEndian(x), L);
      return true;
    }

    /** Clamping, then the wide reduction. */
    method SetBytesWithClamping(x: seq<byte>) returns (ok: bool)
      modifies this
      ensures ok <==> |x| == 32
      ensures ok ==> Value() == Clamp(LittleEndian(x)) % L
      ensures !ok ==> Value() == old(Value())
    {
      hide Std, LittleEndian, Clamp, Prune;
      if |x| != 32 {
        return false;
      }
      PruneIsClamp(x);
      var wide := Prune(x) + seq(32, _ => 0);
      PaddedValue(Prune(x), wide);
      ok := SetUniformBytes(wide);
    }

    /** The canonical encoding. */
    method Bytes() returns (out: seq<byte>)
      ensures out == ToBytes(Value(), 32)
    {
      hide Eval, Std, Cong, ToBytes;
      var ss := FromMontgomery(s);
      StdOfFrom(s, ss);
      WordsToBytesValue(ss);
      out := WordsToBytes(ss);
    }

    method Equal(t: Scalar) returns (r: bit)
      ensures r == 1 <==> Value() == t.Value()
    {
      hide Eval, Std, Nonzero;
      var diff := ModularSub(s, t.s);
      DifferenceZero(s, t.s);
      NonzeroFits(diff);
      var any := AnyBit(Nonzero(diff));
      r := 1 - any % 2;
    }

    method NonAdjacentForm(w: nat) returns (naf: array<Recoding.int8>)
      requires 2 <= w <= 8
      ensures fresh(naf) && naf.Length == 256
      ensures Recoding.NonAdjacent(naf[..], w) && Recoding.Digits(2, naf[..]) == Value()
    {
      hide Std, ToBytes, LittleEndian, Recoding.Digits, Recoding.NonAdjacent;
      EncodedTop(Value());
      var b := Bytes();
      naf := Recoding.NonAdjacentForm(b, w);
    }

    method SignedRadix16() returns (digits: array<Recoding.int8>)
      ensures fresh(digits) && digits.Length == 64
      ensures Recoding.Centered(digits[..]) && 0 <= digits[63] <= 8
      ensures Recoding.Digits(16, digits[..]) == Value()
    {
      hide Std, ToBytes, LittleEndian, Recoding.Digits;
      EncodedTop(Value());
      var b := Bytes();
      digits := Recoding.SignedRadix16(b);
    }

    /** k squarings in place. */
    method Pow2k(k: nat, ghost x: int, ghost e: nat)
      requires Value() == SPow(x, e)
      modifies this
      ensures Value() == SPow(x, Shift(e, k))
    {
      hide Std, SPow, Shift;
      NoShift(e);
      for i := 0 to k
        invariant Value() == SPow(x, Shift(e, i))
      {
        SPowMul(x, Shift(e, i), Shift(e, i));
        NextShift(e, i);
        Multiply(this, this);
      }
    }

    /** One window of the chain: k squarings and a multiplication by an odd power. */
    method Window(k: nat, t: Scalar, ghost x: int, ghost e: nat, ghost f: nat)
      requires Value() == SPow(x, e) && t.Value() == SPow(x, f) && t != this
      modifies this
      ensures Value() == SPow(x, Shift(e, k) + f)
    {
      hide Std, SPow, Shift;
      Pow2k(k, x, e);
      SPowMul(x, Shift(e, k), f);
      Multiply(this, t);
    }

    /** s = t^(l-2) by a sliding window of width 4; the receiver may be t. */
    method Invert(t: Scalar)
      modifies this
      ensures Value() == SPow(old(t.Value()), L - 2)
    {
      hide Std, SPow, Pow2;
      ghost var x := t.Value();
      var table := OddPowers(t);
      Set(table[0]);
      Sizes();
      FirstWindows(table, x);
      MiddleWindows(table, x);
      LastWindows(table, x);
    }

    method FirstWindows(table: seq<Scalar>, ghost x: int)
      requires IsTable(table, x) && this !in table && Value() == SPow(x, 0x1)
      modifies this
      ensures Value() == SPow(x, 0x80000000000000000000000000000000a6f7cef51)
    {
      hide Std, SPow, Pow2;
      Sizes();
      Window(127 + 1, table[1 / 2], x, 0x1, 1);
      Window(4 + 1, table[9 / 2], x, 0x100000000000000000000000000000001, 9);
      Window(3 + 1, table[11 / 2], x, 0x2000000000000000000000000000000029, 11);
      Window(3 + 1, table[13 / 2], x, 0x2000000000000000000000000000000029b, 13);
      Window(3 + 1, table[15 / 2], x, 0x2000000000000000000000000000000029bd, 15);
      Window(4 + 1, table[7 / 2], x, 0x2000000000000000000000000000000029bdf, 7);
      Window(4 + 1, table[15 / 2], x, 0x40000000000000000000000000000000537be7, 15);
      Window(3 + 1, table[5 / 2], x, 0x80000000000000000000000000000000a6f7cef, 5);
      Window(3 + 1, table[1 / 2], x, 0x80000000000000000000000000000000a6f7cef5, 1);
    }

    method MiddleWindows(table: seq<Scalar>, ghost x: int)
      requires IsTable(table, x) && this !in table && Value() == SPow(x, 0x80000000000000000000000000000000a6f7cef51)
      modifies this
      ensures Value() == SPow(x, 0x1000000000000000000000000000000014def9dea2f79cd6581263)
    {
      hide Std, SPow, Pow2;
      Sizes();
      Window(4 + 1, table[15 / 2], x, 0x80000000000000000000000000000000a6f7cef51, 15);
      Window(4 + 1, table[15 / 2], x, 0x1000000000000000000000000000000014def9dea2f, 15);
      Window(4 + 1, table[7 / 2], x, 0x2000000000000000000000000000000029bdf3bd45ef, 7);
      Window(3 + 1, table[3 / 2], x, 0x40000000000000000000000000000000537be77a8bde7, 3);
      Window(4 + 1, table[11 / 2], x, 0x40000000000000000000000000000000537be77a8bde73, 11);
      Window(5 + 1, table[11 / 2], x, 0x80000000000000000000000000000000a6f7cef517bce6b, 11);
      Window(9 + 1, table[9 / 2], x, 0x2000000000000000000000000000000029bdf3bd45ef39acb, 9);
      Window(3 + 1, table[3 / 2], x, 0x80000000000000000000000000000000a6f7cef517bce6b2c09, 3);
      Window(4 + 1, table[3 / 2], x, 0x80000000000000000000000000000000a6f7cef517bce6b2c093, 3);
    }

    method LastWindows(table: seq<Scalar>, ghost x: int)
      requires IsTable(table, x) && this !in table && Value() == SPow(x, 0x1000000000000000000000000000000014def9dea2f79cd6581263)
      modifies this
      ensures Value() == SPow(x, L - 2)
    {
      hide Std, SPow, Pow2;
      Sizes();
      Window(4 + 1, table[3 / 2], x, 0x1000000000000000000000000000000014def9dea2f79cd6581263, 3);
      Window(4 + 1, table[9 / 2], x, 0x2000000000000000000000000000000029bdf3bd45ef39acb024c63, 9);
      Window(3 + 1, table[7 / 2], x, 0x40000000000000000000000000000000537be77a8bde735960498c69, 7);
      Window(3 + 1, table[3 / 2], x, 0x40000000000000000000000000000000537be77a8bde735960498c697, 3);
      Window(3 + 1, table[13 / 2], x, 0x40000000000000000000000000000000537be77a8bde735960498c6973, 13);
      Window(3 + 1, table[7 / 2], x, 0x40000000000000000000000000000000537be77a8bde735960498c6973d, 7);
      Window(4 + 1, table[9 / 2], x, 0x40000000000000000000000000000000537be77a8bde735960498c6973d7, 9);
      Window(3 + 1, table[15 / 2], x, 0x80000000000000000000000000000000a6f7cef517bce6b2c09318d2e7ae9, 15);
      Window(4 + 1, table[11 / 2], x, 0x80000000000000000000000000000000a6f7cef517bce6b2c09318d2e7ae9f, 11);
    }

  }

  /** The table of odd powers t, t^3, ..., t^15. */
  ghost predicate IsTable(table: seq<Scalar>, x: int)
    reads table
  {
    |table| == 8 && forall i :: 0 <= i < 8 ==> table[i].Value() == SPow(x, 2 * i + 1)
  }

  method OddPowers(t: Scalar) returns (table: seq<Scalar>)
    ensures IsTable(table, t.Value()) && forall i :: 0 <= i < 8 ==> fresh(table[i])
  {
    hide Std, SPow;
    ghost var x := t.Value();
    SPowOnce(x);
    var tt := new Scalar();
    tt.Multiply(t, t);
    SPowMul(x, 1, 1);
    var first := new Scalar();
    first.Set(t);
    table := [first];
    for i := 0 to 7
      invariant |table| == i + 1 && tt.Value() == SPow(x, 2)
      invariant forall j :: 0 <= j <= i ==> fresh(table[j]) && table[j].Value() == SPow(x, 2 * j + 1)
      invariant t.Value() == x
    {
      var next := new Scalar();
      SPowMul(x, 2 * i + 1, 2);
      next.Multiply(table[i], tt);
      table := table + [next];
    }
  }

  lemma Sizes()
    ensures Pow2(4) == 16 && Pow2(5) == 32 && Pow2(6) == 64 && Pow2(10) == 1024
    ensures Pow2(128) == 0x100000000000000000000000000000000
  {
    assert Pow2(4) == 16 && Pow2(5) == 32 && Pow2(6) == 64;
    hide Pow2;
    Pow2Add(5, 5);
    Pow2Of64();
    Pow2Add(64, 64);
  }

  lemma NoShift(e: nat)
    ensures Shift(e, 0) == e
  {
    assert Pow2(0) == 1;
  }

  lemma NextShift(e: nat, i: nat)
    ensures Shift(e, i) + Shift(e, i) == Shift(e, i + 1)
  {
    assert Pow2(i + 1) == 2 * Pow2(i);
  }

  lemma ReducedProduct(p: int, z: int)
    ensures (p % L + z) % L == (p + z) % L
  {
    CongSelf(p, L);
    CongAdd(p % L, p, z, z, L);
  }

  lemma PaddedValue(x: seq<byte>, y: seq<byte>)
    requires |x| <= |y| && y[..|x|] == x && forall i :: |x| <= i < |y| ==> y[i] == 0
    ensures LittleEndian(y) == LittleEndian(x)
  {
    hide LittleEndian, Pow256;
    assert y == x + y[|x|..];
    LittleEndianConcat(x, y[|x|..]);
    LittleEndianZeros(y[|x|..]);
  }

  method Constant(w: Reduced) returns (c: Scalar)
    ensures fresh(c) && c.Value() == Std(w)
  {
    c := new Scalar();
    c.s := w;
  }

  lemma DifferenceZero(a: Words4, b: Words4)
    requires Eval(a) < L && Eval(b) < L
    ensures (Eval(a) - Eval(b)) % L == 0 <==> Std(a) == Std(b)
  {
    hide Eval, Std;
    StdInjective(a, b);
    if (Eval(a) - Eval(b)) % L == 0 {
      WrapOnce(Eval(a) - Eval(b), if Eval(a) >= Eval(b) then Eval(a) - Eval(b) else Eval(a) - Eval(b) + L);
      EvalUnique(a, b);
    }
  }

  lemma NonzeroFits(a: Words4)
    ensures Nonzero(a) < 0x10000000000000000
  {
    hide Or, Pow2;
    Pow2Of64();
    OrRange(a.w2, a.w3, 64);
    OrRange(a.w1, Or(a.w2, a.w3), 64);
    OrRange(a.w0, Or(a.w1, Or(a.w2, a.w3)), 64);
  }

  lemma {:induction false} OrRange(x: nat, y: nat, n: nat)
    requires x < Pow2(n) && y < Pow2(n)
    ensures Or(x, y) < Pow2(n)
  {
    if x > 0 { OrRange(x / 2, y / 2, n - 1); }
  }

  // ------------------------------------------------ what the powers are for

  /** The (l-2)-th power is the inverse of a nonzero scalar, and 0 for 0. */
  lemma InvertCorrect(x: int)
    requires Prime(L) && 0 <= x < L
    ensures x != 0 ==> (x * SPow(x, L - 2)) % L == 1
    ensures x == 0 ==> SPow(x, L - 2) == 0
  {
    hide Pow, SPow;
    if x == 0 {
      ZeroSPow(L - 2);
    } else {
      SPowOnce(x);
      SPowMul(x, 1, L - 2);
      FermatScalar(x);
    }
  }

  lemma FermatScalar(x: int)
    requires Prime(L) && 0 < x < L
    ensures SPow(x, L - 1) == 1
  {
    hide Pow;
    SmallMod(x, L);
    Fermat(x, L);
  }

  lemma ZeroSPow(e: nat)
    requires e > 0
    ensures SPow(0, e) == 0
  {
    PowZero(e);
  }

  /** The encoding determines the scalar, and is the only accepted one. */
  lemma CanonicalRoundTrip(x: seq<byte>, n: nat)
    requires n < L
    ensures |x| == 32 && LittleEndian(x) == n <==> x == ToBytes(n, 32)
  {
    hide LittleEndian, ToBytes, Pow256;
    EncodedTop(n);
    if |x| == 32 && LittleEndian(x) == n { LittleEndianToBytes(x); }
  }
}
