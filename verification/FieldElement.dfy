/** The in-place operations on Element (field/fe.go, field/fe_generic.go, field/fe_extra.go).

    Receivers and arguments may be one object: each method reads its arguments before it
    writes. A method's contract gives the exact limbs it leaves, as a function of the limbs
    on entry; module Field says what those limbs mean. */
module FieldElement {
  import opened Bits
  import opened Modular
  import opened Words
  import opened Field
  import opened SubtractBound

  /** A 128-bit number as two words. */
  datatype U128 = U128(lo: u64, hi: u64)

  function V(a: U128): int { a.lo + a.hi * 0x1_0000_0000_0000_0000 }

  function MulWide(a: u64, b: u64): (r: U128)
    ensures V(r) == a * b
    ensures a < 0x200000000000000 && b < 0x10000000000000 ==> 0 <= a * b < 0x2000000000000000000000000000
  {
    if a < 0x200000000000000 && b < 0x10000000000000 then
      ProductBound(a, b, 0x200000000000000 - 1, 0x10000000000000 - 1);
      U128(Mul64(a, b).1, Mul64(a, b).0)
    else
      U128(Mul64(a, b).1, Mul64(a, b).0)
  }

  /** v + a * b, exact whenever the high word does not overflow. */
  function AddMul64(v: U128, a: u64, b: u64): (r: U128)
    ensures V(v) + a * b < 0x1_0000_0000_0000_0000_0000_0000_0000_0000 ==> V(r) == V(v) + a * b
    ensures a < 0x200000000000000 && b < 0x10000000000000 ==> 0 <= a * b < 0x2000000000000000000000000000
  {
    var m := MulWide(a, b);
    var (lo, c) := Add64(m.lo, v.lo, 0);
    var (hi, d) := Add64(m.hi, v.hi, c);
    assert V(U128(lo, hi)) == V(v) + V(m) - d * 0x1_0000_0000_0000_0000_0000_0000_0000_0000;
    U128(lo, hi)
  }

  /** a >> 51, kept to one word: exact below 2^115. */
  function ShiftRightBy51(a: U128): (r: u64)
    ensures V(a) < 0x80000000000000000000000000000 ==> r == V(a) / 0x8000000000000
  {
    ShiftedHalves(a);
    Or(a.lo / 0x8000000000000, (a.hi * 0x2000) % 0x1_0000_0000_0000_0000)
  }

  lemma ShiftedHalves(a: U128)
    ensures Or(a.lo / 0x8000000000000, (a.hi * 0x2000) % 0x1_0000_0000_0000_0000)
         == a.lo / 0x8000000000000 + (a.hi * 0x2000) % 0x1_0000_0000_0000_0000 < 0x1_0000_0000_0000_0000
  {
    assert Pow2(13) == 0x2000;
    OrDisjoint(a.lo / 0x8000000000000, (a.hi * 0x2000) % 0x1_0000_0000_0000_0000, 13);
  }

  lemma LowBits(a: U128)
    ensures a.lo % 0x8000000000000 == V(a) % 0x8000000000000
  {
  }

  /** A factor premultiplied by a small constant, as the column code prepares them. */
  predicate Factor(x: int) { 0 <= x < 0x200000000000000 }

  predicate Operand(y: int) { 0 <= y < 0x10000000000000 }

  /** mul64 followed by two addMul64: the three wide products of a squaring column. */
  method Column3(x0: u64, y0: u64, x1: u64, y1: u64, x2: u64, y2: u64) returns (r: U128)
    requires Factor(x0) && Factor(x1) && Factor(x2) && Operand(y0) && Operand(y1) && Operand(y2)
    ensures V(r) == x0 * y0 + x1 * y1 + x2 * y2
  {
    r := MulWide(x0, y0);
    r := AddMul64(r, x1, y1);
    r := AddMul64(r, x2, y2);
  }

  /** mul64 followed by four addMul64: the five wide products of a multiplication column. */
  method Column5(x0: u64, y0: u64, x1: u64, y1: u64, x2: u64, y2: u64, x3: u64, y3: u64, x4: u64, y4: u64)
    returns (r: U128)
    requires Factor(x0) && Factor(x1) && Factor(x2) && Factor(x3) && Factor(x4)
    requires Operand(y0) && Operand(y1) && Operand(y2) && Operand(y3) && Operand(y4)
    ensures V(r) == x0 * y0 + x1 * y1 + x2 * y2 + x3 * y3 + x4 * y4
  {
    r := MulWide(x0, y0);
    r := AddMul64(r, x1, y1);
    r := AddMul64(r, x2, y2);
    r := AddMul64(r, x3, y3);
    r := AddMul64(r, x4, y4);
  }

  lemma Nineteen(x: int, y: int)
    ensures (x * 19) * y == 19 * (x * y)
  {
  }

  /** The columns as the multiplication code forms them, with 19 times the high limbs of a. */
  lemma ScaledColumns(a: Fe, b: Fe)
    ensures Columns(a, b) == Fe(
      a.l0 * b.l0 + (a.l1 * 19) * b.l4 + (a.l2 * 19) * b.l3 + (a.l3 * 19) * b.l2 + (a.l4 * 19) * b.l1,
      a.l0 * b.l1 + a.l1 * b.l0 + (a.l2 * 19) * b.l4 + (a.l3 * 19) * b.l3 + (a.l4 * 19) * b.l2,
      a.l0 * b.l2 + a.l1 * b.l1 + a.l2 * b.l0 + (a.l3 * 19) * b.l4 + (a.l4 * 19) * b.l3,
      a.l0 * b.l3 + a.l1 * b.l2 + a.l2 * b.l1 + a.l3 * b.l0 + (a.l4 * 19) * b.l4,
      a.l0 * b.l4 + a.l1 * b.l3 + a.l2 * b.l2 + a.l3 * b.l1 + a.l4 * b.l0)
  {
    Nineteen(a.l1, b.l4);
    Nineteen(a.l2, b.l3);
    Nineteen(a.l2, b.l4);
    Nineteen(a.l3, b.l2);
    Nineteen(a.l3, b.l3);
    Nineteen(a.l3, b.l4);
    Nineteen(a.l4, b.l1);
    Nineteen(a.l4, b.l2);
    Nineteen(a.l4, b.l3);
    Nineteen(a.l4, b.l4);
  }

  /** The columns of a square as the squaring code forms them, with equal products paired. */
  lemma PairedColumns(a: Fe)
    ensures Columns(a, a) == Fe(
      a.l0 * a.l0 + (a.l1 * 38) * a.l4 + (a.l2 * 38) * a.l3,
      (a.l0 * 2) * a.l1 + (a.l2 * 38) * a.l4 + (a.l3 * 19) * a.l3,
      (a.l0 * 2) * a.l2 + a.l1 * a.l1 + (a.l3 * 38) * a.l4,
      (a.l0 * 2) * a.l3 + (a.l1 * 2) * a.l2 + (a.l4 * 19) * a.l4,
      (a.l0 * 2) * a.l4 + (a.l1 * 2) * a.l3 + a.l2 * a.l2)
  {
  }

  /** The limbs below position i, as a number. */
  function Partial(a: Fe, i: nat): int
  {
    match i
    case 0 => 0
    case 1 => a.l0
    case 2 => a.l0 + a.l1 * 0x8000000000000
    case 3 => a.l0 + a.l1 * 0x8000000000000 + a.l2 * 0x40000000000000000000000000
    case 4 => a.l0 + a.l1 * 0x8000000000000 + a.l2 * 0x40000000000000000000000000
      + a.l3 * 0x200000000000000000000000000000000000000
    case _ => Val(a)
  }

  function LimbAt(a: Fe, i: nat): int
  {
    match i case 0 => a.l0 case 1 => a.l1 case 2 => a.l2 case 3 => a.l3 case _ => a.l4
  }

  lemma ShiftTable()
    ensures Pow2(0) == 1 && Pow2(1) == 2 && Pow2(3) == 8 && Pow2(4) == 16 && Pow2(6) == 64
  {
  }

  /** Where limb i goes among the bytes: byte 51i/8, shifted up by 51i%8 bits. */
  lemma LimbPlace(a: Fe, i: nat)
    requires i < 5 && AllBelow(a, T51)
    ensures Pow2(i * 51 % 8) <= 64
    ensures 0 <= LimbAt(a, i) * Pow2(i * 51 % 8) < BASE
    ensures i == 4 ==> LimbAt(a, i) * Pow2(i * 51 % 8) < 0x100000000000000
    ensures 0 <= Partial(a, i) < Pow256(i * 51 / 8) * Pow2(i * 51 % 8)
    ensures Partial(a, i + 1) == Partial(a, i) + Pow256(i * 51 / 8) * (LimbAt(a, i) * Pow2(i * 51 % 8))
  {
    hide Pow2, Pow256;
    Pow256Table();
    ShiftTable();
    match i {
      case 0 => assert i * 51 % 8 == 0 && i * 51 / 8 == 0;
      case 1 => assert i * 51 % 8 == 3 && i * 51 / 8 == 6;
      case 2 => assert i * 51 % 8 == 6 && i * 51 / 8 == 12;
      case 3 => assert i * 51 % 8 == 1 && i * 51 / 8 == 19;
      case 4 => assert i * 51 % 8 == 4 && i * 51 / 8 == 25;
    }
  }

  lemma OrByte(x: byte, y: byte, s: nat)
    requires x == 0 || (x < Pow2(s) && y % Pow2(s) == 0)
    ensures Or(x, y) == x + y
  {
    if x > 0 { OrDisjoint(x, y, s); }
  }

  /** One more byte of a little-endian word, placed o bytes up. */
  lemma NextByte(buf: seq<byte>, i: nat, o: nat)
    requires i < |buf|
    ensures Pow256(o) * LittleEndian(buf[..i + 1]) == Pow256(o) * LittleEndian(buf[..i]) + Pow256(o + i) * buf[i]
  {
    hide Pow256;
    assert buf[..i + 1] == buf[..i] + [buf[i]];
    LittleEndianConcat(buf[..i], [buf[i]]);
    assert LittleEndian([buf[i]]) == buf[i];
    Pow256Add(o, i);
    assert Pow256(o) * (Pow256(i) * buf[i]) == (Pow256(o) * Pow256(i)) * buf[i];
  }

  /** What the first byte of a word with s zero low bits can hold. */
  lemma LowByte(w: u64, s: nat)
    requires s <= 6 && w % Pow2(s) == 0
    ensures ToBytes(w, 8)[0] % Pow2(s) == 0
  {
    var p, q := Pow2(s), Pow2(8 - s);
    Split256(s);
    ModOfMultiple(w, p, q);
  }

  lemma ModOfMultiple(w: int, p: int, q: int)
    requires p > 0 && p * q == 256 && w % p == 0
    ensures (w % 256) % p == 0
  {
    var u := w / 256;
    assert (p * q) * u == (q * u) * p;
    assert w % 256 == w + (-(q * u)) * p;
    AddMultiple(w, -(q * u), p);
  }

  predicate FitsByte(x: int, y: int) { 0 <= x + y < 256 }

  /** Or-ing in the next byte of the word adds it at its place. */
  lemma OrStep(now: seq<byte>, before: seq<byte>, buf: seq<byte>, o: nat, i: nat, s: nat)
    requires o + i < |now| == |before| && i < |buf|
    requires now[o + i] == before[o + i] && FitsByte(before[o + i], buf[i])
    requires before[o + i] == 0 || (before[o + i] < Pow2(s) && buf[i] % Pow2(s) == 0)
    requires LittleEndian(now) == LittleEndian(before) + Pow256(o) * LittleEndian(buf[..i])
    ensures Or(now[o + i], buf[i]) < 256
    ensures LittleEndian(now[o + i := Or(now[o + i], buf[i])])
      == LittleEndian(before) + Pow256(o) * LittleEndian(buf[..i + 1])
  {
    hide LittleEndian, Pow256, Pow2;
    OrByte(now[o + i], buf[i], s);
    LittleEndianUpdate(now, o + i, now[o + i] + buf[i]);
    NextByte(buf, i, o);
  }

  lemma SumFits(x: byte, y: byte, s: nat)
    requires s <= 6 && x < Pow2(s) && y % Pow2(s) == 0
    ensures FitsByte(x, y)
  {
    var p, q := Pow2(s), Pow2(8 - s);
    Split256(s);
    var k := y / p;
    assert y == p * k;
    if k >= q {
      MulMono(q, k, p);
    }
    MulMono(k, q - 1, p);
  }

  lemma Split256(s: nat)
    requires s <= 8
    ensures Pow2(s) * Pow2(8 - s) == 256
  {
    Pow2Add(s, 8 - s);
  }

  /** Stores the eight bytes of w into out from position o on, or-ing them in and stopping
      at the end. With nothing above the low s bits of byte o, this adds w at that place. */
  method OrWord(out: array<byte>, o: nat, w: u64, s: nat)
    requires out.Length == 32 && o <= 25 && (o == 25 ==> w < 0x100000000000000)
    requires s <= 6 && w % Pow2(s) == 0 && LittleEndian(out[..]) < Pow256(o) * Pow2(s)
    modifies out
    ensures LittleEndian(out[..]) == old(LittleEndian(out[..])) + Pow256(o) * w
  {
    hide LittleEndian, Pow256, Pow2, ToBytes, Or;
    var buf := ToBytes(w, 8);
    ghost var before := out[..];
    WordBytes(w, o, buf);
    SmallShift(s);
    SmallNumberTail(before, o, Pow2(s));
    LowByte(w, s);
    SumFits(before[o], buf[0], s);
    var i := 0;
    while i < 8
      invariant 0 <= i <= 8 && o + i <= 32
      invariant LittleEndian(out[..]) == LittleEndian(before) + Pow256(o) * LittleEndian(buf[..i])
      invariant forall k :: o + i <= k < 32 ==> out[k] == before[k]
    {
      if o + i >= 32 { break; }
      ghost var now := out[..];
      OrStep(now, before, buf, o, i, s);
      out[o + i] := Or(out[o + i], buf[i]);
      assert out[..] == now[o + i := Or(now[o + i], buf[i])];
      i := i + 1;
    }
  }

  lemma SmallShift(s: nat)
    requires s <= 6
    ensures Pow2(s) <= 64
    decreases 6 - s
  {
    if s == 6 {
      ShiftTable();
    } else {
      SmallShift(s + 1);
    }
  }

  lemma WordBytes(w: u64, o: nat, buf: seq<byte>)
    requires buf == ToBytes(w, 8)
    ensures LittleEndian(buf[..0]) == 0 && LittleEndian(buf[..8]) == w
    ensures w < 0x100000000000000 ==> LittleEndian(buf[..7]) == w
  {
    Pow256Table();
    ToBytesValue(w, 8);
    assert buf[..8] == buf;
    if w < 0x100000000000000 {
      assert Pow256(7) == 0x100000000000000;
      SmallNumberTail(buf, 7, 1);
      NextByte(buf, 7, 0);
    }
  }

  lemma SameBytes(x: nat, y: nat)
    requires x < P && y < P
    ensures ToBytes(x, 32) == ToBytes(y, 32) <==> x == y
  {
    Pow256Table();
    ToBytesValue(x, 32);
    ToBytesValue(y, 32);
  }

  lemma LowBit(x: nat, n: nat)
    requires n > 0
    ensures ToBytes(x, n)[0] % 2 == x % 2
  {
  }

  /** lo + hi * 2^51 = a * b for a small second factor. */
  function Mul51(a: u64, b: u64): (r: (u64, u64))
    requires a < 0x8004000000000 && b < 0x1_0000_0000
    ensures r.0 == (a * b) % T51 && r.1 == (a * b) / T51 && r.1 <= 0x1_0000_0000 + 0x80000
  {
    ProductBound(a, b, 0x8004000000000 - 1, 0x1_0000_0000 - 1);
    var m := MulWide(a, b);
    LowBits(m);
    (m.lo % T51, ShiftRightBy51(m))
  }

  lemma Mult32Correct(a: Fe, y: int)
    requires Bounded(a) && 0 <= y < 0x1_0000_0000
    ensures Bounded(Carry(Row(y, a))) && R(Carry(Row(y, a))) == FMul(R(a), y % P)
    ensures Row(y, a) == Fe(a.l0 * y, a.l1 * y, a.l2 * y, a.l3 * y, a.l4 * y)
  {
    ProductBound(a.l0, y, 0x8004000000000 - 1, 0x1_0000_0000 - 1);
    ProductBound(a.l1, y, 0x8004000000000 - 1, 0x1_0000_0000 - 1);
    ProductBound(a.l2, y, 0x8004000000000 - 1, 0x1_0000_0000 - 1);
    ProductBound(a.l3, y, 0x8004000000000 - 1, 0x1_0000_0000 - 1);
    ProductBound(a.l4, y, 0x8004000000000 - 1, 0x1_0000_0000 - 1);
    assert R(Carry(Row(y, a))) == FMul(R(a), y % P) by {
      hide Val, Row, Carry, FMul;
      CarryValue(Row(y, a));
      RowValue(y, a);
      ResidueMul(Val(a), y);
    }
  }

  /** The bit that reading 32 bytes as 255 bits drops. */
  function TopBit(x: seq<byte>): (r: bit)
    requires |x| == 32
  {
    x[31] / 128
  }

  lemma TopBitValue(x: seq<byte>)
    requires |x| == 32
    ensures LittleEndian(x) == LittleEndian(x) % (P + 19) + (P + 19) * TopBit(x)
  {
    hide LittleEndian, Pow256;
    assert x == x[..31] + [x[31]];
    LittleEndianConcat(x[..31], [x[31]]);
    LittleEndianBound(x[..31]);
    assert LittleEndian([x[31]]) == x[31] by { OneByte(x[31]); }
    assert Pow256(31) == 0x100000000000000000000000000000000000000000000000000000000000000 by {
      Pow256Add(31, 1);
      Pow256Table();
      OneByte(0);
    }
    TopBitOfNumber(LittleEndian(x[..31]), x[31]);
  }

  lemma TopBitOfNumber(low: int, top: byte)
    requires 0 <= low < 0x100000000000000000000000000000000000000000000000000000000000000
    ensures (low + 0x100000000000000000000000000000000000000000000000000000000000000 * top) / (P + 19) == top / 128
  {
    var n := low + 0x100000000000000000000000000000000000000000000000000000000000000 * top;
    var q, r := top / 128, top % 128;
    QuotientUnique(n, q, low + 0x100000000000000000000000000000000000000000000000000000000000000 * r, P + 19);
  }

  lemma OneByte(b: byte)
    ensures LittleEndian([b]) == b && Pow256(1) == 256
  {
    assert [b][1..] == [];
  }

  /** A 64-byte number splits at bits 255, 256 and 511. */
  lemma WideParts(x: seq<byte>) returns (k: int)
    requires |x| == 64
    ensures LittleEndian(x) == LittleEndian(x[..32]) % (P + 19) + 38 * (LittleEndian(x[32..]) % (P + 19))
      + 19 * TopBit(x[..32]) + 722 * TopBit(x[32..]) + k * P
  {
    hide LittleEndian, TopBit, Pow256;
    var lo, hi := x[..32], x[32..];
    assert x == lo + hi;
    LittleEndianConcat(lo, hi);
    Pow256Table();
    TopBitValue(lo);
    TopBitValue(hi);
    k := TopBit(lo) + 2 * (LittleEndian(hi) % (P + 19)) + (2 * P + 76) * TopBit(hi);
  }

  /** What SetWideBytes stores before its carry pass. */
  function WideSum(a: Fe, b: Fe, i: bit, j: bit): Fe
  {
    Fe(a.l0 + i * 19 + b.l0 * 2 * 19 + j * 2 * 19 * 19, a.l1 + b.l1 * 2 * 19, a.l2 + b.l2 * 2 * 19,
       a.l3 + b.l3 * 2 * 19, a.l4 + b.l4 * 2 * 19)
  }

  lemma WideLimbs(x: seq<byte>, a: Fe, b: Fe)
    requires |x| == 64
    requires a == FromInt(LittleEndian(x[..32]) % (P + 19)) && b == FromInt(LittleEndian(x[32..]) % (P + 19))
    ensures AllBelow(a, T51) && AllBelow(b, T51)
    ensures R(Carry(WideSum(a, b, TopBit(x[..32]), TopBit(x[32..])))) == LittleEndian(x) % P
  {
    hide LittleEndian, FromInt, R, Carry, TopBit;
    FromIntValue(LittleEndian(x[..32]) % (P + 19));
    FromIntValue(LittleEndian(x[32..]) % (P + 19));
    var k := WideParts(x);
    var c := WideSum(a, b, TopBit(x[..32]), TopBit(x[32..]));
    assert Val(c) == Val(a) + 38 * Val(b) + 19 * TopBit(x[..32]) + 722 * TopBit(x[32..]);
    CarryValue(c);
    WideResidue(c, LittleEndian(x), k);
  }

  lemma WideResidue(c: Fe, n: int, k: int)
    requires n == Val(c) + k * P
    ensures R(c) == n % P
  {
    hide Val;
    CongWitness(n, Val(c), k, P);
  }

  class Element {
    var l0: u64
    var l1: u64
    var l2: u64
    var l3: u64
    var l4: u64

    ghost function Limbs(): (a: Fe)
      reads this
      ensures AllBelow(a, 0x1_0000_0000_0000_0000)
    {
      Fe(l0, l1, l2, l3, l4)
    }

    constructor ()
      ensures Limbs() == ZERO
    {
      l0, l1, l2, l3, l4 := 0, 0, 0, 0, 0;
    }

    method Set(a: Element)
      modifies this
      ensures Limbs() == old(a.Limbs())
    {
      l0, l1, l2, l3, l4 := a.l0, a.l1, a.l2, a.l3, a.l4;
    }

    method One()
      modifies this
      ensures Limbs() == ONE
    {
      l0, l1, l2, l3, l4 := 1, 0, 0, 0, 0;
    }

    method CarryPropagate()
      modifies this
      ensures Limbs() == Carry(old(Limbs())) && Bounded(Limbs())
    {
      var c0, c1, c2, c3, c4 := l0 / T51, l1 / T51, l2 / T51, l3 / T51, l4 / T51;
      l0 := l0 % T51 + c4 * 19;
      l1 := l1 % T51 + c0;
      l2 := l2 % T51 + c1;
      l3 := l3 % T51 + c2;
      l4 := l4 % T51 + c3;
    }

    method Add(a: Element, b: Element)
      requires Bounded(a.Limbs()) && Bounded(b.Limbs())
      modifies this
      ensures Limbs() == Field.Add(old(a.Limbs()), old(b.Limbs())) && Bounded(Limbs())
    {
      ghost var sum := Plus(a.Limbs(), b.Limbs());
      l0, l1, l2, l3, l4 := a.l0 + b.l0, a.l1 + b.l1, a.l2 + b.l2, a.l3 + b.l3, a.l4 + b.l4;
      assert Limbs() == sum;
      CarryPropagate();
    }

    /** Over all limbs below 2^52, with the wrap-around of the differences. There is none if no limb
        borrows, which bounded limbs never do. */
    method Subtract(a: Element, b: Element)
      requires Documented(a.Limbs()) && Documented(b.Limbs())
      modifies this
      ensures Limbs() == Carry(Differences(old(a.Limbs()), old(b.Limbs()))) && Bounded(Limbs())
      ensures old(NoBorrow(a.Limbs(), b.Limbs())) ==> Limbs() == Field.Sub(old(a.Limbs()), old(b.Limbs()))
    {
      hide Carry, Bounded, NoBorrow, Difference, WrappingSub, Documented, AllBelow, Minus, Plus;
      SumsFit(a.Limbs());
      DifferencesFit(a.Limbs(), b.Limbs());
      var s0, s1, s2, s3, s4 := a.l0 + 0xFFFFFFFFFFFDA, a.l1 + 0xFFFFFFFFFFFFE, a.l2 + 0xFFFFFFFFFFFFE,
                                a.l3 + 0xFFFFFFFFFFFFE, a.l4 + 0xFFFFFFFFFFFFE;
      DifferenceIs(s0, b.l0);
      DifferenceIs(s1, b.l1);
      DifferenceIs(s2, b.l2);
      DifferenceIs(s3, b.l3);
      DifferenceIs(s4, b.l4);
      l0, l1, l2, l3, l4 := WrappingSub(s0, b.l0), WrappingSub(s1, b.l1), WrappingSub(s2, b.l2),
                            WrappingSub(s3, b.l3), WrappingSub(s4, b.l4);
      CarryPropagate();
    }

    method Negate(a: Element)
      requires Bounded(a.Limbs())
      modifies this
      ensures Limbs() == Neg(old(a.Limbs())) && Bounded(Limbs())
    {
      var zero := new Element();
      BoundedNeverBorrows(ZERO, a.Limbs());
      Subtract(zero, a);
    }

    /** Carries the five wide columns and stores them: the shared tail of the two products. */
    method StoreColumns(r0: U128, r1: U128, r2: U128, r3: U128, r4: U128, ghost c: Fe)
      requires c == Fe(V(r0), V(r1), V(r2), V(r3), V(r4))
      requires AllBelow(c, 77 * 0x8004000000000 * 0x8004000000000)
      requires c.l4 < 5 * 0x8004000000000 * 0x8004000000000
      modifies this
      ensures Limbs() == Carry(Carry(c)) && Bounded(Limbs())
    {
      var c0, c1, c2, c3, c4 := ShiftRightBy51(r0), ShiftRightBy51(r1), ShiftRightBy51(r2),
                                ShiftRightBy51(r3), ShiftRightBy51(r4);
      LowBits(r0);
      LowBits(r1);
      LowBits(r2);
      LowBits(r3);
      LowBits(r4);
      l0 := r0.lo % T51 + c4 * 19;
      l1 := r1.lo % T51 + c0;
      l2 := r2.lo % T51 + c1;
      l3 := r3.lo % T51 + c2;
      l4 := r4.lo % T51 + c3;
      assert Limbs() == Carry(c);
      CarryPropagate();
    }

    method MulGeneric(a: Element, b: Element)
      requires Bounded(a.Limbs()) && Bounded(b.Limbs())
      modifies this
      ensures Limbs() == Mul(old(a.Limbs()), old(b.Limbs())) && Bounded(Limbs())
    {
      var a0, a1, a2, a3, a4 := a.l0, a.l1, a.l2, a.l3, a.l4;
      var b0, b1, b2, b3, b4 := b.l0, b.l1, b.l2, b.l3, b.l4;
      ghost var cols := Columns(a.Limbs(), b.Limbs());
      var a1_19: u64, a2_19: u64, a3_19: u64, a4_19: u64 := a1 * 19, a2 * 19, a3 * 19, a4 * 19;

      var r0 := Column5(a0, b0, a1_19, b4, a2_19, b3, a3_19, b2, a4_19, b1);
      var r1 := Column5(a0, b1, a1, b0, a2_19, b4, a3_19, b3, a4_19, b2);
      var r2 := Column5(a0, b2, a1, b1, a2, b0, a3_19, b4, a4_19, b3);
      var r3 := Column5(a0, b3, a1, b2, a2, b1, a3, b0, a4_19, b4);
      var r4 := Column5(a0, b4, a1, b3, a2, b2, a3, b1, a4, b0);

      ScaledColumns(a.Limbs(), b.Limbs());
      ColumnBounds(a.Limbs(), b.Limbs());
      StoreColumns(r0, r1, r2, r3, r4, cols);
    }

    /** Squaring takes three wide products per column instead of five, and stores limb for
        limb what multiplication would. */
    method SquareGeneric(a: Element)
      requires Bounded(a.Limbs())
      modifies this
      ensures Limbs() == Mul(old(a.Limbs()), old(a.Limbs())) && Bounded(Limbs())
    {
      var a0, a1, a2, a3, a4 := a.l0, a.l1, a.l2, a.l3, a.l4;
      ghost var cols := Columns(a.Limbs(), a.Limbs());
      var a0_2: u64, a1_2: u64 := a0 * 2, a1 * 2;
      var a1_38: u64, a2_38: u64, a3_38: u64 := a1 * 38, a2 * 38, a3 * 38;
      var a3_19: u64, a4_19: u64 := a3 * 19, a4 * 19;

      var r0 := Column3(a0, a0, a1_38, a4, a2_38, a3);
      var r1 := Column3(a0_2, a1, a2_38, a4, a3_19, a3);
      var r2 := Column3(a0_2, a2, a1, a1, a3_38, a4);
      var r3 := Column3(a0_2, a3, a1_2, a2, a4_19, a4);
      var r4 := Column3(a0_2, a4, a1_2, a3, a2, a2);

      PairedColumns(a.Limbs());
      ColumnBounds(a.Limbs(), a.Limbs());
      StoreColumns(r0, r1, r2, r3, r4, cols);
    }
  
    /** The trial addition of 19: the carry it would push past 2^255. */
    method TrialCarry() returns (c: int)
      ensures c == Ripple(Bump(Limbs(), 19)).1
    {
      c := (l0 + 19) / T51;
      c := (l1 + c) / T51;
      c := (l2 + c) / T51;
      c := (l3 + c) / T51;
      c := (l4 + c) / T51;
    }

    /** The final pass of carries, dropping what leaves the top. */
    method FinalCarries()
      requires AllBelow(Limbs(), 0x10000000000000)
      modifies this
      ensures Limbs() == Ripple(old(Limbs())).0
    {
      ghost var a := Limbs();
      l1 := l1 + l0 / T51;
      l0 := l0 % T51;
      assert Limbs() == Fe(a.l0 % T51, a.l1 + a.l0 / T51, a.l2, a.l3, a.l4);
      l2 := l2 + l1 / T51;
      l1 := l1 % T51;
      l3 := l3 + l2 / T51;
      l2 := l2 % T51;
      l4 := l4 + l3 / T51;
      l3 := l3 % T51;
      l4 := l4 % T51;
    }

    /** Full reduction: whatever words are stored, exactly the limbs of the residue remain. */
    method Reduce()
      modifies this
      ensures Limbs() == FromInt(R(old(Limbs())))
    {
      hide R, FromInt, Carry, Ripple;
      ReduceWords(Limbs());
      CarryPropagate();
      var c := TrialCarry();
      ghost var a := Limbs();
      l0 := l0 + 19 * c;
      assert Limbs() == Bump(a, 19 * c);
      FinalCarries();
    }
  
    /** Reads 32 little-endian bytes, ignoring the top bit; any other length is refused and
        leaves the receiver unchanged. */
    method SetBytes(x: seq<byte>) returns (ok: bool)
      modifies this
      ensures ok <==> |x| == 32
      ensures ok ==> Limbs() == FromInt(LittleEndian(x) % (P + 19))
      ensures !ok ==> Limbs() == old(Limbs())
    {
      if |x| != 32 {
        return false;
      }
      DigitsOfBytes(x);
      l0 := Word(x[0..8]) % T51;
      l1 := (Word(x[6..14]) / 8) % T51;
      l2 := (Word(x[12..20]) / 64) % T51;
      l3 := (Word(x[19..27]) / 2) % T51;
      l4 := (Word(x[24..32]) / 4096) % T51;
      return true;
    }

    /** The canonical encoding: 32 little-endian bytes of the residue. */
    method Bytes() returns (out: array<byte>)
      ensures fresh(out) && out[..] == ToBytes(R(Limbs()), 32)
    {
      var t := new Element();
      t.Set(this);
      t.Reduce();
      FromIntValue(R(Limbs()));
      out := PackLimbs([t.l0, t.l1, t.l2, t.l3, t.l4], t.Limbs());
    }

    /** Encodings coincide exactly when the two elements are congruent modulo p. */
    method Equal(u: Element) returns (r: bit)
      ensures r == 1 <==> R(Limbs()) == R(u.Limbs())
    {
      var sa := u.Bytes();
      var sv := this.Bytes();
      SameBytes(R(u.Limbs()), R(Limbs()));
      r := if sa[..] == sv[..] then 1 else 0;
    }

    /** The low bit of the canonical encoding. */
    method IsNegative() returns (r: bit)
      ensures r == R(Limbs()) % 2
    {
      hide R, ToBytes;
      var b := this.Bytes();
      LowBit(R(Limbs()), 32);
      assert b[0] == b[..][0];
      r := b[0] % 2;
    }

    /** The masked choice between two elements. */
    method Select(a: Element, b: Element, cond: bit)
      modifies this
      ensures Limbs() == if cond == 1 then old(a.Limbs()) else old(b.Limbs())
    {
      l0 := SelectWord(a.l0, b.l0, cond);
      l1 := SelectWord(a.l1, b.l1, cond);
      l2 := SelectWord(a.l2, b.l2, cond);
      l3 := SelectWord(a.l3, b.l3, cond);
      l4 := SelectWord(a.l4, b.l4, cond);
    }

    /** The masked exclusive-or exchange. */
    method Swap(u: Element, cond: bit)
      modifies this, u
      ensures cond == 1 ==> Limbs() == old(u.Limbs()) && u.Limbs() == old(Limbs())
      ensures cond == 0 ==> Limbs() == old(Limbs()) && u.Limbs() == old(u.Limbs())
    {
      hide SwapMask, Xor;
      var t := SwapMask(l0, u.l0, cond);
      l0 := Xor(l0, t);
      u.l0 := Xor(u.l0, t);
      t := SwapMask(l1, u.l1, cond);
      l1 := Xor(l1, t);
      u.l1 := Xor(u.l1, t);
      t := SwapMask(l2, u.l2, cond);
      l2 := Xor(l2, t);
      u.l2 := Xor(u.l2, t);
      t := SwapMask(l3, u.l3, cond);
      l3 := Xor(l3, t);
      u.l3 := Xor(u.l3, t);
      t := SwapMask(l4, u.l4, cond);
      l4 := Xor(l4, t);
      u.l4 := Xor(u.l4, t);
    }

    /** The representative of even residue among u and -u. */
    method Absolute(u: Element)
      requires Bounded(u.Limbs())
      modifies this
      ensures Bounded(Limbs())
      ensures Limbs() == if R(old(u.Limbs())) % 2 == 1 then Neg(old(u.Limbs())) else old(u.Limbs())
    {
      var neg := new Element();
      neg.Negate(u);
      var sign := u.IsNegative();
      this.Select(neg, u, sign);
    }

    /** Multiplication by a 32-bit number, without a final carry pass. */
    method Mult32(x: Element, y: u64)
      requires Bounded(x.Limbs()) && y < 0x1_0000_0000
      modifies this
      ensures Bounded(Limbs()) && R(Limbs()) == FMul(R(old(x.Limbs())), y % P)
    {
      hide R, FMul;
      ghost var a := x.Limbs();
      Mult32Correct(a, y);
      var (x0lo, x0hi) := Mul51(x.l0, y);
      var (x1lo, x1hi) := Mul51(x.l1, y);
      var (x2lo, x2hi) := Mul51(x.l2, y);
      var (x3lo, x3hi) := Mul51(x.l3, y);
      var (x4lo, x4hi) := Mul51(x.l4, y);
      l0 := x0lo + 19 * x4hi;
      l1 := x1lo + x0hi;
      l2 := x2lo + x1hi;
      l3 := x3lo + x2hi;
      l4 := x4lo + x3hi;
      assert Limbs() == Carry(Row(y, a));
    }

    /** Reads 64 little-endian bytes modulo p; any other length is refused. */
    method SetWideBytes(x: seq<byte>) returns (ok: bool)
      modifies this
      ensures ok <==> |x| == 64
      ensures ok ==> Bounded(Limbs()) && R(Limbs()) == LittleEndian(x) % P
      ensures !ok ==> Limbs() == old(Limbs())
    {
      if |x| != 64 {
        return false;
      }
      hide R, LittleEndian, FromInt, Carry;
      WideLimbs(x, FromInt(LittleEndian(x[..32]) % (P + 19)), FromInt(LittleEndian(x[32..]) % (P + 19)));
      var lo := new Element();
      var ok1 := lo.SetBytes(x[..32]);
      var loMSB: bit := x[31] / 128;
      var hi := new Element();
      var ok2 := hi.SetBytes(x[32..]);
      var hiMSB: bit := x[63] / 128;
      l0 := lo.l0 + loMSB * 19 + hi.l0 * 2 * 19 + hiMSB * 2 * 19 * 19;
      l1 := lo.l1 + hi.l1 * 2 * 19;
      l2 := lo.l2 + hi.l2 * 2 * 19;
      l3 := lo.l3 + hi.l3 * 2 * 19;
      l4 := lo.l4 + hi.l4 * 2 * 19;
      assert Limbs() == WideSum(lo.Limbs(), hi.Limbs(), loMSB, hiMSB);
      CarryPropagate();
      return true;
    }

    method Multiply(x: Element, y: Element)
      requires Bounded(x.Limbs()) && Bounded(y.Limbs())
      modifies this
      ensures Bounded(Limbs()) && Limbs() == Mul(old(x.Limbs()), old(y.Limbs()))
      ensures R(Limbs()) == FMul(R(old(x.Limbs())), R(old(y.Limbs())))
    {
      hide R, Mul, FMul;
      MulCorrect(x.Limbs(), y.Limbs());
      MulGeneric(x, y);
    }

    method Square(x: Element)
      requires Bounded(x.Limbs())
      modifies this
      ensures Bounded(Limbs()) && Limbs() == Mul(old(x.Limbs()), old(x.Limbs()))
      ensures R(Limbs()) == FMul(R(old(x.Limbs())), R(old(x.Limbs())))
    {
      hide R, Mul, FMul;
      MulCorrect(x.Limbs(), x.Limbs());
      SquareGeneric(x);
    }
  }

  /** The loop of bytes(): each limb or-ed in at bit 51i. */
  method PackLimbs(limbs: seq<u64>, ghost f: Fe) returns (out: array<byte>)
    requires AllBelow(f, T51) && limbs == [f.l0, f.l1, f.l2, f.l3, f.l4]
    ensures fresh(out) && out[..] == ToBytes(Val(f), 32)
  {
    hide LittleEndian, Pow256, Pow2, Val, ToBytes;
    out := new byte[32](_ => 0);
    LittleEndianZeros(out[..]);
    for i := 0 to 5
      invariant fresh(out) && out.Length == 32
      invariant LittleEndian(out[..]) == Partial(f, i)
    {
      var bitsOffset := i * 51;
      LimbPlace(f, i);
      assert limbs[i] == LimbAt(f, i);
      ShiftedDivisible(limbs[i], bitsOffset % 8);
      OrWord(out, bitsOffset / 8, limbs[i] * Pow2(bitsOffset % 8), bitsOffset % 8);
    }
    LittleEndianToBytes(out[..]);
  }

  lemma ShiftedDivisible(x: int, s: nat)
    ensures (x * Pow2(s)) % Pow2(s) == 0
  {
    AddMultiple(0, x, Pow2(s));
  }

  /** A masked window is a 51-bit digit of the whole number, whatever lies around it. */
  lemma WindowDigit(n: int, low: int, scale: int, w: int, high: int, shift: int, k: int)
    requires scale > 0 && shift > 0 && 0 <= low < scale && k * (T51 * shift) == BASE
    requires n == low + scale * (w + BASE * high)
    ensures (n / (scale * shift)) % T51 == (w / shift) % T51
  {
    var q, r := w / shift, w % shift;
    assert w == q * shift + r;
    var m := q + (k * high) * T51;
    assert w + BASE * high == m * shift + r by {
      assert BASE * high == (k * (T51 * shift)) * high == ((k * high) * T51) * shift;
    }
    Carryless(scale, m, shift, r, low);
    QuotientUnique(n, m, scale * r + low, scale * shift);
    AddMultiple(q, k * high, T51);
  }

  lemma Carryless(scale: int, m: int, shift: int, r: int, low: int)
    requires 0 <= low < scale && 0 <= r < shift
    ensures low + scale * (m * shift + r) == m * (scale * shift) + (scale * r + low)
    ensures 0 <= scale * r + low < scale * shift
  {
    assert scale * r <= scale * (shift - 1);
  }

  lemma DivDiv(n: int, a: int, b: int)
    requires a > 0 && b > 0
    ensures a * b > 0 && n / (a * b) == (n / a) / b
  {
    var q, r := n / a, n % a;
    var q', r' := q / b, q % b;
    assert q == q' * b + r';
    Carryless(a, q', b, r', r);
    QuotientUnique(n, q', a * r' + r, a * b);
  }

  lemma DigitsSum(n: int)
    ensures Val(Fe(n % 0x8000000000000, (n / 0x8000000000000) % 0x8000000000000,
      (n / 0x40000000000000000000000000) % 0x8000000000000,
      (n / 0x200000000000000000000000000000000000000) % 0x8000000000000,
      (n / 0x1000000000000000000000000000000000000000000000000000) % 0x8000000000000)) == n % (P + 19)
  {
    var q1 := n / T51;
    var q2 := q1 / T51;
    var q3 := q2 / T51;
    var q4 := q3 / T51;
    DivDiv(n, T51, T51);
    DivDiv(n, 0x40000000000000000000000000, T51);
    DivDiv(n, 0x200000000000000000000000000000000000000, T51);
    HornerRemainder(n, q1, q2, q3, q4, q4 / T51, n % T51, q1 % T51, q2 % T51, q3 % T51, q4 % T51);
  }

  lemma HornerRemainder(n: int, q1: int, q2: int, q3: int, q4: int, q5: int, r0: int, r1: int, r2: int, r3: int, r4: int)
    requires n == q1 * T51 + r0 && q1 == q2 * T51 + r1 && q2 == q3 * T51 + r2
    requires q3 == q4 * T51 + r3 && q4 == q5 * T51 + r4
    requires AllBelow(Fe(r0, r1, r2, r3, r4), T51)
    ensures Val(Fe(r0, r1, r2, r3, r4)) == n % (P + 19)
  {
    BelowRange(Fe(r0, r1, r2, r3, r4));
    QuotientUnique(n, q5, Val(Fe(r0, r1, r2, r3, r4)), P + 19);
  }

  /** One digit of a 32-byte number, read from the window that contains it. */
  lemma DigitAt(x: seq<byte>, i: nat, scale: int, shift: int, k: int)
    requires i + 8 <= |x| && scale == Pow256(i) && shift > 0 && k * (T51 * shift) == BASE
    ensures (LittleEndian(x) / (scale * shift)) % T51 == (Word(x[i..i + 8]) / shift) % T51
  {
    hide LittleEndian, Word, Pow256;
    var low, high := Window(x, i);
    WindowDigit(LittleEndian(x), low, scale, Word(x[i..i + 8]), high, shift, k);
  }

  /** The five masked windows are the 51-bit digits of the number, top bit dropped. */
  lemma DigitsOfBytes(x: seq<byte>)
    requires |x| == 32
    ensures FromInt(LittleEndian(x) % (P + 19)) ==
      Fe(Word(x[0..8]) % T51, (Word(x[6..14]) / 8) % T51, (Word(x[12..20]) / 64) % T51,
         (Word(x[19..27]) / 2) % T51, (Word(x[24..32]) / 4096) % T51)
  {
    hide LittleEndian, Word, FromInt, Pow256, Val;
    var n := LittleEndian(x);
    Pow256Table();
    DigitAt(x, 0, 1, 1, 8192);
    DigitAt(x, 6, 0x1000000000000, 8, 1024);
    DigitAt(x, 12, 0x1000000000000000000000000, 64, 128);
    DigitAt(x, 19, 0x100000000000000000000000000000000000000, 2, 4096);
    DigitAt(x, 24, 0x1000000000000000000000000000000000000000000000000, 4096, 2);
    DigitsSum(n);
    FromIntValue(n % (P + 19));
    LimbsUnique(Fe(n % T51, (n / 0x8000000000000) % T51, (n / 0x40000000000000000000000000) % T51,
      (n / 0x200000000000000000000000000000000000000) % T51,
      (n / 0x1000000000000000000000000000000000000000000000000000) % T51), FromInt(n % (P + 19)));
  }
}
