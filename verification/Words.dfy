/** 64-bit machine words and the three primitives of Go's math/bits that the limb code uses.

    A word is a bounded integer. Masking with 2^k-1 is the remainder by 2^k, shifting right
    is division by 2^k, and an "or" of disjoint bit ranges is a sum. A plain machine sum or
    product is written as an integer one and must be proved to fit a word where it is stored. */
module Words {

  const BASE: int := 0x1_0000_0000_0000_0000

  type u64 = x: int | 0 <= x < 0x1_0000_0000_0000_0000

  type bit = x: int | 0 <= x <= 1

  type byte = x: int | 0 <= x < 256

  /** The 128-bit product as (high word, low word). */
  function Mul64(x: u64, y: u64): (r: (u64, u64))
    ensures r.0 * 0x1_0000_0000_0000_0000 + r.1 == x * y
  {
    ProductFits(x, y);
    ((x * y) / 0x1_0000_0000_0000_0000, (x * y) % 0x1_0000_0000_0000_0000)
  }

  lemma ProductFits(x: u64, y: u64)
    ensures 0 <= x * y <= 0xFFFF_FFFF_FFFF_FFFF * 0xFFFF_FFFF_FFFF_FFFF
  {
    ProductBound(x, y, 0xFFFF_FFFF_FFFF_FFFF, 0xFFFF_FFFF_FFFF_FFFF);
  }

  lemma ProductBound(x: int, y: int, a: int, b: int)
    requires 0 <= x <= a && 0 <= y <= b
    ensures 0 <= x * y <= a * b
  {
    assert x * y <= a * y;
    assert a * y <= a * b;
  }

  /** Sum with carry in, as (sum, carry out). */
  function Add64(x: u64, y: u64, carry: bit): (r: (u64, bit))
    ensures r.0 + r.1 * 0x1_0000_0000_0000_0000 == x + y + carry
  {
    var s := x + y + carry;
    if s < 0x1_0000_0000_0000_0000 then (s, 0) else (s - 0x1_0000_0000_0000_0000, 1)
  }

  /** Difference with borrow in, as (difference, borrow out). */
  function Sub64(x: u64, y: u64, borrow: bit): (r: (u64, bit))
    ensures r.0 - r.1 * 0x1_0000_0000_0000_0000 == x - y - borrow
  {
    var s := x - y - borrow;
    if s >= 0 then (s, 0) else (s + 0x1_0000_0000_0000_0000, 1)
  }

  /** A machine difference without a borrow output wraps around. */
  function WrappingSub(x: u64, y: u64): (r: u64)
    ensures y <= x <==> r == x - y
  {
    if x >= y then x - y else x - y + 0x1_0000_0000_0000_0000
  }

  /** The little-endian integer a byte string denotes. */
  function LittleEndian(s: seq<byte>): (n: nat)
  {
    if s == [] then 0 else s[0] + 256 * LittleEndian(s[1..])
  }

  function Pow256(n: nat): (p: nat)
    ensures p > 0
  {
    if n == 0 then 1 else 256 * Pow256(n - 1)
  }

  lemma {:induction false} LittleEndianBound(s: seq<byte>)
    ensures LittleEndian(s) < Pow256(|s|)
  {
    if s != [] { LittleEndianBound(s[1..]); }
  }

  lemma Scale(p: int, x: int)
    ensures (256 * p) * x == 256 * (p * x)
  {
  }

  lemma {:induction false} LittleEndianConcat(s: seq<byte>, t: seq<byte>)
    ensures LittleEndian(s + t) == LittleEndian(s) + Pow256(|s|) * LittleEndian(t)
  {
    if s == [] {
      assert s + t == t;
    } else {
      assert (s + t)[1..] == s[1..] + t;
      LittleEndianConcat(s[1..], t);
      assert LittleEndian(s + t) == s[0] + 256 * LittleEndian(s[1..] + t);
      assert Pow256(|s|) == 256 * Pow256(|s| - 1);
      Scale(Pow256(|s| - 1), LittleEndian(t));
    }
  }

  /** Byte strings of one length are determined by the number they denote. */
  lemma {:induction false} LittleEndianInjective(s: seq<byte>, t: seq<byte>)
    requires |s| == |t| && LittleEndian(s) == LittleEndian(t)
    ensures s == t
  {
    if s != [] {
      assert s[0] == t[0];
      LittleEndianInjective(s[1..], t[1..]);
      assert s == [s[0]] + s[1..];
      assert t == [t[0]] + t[1..];
    }
  }

  /** The low n bytes of a number, least significant first. */
  function ToBytes(x: nat, n: nat): (s: seq<byte>)
    ensures |s| == n
  {
    if n == 0 then [] else [x % 256] + ToBytes(x / 256, n - 1)
  }

  lemma {:induction false} ToBytesValue(x: nat, n: nat)
    requires x < Pow256(n)
    ensures LittleEndian(ToBytes(x, n)) == x
  {
    if n > 0 {
      assert x / 256 < Pow256(n - 1);
      ToBytesValue(x / 256, n - 1);
      assert ToBytes(x, n)[1..] == ToBytes(x / 256, n - 1);
    }
  }

  lemma {:induction false} Pow256Add(m: nat, n: nat)
    ensures Pow256(m + n) == Pow256(m) * Pow256(n)
  {
    if m > 0 {
      Pow256Add(m - 1, n);
      Scale(Pow256(m - 1), Pow256(n));
    }
  }

  lemma Pow256Table()
    ensures Pow256(0) == 1
    ensures Pow256(6) == 0x1000000000000
    ensures Pow256(8) == 0x10000000000000000
    ensures Pow256(12) == 0x1000000000000000000000000
    ensures Pow256(16) == 0x100000000000000000000000000000000
    ensures Pow256(19) == 0x100000000000000000000000000000000000000
    ensures Pow256(21) == 0x1000000000000000000000000000000000000000000
    ensures Pow256(24) == 0x1000000000000000000000000000000000000000000000000
    ensures Pow256(25) == 0x100000000000000000000000000000000000000000000000000
    ensures Pow256(32) == 0x10000000000000000000000000000000000000000000000000000000000000000
  {
    assert Pow256(3) == 0x1000000;
    Pow256Add(3, 3);
    assert Pow256(8) == 0x10000000000000000;
    Pow256Add(6, 6);
    Pow256Add(8, 8);
    assert Pow256(19) == 256 * (256 * (256 * Pow256(16)));
    assert Pow256(21) == 256 * (256 * Pow256(19));
    Pow256Add(12, 12);
    Pow256Add(16, 16);
  }

  /** The integer an eight-byte window denotes. */
  function Word(s: seq<byte>): u64
    requires |s| == 8
  {
    LittleEndianBound(s);
    Pow256Table();
    LittleEndian(s)
  }

  /** A window inside a byte string picks out the middle of its number. */
  lemma Window(s: seq<byte>, i: nat) returns (low: nat, high: nat)
    requires i + 8 <= |s|
    ensures low < Pow256(i)
    ensures LittleEndian(s) == low + Pow256(i) * (Word(s[i..i + 8]) + 0x10000000000000000 * high)
  {
    hide LittleEndian;
    var a, w, b := s[..i], s[i..i + 8], s[i + 8..];
    low, high := LittleEndian(a), LittleEndian(b);
    assert s == a + (w + b);
    LittleEndianConcat(a, w + b);
    LittleEndianConcat(w, b);
    LittleEndianBound(a);
    Pow256Table();
  }

  /** Replacing one byte moves the number by the byte's weight. */
  lemma {:induction false} LittleEndianUpdate(s: seq<byte>, i: nat, b: byte)
    requires i < |s|
    ensures LittleEndian(s[i := b]) == LittleEndian(s) + Pow256(i) * (b - s[i])
  {
    if i > 0 {
      LittleEndianUpdate(s[1..], i - 1, b);
      assert s[i := b][1..] == s[1..][i - 1 := b];
      Scale(Pow256(i - 1), b - s[i]);
    } else {
      assert s[0 := b][1..] == s[1..];
    }
  }

  lemma {:induction false} LittleEndianZeros(s: seq<byte>)
    requires forall i :: 0 <= i < |s| ==> s[i] == 0
    ensures LittleEndian(s) == 0
  {
    if s != [] { LittleEndianZeros(s[1..]); }
  }

  /** A number below 256^i * q has nothing above byte i, and byte i below q. */
  lemma {:induction false} SmallNumberTail(s: seq<byte>, i: nat, q: nat)
    requires i < |s| && 0 < q <= 256 && LittleEndian(s) < Pow256(i) * q
    ensures s[i] < q && forall k :: i < k < |s| ==> s[k] == 0
  {
    if i == 0 {
      assert LittleEndian(s) == s[0] + 256 * LittleEndian(s[1..]);
      assert LittleEndian(s[1..]) == 0;
      ZeroNumber(s[1..]);
      forall k | 0 < k < |s| ensures s[k] == 0 { assert s[k] == s[1..][k - 1]; }
    } else {
      Scale(Pow256(i - 1), q);
      SmallNumberTail(s[1..], i - 1, q);
      forall k | i < k < |s| ensures s[k] == 0 { assert s[k] == s[1..][k - 1]; }
    }
  }

  lemma {:induction false} ZeroNumber(s: seq<byte>)
    requires LittleEndian(s) == 0
    ensures forall k :: 0 <= k < |s| ==> s[k] == 0
  {
    if s != [] {
      ZeroNumber(s[1..]);
      forall k | 0 < k < |s| ensures s[k] == 0 { assert s[k] == s[1..][k - 1]; }
    }
  }

  lemma {:induction false} LittleEndianToBytes(s: seq<byte>)
    ensures s == ToBytes(LittleEndian(s), |s|)
  {
    LittleEndianBound(s);
    ToBytesValue(LittleEndian(s), |s|);
    LittleEndianInjective(s, ToBytes(LittleEndian(s), |s|));
  }
}
