/** Signed-digit recodings of a scalar (scalar.go, nonAdjacentForm and signedRadix16).

    Both loops start from the 32-byte encoding. What they leave is characterised completely:
    the digits add up to the number, and no other digits of the stated shape do. */
module Recoding {
  import opened Bits
  import opened Modular
  import opened Words

  type int8 = x: int | -128 <= x < 128

  /** Go's conversion to int8: the low eight bits, read as two's complement. */
  function ToInt8(x: int): int8
  {
    (x + 128) % 256 - 128
  }

  /** The number a digit string denotes, least significant digit first. */
  function Digits(base: int, d: seq<int>): int
  {
    if d == [] then 0 else d[0] + base * Digits(base, d[1..])
  }

  function Weight(base: nat, n: nat): nat
  {
    if n == 0 then 1 else base * Weight(base, n - 1)
  }

  lemma {:induction false} DigitsUpdate(base: nat, d: seq<int>, i: nat, v: int)
    requires i < |d|
    ensures Digits(base, d[i := v]) == Digits(base, d) + Weight(base, i) * (v - d[i])
  {
    if i == 0 {
      assert d[0 := v][1..] == d[1..];
    } else {
      assert d[i := v][1..] == d[1..][i - 1 := v];
      DigitsUpdate(base, d[1..], i - 1, v);
      var w, x := Weight(base, i - 1), v - d[i];
      assert base * (w * x) == (base * w) * x;
      assert base * (Digits(base, d[1..]) + w * x) == base * Digits(base, d[1..]) + base * (w * x);
    }
  }

  lemma {:induction false} DigitsZero(base: int, d: seq<int>)
    requires forall i :: 0 <= i < |d| ==> d[i] == 0
    ensures Digits(base, d) == 0
  {
    if d != [] { DigitsZero(base, d[1..]); }
  }

  // ----------------------------------------------------- signed radix 16

  /** The 4-bit digits of a byte string. */
  function Nibbles(b: seq<byte>): (d: seq<int>)
    ensures |d| == 2 * |b|
  {
    if b == [] then [] else [b[0] % 16, b[0] / 16] + Nibbles(b[1..])
  }

  lemma {:induction false} NibblesValue(b: seq<byte>)
    ensures Digits(16, Nibbles(b)) == LittleEndian(b)
  {
    if b != [] {
      var d := Nibbles(b);
      NibblesValue(b[1..]);
      assert d[1..][1..] == Nibbles(b[1..]);
      assert Digits(16, d) == d[0] + 16 * Digits(16, d[1..]);
      assert Digits(16, d[1..]) == d[1] + 16 * Digits(16, d[1..][1..]);
    }
  }

  lemma {:induction false} NibblesAt(b: seq<byte>, i: nat)
    requires i < |b|
    ensures Nibbles(b)[2 * i] == b[i] % 16 && Nibbles(b)[2 * i + 1] == b[i] / 16
  {
    if i > 0 {
      NibblesAt(b[1..], i - 1);
      assert Nibbles(b)[2 * i] == Nibbles(b[1..])[2 * (i - 1)];
      assert Nibbles(b)[2 * i + 1] == Nibbles(b[1..])[2 * (i - 1) + 1];
    }
  }

  /** All digits but the last between -8 and 7; the last takes what is left. */
  predicate Centered(d: seq<int>)
  {
    |d| > 0 && (forall i :: 0 <= i < |d| - 1 ==> -8 <= d[i] <= 7)
  }

  /** Centered digits are determined by their length and number. */
  lemma {:induction false} CenteredUnique(d: seq<int>, e: seq<int>)
    requires Centered(d) && Centered(e) && |d| == |e| && Digits(16, d) == Digits(16, e)
    ensures d == e
  {
    assert Digits(16, d) == d[0] + 16 * Digits(16, d[1..]) && Digits(16, e) == e[0] + 16 * Digits(16, e[1..]);
    if |d| > 1 {
      assert d[0] == e[0];
      CenteredUnique(d[1..], e[1..]);
    }
    assert d == [d[0]] + d[1..] && e == [e[0]] + e[1..];
  }

  predicate NibbleRange(x: int) { 0 <= x < 16 }

  predicate Carried(x: int, y: int) { 0 <= x - y <= 1 }

  /** Moving a carry from digit i to digit i+1 leaves the number alone. */
  lemma CarryMoves(d: seq<int>, i: nat, c: int)
    requires i + 1 < |d|
    ensures Digits(16, d[i := d[i] - 16 * c][i + 1 := d[i + 1] + c]) == Digits(16, d)
  {
    DigitsUpdate(16, d, i, d[i] - 16 * c);
    DigitsUpdate(16, d[i := d[i] - 16 * c], i + 1, d[i + 1] + c);
    assert Weight(16, i + 1) == 16 * Weight(16, i);
    assert Weight(16, i) * (-16 * c) == -(16 * Weight(16, i)) * c;
  }

  /** First pass: the unsigned digits. */
  method UnsignedDigits(b: seq<byte>) returns (digits: array<int8>)
    requires |b| == 32
    ensures fresh(digits) && digits[..] == Nibbles(b)
  {
    digits := new int8[64](_ => 0);
    for i := 0 to 32
      invariant forall k :: 0 <= k < 2 * i ==> digits[k] == Nibbles(b)[k]
    {
      NibblesAt(b, i);
      digits[2 * i] := ToInt8(b[i] % 16);
      digits[2 * i + 1] := ToInt8((b[i] / 16) % 16);
    }
  }

  /** signedRadix16: 64 digits between -8 and 8 whose sum d_i 16^i is the number. The last
      digit is the only one that can reach 8. */
  method SignedRadix16(b: seq<byte>) returns (digits: array<int8>)
    requires |b| == 32 && b[31] <= 127
    ensures fresh(digits) && digits.Length == 64
    ensures Centered(digits[..]) && 0 <= digits[63] <= 8
    ensures Digits(16, digits[..]) == LittleEndian(b)
  {
    digits := UnsignedDigits(b);
    NibblesValue(b);
    NibbleBounds(b);
    ghost var n := digits[..];
    for i := 0 to 63
      invariant Digits(16, digits[..]) == LittleEndian(b)
      invariant forall k :: 0 <= k < i ==> -8 <= digits[k] <= 7
      invariant forall k :: i < k < 64 ==> digits[k] == n[k]
      invariant Carried(digits[i], n[i])
    {
      ghost var d: seq<int> := digits[..];
      var carry := (digits[i] + 8) / 16;
      CarryMoves(d, i, carry);
      digits[i] := digits[i] - carry * 16;
      digits[i + 1] := digits[i + 1] + carry;
      assert digits[..] == d[i := d[i] - 16 * carry][i + 1 := d[i + 1] + carry];
    }
  }

  lemma NibbleBounds(b: seq<byte>)
    requires |b| == 32 && b[31] <= 127
    ensures forall k :: 0 <= k < 64 ==> NibbleRange(Nibbles(b)[k])
    ensures Nibbles(b)[63] <= 7
  {
    forall k | 0 <= k < 64 ensures NibbleRange(Nibbles(b)[k]) {
      NibblesAt(b, k / 2);
      assert k == 2 * (k / 2) || k == 2 * (k / 2) + 1;
    }
    NibblesAt(b, 31);
  }

  // ------------------------------------------------- non-adjacent form

  predicate NafDigit(x: int, w: nat)
    requires w > 0
  {
    x != 0 ==> x % 2 == 1 && Within(x, Pow2(w - 1))
  }

  predicate Within(x: int, bound: int) { -bound < x < bound }

  /** Width-w non-adjacent form: nonzero digits are odd, smaller than 2^(w-1) in absolute
      value, and at least w places apart. */
  ghost predicate NonAdjacent(d: seq<int>, w: nat)
    requires w > 0
  {
    (forall i :: 0 <= i < |d| ==> NafDigit(d[i], w))
    && (forall i, j :: 0 <= i < j < |d| && d[i] != 0 && d[j] != 0 ==> j - i >= w)
  }

  lemma {:induction false} LeadingZeros(d: seq<int>, k: nat)
    requires k <= |d| && (forall i :: 0 <= i < k ==> d[i] == 0)
    ensures Digits(2, d) == Pow2(k) * Digits(2, d[k..])
  {
    if k > 0 {
      LeadingZeros(d[1..], k - 1);
      assert d[1..][k - 1..] == d[k..];
      var p, x := Pow2(k - 1), Digits(2, d[k..]);
      assert 2 * (p * x) == (2 * p) * x;
    } else {
      assert d[0..] == d;
    }
  }

  /** After an odd digit the next w-1 digits vanish, so the number is that digit modulo 2^w. */
  lemma OddDigitLeads(d: seq<int>, w: nat) returns (k: int)
    requires w > 1 && NonAdjacent(d, w) && |d| > 0 && d[0] != 0
    ensures Digits(2, d) == d[0] + Pow2(w) * k
  {
    var m := if |d| < w then |d| else w;
    forall i | 0 <= i < m - 1 ensures d[1..][i] == 0 {
      assert d[1..][i] == d[i + 1];
    }
    LeadingZeros(d[1..], m - 1);
    var rest := Digits(2, d[1..][m - 1..]);
    if |d| < w {
      assert d[1..][m - 1..] == [];
      k := 0;
    } else {
      k := rest;
      assert 2 * (Pow2(w - 1) * k) == (2 * Pow2(w - 1)) * k;
    }
  }

  lemma TailNonAdjacent(d: seq<int>, w: nat)
    requires w > 0 && NonAdjacent(d, w) && |d| > 0
    ensures NonAdjacent(d[1..], w)
  {
    forall i, j | 0 <= i < j < |d[1..]| && d[1..][i] != 0 && d[1..][j] != 0
      ensures j - i >= w
    {
      assert d[i + 1] != 0 && d[j + 1] != 0;
    }
  }

  lemma SmallDifference(x: int, y: int, j: int, k: int, w: nat)
    requires w > 0 && Within(x, Pow2(w - 1)) && Within(y, Pow2(w - 1))
    requires x + Pow2(w) * j == y + Pow2(w) * k
    ensures x == y
  {
    var p := Pow2(w);
    assert p == 2 * Pow2(w - 1);
    hide Pow2;
    SmallMultiple(x - y, p, k - j) by { assert p * (k - j) == p * k - p * j; }
  }

  lemma SmallMultiple(x: int, p: int, m: int)
    requires x == p * m && Within(x, p)
    ensures x == 0
  {
    if m >= 1 {
      MulMono(1, m, p);
    } else if m <= -1 {
      MulMono(m, -1, p);
    }
  }

  /** The non-adjacent form of a number is unique. */
  lemma {:induction false} NafUnique(d: seq<int>, e: seq<int>, w: nat)
    requires w > 1 && NonAdjacent(d, w) && NonAdjacent(e, w) && |d| == |e| && Digits(2, d) == Digits(2, e)
    ensures d == e
  {
    if |d| > 0 {
      assert Digits(2, d) == d[0] + 2 * Digits(2, d[1..]) && Digits(2, e) == e[0] + 2 * Digits(2, e[1..]);
      assert NafDigit(d[0], w) && NafDigit(e[0], w);
      assert d[0] == 0 <==> e[0] == 0;
      if d[0] != 0 {
        var j := OddDigitLeads(d, w);
        var k := OddDigitLeads(e, w);
        SmallDifference(d[0], e[0], j, k, w);
      }
      TailNonAdjacent(d, w);
      TailNonAdjacent(e, w);
      NafUnique(d[1..], e[1..], w);
      assert d == [d[0]] + d[1..] && e == [e[0]] + e[1..];
    }
  }

  /** The number of a word string. */
  function WordsValue(s: seq<u64>): nat
  {
    if s == [] then 0 else s[0] + 0x1_0000_0000_0000_0000 * WordsValue(s[1..])
  }

  function Pow64(k: nat): (p: nat)
    ensures p > 0
  {
    if k == 0 then 1 else 0x1_0000_0000_0000_0000 * Pow64(k - 1)
  }

  lemma {:induction false} WordsSplit(s: seq<u64>, k: nat) returns (low: nat)
    requires k <= |s|
    ensures WordsValue(s) == low + Pow64(k) * WordsValue(s[k..]) && low < Pow64(k)
  {
    if k == 0 {
      low := 0;
      assert s[0..] == s;
    } else {
      var l := WordsSplit(s[1..], k - 1);
      low := s[0] + 0x1_0000_0000_0000_0000 * l;
      assert s[1..][k - 1..] == s[k..];
      assert WordsValue(s) == s[0] + 0x1_0000_0000_0000_0000 * WordsValue(s[1..]);
      assert Pow64(k) == 0x1_0000_0000_0000_0000 * Pow64(k - 1);
      hide WordsValue, Pow64;
      HornerStep(s[0], l, Pow64(k - 1), WordsValue(s[k..]));
    }
  }

  lemma HornerStep(a: u64, l: nat, p: nat, x: nat)
    requires l < p
    ensures a + 0x1_0000_0000_0000_0000 * (l + p * x) == a + 0x1_0000_0000_0000_0000 * l + (0x1_0000_0000_0000_0000 * p) * x
    ensures a + 0x1_0000_0000_0000_0000 * l < 0x1_0000_0000_0000_0000 * p
  {
  }

  lemma {:induction false} Pow64IsPow2(k: nat)
    ensures Pow64(k) == Pow2(64 * k)
  {
    if k > 0 {
      hide Pow2;
      Pow64IsPow2(k - 1);
      Pow2Add(64, 64 * (k - 1));
      Pow2Of64();
    } else {
      assert 64 * k == 0;
    }
  }

  /** The window the code reads at bit position pos. */
  function WindowBits(s: seq<u64>, k: nat, bit: nat, w: nat): nat
    requires k + 1 < |s| && bit < 64 && 2 <= w <= 8
  {
    if bit < 64 - w then s[k] / Pow2(bit)
    else Or(s[k] / Pow2(bit), (s[k + 1] * Pow2(64 - bit)) % 0x1_0000_0000_0000_0000)
  }

  lemma Halves(bit: nat)
    requires bit <= 64
    ensures Pow2(bit) * Pow2(64 - bit) == 0x1_0000_0000_0000_0000
  {
    hide Pow2;
    Pow2Add(bit, 64 - bit);
    Pow2Of64();
  }

  lemma ShiftedWord(x: u64, m: nat, bit: nat)
    requires bit < 64
    ensures (x + 0x1_0000_0000_0000_0000 * m) / Pow2(bit) == x / Pow2(bit) + Pow2(64 - bit) * m
    ensures x / Pow2(bit) < Pow2(64 - bit)
  {
    hide Pow2;
    var a, b := Pow2(bit), Pow2(64 - bit);
    Halves(bit);
    var q, r := x / a, x % a;
    assert x == q * a + r;
    assert (a * b) * m == (b * m) * a;
    assert (q + b * m) * a == q * a + (b * m) * a;
    QuotientUnique(x + 0x1_0000_0000_0000_0000 * m, q + b * m, r, a);
    if q >= b { MulMono(b, q, a); }
  }

  lemma PowMultiple(a: nat, b: nat, x: int, y: int)
    requires b <= a
    ensures (x + Pow2(a) * y) % Pow2(b) == x % Pow2(b)
  {
    hide Pow2;
    Pow2Add(b, a - b);
    ProductMultiple(x, Pow2(b), Pow2(a - b), y);
  }

  lemma ProductMultiple(x: int, p: nat, q: nat, y: int)
    requires p > 0
    ensures (x + (p * q) * y) % p == x % p
  {
    var z := q * y;
    assert (p * q) * y == z * p;
    AddMultiple(x, z, p);
  }

  lemma WindowInWords(s: seq<u64>, k: nat, bit: nat, w: nat)
    requires k + 1 < |s| && bit < 64 && 2 <= w <= 8
    ensures WindowBits(s, k, bit, w) % Pow2(w) == (WordsValue(s[k..]) / Pow2(bit)) % Pow2(w)
  {
    hide Pow2, Or;
    var x, y, m := s[k], s[k + 1], WordsValue(s[k..][1..]);
    assert WordsValue(s[k..]) == x + 0x1_0000_0000_0000_0000 * m;
    var h := WordsValue(s[k..][1..][1..]);
    assert m == y + 0x1_0000_0000_0000_0000 * h;
    hide WordsValue;
    ShiftedWord(x, m, bit);
    if bit < 64 - w {
      LowPart(x / Pow2(bit), m, bit, w);
    } else {
      HighPart(x / Pow2(bit), y, h, bit, w);
    }
  }

  lemma LowPart(x: nat, m: nat, bit: nat, w: nat)
    requires bit + w <= 64
    ensures x % Pow2(w) == (x + Pow2(64 - bit) * m) % Pow2(w)
  {
    hide Pow2;
    PowMultiple(64 - bit, w, x, m);
  }

  /** The or-ed window agrees with the shifted number in the low w bits. */
  lemma HighPart(x: nat, y: u64, h: nat, bit: nat, w: nat)
    requires 0 < bit < 64 && w <= 64 && x < Pow2(64 - bit)
    ensures Or(x, (y * Pow2(64 - bit)) % 0x1_0000_0000_0000_0000) % Pow2(w)
      == (x + Pow2(64 - bit) * (y + 0x1_0000_0000_0000_0000 * h)) % Pow2(w)
  {
    hide Pow2, Or;
    var b := Pow2(64 - bit);
    var z := (y * b) % 0x1_0000_0000_0000_0000;
    var u := (y * b) / 0x1_0000_0000_0000_0000;
    Pow2Of64();
    assert z % b == 0 by {
      AddMultiple(0, y, b);
      Pow2Add(64 - bit, bit);
      var p := Pow2(bit);
      assert z == y * b + (-(u * p)) * b by { assert u * (p * b) == (u * p) * b; }
      AddMultiple(y * b, -(u * p), b);
    }
    OrDisjoint(x, z, 64 - bit);
    PowMultiple(64, w, x + z, u + b * h);
    assert x + z + 0x1_0000_0000_0000_0000 * (u + b * h) == x + b * (y + 0x1_0000_0000_0000_0000 * h) by {
      assert b * (y + 0x1_0000_0000_0000_0000 * h) == y * b + 0x1_0000_0000_0000_0000 * (b * h);
    }
  }

  /** The window read at position pos is bits pos .. pos+w-1 of the number. */
  lemma WindowAt(s: seq<u64>, pos: nat, w: nat)
    requires pos / 64 + 1 < |s| && 2 <= w <= 8
    ensures WindowBits(s, pos / 64, pos % 64, w) % Pow2(w) == (WordsValue(s) / Pow2(pos)) % Pow2(w)
  {
    hide Pow2, WordsValue, WindowBits;
    var k, bit := pos / 64, pos % 64;
    WindowInWords(s, k, bit, w);
    var low := WordsSplit(s, k);
    var t := WordsValue(s[k..]);
    Pow64IsPow2(k);
    Pow2Add(64 * k, bit);
    assert 64 * k + bit == pos;
    NestedQuotient(low, Pow64(k), t, Pow2(bit));
  }

  lemma NestedQuotient(low: nat, a: nat, t: nat, b: nat)
    requires 0 <= low < a && b > 0
    ensures a * b > 0 && (low + a * t) / (a * b) == t / b
  {
    var q, r := t / b, t % b;
    assert t == q * b + r;
    assert a * t == q * (a * b) + a * r;
    assert low + a * r < a * b by { MulMono(r, b - 1, a); }
    QuotientUnique(low + a * t, q, low + a * r, a * b);
  }

  /** A number above and below bit pos. */
  function High(n: nat, pos: nat): nat
  {
    hide Pow2;
    n / Pow2(pos)
  }

  function Low(n: nat, pos: nat): nat
  {
    hide Pow2;
    n % Pow2(pos)
  }

  lemma HighLow(n: nat, pos: nat)
    ensures n == High(n, pos) * Pow2(pos) + Low(n, pos) && Low(n, pos) < Pow2(pos)
  {
    hide Pow2;
  }

  lemma HighLowNext(n: nat, pos: nat, k: nat)
    ensures High(n, pos + k) == High(n, pos) / Pow2(k)
    ensures Low(n, pos + k) == Low(n, pos) + Pow2(pos) * (High(n, pos) % Pow2(k))
  {
    hide Pow2, High, Low;
    HighLow(n, pos);
    Pow2Add(pos, k);
    var a, b, q, r := Pow2(pos), Pow2(k), High(n, pos), Low(n, pos);
    SplitTwice(n, q, r, a, b);
    HighLowMean(n, pos + k);
  }

  lemma HighLowMean(n: nat, pos: nat)
    ensures High(n, pos) == n / Pow2(pos) && Low(n, pos) == n % Pow2(pos)
  {
    hide Pow2;
  }

  lemma SplitTwice(n: nat, q: nat, r: nat, a: nat, b: nat)
    requires b > 0 && n == q * a + r && r < a
    ensures a * b > 0 && n / (a * b) == q / b && n % (a * b) == r + a * (q % b)
  {
    var q', v := q / b, q % b;
    assert q == q' * b + v;
    assert (q' * b + v) * a == q' * (a * b) + a * v;
    assert a * v <= a * (b - 1) by { MulMono(v, b - 1, a); }
    assert a * (b - 1) == a * b - a;
    QuotientUnique(n, q', r + a * v, a * b);
  }

  /** How far the loop has come: the digits written so far make up the bits below pos, but for
      the carry; and a carry means that those bits make up more than half of 2^pos. */
  ghost predicate Progress(n: nat, d: seq<int>, pos: nat, carry: int)
  {
    Digits(2, d) == Low(n, pos) - carry * Pow2(pos)
    && (carry == 1 ==> 2 * Low(n, pos) >= Pow2(pos)) && (carry == 0 || carry == 1)
  }

  /** Advancing over k bits, of value v, with digit x written at pos. */
  lemma Advance(n: nat, d: seq<int>, pos: nat, carry: int, k: nat, x: int, carry': int, e: seq<int>)
    requires Progress(n, d, pos, carry)
    requires var v := High(n, pos) % Pow2(k); carry + v == x + carry' * Pow2(k) && (carry' == 1 ==> 2 * v >= Pow2(k))
    requires carry' == 0 || carry' == 1
    requires Digits(2, e) == Digits(2, d) + Pow2(pos) * x
    ensures Progress(n, e, pos + k, carry')
  {
    hide Pow2, Digits, High, Low;
    HighLow(n, pos);
    HighLowNext(n, pos, k);
    Pow2Add(pos, k);
    var v := High(n, pos) % Pow2(k);
    AdvanceArithmetic(Low(n, pos), Pow2(pos), Pow2(k), v, carry, carry', x);
  }

  lemma AdvanceArithmetic(r: int, a: int, b: int, v: int, carry: int, carry': int, x: int)
    requires 0 <= r < a && 0 <= v < b && carry + v == x + carry' * b
    ensures r - carry * a + a * x == (r + a * v) - carry' * (a * b)
    ensures 2 * v >= b ==> 2 * (r + a * v) >= a * b
  {
    assert a * (carry + v) == a * (x + carry' * b);
    assert a * (x + carry' * b) == a * x + carry' * (a * b);
    assert a * (carry + v) == carry * a + a * v;
    if 2 * v >= b {
      MulMono(b, 2 * v, a);
      assert (2 * v) * a == 2 * (a * v) && b * a == a * b;
    }
  }

  lemma {:induction false} WeightIsPow2(i: nat)
    ensures Weight(2, i) == Pow2(i)
  {
    if i > 0 { WeightIsPow2(i - 1); }
  }

  /** A number below half of 2^pos leaves no carry. */
  lemma NoCarryLeft(n: nat, d: seq<int>, pos: nat, carry: int)
    requires Progress(n, d, pos, carry) && pos >= 256 && n < Pow2(255)
    ensures carry == 0 && Digits(2, d) == n
  {
    hide Pow2, Digits, High, Low;
    HighLow(n, pos);
    Pow2Add(256, pos - 256);
    Pow2Add(1, 255);
    ShiftOne();
    MulMono(1, Pow2(pos - 256), Pow2(256));
    if High(n, pos) >= 1 { MulMono(1, High(n, pos), Pow2(pos)); }
    assert High(n, pos) == 0;
  }

  lemma ShiftOne()
    ensures Pow2(1) == 2
  {
  }

  lemma WindowSizes(w: nat)
    requires 2 <= w <= 8
    ensures 4 <= Pow2(w) <= 256 && Pow2(w) == 2 * Pow2(w - 1) && Pow2(w - 1) % 2 == 0 && Pow2(1) == 2
  {
    assert Pow2(8) == 256;
    assert Pow2(w) == 2 * Pow2(w - 1) && Pow2(w - 1) == 2 * Pow2(w - 2);
    SizeBound(w);
  }

  lemma {:induction false} SizeBound(w: nat)
    requires w <= 8
    ensures Pow2(w) <= 256
    decreases 8 - w
  {
    if w < 8 { SizeBound(w + 1); } else { assert Pow2(8) == 256; }
  }

  /** The low bit of a window is the low bit of the number it is cut from. */
  lemma LowBitOfWindow(q: nat, w: nat)
    requires 2 <= w <= 8
    ensures (q % Pow2(w)) % 2 == q % 2
  {
    hide Pow2;
    WindowSizes(w);
    var p := Pow2(w - 1);
    var u := q / Pow2(w);
    assert q == u * Pow2(w) + q % Pow2(w);
    assert u * (2 * p) == (u * p) * 2;
    AddMultiple(q % Pow2(w), u * p, 2);
  }

  /** The signed digit an odd window turns into survives the wrap-around of int8, including
      width 7, where the width itself wraps to -128, and width 8, where it wraps to 0. */
  lemma DigitFits(window: nat, w: nat)
    requires 2 <= w <= 8 && Pow2(w - 1) <= window < Pow2(w)
    ensures ToInt8(ToInt8(window) - ToInt8(Pow2(w))) == window - Pow2(w)
  {
    WindowSizes(w);
  }

  lemma WordsOfBytes(b: seq<byte>)
    requires |b| == 32
    ensures WordsValue([Word(b[0..8]), Word(b[8..16]), Word(b[16..24]), Word(b[24..32]), 0]) == LittleEndian(b)
  {
    hide LittleEndian, Word, Pow256;
    var w0, w1, w2, w3 := b[0..8], b[8..16], b[16..24], b[24..32];
    assert b == w0 + (w1 + (w2 + w3));
    LittleEndianConcat(w0, w1 + (w2 + w3));
    LittleEndianConcat(w1, w2 + w3);
    LittleEndianConcat(w2, w3);
    Pow256Table();
    WordMeans(w0);
    WordMeans(w1);
    WordMeans(w2);
    WordMeans(w3);
    FiveWords(Word(w0), Word(w1), Word(w2), Word(w3));
  }

  lemma WordMeans(s: seq<byte>)
    requires |s| == 8
    ensures Word(s) == LittleEndian(s)
  {
  }

  lemma FiveWords(a: u64, b: u64, c: u64, d: u64)
    ensures WordsValue([a, b, c, d, 0]) == a + 0x1_0000_0000_0000_0000 * (b + 0x1_0000_0000_0000_0000 * (c + 0x1_0000_0000_0000_0000 * d))
  {
    assert [a, b, c, d, 0][1..] == [b, c, d, 0];
    assert [b, c, d, 0][1..] == [c, d, 0];
    assert [c, d, 0][1..] == [d, 0];
    assert [d, 0][1..] == [0];
    assert [0][1..] == [];
    assert WordsValue([d, 0]) == d + 0x1_0000_0000_0000_0000 * WordsValue([0]) && WordsValue([0]) == 0;
    assert WordsValue([c, d, 0]) == c + 0x1_0000_0000_0000_0000 * WordsValue([d, 0]);
    assert WordsValue([b, c, d, 0]) == b + 0x1_0000_0000_0000_0000 * WordsValue([c, d, 0]);
  }

  lemma TopByteBound(b: seq<byte>)
    requires |b| == 32 && b[31] <= 127
    ensures LittleEndian(b) < Pow2(255)
  {
    hide LittleEndian, Pow256, Pow2;
    assert b == b[..31] + [b[31]];
    LittleEndianConcat(b[..31], [b[31]]);
    LittleEndianBound(b[..31]);
    assert [b[31]][1..] == [];
    assert LittleEndian([b[31]]) == b[31] by { SingleByte(b[31]); }
    BytePower(31);
    Pow2Add(248, 7);
    assert Pow2(7) == 128 by { SevenBits(); }
    MulMono(b[31], 127, Pow256(31));
  }

  lemma SingleByte(b: byte)
    ensures LittleEndian([b]) == b
  {
    assert [b][1..] == [];
  }

  lemma SevenBits()
    ensures Pow2(7) == 128 && Pow2(8) == 256
  {
  }

  lemma {:induction false} BytePower(i: nat)
    ensures Pow256(i) == Pow2(8 * i)
  {
    if i > 0 {
      BytePower(i - 1);
      hide Pow2;
      Pow2Add(8, 8 * (i - 1));
      SevenBits();
    }
  }

  /** What holds of the digits when the loop stands at bit pos. */
  ghost predicate NafState(n: nat, d: seq<int>, pos: nat, carry: int, w: nat)
    requires w > 0
  {
    |d| == 256 && Progress(n, d, pos, carry) && NonAdjacent(d, w)
    && (forall i :: 0 <= i < 256 && d[i] != 0 ==> i + w <= pos)
    && (forall i :: pos <= i < 256 ==> d[i] == 0)
  }

  lemma NafStart(n: nat, d: seq<int>, w: nat)
    requires w > 0 && |d| == 256 && (forall i :: 0 <= i < 256 ==> d[i] == 0)
    ensures NafState(n, d, 0, 0, w)
  {
    hide Digits, Pow2;
    NoBits();
    DigitsZero(2, d);
  }

  /** An even window is skipped one bit at a time, keeping the carry. */
  lemma SkipBit(n: nat, d: seq<int>, pos: nat, carry: int, w: nat)
    requires w > 0 && NafState(n, d, pos, carry, w) && (carry + High(n, pos) % 2) % 2 == 0
    ensures NafState(n, d, pos + 1, carry, w)
  {
    hide Digits, Pow2, NonAdjacent, High, Low;
    ShiftOne();
    Advance(n, d, pos, carry, 1, 0, carry, d);
  }

  /** An odd window becomes the next digit, and the w bits it covers are done. */
  lemma TakeWindow(n: nat, d: seq<int>, pos: nat, carry: int, w: nat, x: int, next: int)
    requires 2 <= w <= 8 && pos < 256 && NafState(n, d, pos, carry, w)
    requires var window := carry + High(n, pos) % Pow2(w);
      window % 2 == 1 && x == window - next * Pow2(w) && next == if window < Pow2(w - 1) then 0 else 1
    ensures NafState(n, d[pos := x], pos + w, next, w)
  {
    hide Digits, Pow2, High, Low, Progress;
    WindowSizes(w);
    var v, e := High(n, pos) % Pow2(w), d[pos := x];
    ProgressMeans(n, d, pos, carry);
    WriteDigit(d, pos, x, e);
    OddWindow(carry, v, Pow2(w - 1), x, next);
    Advance(n, d, pos, carry, w, x, next, e);
  }

  lemma ProgressMeans(n: nat, d: seq<int>, pos: nat, carry: int)
    requires Progress(n, d, pos, carry)
    ensures carry == 0 || carry == 1
  {
  }

  lemma OddWindow(carry: int, v: int, half: int, x: int, next: int)
    requires (carry == 0 || carry == 1) && 0 <= v < 2 * half && half % 2 == 0 && (carry + v) % 2 == 1
    requires next == (if carry + v < half then 0 else 1) && x == carry + v - next * (2 * half)
    ensures x % 2 == 1 && Within(x, half) && (next == 1 ==> 2 * v >= 2 * half)
  {
  }

  /** The five words the windows are read from: the encoding and a zero word. */
  method LoadWords(b: seq<byte>) returns (digits: seq<u64>)
    requires |b| == 32
    ensures |digits| == 5 && WordsValue(digits) == LittleEndian(b)
  {
    hide WordsValue, LittleEndian, Word;
    digits := [Word(b[0..8]), Word(b[8..16]), Word(b[16..24]), Word(b[24..32]), 0];
    WordsOfBytes(b);
  }

  /** The masked window: bits pos .. pos+w-1. */
  method ReadWindow(digits: seq<u64>, pos: nat, w: nat) returns (v: nat)
    requires |digits| == 5 && pos < 256 && 2 <= w <= 8
    ensures v == High(WordsValue(digits), pos) % Pow2(w)
  {
    hide Pow2, WordsValue, WindowBits, High;
    var bitBuf := WindowBits(digits, pos / 64, pos % 64, w);
    v := bitBuf % Pow2(w);
    WindowAt(digits, pos, w);
    HighLowMean(WordsValue(digits), pos);
  }

  /** The digit and the carry of an odd window. */
  method SignedWindow(window: nat, w: nat) returns (digit: int8, carry: nat)
    requires 2 <= w <= 8 && window < Pow2(w)
    ensures carry == if window < Pow2(w - 1) then 0 else 1
    ensures digit == window - carry * Pow2(w)
  {
    hide Pow2;
    WindowSizes(w);
    var width := Pow2(w);
    if window < width / 2 {
      carry := 0;
      digit := ToInt8(window);
    } else {
      DigitFits(window, w);
      carry := 1;
      digit := ToInt8(ToInt8(window) - ToInt8(width));
    }
  }

  /** nonAdjacentForm: the width-w non-adjacent form of the scalar. Together with NafUnique
      this determines all 256 digits. */
  method NonAdjacentForm(b: seq<byte>, w: nat) returns (naf: array<int8>)
    requires |b| == 32 && b[31] <= 127 && 2 <= w <= 8
    ensures fresh(naf) && naf.Length == 256
    ensures NonAdjacent(naf[..], w)
    ensures Digits(2, naf[..]) == LittleEndian(b)
  {
    hide Pow2, LittleEndian, WordsValue, Digits, NonAdjacent, NafState, High, Low;
    naf := new int8[256](_ => 0);
    var digits := LoadWords(b);
    ghost var n: nat := LittleEndian(b);
    var pos: nat, carry: nat := 0, 0;
    NafStart(n, naf[..], w);
    while pos < 256
      invariant NafState(n, naf[..], pos, carry, w)
    {
      var v := ReadWindow(digits, pos, w);
      var window := carry + v;
      LowBitOfWindow(High(n, pos), w);
      WindowRange(n, naf[..], pos, carry, w);
      ghost var d: seq<int> := naf[..];
      if window % 2 == 0 {
        SkipBit(n, d, pos, carry, w);
        pos := pos + 1;
      } else {
        var digit, next := SignedWindow(window, w);
        TakeWindow(n, d, pos, carry, w, digit, next);
        naf[pos] := digit;
        assert naf[..] == d[pos := digit];
        carry := next;
        pos := pos + w;
      }
    }
    NafEnd(b, naf[..], pos, carry, w);
  }

  lemma WindowRange(n: nat, d: seq<int>, pos: nat, carry: int, w: nat)
    requires 2 <= w <= 8 && NafState(n, d, pos, carry, w)
    ensures carry == 0 || carry == 1
    ensures (carry + High(n, pos) % Pow2(w)) % 2 == 1 ==> carry + High(n, pos) % Pow2(w) < Pow2(w)
  {
    hide Digits, Pow2, NonAdjacent, High, Low;
    WindowSizes(w);
  }

  lemma NafEnd(b: seq<byte>, d: seq<int>, pos: nat, carry: int, w: nat)
    requires |b| == 32 && b[31] <= 127 && w > 0 && pos >= 256 && NafState(LittleEndian(b), d, pos, carry, w)
    ensures NonAdjacent(d, w) && Digits(2, d) == LittleEndian(b)
  {
    hide Digits, Pow2, NonAdjacent, LittleEndian;
    TopByteBound(b);
    NoCarryLeft(LittleEndian(b), d, pos, carry);
  }

  lemma NoBits()
    ensures Pow2(0) == 1
  {
  }

  lemma WriteDigit(d: seq<int>, pos: nat, x: int, e: seq<int>)
    requires pos < |d| && d[pos] == 0 && e == d[pos := x]
    ensures Digits(2, e) == Digits(2, d) + Pow2(pos) * x
  {
    DigitsUpdate(2, d, pos, x);
    WeightIsPow2(pos);
  }
}
