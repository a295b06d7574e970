/** Eight decimal digits at a time (dependencies/fast_float/fast_float.h): the test
    and the conversion work on all bytes of one 64-bit word at once. Masks are
    written as the bytes they select. */
module Swar {
  import opened Words
  import opened Arithmetic

  const ZERO: u8 := 0x30  // '0'

  predicate IsDecimal(c: u8) {
    ZERO <= c <= ZERO + 9
  }

  /** A little-endian load. */
  function Word(s: seq<u8>): nat {
    if s == [] then 0 else Char(s, 0) + 0x100 * Word(s[1..])
  }

  function Char(s: seq<u8>, i: nat): int
    requires i < |s|
  {
    s[i]
  }

  /** `n` bytes `c`. */
  function Repeat(c: u8, n: nat): nat {
    if n == 0 then 0 else c + 0x100 * Repeat(c, n - 1)
  }

  /** `x & 0x80..80` is zero, for `n` bytes. */
  predicate HighBitsClear(x: nat, n: nat) {
    n == 0 || (x % 0x100 < 0x80 && HighBitsClear(x / 0x100, n - 1))
  }

  /** Unsigned wrap-around. */
  function Wrap(x: int, p: nat): nat
    requires p > 0
  {
    x % p
  }

  /** The digit test on words of `n` bytes. */
  predicate DigitTest(val: nat, n: nat) {
    HighBitsClear(Wrap(val + Repeat(0x46, n), Pow256(n)), n) && HighBitsClear(Wrap(val - Repeat(0x30, n), Pow256(n)), n)
  }

  predicate MadeOfEightDigits(val: u64) {
    HighBitsClear(Wrap(val + 0x4646464646464646, TWO64), 8) && HighBitsClear(Wrap(val - 0x3030303030303030, TWO64), 8)
  }

  lemma LowByte(r: nat, q: int, p: nat)
    requires r < 0x100 && p > 0
    ensures Wrap(r + 0x100 * q, 0x100 * p) == r + 0x100 * Wrap(q, p)
  {
    var k, m := q / p, q % p;
    assert q == p * k + m;
    assert 0x100 * (p * k) == (0x100 * p) * k;
    ModShift(r + 0x100 * m, 0x100 * p, k);
  }

  lemma ModShift(r: nat, d: nat, k: int)
    requires r < d
    ensures (d * k + r) % d == r
  {
    var q, m := (d * k + r) / d, (d * k + r) % d;
    assert d * (q - k) == d * q - d * k == r - m;
    assert d * (k - q) == m - r;
    if q - k >= 1 {
      MulAtLeast(d, q - k);
    } else if q - k <= -1 {
      MulAtLeast(d, k - q);
    }
  }

  lemma MulAtLeast(d: nat, k: int)
    requires k >= 1
    ensures d * k >= d
  {
    assert d * k == d + d * (k - 1);
  }

  /** One byte of the test: unless it is a digit the word fails, and if it is, no
      carry or borrow reaches the bytes above. */
  lemma DigitTestByte(b: int, w: nat, n: nat)
    requires 0 <= b < 0x100 && n > 0
    ensures DigitTest(b + 0x100 * w, n) <==> (0x30 <= b <= 0x39 && DigitTest(w, n - 1))
  {
    hide HighBitsClear, Repeat, Pow256, Wrap;
    var p, c, o := Pow256(n - 1), Repeat(0x46, n - 1), Repeat(0x30, n - 1);
    RepeatStep(0x46, n);
    RepeatStep(0x30, n);
    var x, y := Wrap(b + 0x100 * w + Repeat(0x46, n), Pow256(n)), Wrap(b + 0x100 * w - Repeat(0x30, n), Pow256(n));
    TopBits(x, n);
    TopBits(y, n);
    if b < 0x30 {
      LowByte(b + 0x100 - 0x30, w - o - 1, p);
      LowPart(b + 0x100 - 0x30, Wrap(w - o - 1, p));
    } else {
      LowByte(b - 0x30, w - o, p);
      LowPart(b - 0x30, Wrap(w - o, p));
      if b < 0x100 - 0x46 {
        LowByte(b + 0x46, w + c, p);
        LowPart(b + 0x46, Wrap(w + c, p));
      }
    }
  }

  lemma LowPart(r: nat, q: nat)
    requires r < 0x100
    ensures (r + 0x100 * q) % 0x100 == r && (r + 0x100 * q) / 0x100 == q
  {
  }

  lemma RepeatStep(c: u8, n: nat)
    requires n > 0
    ensures Repeat(c, n) == (c as int) + 0x100 * Repeat(c, n - 1) && Pow256(n) == 0x100 * Pow256(n - 1)
  {
  }

  lemma TopBits(x: nat, n: nat)
    requires n > 0
    ensures HighBitsClear(x, n) == (x % 0x100 < 0x80 && HighBitsClear(x / 0x100, n - 1))
  {
  }

  /** The test accepts exactly the words made of digits. */
  lemma {:induction false} DigitTestExact(s: seq<u8>)
    ensures DigitTest(Word(s), |s|) <==> forall i | 0 <= i < |s| :: IsDecimal(s[i])
    decreases s
  {
    hide DigitTest;
    var n := |s|;
    if n == 0 {
      NoBytes();
    } else {
      DigitTestExact(s[1..]);
      DigitTestByte(Char(s, 0), Word(s[1..]), n);
      assert forall i | 1 <= i < n :: s[i] == s[1..][i - 1];
    }
  }

  lemma NoBytes()
    ensures DigitTest(0, 0)
  {
  }

  lemma EightTest(s: seq<u8>)
    requires |s| == 8
    ensures Word(s) < TWO64
    ensures MadeOfEightDigits(Word(s)) <==> forall i | 0 <= i < 8 :: IsDecimal(s[i])
  {
    WordBound(s);
    EightConstants();
    DigitTestExact(s);
  }

  lemma EightConstants()
    ensures Pow256(8) == TWO64 && Repeat(0x46, 8) == 0x4646464646464646 && Repeat(0x30, 8) == 0x3030303030303030
  {
    assert Pow256(2) == 0x1_0000 && Pow256(4) == 0x1_0000_0000 && Pow256(6) == 0x1_0000_0000_0000;
    assert Repeat(0x46, 2) == 0x4646 && Repeat(0x46, 4) == 0x46464646 && Repeat(0x46, 6) == 0x464646464646;
    assert Repeat(0x30, 2) == 0x3030 && Repeat(0x30, 4) == 0x30303030 && Repeat(0x30, 6) == 0x303030303030;
  }

  lemma {:induction false} WordBound(s: seq<u8>)
    ensures Word(s) < Pow256(|s|)
  {
    if s != [] { WordBound(s[1..]); }
  }

  /* Conversion. */

  function ByteOf(x: nat, shift: nat): nat
    requires shift > 0
  {
    x / shift % 0x100
  }

  const B2: nat := 0x1_0000
  const B4: nat := 0x1_0000_0000
  const B6: nat := 0x1_0000_0000_0000

  /** Neighbouring digits are joined to pairs, pairs to the number. `val & mask`
      keeps the first and the fifth byte. */
  function ParseEight(val: u64): nat {
    Join(Pairs(Wrap(val - 0x3030303030303030, TWO64)))
  }

  function Pairs(v: nat): nat {
    Wrap(v * 10 + v / 0x100, TWO64)
  }

  function Join(v: nat): nat {
    var even, odd := ByteOf(v, 1) + ByteOf(v, B4) * B4, ByteOf(v, B2) + ByteOf(v, B6) * B4;
    Wrap(even * 0x000F424000000064 + odd * 0x0000271000000001, TWO64) / B4
  }

  /** The digits of `s` as a number. */
  function Decimal(s: seq<u8>): int {
    if s == [] then 0 else Decimal(s[..|s| - 1]) * 10 + (Char(s, |s| - 1) - 0x30)
  }

  lemma BytesBack(v: nat, a: nat, b: nat, c: nat, d: nat, e: nat, f: nat, g: nat, h: nat)
    requires a < 0x100 && b < 0x100 && c < 0x100 && d < 0x100 && e < 0x100 && f < 0x100 && g < 0x100 && h < 0x100
    requires v == a + 0x100 * (b + 0x100 * (c + 0x100 * (d + 0x100 * (e + 0x100 * (f + 0x100 * (g + 0x100 * h))))))
    ensures ByteOf(v, 1) == a && ByteOf(v, B2) == c && ByteOf(v, B4) == e && ByteOf(v, B6) == g
  {
    var v6 := g + 0x100 * h;
    var v4 := e + 0x100 * f + B2 * v6;
    var v2 := c + 0x100 * d + B2 * v4;
    assert v == a + 0x100 * b + B2 * v2;
    assert v / B2 == v2 && v2 / B2 == v4 && v4 / B2 == v6;
    assert v / B4 == v4 && v / B6 == v6;
  }

  lemma PairsToNumber(e0: nat, e2: nat, e4: nat, e6: nat)
    requires e0 < 100 && e2 < 100 && e4 < 100 && e6 < 100
    ensures Wrap((e0 + e4 * B4) * 0x000F424000000064 + (e2 + e6 * B4) * 0x0000271000000001, TWO64) / B4
         == e0 * 1000000 + e2 * 10000 + e4 * 100 + e6
  {
    var high := e0 * 1000000 + e2 * 10000 + e4 * 100 + e6;
    var low := e0 * 100 + e2;
    var sum := (e0 + e4 * B4) * 0x000F424000000064 + (e2 + e6 * B4) * 0x0000271000000001;
    assert (e0 + e4 * B4) * 0x000F424000000064
        == TWO64 * (e4 * 1000000) + B4 * (e0 * 1000000 + e4 * 100) + e0 * 100;
    assert (e2 + e6 * B4) * 0x0000271000000001 == TWO64 * (e6 * 10000) + B4 * (e2 * 10000 + e6) + e2;
    Quotient(sum, TWO64, e4 * 1000000 + e6 * 10000, B4 * high + low);
    Quotient(B4 * high + low, B4, high, low);
  }

  function DigitAt(s: seq<u8>, i: nat): int
    requires i < |s|
  {
    Char(s, i) - 0x30
  }

  /** Eight digits convert to their number. */
  lemma ParseEightExact(s: seq<u8>)
    requires |s| == 8 && forall i | 0 <= i < 8 :: IsDecimal(s[i])
    ensures Word(s) < TWO64 && ParseEight(Word(s)) == Decimal(s)
  {
    EightTest(s);
    WordEight(s);
    DecimalEight(s);
    var d0, d1, d2, d3 := DigitAt(s, 0), DigitAt(s, 1), DigitAt(s, 2), DigitAt(s, 3);
    var d4, d5, d6, d7 := DigitAt(s, 4), DigitAt(s, 5), DigitAt(s, 6), DigitAt(s, 7);
    ParseDigits(d0, d1, d2, d3, d4, d5, d6, d7, Word(s));
  }

  function Pack(a: int, b: int, c: int, d: int, e: int, f: int, g: int, h: int): int {
    a + 0x100 * (b + 0x100 * (c + 0x100 * (d + 0x100 * (e + 0x100 * (f + 0x100 * (g + 0x100 * h))))))
  }

  lemma ParseDigits(d0: int, d1: int, d2: int, d3: int, d4: int, d5: int, d6: int, d7: int, val: u64)
    requires 0 <= d0 <= 9 && 0 <= d1 <= 9 && 0 <= d2 <= 9 && 0 <= d3 <= 9
    requires 0 <= d4 <= 9 && 0 <= d5 <= 9 && 0 <= d6 <= 9 && 0 <= d7 <= 9
    requires val == Pack(d0 + 0x30, d1 + 0x30, d2 + 0x30, d3 + 0x30, d4 + 0x30, d5 + 0x30, d6 + 0x30, d7 + 0x30)
    ensures ParseEight(val) == d0 * 10000000 + d1 * 1000000 + d2 * 100000 + d3 * 10000 + d4 * 1000 + d5 * 100 + d6 * 10 + d7
  {
    hide Join, Wrap, Pairs;
    var v0 := Pack(d0, d1, d2, d3, d4, d5, d6, d7);
    Fits(v0);
    assert val - 0x3030303030303030 == v0;
    PairsOf(d0, d1, d2, d3, d4, d5, d6, d7);
    JoinOf(10 * d0 + d1, 10 * d1 + d2, 10 * d2 + d3, 10 * d3 + d4, 10 * d4 + d5, 10 * d5 + d6, 10 * d6 + d7, 10 * d7);
  }

  lemma PairsOf(d0: nat, d1: nat, d2: nat, d3: nat, d4: nat, d5: nat, d6: nat, d7: nat)
    requires d0 <= 9 && d1 <= 9 && d2 <= 9 && d3 <= 9 && d4 <= 9 && d5 <= 9 && d6 <= 9 && d7 <= 9
    ensures Pairs(Pack(d0, d1, d2, d3, d4, d5, d6, d7))
         == Pack(10 * d0 + d1, 10 * d1 + d2, 10 * d2 + d3, 10 * d3 + d4, 10 * d4 + d5, 10 * d5 + d6, 10 * d6 + d7, 10 * d7)
  {
    hide Wrap;
    var rest := Pack(d1, d2, d3, d4, d5, d6, d7, 0);
    LowPart(d0, rest);
    Fits(Pack(10 * d0 + d1, 10 * d1 + d2, 10 * d2 + d3, 10 * d3 + d4, 10 * d4 + d5, 10 * d5 + d6, 10 * d6 + d7, 10 * d7));
  }

  lemma JoinOf(e0: nat, e1: nat, e2: nat, e3: nat, e4: nat, e5: nat, e6: nat, e7: nat)
    requires e0 < 100 && e1 < 100 && e2 < 100 && e3 < 100 && e4 < 100 && e5 < 100 && e6 < 100 && e7 < 100
    ensures Join(Pack(e0, e1, e2, e3, e4, e5, e6, e7)) == e0 * 1000000 + e2 * 10000 + e4 * 100 + e6
  {
    hide ByteOf, Wrap;
    BytesBack(Pack(e0, e1, e2, e3, e4, e5, e6, e7), e0, e1, e2, e3, e4, e5, e6, e7);
    PairsToNumber(e0, e2, e4, e6);
  }

  lemma Fits(v: nat)
    requires v < TWO64
    ensures Wrap(v, TWO64) == v
  {
  }

  lemma WordEight(s: seq<u8>)
    requires |s| == 8
    ensures Word(s) == Pack(Char(s, 0), Char(s, 1), Char(s, 2), Char(s, 3), Char(s, 4), Char(s, 5), Char(s, 6), Char(s, 7))
  {
    assert s[1..][1..] == s[2..] && s[2..][1..] == s[3..] && s[3..][1..] == s[4..] && s[4..][1..] == s[5..];
    assert s[5..][1..] == s[6..] && s[6..][1..] == s[7..] && s[7..][1..] == [];
    assert Word(s[7..]) == Char(s, 7);
    assert Word(s[6..]) == Char(s, 6) + 0x100 * Char(s, 7);
    assert Word(s[4..]) == Char(s, 4) + 0x100 * (Char(s, 5) + 0x100 * Word(s[6..]));
    assert Word(s[2..]) == Char(s, 2) + 0x100 * (Char(s, 3) + 0x100 * Word(s[4..]));
  }

  lemma DecimalEight(s: seq<u8>)
    requires |s| == 8
    ensures Decimal(s) == DigitAt(s, 0) * 10000000 + DigitAt(s, 1) * 1000000 + DigitAt(s, 2) * 100000
                          + DigitAt(s, 3) * 10000 + DigitAt(s, 4) * 1000 + DigitAt(s, 5) * 100 + DigitAt(s, 6) * 10
                          + DigitAt(s, 7)
  {
    assert s[..7][..6] == s[..6] && s[..6][..5] == s[..5] && s[..5][..4] == s[..4] && s[..4][..3] == s[..3];
    assert s[..3][..2] == s[..2] && s[..2][..1] == s[..1] && s[..1][..0] == [];
    assert Decimal(s[..1]) == DigitAt(s, 0);
    assert Decimal(s[..2]) == Decimal(s[..1]) * 10 + DigitAt(s, 1);
    assert Decimal(s[..4]) == (Decimal(s[..2]) * 10 + DigitAt(s, 2)) * 10 + DigitAt(s, 3);
    assert Decimal(s[..6]) == (Decimal(s[..4]) * 10 + DigitAt(s, 4)) * 10 + DigitAt(s, 5);
  }
}
