/** What the operators on integers mean (src/vm.cpp: arithOper, bitOper, unaryOper),
    said with whole numbers and their bits alone. Source semantics, machine and
    optimizer share the functions of `Words`; these laws leave them no choice. */
module IntegerLaws {
  import opened Arithmetic
  import opened Words
  import opened Syntax
  import opened Values
  import opened Source

  /** `x op y` is the integer `z`. */
  predicate Gives(op: BinaryOp, x: i64, y: i64, z: int) {
    IsInt(BinaryValue(op, Int(x), Int(y)), z)
  }

  predicate IsInt(r: Result, z: int) {
    r.Ok? && r.value.Int? && r.value.i == z
  }

  /** Equal but for multiples of 2^64. */
  predicate Congruent(x: int, y: int) {
    (x - y) % TWO64 == 0
  }

  lemma CongruentWords(x: i64, y: i64)
    requires Congruent(x, y)
    ensures x == y
  {
  }

  lemma WrapCongruent(x: int)
    ensures Congruent(Wrap64(x), x)
  {
  }

  lemma CongruentSym(x: int, y: int)
    requires Congruent(x, y)
    ensures Congruent(y, x)
  {
  }

  lemma CongruentTrans(x: int, y: int, z: int)
    requires Congruent(x, y) && Congruent(y, z)
    ensures Congruent(x, z)
  {
  }

  /** Sums, differences and products are right up to multiples of 2^64. */
  lemma ArithmeticLaw(x: i64, y: i64, z: i64)
    ensures Gives(Add, x, y, z) <==> Congruent(z, x + y)
    ensures Gives(Sub, x, y, z) <==> Congruent(z, x - y)
    ensures Gives(Mult, x, y, z) <==> Congruent(z, x * y)
    ensures UnaryValue(Negate, Int(x)) == Ok(Int(z)) <==> Congruent(z, 0 - x)
  {
    WrapExact(x + y, z);
    WrapExact(x - y, z);
    WrapExact(x * y, z);
    WrapExact(0 - x, z);
  }

  /** The only word congruent to `x` is its wrap-around. */
  lemma WrapExact(x: int, z: i64)
    ensures Wrap64(x) == z <==> Congruent(z, x)
  {
    WrapCongruent(x);
    if Congruent(z, x) {
      CongruentSym(Wrap64(x), x);
      CongruentTrans(z, x, Wrap64(x));
      CongruentWords(z, Wrap64(x));
    }
  }

  /** `z` is what is left of `x` after taking `y` away `q` times. */
  predicate Leaves(x: int, y: int, q: int, z: int) {
    x == q * y + z
  }

  /** The remainder is smaller than the divisor and has the sign of the dividend. */
  lemma RemainderLaw(x: i64, y: i64, z: i64)
    ensures y == 0 ==> BinaryValue(Mod, Int(x), Int(y)) == Err(ModulusWithZero)
    ensures y != 0 ==>
              (Gives(Mod, x, y, z) <==>
               && (exists q :: Leaves(x, y, q, z))
               && Magnitude(z) < Magnitude(y)
               && (x >= 0 ==> z >= 0) && (x <= 0 ==> z <= 0))
  {
    hide Magnitude, TruncDiv, TruncMod, Wrap64;
    if y != 0 {
      var m, fits := TruncMod(x, y), Magnitude(z) < Magnitude(y) && (x >= 0 ==> z >= 0) && (x <= 0 ==> z <= 0);
      DivisionLaw(x, y);
      assert Leaves(x, y, TruncDiv(x, y), m);
      assert Wrap64(m) == m by { SmallWrap(m, y); }
      if fits && exists q' :: Leaves(x, y, q', z) {
        var q' :| Leaves(x, y, q', z);
        TruncUnique(x, y, q', z);
      }
    }
  }

  lemma SmallWrap(m: int, y: i64)
    requires Magnitude(m) < Magnitude(y)
    ensures Wrap64(m) == m
  {
  }

  /** Quotient and remainder of C++ belong together. */
  lemma DivisionLaw(x: int, y: int)
    requires y != 0
    ensures x == TruncDiv(x, y) * y + TruncMod(x, y)
    ensures Magnitude(TruncMod(x, y)) < Magnitude(y)
    ensures (x >= 0 ==> TruncMod(x, y) >= 0) && (x <= 0 ==> TruncMod(x, y) <= 0)
  {
    var a: int, b: int := Magnitude(x), Magnitude(y);
    var p: int := a / b;
    assert a == b * p + a % b;
    SignedProducts(b, p);
  }

  lemma SignedProducts(b: int, p: int)
    ensures p * b == b * p && (0 - p) * b == 0 - b * p
    ensures p * (0 - b) == 0 - b * p && (0 - p) * (0 - b) == b * p
  {
  }

  lemma TruncUnique(x: int, y: int, q: int, z: int)
    requires y != 0 && Leaves(x, y, q, z)
    requires Magnitude(z) < Magnitude(y) && (x >= 0 ==> z >= 0) && (x <= 0 ==> z <= 0)
    ensures TruncMod(x, y) == z
  {
    var b, p := Magnitude(y), if (x < 0) == (y < 0) then q else 0 - q;
    assert b * p == if x < 0 then 0 - q * y else q * y;
    OneRemainder(Magnitude(x), b, p, Magnitude(z));
  }

  /* Bits. */

  /** Bit `i` of the two's complement of `x`. */
  predicate Bit(x: int, i: nat) {
    x / Pow2(i) % 2 == 1
  }

  lemma NextBit(x: int, i: nat)
    ensures Bit(x, i + 1) <==> Bit(x / 2, i)
    ensures Bit(x, 0) <==> x % 2 == 1
  {
    var p := Pow2(i);
    var q, r := x / 2 / p, x / 2 % p;
    assert x == (2 * p) * q + (2 * r + x % 2) by {
      assert 2 * (p * q) == (2 * p) * q;
    }
    OneRemainder(x, 2 * p, q, 2 * r + x % 2);
  }

  lemma {:induction false} BitwiseBits(a: nat, b: nat, i: nat)
    ensures Bit(BitAnd(a, b), i) <==> Bit(a, i) && Bit(b, i)
    ensures Bit(BitOr(a, b), i) <==> Bit(a, i) || Bit(b, i)
    ensures Bit(BitXor(a, b), i) <==> (Bit(a, i) <==> !Bit(b, i))
    decreases i
  {
    hide Bit, BitAnd, BitOr, BitXor;
    FirstBits(a, b);
    var j := if i == 0 then 0 else i - 1;
    NextBit(a, j);
    NextBit(b, j);
    NextBit(BitAnd(a, b), j);
    NextBit(BitOr(a, b), j);
    NextBit(BitXor(a, b), j);
    if i > 0 { BitwiseBits(a / 2, b / 2, i - 1); }
  }

  lemma FirstBits(a: nat, b: nat)
    ensures BitAnd(a, b) / 2 == BitAnd(a / 2, b / 2)
    ensures BitOr(a, b) / 2 == BitOr(a / 2, b / 2)
    ensures BitXor(a, b) / 2 == BitXor(a / 2, b / 2)
    ensures BitAnd(a, b) % 2 == 1 <==> a % 2 == 1 && b % 2 == 1
    ensures BitOr(a, b) % 2 == 1 <==> a % 2 == 1 || b % 2 == 1
    ensures BitXor(a, b) % 2 == 1 <==> a % 2 != b % 2
  {
  }

  /** Multiples of 2^n do not reach the bits below. */
  lemma {:induction false} HighMultiple(x: int, k: int, n: nat, i: nat)
    requires i < n
    ensures Bit(x + k * Pow2(n), i) <==> Bit(x, i)
    decreases i
  {
    hide Bit;
    var h := k * Pow2(n - 1);
    assert k * Pow2(n) == 2 * h;
    var j := if i == 0 then 0 else i - 1;
    NextBit(x, j);
    NextBit(x + 2 * h, j);
    if i > 0 {
      assert (x + 2 * h) / 2 == x / 2 + h;
      HighMultiple(x / 2, k, n - 1, i - 1);
    }
  }

  lemma Power64()
    ensures Pow2(64) == TWO64 && Pow2(63) == TWO63
  {
    assert Pow2(8) == 0x100;
    assert Pow2(16) == 0x1_0000;
    assert Pow2(24) == 0x100_0000;
    assert Pow2(32) == 0x1_0000_0000;
    assert Pow2(40) == 0x100_0000_0000;
    assert Pow2(48) == 0x1_0000_0000_0000;
    assert Pow2(56) == 0x100_0000_0000_0000;
  }

  lemma CongruentBits(x: int, y: int, i: nat)
    requires Congruent(x, y) && i < 64
    ensures Bit(x, i) <==> Bit(y, i)
  {
    Power64();
    var k := (x - y) / TWO64;
    HighMultiple(y, k, 64, i);
  }

  predicate SameBits(x: int, y: int, n: nat) {
    forall i: nat | i < n :: Bit(x, i) <==> Bit(y, i)
  }

  lemma {:induction false} BitsDetermine(x: int, y: int, n: nat)
    requires SameBits(x, y, n)
    ensures (x - y) % Pow2(n) == 0
    decreases n
  {
    hide Bit;
    if n > 0 {
      NextBit(x, 0);
      NextBit(y, 0);
      assert Bit(x, 0) <==> Bit(y, 0);
      forall i: nat | i < n - 1 ensures Bit(x / 2, i) <==> Bit(y / 2, i) {
        NextBit(x, i);
        NextBit(y, i);
        assert Bit(x, i + 1) <==> Bit(y, i + 1);
      }
      BitsDetermine(x / 2, y / 2, n - 1);
      DoubleDifference(x, y, Pow2(n - 1));
    }
  }

  lemma DoubleDifference(x: int, y: int, p: nat)
    requires p > 0 && x % 2 == y % 2 && (x / 2 - y / 2) % p == 0
    ensures (x - y) % (2 * p) == 0
  {
    var k := (x / 2 - y / 2) / p;
    assert x - y == 2 * (p * k);
    OneRemainder(x - y, 2 * p, k, 0);
  }

  /** A word is its 64 bits. */
  lemma WordIsItsBits(x: i64, y: i64)
    requires SameBits(x, y, 64)
    ensures x == y
  {
    Power64();
    BitsDetermine(x, y, 64);
    CongruentWords(x, y);
  }

  /** The bits of `&`, `|`, `^` and `~` are those of the operands, combined. */
  lemma BitwiseLaw(x: i64, y: i64, z: i64)
    ensures Gives(BAnd, x, y, z) <==> forall i: nat | i < 64 :: Bit(z, i) <==> Bit(x, i) && Bit(y, i)
    ensures Gives(BOr, x, y, z) <==> forall i: nat | i < 64 :: Bit(z, i) <==> Bit(x, i) || Bit(y, i)
    ensures Gives(BXor, x, y, z) <==> forall i: nat | i < 64 :: Bit(z, i) <==> (Bit(x, i) <==> !Bit(y, i))
    ensures UnaryValue(Complement, Int(x)) == Ok(Int(z)) <==> forall i: nat | i < 64 :: Bit(z, i) <==> !Bit(x, i)
  {
    hide Bit, Wrap64, ToUnsigned, BitAnd, BitOr, BitXor;
    var a, b := ToUnsigned(x), ToUnsigned(y);
    forall i: nat | i < 64
      ensures Bit(Wrap64(BitAnd(a, b)), i) <==> Bit(x, i) && Bit(y, i)
      ensures Bit(Wrap64(BitOr(a, b)), i) <==> Bit(x, i) || Bit(y, i)
      ensures Bit(Wrap64(BitXor(a, b)), i) <==> (Bit(x, i) <==> !Bit(y, i))
      ensures Bit(Wrap64(-1 - x), i) <==> !Bit(x, i)
    {
      UnsignedBits(x, i);
      UnsignedBits(y, i);
      BitwiseBits(a, b, i);
      WrapBits(BitAnd(a, b), i);
      WrapBits(BitOr(a, b), i);
      WrapBits(BitXor(a, b), i);
      WrapBits(-1 - x, i);
      FlippedBit(x, i);
    }
    BitsExact(Wrap64(BitAnd(a, b)), z);
    BitsExact(Wrap64(BitOr(a, b)), z);
    BitsExact(Wrap64(BitXor(a, b)), z);
    BitsExact(Wrap64(-1 - x), z);
  }

  lemma BitsExact(x: i64, z: i64)
    ensures x == z <==> forall i: nat | i < 64 :: Bit(z, i) <==> Bit(x, i)
  {
    hide Bit;
    if forall i: nat | i < 64 :: Bit(z, i) <==> Bit(x, i) {
      WordIsItsBits(x, z);
    }
  }

  lemma UnsignedBits(x: i64, i: nat)
    requires i < 64
    ensures Bit(ToUnsigned(x), i) <==> Bit(x, i)
  {
    CongruentBits(ToUnsigned(x), x, i);
  }

  lemma WrapBits(x: int, i: nat)
    requires i < 64
    ensures Bit(Wrap64(x), i) <==> Bit(x, i)
  {
    WrapCongruent(x);
    CongruentBits(Wrap64(x), x, i);
  }

  lemma {:induction false} FlippedBit(x: int, i: nat)
    ensures Bit(-1 - x, i) <==> !Bit(x, i)
    decreases i
  {
    NextBit(x, if i == 0 then 0 else i - 1);
    NextBit(-1 - x, if i == 0 then 0 else i - 1);
    if i > 0 {
      FlippedBit(x / 2, i - 1);
      assert (-1 - x) / 2 == -1 - x / 2;
    }
  }

  /** Shifting to the left multiplies, up to multiples of 2^64. */
  lemma ShiftLeftLaw(x: i64, n: i64, z: i64)
    ensures !(0 <= n < 64) ==> BinaryValue(Shl, Int(x), Int(n)) == Err(HitShiftMax)
    ensures 0 <= n < 64 ==> (Gives(Shl, x, n, z) <==> Congruent(z, x * Pow2(n)))
  {
    hide Congruent, Pow2, ShiftLeft;
    if 0 <= n < 64 {
      ShiftCongruent(x, n);
      if Congruent(z, x * Pow2(n)) {
        CongruentSym(z, x * Pow2(n));
        CongruentTrans(ShiftLeft(x, n), x * Pow2(n), z);
        CongruentWords(ShiftLeft(x, n), z);
      }
    }
  }

  lemma ShiftCongruent(x: i64, n: i64)
    requires 0 <= n < 64
    ensures Congruent(ShiftLeft(x, n), x * Pow2(n))
  {
    hide Congruent, Pow2, ToUnsigned, FromUnsigned;
    var u, p := ToUnsigned(x), Pow2(n);
    UnsignedCongruent(x);
    CongruentTimes(u, x, p);
    RestCongruent(u * p);
    CongruentTrans(ShiftLeft(x, n), u * p, x * p);
  }

  lemma UnsignedCongruent(x: i64)
    ensures Congruent(ToUnsigned(x), x)
  {
  }

  lemma RestCongruent(x: int)
    ensures Congruent(FromUnsigned(x % TWO64), x)
  {
  }

  lemma CongruentTimes(x: int, y: int, p: int)
    requires Congruent(x, y)
    ensures Congruent(x * p, y * p)
  {
    var k := (x - y) / TWO64;
    assert x == y + TWO64 * k;
    assert x * p == y * p + TWO64 * (k * p);
    OneRemainder(x * p - y * p, TWO64, k * p, 0);
  }

  /** Shifting to the right divides numbers that are not negative. The sign bit of a
      negative number moves with the others, and the wrap-around afterwards gives the
      rounded quotient for a distance of one only. */
  lemma ShiftRightLaw(x: i64, n: i64)
    ensures !(0 <= n < 64) ==> BinaryValue(Shr, Int(x), Int(n)) == Err(HitShiftMax)
    ensures 0 <= n < 64 && x >= 0 ==> Gives(Shr, x, n, x / Pow2(n))
    ensures 0 <= n < 64 && x < 0 ==> Gives(Shr, x, n, x / Pow2(n) + Pow2(64 - n) - TWO63)
    ensures 0 <= n < 64 && x < 0 ==> (Gives(Shr, x, n, x / Pow2(n)) <==> n == 1)
  {
    hide Pow2, ToUnsigned, Wrap64;
    if 0 <= n < 64 {
      var p, q := Pow2(n), Pow2(64 - n);
      PowerSum(n, 64 - n);
      Power64();
      QuotientBounds(x, p);
      if x < 0 {
        OneRemainder(x + TWO64, p, x / p + q, x % p);
        QuotientBounds(x + TWO64, p);
        PowerGrows(64 - n, 63);
      }
      assert IsInt(Ok(Int(ShiftRight(x, n))), x / p + if x < 0 then q - TWO63 else 0) by { RightShifted(x, n); }
    }
  }

  /** `-8 >> 2` should be -2. */
  lemma NegativeShift()
    ensures Gives(Shr, -8, 2, -2 - 0x4000_0000_0000_0000)
  {
    assert Pow2(2) == 4;
  }

  lemma RightShifted(x: i64, n: i64)
    requires 0 <= n < 64
    requires var y := (if x < 0 then x + TWO64 else x) / Pow2(n); 0 <= y < if x < 0 then TWO64 else TWO63
    ensures ShiftRight(x, n) == (if x < 0 then x + TWO64 else x) / Pow2(n) - if x < 0 then TWO63 else 0
  {
  }

  lemma {:induction false} PowerSum(m: nat, n: nat)
    ensures Pow2(m) * Pow2(n) == Pow2(m + n)
  {
    if m > 0 {
      PowerSum(m - 1, n);
      assert 2 * Pow2(m - 1) * Pow2(n) == 2 * (Pow2(m - 1) * Pow2(n));
    }
  }

  lemma {:induction false} PowerGrows(m: nat, n: nat)
    ensures Pow2(m) == Pow2(n) <==> m == n
  {
    if m > 0 && n > 0 { PowerGrows(m - 1, n - 1); }
  }

  lemma QuotientBounds(x: int, p: nat)
    requires p > 0
    ensures x >= 0 ==> 0 <= x / p <= x
    ensures x < 0 ==> x <= x / p < 0
  {
    var q, r := x / p, x % p;
    assert x == p * q + r == p * (q + 1) + (r - p);
    if q >= 0 {
      Grows(p, q);
    } else {
      Grows(p, 0 - (q + 1));
    }
  }
}
