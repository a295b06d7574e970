/** Fixed-width integers of the interpreter, written out over unbounded `int`. */
module Words {

  type u8 = x: int | 0 <= x < 0x100
  type u64 = x: int | 0 <= x < 0x1_0000_0000_0000_0000
  type i64 = x: int | -0x8000_0000_0000_0000 <= x < 0x8000_0000_0000_0000

  const TWO64: int := 0x1_0000_0000_0000_0000
  const TWO63: int := 0x8000_0000_0000_0000

  /** The least significant byte, as `static_cast<u8>` keeps it. */
  function Low(x: int): u8 {
    x % 0x100
  }

  /** Two's complement wrap-around to 64 bits. */
  function Wrap64(x: int): i64 {
    var m := x % TWO64;
    if m < TWO63 then m else m - TWO64
  }

  function ToUnsigned(x: i64): u64 {
    if x < 0 then x + TWO64 else x
  }

  function FromUnsigned(x: u64): i64 {
    if x < TWO63 then x else x - TWO64
  }

  function Magnitude(x: int): nat {
    if x < 0 then -x else x
  }

  /** Division of C++ truncates towards zero. */
  function TruncDiv(a: int, b: int): int
    requires b != 0
  {
    var q: int := Magnitude(a) / Magnitude(b);
    if (a < 0) == (b < 0) then q else -q
  }

  /** The remainder of C++: it takes the sign of the dividend. */
  function TruncMod(a: int, b: int): int
    requires b != 0
  {
    var m: int := Magnitude(a) % Magnitude(b);
    if a < 0 then -m else m
  }

  function Pow2(n: nat): (p: nat)
    ensures p >= 1
  {
    if n == 0 then 1 else 2 * Pow2(n - 1)
  }

  /* Bit-wise operators on unsigned words, one bit at a time. */

  function BitAnd(a: nat, b: nat): nat {
    if a == 0 || b == 0 then 0
    else 2 * BitAnd(a / 2, b / 2) + (if a % 2 == 1 && b % 2 == 1 then 1 else 0)
  }

  function BitOr(a: nat, b: nat): nat {
    if a == 0 then b else if b == 0 then a
    else 2 * BitOr(a / 2, b / 2) + (if a % 2 == 1 || b % 2 == 1 then 1 else 0)
  }

  function BitXor(a: nat, b: nat): nat {
    if a == 0 then b else if b == 0 then a
    else 2 * BitXor(a / 2, b / 2) + (if a % 2 != b % 2 then 1 else 0)
  }
}
