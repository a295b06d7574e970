/** Run-time objects of the core language and the primitive operations on them,
    as src/object.cpp and the operator helpers of src/vm.cpp compute them. */
module Values {
  import opened Words

  /** `Invalid` is the state a moved-from or never written register is in; a callable
      is a handle to a function or closure object. */
  datatype Value =
    | Int(i: i64)
    | Bool(b: bool)
    | Null
    | Void
    | List(items: seq<Value>)
    | Callable(h: nat)
    | Invalid

  datatype Error =
    | BadOperands
    | BadOperand
    | ModulusWithZero
    | HitShiftMax
    | NotIterable
    | NotCollection
    | NotIndex
    | IndexOutOfBounds
    | Undefined
    | NotCallable
    | ArityMismatch

  datatype Result = Ok(value: Value) | Err(error: Error)

  /* Numbers are compared as doubles (the common type of both arms of AS_NUM). */

  /** Spacing of the doubles around `m`: the least power of two that leaves
      fewer than 54 significant bits. */
  function Ulp(m: nat): (u: nat)
    ensures u >= 1
  {
    if m < 0x20_0000_0000_0000 then 1 else 2 * Ulp(m / 2)
  }

  /** Round to nearest, ties to even. */
  function RoundMagnitude(m: nat): nat {
    var u := Ulp(m);
    var q, r := m / u, m % u;
    if 2 * r < u || (2 * r == u && q % 2 == 0) then q * u else (q + 1) * u
  }

  /** `static_cast<double>` of an integer; every result is a whole number. */
  function AsDouble(x: int): int {
    if x < 0 then 0 - RoundMagnitude(-x) else RoundMagnitude(x)
  }

  predicate Equal(a: Value, b: Value) {
    match (a, b)
    case (Int(x), Int(y)) => AsDouble(x) == AsDouble(y)
    case (Bool(x), Bool(y)) => x == y
    case (Null, Null) => true
    case (Void, Void) => true
    case (Callable(g), Callable(h)) => g == h
    case (List(xs), List(ys)) => |xs| == |ys| && forall k | 0 <= k < |xs| :: Equal(xs[k], ys[k])
    case _ => false
  }

  predicate Truthy(v: Value) {
    match v
    case Int(i) => i != 0
    case Bool(b) => b
    case Null => false
    case Void => false
    case List(items) => |items| != 0
    case Callable(_) => true
    case Invalid => true
  }

  predicate Contains(items: seq<Value>, v: Value) {
    exists k | 0 <= k < |items| :: Equal(v, items[k])
  }

  function ShiftLeft(x: i64, n: i64): i64
    requires 0 <= n < 64
  {
    FromUnsigned((ToUnsigned(x) * Pow2(n)) % TWO64)
  }

  function ShiftRight(x: i64, n: i64): i64
    requires 0 <= n < 64
  {
    Wrap64(ToUnsigned(x) / Pow2(n) + (if x >= 0 then 0 else -TWO63))
  }

  /** `obj[index]`. */
  function GetIndex(obj: Value, index: Value): Result {
    if !obj.List? then Err(NotCollection)
    else if !index.Int? then Err(NotIndex)
    else if index.i < 0 || index.i >= |obj.items| then Err(IndexOutOfBounds)
    else Ok(obj.items[index.i])
  }

  /** Up to 2^53 the detour over doubles is exact. */
  lemma SmallComparisons(x: i64, y: i64)
    requires -0x20_0000_0000_0000 <= x <= 0x20_0000_0000_0000 && -0x20_0000_0000_0000 <= y <= 0x20_0000_0000_0000
    ensures Equal(Int(x), Int(y)) <==> x == y
    ensures AsDouble(x) < AsDouble(y) <==> x < y
  {
    SmallExact(if x < 0 then -x else x);
    SmallExact(if y < 0 then -y else y);
  }

  lemma SmallExact(m: nat)
    requires m <= 0x20_0000_0000_0000
    ensures RoundMagnitude(m) == m
  {
    assert Ulp(0x10_0000_0000_0000) == 1;
  }

  /** Beyond, different integers compare equal. */
  lemma LargeComparisons()
    ensures Equal(Int(0x20_0000_0000_0000), Int(0x20_0000_0000_0001))
  {
    assert Ulp(0x10_0000_0000_0000) == 1;
    assert Ulp(0x20_0000_0000_0000) == 2 && Ulp(0x20_0000_0000_0001) == 2;
    SmallExact(0x20_0000_0000_0000);
    assert RoundMagnitude(0x20_0000_0000_0001) == 0x20_0000_0000_0000;
  }
}
