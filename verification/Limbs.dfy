/** Arithmetic on big integers of 64-bit limbs, least significant first
    (dependencies/fast_float/fast_float.h: stackvec, scalar_mul, small_mul,
    large_add_from, long_mul, compare), in a buffer of fixed capacity. */
module Limbs {
  import opened Words
  import opened Arithmetic

  type Limb = u64

  function B(n: nat): (b: nat)
    ensures b >= 1
  {
    if n == 0 then 1 else TWO64 * B(n - 1)
  }

  /** The number a vector of limbs stands for. */
  function Num(s: seq<Limb>): nat {
    if s == [] then 0 else Num(s[..|s| - 1]) + s[|s| - 1] * B(|s| - 1)
  }

  predicate Normal(s: seq<Limb>) {
    s == [] || s[|s| - 1] != 0
  }

  /* Products. */

  lemma {:induction false} BAdd(m: nat, n: nat)
    ensures B(m + n) == B(m) * B(n)
    decreases m
  {
    if m > 0 {
      BAdd(m - 1, n);
      assert TWO64 * (B(m - 1) * B(n)) == (TWO64 * B(m - 1)) * B(n);
    }
  }

  lemma {:induction false} BMono(m: nat, n: nat)
    requires m <= n
    ensures B(m) <= B(n)
  {
    BAdd(m, n - m);
    MulMono(B(m), 1, B(n - m));
  }

  lemma {:induction false} NumBound(s: seq<Limb>)
    ensures Num(s) < B(|s|)
    decreases s
  {
    if s != [] {
      var n := |s| - 1;
      NumBound(s[..n]);
      var top: int := s[n];
      MulMono(B(n), top + 1, TWO64);
      assert B(n) * (top + 1) == top * B(n) + B(n);
    }
  }

  /** A normalized number fills its limbs. */
  lemma NumTop(s: seq<Limb>)
    requires s != [] && s[|s| - 1] > 0
    ensures Num(s) >= B(|s| - 1)
  {
    MulMono(B(|s| - 1), 1, s[|s| - 1]);
  }

  /** Changing one limb. */
  lemma {:induction false} NumUpdate(s: seq<Limb>, i: nat, v: Limb)
    requires i < |s|
    ensures Num(s[i := v]) + s[i] * B(i) == Num(s) + v * B(i)
    decreases s
  {
    var n := |s| - 1;
    if i < n {
      NumUpdate(s[..n], i, v);
      assert s[i := v][..n] == s[..n][i := v];
    } else {
      assert s[i := v][..n] == s[..n];
    }
  }

  lemma NumPush(s: seq<Limb>, v: Limb)
    ensures Num(s + [v]) == Num(s) + v * B(|s|)
  {
    assert (s + [v])[..|s|] == s;
  }

  lemma {:induction false} NumZeros(s: seq<Limb>, n: nat)
    ensures Num(s + seq(n, _ => 0)) == Num(s)
    decreases n
  {
    var zeros: seq<Limb> := seq(n, _ => 0);
    if n == 0 {
      assert s + zeros == s;
    } else {
      NumZeros(s, n - 1);
      var shorter: seq<Limb> := seq(n - 1, _ => 0);
      assert s + zeros == (s + shorter) + [0];
      NumPush(s + shorter, 0);
    }
  }

  lemma Distribute(a: int, b: int, c: int)
    ensures (a + b) * c == a * c + b * c
  {
  }

  /* One limb. */

  method ScalarAdd(x: Limb, y: Limb) returns (z: Limb, overflow: bool)
    ensures z + (if overflow then TWO64 else 0) == x + y
  {
    z := ((x as int) + y) % TWO64;
    overflow := z < x;
  }

  lemma ProductBound(x: nat, y: nat, m: nat)
    requires x <= m && y <= m
    ensures 0 <= x * y <= m * m
  {
    MulMono(x, y, m);
    MulMono(m, x, m);
    assert x * m == m * x;
  }

  lemma WideBound(x: nat, y: nat, carry: nat)
    requires x < TWO64 && y < TWO64 && carry < TWO64
    ensures 0 <= x * y + carry < TWO64 * TWO64
  {
    ProductBound(x, y, TWO64 - 1);
  }

  method ScalarMul(x: Limb, y: Limb, carry: Limb) returns (z: Limb, high: Limb)
    ensures z + TWO64 * high == x * y + carry
  {
    var wide: int := x * y + carry;
    WideBound(x, y, carry);
    z, high := wide % TWO64, wide / TWO64;
  }

  class StackVec {
    const data: array<Limb>
    var length: nat

    ghost predicate Valid()
      reads this
    {
      length <= data.Length
    }

    /** The limbs in use. */
    ghost function View(): (s: seq<Limb>)
      requires Valid()
      reads this, data
      ensures |s| == length
    {
      data[..length]
    }

    constructor (capacity: nat)
      ensures Valid() && fresh(data) && data.Length == capacity && length == 0
    {
      data := new Limb[capacity](_ => 0);
      length := 0;
    }

    method TryPush(value: Limb) returns (ok: bool)
      requires Valid()
      modifies `length, data
      ensures Valid() && ok == (old(length) < data.Length)
      ensures View() == if ok then old(View()) + [value] else old(View())
    {
      ok := length < data.Length;
      if ok {
        data[length] := value;
        length := length + 1;
      }
    }

    /** Copy the limbs of a span. */
    method TryExtend(s: seq<Limb>) returns (ok: bool)
      requires Valid()
      modifies `length, data
      ensures Valid() && ok == (old(length) + |s| <= data.Length)
      ensures View() == if ok then old(View()) + s else old(View())
    {
      ok := length + |s| <= data.Length;
      if !ok { return; }
      ghost var before := View();
      for i := 0 to |s|
        invariant length == old(length) && data[..length] == before
        invariant data[length..length + i] == s[..i]
      {
        data[length + i] := s[i];
        assert data[length..length + i + 1] == data[length..length + i] + [s[i]];
      }
      assert data[..length + |s|] == data[..length] + data[length..length + |s|];
      length := length + |s|;
    }

    method TryResize(newLen: nat) returns (ok: bool)
      requires Valid() && newLen >= length
      modifies `length, data
      ensures Valid() && ok == (newLen <= data.Length)
      ensures View() == if ok then old(View()) + seq(newLen - old(length), _ => 0) else old(View())
    {
      ok := newLen <= data.Length;
      if !ok { return; }
      ghost var before := View();
      for i := length to newLen
        invariant length == old(length) && data[..length] == before
        invariant forall j | length <= j < i :: data[j] == 0
      {
        data[i] := 0;
      }
      length := newLen;
    }

    /** Remove zero limbs at the top. */
    method Normalize()
      requires Valid()
      modifies `length
      ensures Valid() && Normal(View()) && Num(View()) == Num(old(View()))
    {
      while length > 0 && data[length - 1] == 0
        invariant length <= old(length) && Num(data[..length]) == Num(old(View()))
      {
        assert data[..length][..length - 1] == data[..length - 1];
        length := length - 1;
      }
    }

    /** Add a limb at `start`, carrying upwards. */
    method SmallAddFrom(y: Limb, start: nat) returns (ok: bool)
      requires Valid() && start <= length
      modifies `length, data
      ensures Valid() && (ok ==> Num(View()) == Num(old(View())) + y * B(start))
      ensures !ok ==> Num(old(View())) + y * B(start) >= B(data.Length)
    {
      hide Num, B;
      var index, carry: Limb := start, y;
      while carry != 0 && index < length
        invariant start <= index <= length && length == old(length)
        invariant Num(View()) + carry * B(index) == Num(old(View())) + y * B(start)
      {
        ghost var before := View();
        var z, overflow := ScalarAdd(data[index], carry);
        AddStep(before, index, z, data[index], carry, overflow);
        data[index] := z;
        assert View() == before[index := z];
        carry := if overflow then 1 else 0;
        index := index + 1;
      }
      ok := true;
      if carry != 0 {
        ghost var before := View();
        NumPush(before, carry);
        AtLeast(B(index), carry);
        ok := TryPush(carry);
      }
    }

    method SmallMul(y: Limb) returns (ok: bool)
      requires Valid()
      modifies `length, data
      ensures Valid() && (ok ==> Num(View()) == Num(old(View())) * y)
      ensures !ok ==> Num(old(View())) * y >= B(data.Length)
      ensures ok && y != 0 && Normal(old(View())) ==> Normal(View())
    {
      hide Num, B;
      ghost var s := View();
      var carry: Limb := 0;
      NumNone();
      assert data[..0] == [] && s[..0] == [];
      for index := 0 to length
        invariant length == |s|
        invariant forall j | index <= j < length :: data[j] == s[j]
        invariant Num(data[..index]) + carry * B(index) == Num(s[..index]) * y
        invariant index > 0 && y != 0 && s[index - 1] != 0 ==> data[index - 1] != 0 || carry != 0
      {
        ghost var before := data[..index];
        var z, high := ScalarMul(data[index], y, carry);
        data[index] := z;
        assert data[..index + 1] == before + [z] && s[..index + 1] == s[..index] + [s[index]];
        NumPush(before, z);
        NumPush(s[..index], s[index]);
        BStep(index);
        MulStep(B(index), Num(before), carry, z, high, s[index], y, Num(s[..index]));
        TopKept(s[index], y, carry, z, high);
        carry := high;
      }
      assert s[..length] == s;
      ok := true;
      if carry != 0 {
        NumPush(View(), carry);
        AtLeast(B(length), carry);
        ok := TryPush(carry);
      }
    }

    /** Add another number, shifted by `start` limbs. */
    method LargeAddFrom(y: seq<Limb>, start: nat) returns (ok: bool)
      requires Valid()
      modifies `length, data
      ensures Valid() && (ok ==> Num(View()) == Num(old(View())) + Num(y) * B(start))
      ensures !ok && y != [] && y[|y| - 1] != 0 ==> Num(old(View())) + Num(y) * B(start) >= B(data.Length)
      ensures y == [] && start <= data.Length ==> ok
    {
      hide Num, B;
      ghost var s := View();
      if length < start || |y| > length - start {
        NumZeros(s, |y| + start - length);
        TooLong(y, start, data.Length);
        ok := TryResize(|y| + start);
        if !ok { return; }
      }
      var carry := false;
      assert y[..0] == [];
      NumNone();
      for index := 0 to |y|
        invariant Valid() && |y| + start <= length && (index == 0 ==> !carry)
        invariant Num(View()) + (if carry then 1 else 0) * B(start + index) == Num(s) + Num(y[..index]) * B(start)
      {
        ghost var before := View();
        var xi, c1 := ScalarAdd(data[index + start], y[index]);
        var c2 := false;
        if carry { xi, c2 := ScalarAdd(xi, 1); }
        data[index + start] := xi;
        assert View() == before[index + start := xi];
        assert y[..index + 1] == y[..index] + [y[index]];
        NumPush(y[..index], y[index]);
        LargeStep(before, index, start, y[index], carry, xi, c1 || c2, Num(s), Num(y[..index]));
        carry := c1 || c2;
      }
      assert y[..|y|] == y;
      ok := true;
      if carry { ok := SmallAddFrom(1, |y| + start); }
    }

    /** Grade-school multiplication. */
    method LongMul(y: seq<Limb>) returns (ok: bool)
      requires Valid()
      modifies `length, data
      ensures Valid()
      ensures ok ==> Normal(View()) && Num(View()) == if y == [] then Num(old(View())) else Num(old(View())) * Num(y)
      ensures Normal(old(View())) && y != [] && |y| <= data.Length ==>
                (ok <==> Num(old(View())) * Num(y) < B(data.Length))
    {
      hide Num, B;
      ghost var n, normal := Num(View()), Normal(View());
      var zs := data[..length];
      if |y| != 0 {
        Single(y);
        ok := SmallMul(y[0]);
        if !ok {
          PartialProduct(n, y, 0, data.Length);
          return;
        }
        for index := 1 to |y|
          invariant Valid() && Num(View()) == n * Num(y[..index])
        {
          if y[index] != 0 {
            ok := AddPartial(zs, y[index], index);
            if !ok {
              PartialSum(n, y, index, data.Length);
              return;
            }
          }
          NextLimb(n, y, index);
        }
        assert y[..|y|] == y;
      }
      NumBound(View());
      BMono(length, data.Length);
      Normalize();
      ok := true;
    }

    /** One row of the multiplication: a copy of `zs` times `yi`, added `index`
        limbs higher. */
    method AddPartial(zs: seq<Limb>, yi: Limb, index: nat) returns (ok: bool)
      requires Valid() && yi != 0 && |zs| <= data.Length
      modifies `length, data
      ensures Valid() && (ok ==> Num(View()) == Num(old(View())) + (Num(zs) * yi) * B(index))
      ensures !ok && Normal(zs) && index <= data.Length ==>
                Num(old(View())) + (Num(zs) * yi) * B(index) >= B(data.Length)
    {
      hide Num, B;
      var zi := new StackVec(data.Length);
      assert [] + zs == zs;
      ok := zi.TryExtend(zs);
      ok := zi.SmallMul(yi);
      if !ok {
        BPositive(index);
        AtLeast(Num(zs) * yi, B(index));
        Commute(Num(zs) * yi, B(index));
        return;
      }
      var zis := zi.data[..zi.length];
      ok := LargeAddFrom(zis, index);
    }
  }

  lemma BPositive(n: nat)
    ensures B(n) >= 1
  {
  }

  lemma Single(y: seq<Limb>)
    requires y != []
    ensures Num(y[..1]) == y[0]
  {
    assert y[..1][..0] == [] && y[..1][0] == y[0];
    assert B(0) == 1;
  }

  lemma NextLimb(n: nat, y: seq<Limb>, index: nat)
    requires index < |y|
    ensures n * Num(y[..index + 1]) == n * Num(y[..index]) + (n * y[index]) * B(index)
  {
    assert y[..index + 1] == y[..index] + [y[index]];
    NumPush(y[..index], y[index]);
    assert n * (Num(y[..index]) + y[index] * B(index)) == n * Num(y[..index]) + n * (y[index] * B(index));
  }

  /** The number of some limbs is at most that of all. */
  lemma {:induction false} NumPrefix(y: seq<Limb>, k: nat)
    requires k <= |y|
    ensures Num(y[..k]) <= Num(y)
    decreases |y| - k
  {
    if k == |y| {
      assert y[..k] == y;
    } else {
      assert y[..k + 1] == y[..k] + [y[k]];
      NumPush(y[..k], y[k]);
      NumPrefix(y, k + 1);
    }
  }

  lemma PartialSum(n: nat, y: seq<Limb>, index: nat, capacity: nat)
    requires index < |y|
    ensures n * Num(y[..index]) + (n * y[index]) * B(index) >= B(capacity) ==> n * Num(y) >= B(capacity)
  {
    NextLimb(n, y, index);
    NumPrefix(y, index + 1);
    MulMono(n, Num(y[..index + 1]), Num(y));
  }

  lemma PartialProduct(n: nat, y: seq<Limb>, index: nat, capacity: nat)
    requires index < |y|
    ensures n * y[0] >= B(capacity) ==> n * Num(y) >= B(capacity)
  {
    Single(y);
    NumPrefix(y, 1);
    MulMono(n, Num(y[..1]), Num(y));
  }

  /* Comparing. */

  /** bigint::compare of normalized numbers: -1, 0 or 1. */
  method Compare(x: seq<Limb>, y: seq<Limb>) returns (r: int)
    requires Normal(x) && Normal(y)
    ensures r == if Num(x) > Num(y) then 1 else if Num(x) < Num(y) then -1 else 0
  {
    hide Num, B;
    if |x| > |y| {
      Longer(y, x);
      return 1;
    }
    if |x| < |y| {
      Longer(x, y);
      return -1;
    }
    var index := |x|;
    while index > 0
      invariant 0 <= index <= |x| && x[index..] == y[index..]
    {
      var xi, yi := x[index - 1], y[index - 1];
      if xi > yi {
        TopDiffers(y, x, index - 1);
        return 1;
      }
      if xi < yi {
        TopDiffers(x, y, index - 1);
        return -1;
      }
      assert x[index - 1..] == [xi] + x[index..] && y[index - 1..] == [yi] + y[index..];
      index := index - 1;
    }
    assert x[0..] == x && y[0..] == y;
    r := 0;
  }

  lemma Longer(x: seq<Limb>, y: seq<Limb>)
    requires |x| < |y| && Normal(y)
    ensures Num(x) < Num(y)
  {
    NumBound(x);
    NumTop(y);
    BMono(|x|, |y| - 1);
  }

  /** The highest limb that differs decides. */
  lemma {:induction false} TopDiffers(x: seq<Limb>, y: seq<Limb>, i: nat)
    requires |x| == |y| && i < |x| && x[i] < y[i] && x[i + 1..] == y[i + 1..]
    ensures Num(x) < Num(y)
    decreases |x|
  {
    hide Num, B;
    var n := |x| - 1;
    NumSplit(x);
    NumSplit(y);
    if i == n {
      NumBound(x[..n]);
      TopLess(Num(x[..n]), Num(y[..n]), x[n], y[n], B(n));
    } else {
      SameTop(x, y, i);
      TopDiffers(x[..n], y[..n], i);
    }
  }

  lemma NumSplit(s: seq<Limb>)
    requires s != []
    ensures Num(s) == Num(s[..|s| - 1]) + s[|s| - 1] * B(|s| - 1)
  {
  }

  lemma TopLess(v: nat, w: nat, a: nat, b: nat, base: nat)
    requires a < b && v < base
    ensures v + a * base < w + b * base
  {
    MulMono(base, a + 1, b);
    assert base * (a + 1) == a * base + base;
  }

  lemma SameTop(x: seq<Limb>, y: seq<Limb>, i: nat)
    requires |x| == |y| && i < |x| - 1 && x[i + 1..] == y[i + 1..]
    ensures var n := |x| - 1; x[n] == y[n] && x[..n][i + 1..] == y[..n][i + 1..]
  {
    var n := |x| - 1;
    assert x[..n][i + 1..] == x[i + 1..][..n - i - 1] && y[..n][i + 1..] == y[i + 1..][..n - i - 1];
    assert x[n] == x[i + 1..][n - i - 1] && y[n] == y[i + 1..][n - i - 1];
  }

  /* Steps of the loops. */

  lemma NumNone()
    ensures Num([]) == 0
  {
  }

  lemma AtLeast(b: nat, carry: nat)
    requires carry >= 1
    ensures carry * b >= b
  {
    MulMono(b, 1, carry);
  }

  lemma AddStep(s: seq<Limb>, i: nat, z: Limb, x: Limb, carry: Limb, overflow: bool)
    requires i < |s| && s[i] == x && z + (if overflow then TWO64 else 0) == x + carry
    ensures Num(s[i := z]) + (if overflow then 1 else 0) * B(i + 1) == Num(s) + carry * B(i)
  {
    NumUpdate(s, i, z);
    var o := if overflow then 1 else 0;
    assert o * B(i + 1) == (o * TWO64) * B(i);
    Distribute(z, o * TWO64, B(i));
    Distribute(x, carry, B(i));
  }

  lemma MulStep(p: nat, v: nat, carry: nat, z: nat, high: nat, x: nat, y: nat, w: nat)
    requires v + carry * p == w * y && z + TWO64 * high == x * y + carry
    ensures (v + z * p) + high * (TWO64 * p) == (w + x * p) * y
  {
    assert high * (TWO64 * p) == (TWO64 * high) * p;
    Distribute(z, TWO64 * high, p);
    Distribute(x * y, carry, p);
    Distribute(w, x * p, y);
    assert (x * y) * p == (x * p) * y;
  }

  /** The top limb of a product is not zero unless it carries. */
  lemma TopKept(x: nat, y: nat, carry: nat, z: nat, high: nat)
    requires z + TWO64 * high == x * y + carry
    ensures x != 0 && y != 0 ==> z != 0 || high != 0
  {
    if x != 0 && y != 0 { MulMono(x, 1, y); }
  }

  lemma TooLong(y: seq<Limb>, start: nat, capacity: nat)
    ensures y != [] && y[|y| - 1] != 0 && |y| + start > capacity ==> Num(y) * B(start) >= B(capacity)
  {
    hide Num, B;
    if y != [] && y[|y| - 1] != 0 && |y| + start > capacity {
      NumTop(y);
      MulMono(B(start), B(|y| - 1), Num(y));
      BAdd(|y| - 1, start);
      BMono(capacity, |y| - 1 + start);
      Commute(B(start), B(|y| - 1));
      Commute(B(start), Num(y));
    }
  }

  lemma Commute(a: int, b: int)
    ensures a * b == b * a
  {
  }

  lemma LargeStep(s: seq<Limb>, index: nat, start: nat, yi: Limb, carry: bool, xi: Limb, carry': bool, n: nat, m: nat)
    requires index + start < |s|
    requires var c, c' := (if carry then 1 else 0), (if carry' then 1 else 0);
             && Num(s) + c * B(start + index) == n + m * B(start)
             && xi + c' * TWO64 == s[index + start] + yi + c
    ensures var c' := if carry' then 1 else 0;
            Num(s[index + start := xi]) + c' * B(start + index + 1) == n + (m + yi * B(index)) * B(start)
  {
    var c, c' := (if carry then 1 else 0), (if carry' then 1 else 0);
    NumUpdate(s, index + start, xi);
    BAdd(index, start);
    BStep(start + index);
    hide Num, B;
    LargeStepValue(Num(s), Num(s[index + start := xi]), c, c', B(start + index), xi, s[index + start], yi, m, n, B(start), B(index));
  }

  lemma BStep(n: nat)
    ensures B(n + 1) == TWO64 * B(n)
  {
  }

  lemma LargeStepValue(v: nat, v': nat, c: nat, c': nat, p: nat, xi: nat, x: nat, yi: nat, m: nat, n: nat, bs: nat, bi: nat)
    requires v + c * p == n + m * bs && v' + x * p == v + xi * p && xi + c' * TWO64 == x + yi + c && p == bi * bs
    ensures v' + c' * (TWO64 * p) == n + (m + yi * bi) * bs
  {
    assert (xi + c' * TWO64) * p == xi * p + c' * (TWO64 * p);
    assert (x + yi + c) * p == x * p + yi * p + c * p;
    assert (m + yi * bi) * bs == m * bs + yi * (bi * bs);
  }
}
