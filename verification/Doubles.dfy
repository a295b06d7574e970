/** Integers are compared as doubles (the common type of both arms of AS_NUM in
    include/object.h): which of them are still told apart from all others. */
module Doubles {
  import opened Arithmetic
  import opened Words
  import opened Values

  const TWO52: nat := 0x10_0000_0000_0000
  const TWO53: nat := 0x20_0000_0000_0000
  const TWO54: nat := 0x40_0000_0000_0000

  /** From 2^53 on a number has 53 significant bits. */
  lemma {:induction false} UlpBinade(m: nat)
    requires m >= TWO53
    ensures Ulp(m) >= 2 && TWO52 * Ulp(m) <= m < TWO53 * Ulp(m)
  {
    if m >= TWO54 {
      UlpBinade(m / 2);
    } else {
      assert Ulp(m / 2) == 1;
    }
  }

  lemma {:induction false} SameUlp(m: nat, m': nat)
    requires m >= TWO53 && TWO52 * Ulp(m) <= m' < TWO53 * Ulp(m)
    ensures Ulp(m') == Ulp(m)
    decreases m
  {
    UlpBinade(m);
    if m >= TWO54 {
      UlpBinade(m / 2);
      SameUlp(m / 2, m' / 2);
    } else {
      assert Ulp(m / 2) == 1 && Ulp(m' / 2) == 1;
    }
  }

  lemma UlpOf54(m: nat)
    requires m >= TWO53
    ensures if m < TWO54 then Ulp(m) == 2 else Ulp(m) >= 4
  {
    if m >= TWO54 {
      UlpBinade(m / 2);
    } else {
      assert Ulp(m / 2) == 1;
    }
  }

  lemma Halves(u: nat, q: nat, r: nat)
    requires u > 0 && r < u
    ensures (q * u + r) / u == q && (q * u + r) % u == r
  {
    Quotient(q * u + r, u, q, r);
  }

  /** Rounding within one gap between doubles. */
  lemma RoundIn(m: nat, u: nat, q: nat, r: nat)
    requires m >= TWO53 && u == Ulp(m) && r < u && m == q * u + r
    ensures TWO52 <= q < TWO53
    ensures RoundMagnitude(m) == if 2 * r < u || (2 * r == u && q % 2 == 0) then q * u else (q + 1) * u
  {
    UlpBinade(m);
    Halves(u, q, r);
    assert u * (q + 1) == q * u + u;
    Cancel(u, TWO52, q + 1);
    Cancel(u, q, TWO53);
  }

  lemma Cancel(d: nat, a: nat, b: nat)
    requires d * a < d * b
    ensures a < b
  {
    if b <= a {
      MulMono(d, b, a);
    }
  }

  /** The neighbours of `m` in its own gap have the same spacing. */
  lemma SameGap(m: nat, u: nat, q: nat, r: nat, r': nat)
    requires m >= TWO53 && u == Ulp(m) && r < u && r' < u && m == q * u + r
    ensures var m' := q * u + r'; m' >= TWO53 && Ulp(m') == u
    ensures RoundMagnitude(q * u + r') == if 2 * r' < u || (2 * r' == u && q % 2 == 0) then q * u else (q + 1) * u
  {
    RoundIn(m, u, q, r);
    UlpBinade(m);
    MulMono(u, TWO52, q);
    MulMono(u, q + 1, TWO53);
    assert u * (q + 1) == q * u + u;
    SameUlp(m, q * u + r');
    RoundIn(q * u + r', u, q, r');
  }

  /** The upper end of a gap is a double, also where the spacing doubles. */
  lemma GapEnd(m: nat, u: nat, q: nat, r: nat)
    requires m >= TWO53 && u == Ulp(m) && r < u && m == q * u + r
    ensures RoundMagnitude((q + 1) * u) == (q + 1) * u
  {
    RoundIn(m, u, q, r);
    UlpBinade(m);
    if q + 1 < TWO53 {
      MulMono(u, TWO52, q + 1);
      MulMono(u, q + 2, TWO53);
      assert u * (q + 2) == (q + 1) * u + u;
      SameUlp(m, (q + 1) * u);
      RoundIn((q + 1) * u, u, q + 1, 0);
    } else {
      NextBinade(m, u);
    }
  }

  lemma NextBinade(m: nat, u: nat)
    requires m >= TWO53 && u == Ulp(m)
    ensures RoundMagnitude(TWO53 * u) == TWO53 * u
  {
    UlpBinade(m);
    SameUlp(m, TWO52 * u);
    assert TWO53 * u / 2 == TWO52 * u;
    assert Ulp(TWO53 * u) == 2 * u;
    RoundIn(TWO53 * u, 2 * u, TWO52, 0);
  }

  /** From 2^54 on every magnitude shares its double with a neighbour. */
  lemma Neighbour(m: nat) returns (m': nat)
    requires TWO54 <= m
    ensures m' != m && RoundMagnitude(m') == RoundMagnitude(m)
    ensures m' <= m + 1
  {
    hide Ulp, RoundMagnitude;
    var u := Ulp(m);
    var q, r := m / u, m % u;
    UlpOf54(m);
    UlpBinade(m);
    RoundIn(m, u, q, r);
    if RoundMagnitude(m) == q * u {
      m' := if r == 0 then m + 1 else m - r;
      SameGap(m, u, q, r, if r == 0 then 1 else 0);
    } else {
      m' := m + 1;
      if r + 1 < u {
        SameGap(m, u, q, r, r + 1);
      } else {
        GapEnd(m, u, q, r);
      }
    }
  }

  /** Rounding does not cross 2^53 and 2^54. */
  lemma RoundAtLeast(m: nat)
    requires m >= TWO53
    ensures RoundMagnitude(m) >= if m < TWO54 then TWO53 else TWO54
  {
    var u := Ulp(m);
    UlpOf54(m);
    UlpBinade(m);
    RoundIn(m, u, m / u, m % u);
    MulMono(TWO52, if m < TWO54 then 2 else 4, u);
    MulMono(u, TWO52, m / u);
    assert (m / u + 1) * u == m / u * u + u;
  }

  lemma Positive(m: nat)
    ensures RoundMagnitude(m) > 0 <==> m > 0
  {
    if m < TWO53 {
      SmallExact(m);
    } else {
      RoundAtLeast(m);
    }
  }

  lemma Signed(x: i64, m': nat) returns (y: i64)
    requires m' != Magnitude(x) && RoundMagnitude(m') == RoundMagnitude(Magnitude(x))
    requires m' <= if x < 0 then TWO63 else TWO63 - 1
    ensures y != x && Equal(Int(x), Int(y))
  {
    hide Ulp, RoundMagnitude;
    var z: int := if x < 0 then 0 - m' else m';
    y := z;
    Positive(m');
    Positive(Magnitude(x));
  }

  lemma TwinOf(x: i64) returns (y: i64)
    requires Magnitude(x) >= TWO54
    ensures y != x && Equal(Int(x), Int(y))
  {
    hide Ulp, RoundMagnitude;
    var m := Magnitude(x);
    if x == TWO63 - 1 || x == -TWO63 {
      LargestDoubles();
      y := Signed(x, if x < 0 then TWO63 - 1 else TWO63 - 2);
    } else {
      var m' := Neighbour(m);
      y := Signed(x, m');
    }
  }

  lemma LargestDoubles()
    ensures RoundMagnitude(TWO63 - 2) == RoundMagnitude(TWO63 - 1) == RoundMagnitude(TWO63) == TWO63
  {
    var m, q := TWO63 - 1, TWO53 - 1;
    LargestUlp();
    RoundIn(m, 0x400, q, 0x3FF);
    SameGap(m, 0x400, q, 0x3FF, 0x3FE);
    GapEnd(m, 0x400, q, 0x3FF);
  }

  lemma LargestUlp()
    ensures Ulp(TWO63 - 1) == 0x400
  {
    assert Ulp(TWO53 - 1) == 1;
    assert Ulp(TWO54 - 1) == 2;
    assert Ulp(4 * TWO53 - 1) == 4;
    assert Ulp(8 * TWO53 - 1) == 8;
    assert Ulp(0x10 * TWO53 - 1) == 0x10;
    assert Ulp(0x20 * TWO53 - 1) == 0x20;
    assert Ulp(0x40 * TWO53 - 1) == 0x40;
    assert Ulp(0x80 * TWO53 - 1) == 0x80;
    assert Ulp(0x100 * TWO53 - 1) == 0x100;
    assert Ulp(0x200 * TWO53 - 1) == 0x200;
  }

  /** Between 2^53 and 2^54 the odd numbers go to the multiples of four. */
  lemma RoundFour(k: nat, j: nat)
    requires TWO53 <= 4 * k + j < TWO54 && j < 4
    ensures RoundMagnitude(4 * k + j) == if j == 1 then 4 * k else if j == 3 then 4 * k + 4 else 4 * k + j
  {
    hide RoundMagnitude;
    var m := 4 * k + j;
    UlpOf54(m);
    RoundIn(m, 2, 2 * k + j / 2, j % 2);
  }

  predicate OwnDouble(m: nat) {
    m < TWO53 || (m < TWO54 && m % 4 == 2)
  }

  lemma OnlyOne(m: nat, m': nat)
    requires OwnDouble(m) && RoundMagnitude(m') == RoundMagnitude(m)
    ensures m' == m
  {
    hide Ulp, RoundMagnitude;
    if m < TWO53 {
      SmallExact(m);
    } else {
      RoundFour(m / 4, m % 4);
    }
    if m' < TWO53 {
      SmallExact(m');
    } else {
      RoundAtLeast(m');
      if m' < TWO54 {
        RoundFour(m' / 4, m' % 4);
      }
    }
  }

  lemma SameSign(x: i64, y: i64)
    requires AsDouble(x) == AsDouble(y)
    ensures RoundMagnitude(Magnitude(x)) == RoundMagnitude(Magnitude(y)) && (x < 0) == (y < 0)
  {
    Positive(Magnitude(x));
    Positive(Magnitude(y));
  }

  lemma At54()
    ensures RoundMagnitude(TWO54) == TWO54
  {
    UlpOf54(TWO53);
    NextBinade(TWO53, 2);
  }

  /** An odd number below 2^54 shares the double of a multiple of four. */
  lemma OddNeighbour(k: nat, j: nat) returns (m': nat)
    requires TWO53 <= 4 * k + j < TWO54 && j < 4 && j != 2
    ensures m' != 4 * k + j && m' <= 4 * k + j + 1 && RoundMagnitude(m') == RoundMagnitude(4 * k + j)
  {
    hide Ulp, RoundMagnitude;
    m' := if j == 1 then 4 * k else 4 * k + j + 1;
    RoundFour(k, j);
    if m' == TWO54 {
      At54();
    } else {
      RoundFour(if j == 3 then k + 1 else k, if j == 0 then 1 else 0);
    }
  }

  lemma SharedDouble(x: i64) returns (y: i64)
    requires !OwnDouble(Magnitude(x))
    ensures y != x && Equal(Int(x), Int(y))
  {
    hide Ulp, RoundMagnitude;
    if Magnitude(x) >= TWO54 {
      y := TwinOf(x);
    } else {
      var m' := OddNeighbour(Magnitude(x) / 4, Magnitude(x) % 4);
      y := Signed(x, m');
    }
  }

  /** An integer compares equal to itself alone exactly below 2^53, and up to 2^54 for
      twice the odd numbers. */
  lemma EqualExact(x: i64)
    ensures (forall y: i64 :: Equal(Int(x), Int(y)) <==> x == y) <==> OwnDouble(Magnitude(x))
  {
    hide AsDouble, RoundMagnitude, Ulp;
    var m := Magnitude(x);
    if OwnDouble(m) {
      forall y: i64 ensures Equal(Int(x), Int(y)) <==> x == y {
        if AsDouble(x) == AsDouble(y) {
          SameSign(x, y);
          OnlyOne(m, Magnitude(y));
        }
      }
    } else {
      var y := SharedDouble(x);
      assert !(Equal(Int(x), Int(y)) <==> x == y);
    }
  }

  /* Order. */

  lemma NextNotLess(m: nat)
    ensures RoundMagnitude(m) <= RoundMagnitude(m + 1)
  {
    hide Ulp, RoundMagnitude;
    if m < TWO53 {
      SmallExact(m);
      SmallExact(m + 1);
    } else {
      var u := Ulp(m);
      UlpBinade(m);
      var q, r := m / u, m % u;
      RoundIn(m, u, q, r);
      if r + 1 < u {
        SameGap(m, u, q, r, r + 1);
        assert (q + 1) * u == q * u + u;
      } else {
        GapEnd(m, u, q, r);
        assert (q + 1) * u == q * u + u;
      }
    }
  }

  lemma {:induction false} RoundMonotone(m: nat, m': nat)
    requires m <= m'
    ensures RoundMagnitude(m) <= RoundMagnitude(m')
    decreases m'
  {
    hide RoundMagnitude;
    if m < m' {
      RoundMonotone(m, m' - 1);
      NextNotLess(m' - 1);
    }
  }

  /** The detour never turns an order around. */
  lemma DoubleMonotone(x: i64, y: i64)
    requires x <= y
    ensures AsDouble(x) <= AsDouble(y)
  {
    hide RoundMagnitude;
    Positive(Magnitude(x));
    Positive(Magnitude(y));
    if x >= 0 {
      RoundMonotone(x, y);
    } else if y < 0 {
      RoundMonotone(Magnitude(y), Magnitude(x));
    }
  }

  /** `x < y`, and `x > y`, as the virtual machine compares them. */
  predicate OrderKept(x: i64, y: i64) {
    (AsDouble(x) < AsDouble(y) <==> x < y) && (AsDouble(x) > AsDouble(y) <==> x > y)
  }

  /** Both orders are right for all other integers exactly where equality is. */
  lemma OrderExact(x: i64)
    ensures (forall y: i64 :: OrderKept(x, y)) <==> OwnDouble(Magnitude(x))
  {
    hide AsDouble, RoundMagnitude, Ulp, OwnDouble;
    EqualExact(x);
    forall y: i64 ensures OrderKept(x, y) <==> (Equal(Int(x), Int(y)) <==> x == y) {
      OrderOrEqual(x, y);
    }
    if OwnDouble(Magnitude(x)) {
      forall y: i64 ensures OrderKept(x, y) {
        assert Equal(Int(x), Int(y)) <==> x == y;
      }
    } else {
      var y: i64 :| !(Equal(Int(x), Int(y)) <==> x == y);
      assert !OrderKept(x, y);
    }
  }

  lemma OrderOrEqual(x: i64, y: i64)
    ensures OrderKept(x, y) <==> (Equal(Int(x), Int(y)) <==> x == y)
  {
    hide AsDouble;
    if x <= y { DoubleMonotone(x, y); }
    if y <= x { DoubleMonotone(y, x); }
  }

  /** One order alone is right for all larger integers exactly when it is for the next. */
  lemma LessExact(x: i64)
    ensures (forall y: i64 :: AsDouble(x) < AsDouble(y) <==> x < y)
            <==> x == TWO63 - 1 || AsDouble(x) < AsDouble(x + 1)
  {
    hide AsDouble;
    if x == TWO63 - 1 || AsDouble(x) < AsDouble(x + 1) {
      forall y: i64 ensures AsDouble(x) < AsDouble(y) <==> x < y {
        if x < y { DoubleMonotone(x + 1, y); } else { DoubleMonotone(y, x); }
      }
    } else {
      var y: i64 := x + 1;
      assert x < y;
    }
  }

  /** So `<` may be right where equality is not: 2^53 + 1 has the double of 2^53, which
      is not larger. */
  lemma LessWithoutEqual()
    ensures var x := TWO53 + 1; !OwnDouble(x) && forall y: i64 :: AsDouble(x) < AsDouble(y) <==> x < y
  {
    RoundFour(TWO53 / 4, 1);
    RoundFour(TWO53 / 4, 2);
    LessExact(TWO53 + 1);
  }

  /** 2^53 + 2 is beyond 2^53 and still compares equal to itself alone. */
  lemma BeyondTheBound(y: i64)
    ensures Equal(Int(TWO53 + 2), Int(y)) <==> y == TWO53 + 2
  {
    EqualExact(TWO53 + 2);
  }
}
