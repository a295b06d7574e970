/** Integer literals (src/lexer.cpp: formatNumber, intValue;
    dependencies/fast_float/fast_float.h: parse_int_string). The accumulator wraps
    modulo 2^64; whether it did is judged afterwards from the number of digits and
    the wrapped value alone. */
module IntLiteral {
  import opened Words
  import opened Arithmetic
  import opened Syntax
  import Swar

  type Text = seq<u8>

  const MINUS: u8 := 0x2d
  const PLUS: u8 := 0x2b
  const DOT: u8 := 0x2e
  const QUOTE: u8 := 0x27
  const ZERO: u8 := 0x30

  /** The digit table: 255 for anything that is no digit in any base. */
  function DigitOf(c: u8): nat {
    if 0x30 <= c <= 0x39 then c - 0x30
    else if 0x41 <= c <= 0x5a then c - 0x41 + 10
    else if 0x61 <= c <= 0x7a then c - 0x61 + 10
    else 255
  }

  predicate IsDigit(c: u8, base: nat) {
    DigitOf(c) < base
  }

  predicate AllDigits(s: Text, base: nat) {
    forall i | 0 <= i < |s| :: IsDigit(s[i], base)
  }

  /** The mathematical value of a digit string. */
  function ValueOf(s: Text, base: nat): nat {
    if s == [] then 0 else ValueOf(s[..|s| - 1], base) * base + DigitOf(s[|s| - 1])
  }

  /** Length of the longest prefix of digits. */
  function DigitCount(s: Text, base: nat): (n: nat)
    ensures n <= |s| && AllDigits(s[..n], base) && (n < |s| ==> !IsDigit(s[n], base))
  {
    if s == [] || !IsDigit(s[0], base) then 0
    else
      var n := DigitCount(s[1..], base);
      assert s[..n + 1] == [s[0]] + s[1..][..n];
      n + 1
  }

  lemma {:induction false} DigitCountIs(s: Text, base: nat, n: nat)
    requires n <= |s| && AllDigits(s[..n], base) && (n < |s| ==> !IsDigit(s[n], base))
    ensures DigitCount(s, base) == n
    decreases n
  {
    if n > 0 {
      assert s[..n][0] == s[0];
      assert s[1..][..n - 1] == s[..n][1..];
      DigitCountIs(s[1..], base, n - 1);
    }
  }

  /* Values. */

  lemma {:induction false} PowAdd(b: nat, m: nat, n: nat)
    ensures Pow(b, m + n) == Pow(b, m) * Pow(b, n)
    decreases m
  {
    if m > 0 {
      PowAdd(b, m - 1, n);
      assert b * (Pow(b, m - 1) * Pow(b, n)) == (b * Pow(b, m - 1)) * Pow(b, n);
    }
  }

  lemma {:induction false} PowMono(b: nat, m: nat, n: nat)
    requires b >= 1 && m <= n
    ensures 1 <= Pow(b, m) <= Pow(b, n)
    decreases n
  {
    if n > 0 {
      if m == n {
        PowMono(b, m - 1, n - 1);
        MulMono(Pow(b, n - 1), 1, b);
      } else {
        PowMono(b, m, n - 1);
        MulMono(Pow(b, n - 1), 1, b);
      }
    }
  }

  lemma {:induction false} ValueJoin(a: Text, b: Text, base: nat)
    ensures ValueOf(a + b, base) == ValueOf(a, base) * Pow(base, |b|) + ValueOf(b, base)
    decreases b
  {
    if b == [] {
      assert a + b == a;
    } else {
      var n := |b| - 1;
      assert (a + b)[..|a + b| - 1] == a + b[..n];
      ValueJoin(a, b[..n], base);
      JoinStep(ValueOf(a, base), Pow(base, n), base, ValueOf(b[..n], base), DigitOf(b[n]));
    }
  }

  lemma JoinStep(x: nat, p: nat, base: nat, y: nat, d: nat)
    ensures (x * p + y) * base + d == x * (base * p) + (y * base + d)
  {
    assert (x * p) * base == x * (base * p);
  }

  lemma {:induction false} ValueBound(s: Text, base: nat)
    requires AllDigits(s, base) && base >= 1
    ensures ValueOf(s, base) < Pow(base, |s|)
    ensures s != [] && DigitOf(s[0]) > 0 ==> ValueOf(s, base) >= Pow(base, |s| - 1)
    decreases s
  {
    hide DigitOf;
    if s != [] {
      var t, d := s[..|s| - 1], DigitOf(s[|s| - 1]);
      ValueBound(t, base);
      Below(base, ValueOf(t, base), d, Pow(base, |t|));
      if DigitOf(s[0]) > 0 && t != [] {
        AtLeast(base, ValueOf(t, base), d, Pow(base, |t| - 1));
      }
    }
  }

  lemma Below(base: nat, v: nat, d: nat, p: nat)
    requires d < base && v < p
    ensures v * base + d < base * p
  {
    MulMono(base, v + 1, p);
    assert base * (v + 1) == v * base + base;
  }

  lemma AtLeast(base: nat, v: nat, d: nat, p: nat)
    requires v >= p
    ensures v * base + d >= base * p
  {
    MulMono(base, p, v);
    assert base * v == v * base;
  }

  lemma {:induction false} LeadingZeros(z: Text, s: Text, base: nat)
    requires forall i | 0 <= i < |z| :: z[i] == ZERO
    ensures ValueOf(z + s, base) == ValueOf(s, base)
    decreases z
  {
    ValueJoin(z, s, base);
    ZerosValue(z, base);
  }

  lemma {:induction false} ZerosValue(z: Text, base: nat)
    requires forall i | 0 <= i < |z| :: z[i] == ZERO
    ensures ValueOf(z, base) == 0
    decreases z
  {
    if z != [] { ZerosValue(z[..|z| - 1], base); }
  }

  /* Overflow. */

  /** The bases of the lexer. */
  predicate IsBase(base: nat) {
    base == 2 || base == 8 || base == 10 || base == 16
  }

  /** The bases of `Int(text, base)`. */
  predicate IsIntBase(base: nat) {
    2 <= base <= 36
  }

  /** max_digits_u64 and min_safe_u64, from base 2 on. */
  const MAX_DIGITS: seq<nat> := [
    64, 41, 32, 28, 25, 23, 22, 21, 20, 19, 18, 18, 17, 17, 16, 16, 16, 16,
    15, 15, 15, 15, 14, 14, 14, 14, 14, 14, 14, 13, 13, 13, 13, 13, 13]

  const MIN_SAFE: seq<nat> := [
    9223372036854775808, 12157665459056928801, 4611686018427387904, 7450580596923828125,
    4738381338321616896, 3909821048582988049, 9223372036854775808, 12157665459056928801,
    10000000000000000000, 5559917313492231481, 2218611106740436992, 8650415919381337933,
    2177953337809371136, 6568408355712890625, 1152921504606846976, 2862423051509815793,
    6746640616477458432, 15181127029874798299, 1638400000000000000, 3243919932521508681,
    6221821273427820544, 11592836324538749809, 876488338465357824, 1490116119384765625,
    2481152873203736576, 4052555153018976267, 6502111422497947648, 10260628712958602189,
    15943230000000000000, 787662783788549761, 1152921504606846976, 1667889514952984961,
    2386420683693101056, 3379220508056640625, 4738381338321616896]

  function MaxDigits(base: nat): nat
    requires IsIntBase(base)
  {
    MAX_DIGITS[base - 2]
  }

  /** A number of MaxDigits digits below this has wrapped around. */
  function MinSafe(base: nat): nat
    requires IsIntBase(base)
  {
    MIN_SAFE[base - 2]
  }

  /** By squaring. */
  function FastPow(b: nat, n: nat): nat {
    if n == 0 then 1
    else
      var h := FastPow(b, n / 2);
      if n % 2 == 1 then b * (h * h) else h * h
  }

  lemma {:induction false} FastIsPow(b: nat, n: nat)
    ensures FastPow(b, n) == Pow(b, n)
    decreases n
  {
    if n > 0 {
      FastIsPow(b, n / 2);
      PowAdd(b, n / 2, n / 2);
      if n % 2 == 1 { assert n - 1 == n / 2 + n / 2; } else { assert n == n / 2 + n / 2; }
    }
  }

  /** The tables are right: MinSafe is the least number of MaxDigits digits, and 64 bits
      are enough for it but not for a digit more. */
  lemma TablesRight(base: nat)
    requires IsIntBase(base)
    ensures MaxDigits(base) > 0 && Pow(base, MaxDigits(base) - 1) == MinSafe(base)
    ensures Pow(base, MaxDigits(base)) == base * MinSafe(base) && MinSafe(base) < TWO64 <= base * MinSafe(base)
  {
    hide FastPow;
    if base <= 5 {
      Tables2To5(base);
    } else if base <= 10 {
      Tables6To10(base);
    } else if base <= 16 {
      Tables11To16(base);
    } else if base <= 25 {
      Tables17To25(base);
    } else if base <= 30 {
      Tables26To30(base);
    } else {
      Tables31To36(base);
    }
    FastIsPow(base, MaxDigits(base) - 1);
  }

  lemma Tables2To5(base: nat)
    requires 2 <= base <= 5
    ensures MaxDigits(base) > 0 && FastPow(base, MaxDigits(base) - 1) == MinSafe(base) < TWO64 <= base * MinSafe(base)
  {
    Powers2To5();
    hide FastPow;
  }

  lemma Powers2To5()
    ensures FastPow(2, 63) == 9223372036854775808
    ensures FastPow(3, 40) == 12157665459056928801
    ensures FastPow(4, 31) == 4611686018427387904
    ensures FastPow(5, 27) == 7450580596923828125
  {
  }

  lemma Tables6To10(base: nat)
    requires 6 <= base <= 10
    ensures MaxDigits(base) > 0 && FastPow(base, MaxDigits(base) - 1) == MinSafe(base) < TWO64 <= base * MinSafe(base)
  {
    Powers6To10();
    hide FastPow;
  }

  lemma Powers6To10()
    ensures FastPow(6, 24) == 4738381338321616896
    ensures FastPow(7, 22) == 3909821048582988049
    ensures FastPow(8, 21) == 9223372036854775808
    ensures FastPow(9, 20) == 12157665459056928801
    ensures FastPow(10, 19) == 10000000000000000000
  {
  }

  lemma Tables11To16(base: nat)
    requires 11 <= base <= 16
    ensures MaxDigits(base) > 0 && FastPow(base, MaxDigits(base) - 1) == MinSafe(base) < TWO64 <= base * MinSafe(base)
  {
    Powers11To16();
    hide FastPow;
  }

  lemma Powers11To16()
    ensures FastPow(11, 18) == 5559917313492231481
    ensures FastPow(12, 17) == 2218611106740436992
    ensures FastPow(13, 17) == 8650415919381337933
    ensures FastPow(14, 16) == 2177953337809371136
    ensures FastPow(15, 16) == 6568408355712890625
    ensures FastPow(16, 15) == 1152921504606846976
  {
  }

  lemma Tables17To25(base: nat)
    requires 17 <= base <= 25
    ensures MaxDigits(base) > 0 && FastPow(base, MaxDigits(base) - 1) == MinSafe(base) < TWO64 <= base * MinSafe(base)
  {
    Powers17To25();
    hide FastPow;
  }

  lemma Powers17To25()
    ensures FastPow(17, 15) == 2862423051509815793
    ensures FastPow(18, 15) == 6746640616477458432
    ensures FastPow(19, 15) == 15181127029874798299
    ensures FastPow(20, 14) == 1638400000000000000
    ensures FastPow(21, 14) == 3243919932521508681
    ensures FastPow(22, 14) == 6221821273427820544
    ensures FastPow(23, 14) == 11592836324538749809
    ensures FastPow(24, 13) == 876488338465357824
    ensures FastPow(25, 13) == 1490116119384765625
  {
  }

  lemma Tables26To30(base: nat)
    requires 26 <= base <= 30
    ensures MaxDigits(base) > 0 && FastPow(base, MaxDigits(base) - 1) == MinSafe(base) < TWO64 <= base * MinSafe(base)
  {
    Powers26To30();
    hide FastPow;
  }

  lemma Powers26To30()
    ensures FastPow(26, 13) == 2481152873203736576
    ensures FastPow(27, 13) == 4052555153018976267
    ensures FastPow(28, 13) == 6502111422497947648
    ensures FastPow(29, 13) == 10260628712958602189
    ensures FastPow(30, 13) == 15943230000000000000
  {
  }

  lemma Tables31To36(base: nat)
    requires 31 <= base <= 36
    ensures MaxDigits(base) > 0 && FastPow(base, MaxDigits(base) - 1) == MinSafe(base) < TWO64 <= base * MinSafe(base)
  {
    Powers31To36();
    hide FastPow;
  }

  lemma Powers31To36()
    ensures FastPow(31, 12) == 787662783788549761
    ensures FastPow(32, 12) == 1152921504606846976
    ensures FastPow(33, 12) == 1667889514952984961
    ensures FastPow(34, 12) == 2386420683693101056
    ensures FastPow(35, 12) == 3379220508056640625
    ensures FastPow(36, 12) == 4738381338321616896
  {
  }

  /** The three range tests, on `n` significant digits and the wrapped value. */
  predicate Accepted(n: nat, i: u64, base: nat, negative: bool)
    requires IsIntBase(base)
  {
    n <= MaxDigits(base) && !(n == MaxDigits(base) && i < MinSafe(base)) && i <= Limit(negative)
  }

  function Limit(negative: bool): nat {
    if negative then TWO63 else TWO63 - 1
  }

  /** A number out of range that has MaxDigits digits and wraps to one that looks right. */
  predicate WrapsInto(v: nat, base: nat, negative: bool)
    requires IsIntBase(base)
  {
    TWO64 <= v < base * MinSafe(base) && MinSafe(base) <= v % TWO64 <= Limit(negative)
  }

  /** The tests accept exactly the values that fit, although the value they see may have
      wrapped around, and wrongly those that wrap into the range. */
  lemma RangeTests(d: Text, base: nat, negative: bool)
    requires IsIntBase(base) && AllDigits(d, base) && d != [] && DigitOf(d[0]) > 0
    ensures var v := ValueOf(d, base);
            Accepted(|d|, v % TWO64, base, negative) <==> v <= Limit(negative) || WrapsInto(v, base, negative)
  {
    hide ValueOf, Pow, MaxDigits, MinSafe;
    var n, max := |d|, MaxDigits(base);
    TablesRight(base);
    ValueBound(d, base);
    if n < max {
      PowMono(base, n, max - 1);
    } else if n > max {
      PowMono(base, max, n - 1);
    }
  }

  /** Where no number wraps into the range. */
  predicate TestsExact(base: nat, negative: bool)
    requires IsIntBase(base)
  {
    MinSafe(base) > Limit(negative) || base * MinSafe(base) <= TWO64 + MinSafe(base)
  }

  lemma NoneWraps(base: nat, negative: bool)
    requires IsIntBase(base)
    ensures (forall v: nat :: !WrapsInto(v, base, negative)) <==> TestsExact(base, negative)
  {
    hide MinSafe, MaxDigits;
    TablesRight(base);
    if !TestsExact(base, negative) {
      assert WrapsInto(TWO64 + MinSafe(base), base, negative);
    } else if MinSafe(base) <= Limit(negative) {
      forall v: nat ensures !WrapsInto(v, base, negative) {
        if TWO64 <= v < base * MinSafe(base) {
          assert v < TWO64 + MinSafe(base);
        }
      }
    }
  }

  /** A digit. */
  function DigitChar(d: nat): (c: u8)
    requires d < 36
    ensures DigitOf(c) == d
  {
    if d < 10 then 0x30 + d else 0x61 + (d - 10)
  }

  /** Every number has its digits. */
  lemma {:induction false} DigitsFor(v: nat, base: nat) returns (d: Text)
    requires IsIntBase(base) && v > 0
    ensures d != [] && AllDigits(d, base) && DigitOf(d[0]) > 0 && ValueOf(d, base) == v
    decreases v
  {
    hide DigitOf, ValueOf;
    if v < base {
      d := [DigitChar(v)];
      ValueNone(base);
      ValueStep([], d[0], base);
      assert [] + d == d;
    } else {
      var q, r := v / base, v % base;
      QuotientLess(v, base);
      var h := DigitsFor(q, base);
      d := h + [DigitChar(r)];
      ValueStep(h, DigitChar(r), base);
      AllJoin(h, [DigitChar(r)], base);
    }
  }

  lemma QuotientLess(v: nat, base: nat)
    requires 2 <= base <= v
    ensures 0 < v / base < v && v == v / base * base + v % base
  {
    var q := v / base;
    assert v == base * q + v % base;
    assert q * base == base * q;
    MulMono(q, 2, base);
  }

  /** The tests are right for all numbers of a base exactly when the base is one of these:
      all four of the lexer without a sign, and all but octal with a minus sign. */
  lemma ExactBases(base: nat, negative: bool)
    requires IsIntBase(base)
    ensures (forall d: Text | AllDigits(d, base) && d != [] && DigitOf(d[0]) > 0 ::
               Accepted(|d|, ValueOf(d, base) % TWO64, base, negative) <==> ValueOf(d, base) <= Limit(negative))
            <==> base in {2, 3, 4, 9, 10, 16, 19, 23, 29, 30} || (base == 8 && !negative)
  {
    hide Accepted, ValueOf, AllDigits, DigitOf, WrapsInto;
    NoneWraps(base, negative);
    ListedBases(base, negative);
    if TestsExact(base, negative) {
      forall d: Text | AllDigits(d, base) && d != [] && DigitOf(d[0]) > 0
        ensures Accepted(|d|, ValueOf(d, base) % TWO64, base, negative) <==> ValueOf(d, base) <= Limit(negative)
      {
        RangeTests(d, base, negative);
        assert !WrapsInto(ValueOf(d, base), base, negative);
      }
    } else {
      var v: nat :| WrapsInto(v, base, negative);
      WrappedIsLarge(v, base, negative);
      var d := DigitsFor(v, base);
      RangeTests(d, base, negative);
    }
  }

  lemma WrappedIsLarge(v: nat, base: nat, negative: bool)
    requires IsIntBase(base) && WrapsInto(v, base, negative)
    ensures v >= TWO64 > Limit(negative)
  {
  }

  lemma ListedBases(base: nat, negative: bool)
    requires IsIntBase(base)
    ensures TestsExact(base, negative)
            <==> base in {2, 3, 4, 9, 10, 16, 19, 23, 29, 30} || (base == 8 && !negative)
  {
  }

  /** "-3" and 21 zeros, in octal: too large by far, but taken for the least integer. */
  lemma NegativeOctal(v: nat)
    requires v == 3 * Pow(8, 21)
    ensures v > TWO63 && Accepted(22, v % TWO64, 8, true)
  {
    hide Pow;
    TablesRight(8);
    assert Pow(8, 21) == TWO63;
  }

  /** In base 5, 2^64 + 5^27 has 28 digits and is taken for 5^27. */
  lemma QuinaryWraps(v: nat)
    requires v == TWO64 + Pow(5, 27)
    ensures Pow(5, 27) < v < Pow(5, 28) && v % TWO64 == Pow(5, 27) && Accepted(28, v % TWO64, 5, false)
  {
    hide Pow;
    TablesRight(5);
    assert Pow(5, 27) == 7450580596923828125;
  }

  /* Parsing. */

  datatype Parsed = Parsed(value: i64, used: nat) | Invalid | OutOfRange

  /** What a reader expects of `s`. */
  function Expected(s: Text, base: nat): Parsed {
    var negative := s != [] && s[0] == MINUS;
    var start := if negative then 1 else 0;
    var n := DigitCount(s[start..], base);
    var v: int := ValueOf(s[start..][..n], base);
    if n == 0 then Invalid
    else if negative && v <= TWO63 then Parsed(0 - v, start + n)
    else if !negative && v < TWO63 then Parsed(v, n)
    else OutOfRange
  }

  function CharAt(s: Text, p: nat): u8 {
    if p < |s| then s[p] else 0
  }

  /** One more digit, modulo 2^64. */
  lemma DigitStep(v: nat, base: nat, digit: nat)
    ensures (base * (v % TWO64) + digit) % TWO64 == (v * base + digit) % TWO64
  {
    var q, m := v / TWO64, v % TWO64;
    assert v * base + digit == TWO64 * (q * base) + (base * m + digit) by {
      assert (TWO64 * q + m) * base == TWO64 * (q * base) + base * m;
    }
    ModAdd(base * m + digit, q * base);
  }

  lemma ModAdd(x: nat, k: nat)
    ensures (TWO64 * k + x) % TWO64 == x % TWO64
  {
    var q, m := x / TWO64, x % TWO64;
    assert TWO64 * k + x == TWO64 * (k + q) + m;
    Quotient(TWO64 * k + x, TWO64, k + q, m);
  }

  lemma {:induction false} DecimalValue(s: Text)
    requires AllDigits(s, 10)
    ensures Swar.Decimal(s) == ValueOf(s, 10)
  {
    if s != [] { DecimalValue(s[..|s| - 1]); }
  }

  function WordAt(s: Text, p: nat): u64
    requires p + 8 <= |s|
  {
    Swar.Word(s[p..p + 8]) % TWO64
  }

  /** The accumulator after the digits of `s[start..p]`. */
  ghost predicate Read(s: Text, start: nat, p: nat, base: nat, i: u64) {
    start <= p <= |s| && AllDigits(s[start..p], base) && i == ValueOf(s[start..p], base) % TWO64
  }

  /** The word at `p` is eight digits: they can be taken at once. */
  lemma EightStep(s: Text, start: nat, p: nat, i: u64)
    requires Read(s, start, p, 10, i) && p + 8 <= |s| && Swar.MadeOfEightDigits(WordAt(s, p))
    ensures Read(s, start, p + 8, 10, ((i as int) * 100000000 + Swar.ParseEight(WordAt(s, p))) % TWO64)
  {
    hide Swar.MadeOfEightDigits, Swar.ParseEight, Swar.Word, ValueOf;
    var a, b := s[start..p], s[p..p + 8];
    Swar.EightTest(b);
    assert s[start..p + 8] == a + b;
    Swar.ParseEightExact(b);
    DecimalValue(b);
    ValueJoin(a, b, 10);
    assert Pow(10, 4) == 10000;
    PowAdd(10, 4, 4);
    DigitStep(ValueOf(a, 10), 100000000, ValueOf(b, 10));
  }

  method SkipZeros(s: Text, first: nat) returns (p: nat)
    requires first <= |s|
    ensures first <= p <= |s| && (forall j | first <= j < p :: s[j] == ZERO) && (p < |s| ==> s[p] != ZERO)
  {
    p := first;
    while p < |s| && s[p] == ZERO
      invariant first <= p <= |s|
      invariant forall j | first <= j < p :: s[j] == ZERO
    {
      p := p + 1;
    }
  }

  /** loop_parse_if_eight_digits. */
  method ReadEights(s: Text, start: nat) returns (p: nat, i: u64)
    requires start <= |s|
    ensures Read(s, start, p, 10, i)
  {
    hide Swar.MadeOfEightDigits, Swar.ParseEight, Swar.Word;
    p, i := start, 0;
    ReadNone(s, start, 10);
    hide Read;
    while p + 8 <= |s| && Swar.MadeOfEightDigits(WordAt(s, p))
      invariant Read(s, start, p, 10, i)
    {
      EightStep(s, start, p, i);
      i := ((i as int) * 100000000 + Swar.ParseEight(WordAt(s, p))) % TWO64;
      p := p + 8;
    }
  }

  lemma ReadNone(s: Text, start: nat, base: nat)
    requires start <= |s|
    ensures Read(s, start, start, base, 0)
  {
    assert s[start..start] == [];
  }

  method ReadDigits(s: Text, start: nat, from: nat, i0: u64, base: nat) returns (p: nat, i: u64)
    requires Read(s, start, from, base, i0)
    ensures Read(s, start, p, base, i) && (p < |s| ==> !IsDigit(s[p], base))
  {
    p, i := from, i0;
    while p < |s|
      invariant Read(s, start, p, base, i)
    {
      var digit := DigitOf(s[p]);
      if digit >= base { break; }
      assert s[start..p + 1] == s[start..p] + [s[p]];
      ValueStep(s[start..p], s[p], base);
      DigitStep(ValueOf(s[start..p], base), base, digit);
      i := (base * i + digit) % TWO64;
      p := p + 1;
    }
  }

  /** What is read: numbers that wrap into the range are taken for what they wrap to. */
  function ReadAs(s: Text, base: nat): Parsed
    requires IsIntBase(base)
  {
    var negative := s != [] && s[0] == MINUS;
    var start := if negative then 1 else 0;
    var n := DigitCount(s[start..], base);
    var v := ValueOf(s[start..][..n], base);
    if n > 0 && WrapsInto(v, base, negative) then Parsed(if negative then 0 - v % TWO64 else v % TWO64, start + n)
    else Expected(s, base)
  }

  /** parse_int_string on 64-bit integers. */
  method ParseInt(s: Text, base: nat) returns (r: Parsed)
    requires IsIntBase(base)
    ensures r == ReadAs(s, base)
  {
    hide ValueOf, DigitCount, WrapsInto, MaxDigits, MinSafe;
    var negative := CharAt(s, 0) == MINUS;
    var startNum := if negative then 1 else 0;
    var start := SkipZeros(s, startNum);
    var hasLeadingZeros := start > startNum;
    var p, i := start, 0;
    ReadNone(s, start, base);
    if base == 10 { p, i := ReadEights(s, start); }
    p, i := ReadDigits(s, start, p, i, base);
    Significant(s, startNum, start, p, base);
    assert s[0..] == s;
    var digitCount := p - start;
    if digitCount == 0 {
      ValueNone(base);
      assert s[start..p] == [];
      AcceptedValue(0, base, 0, negative);
      if hasLeadingZeros { return Parsed(0, p); }
      return Invalid;
    }
    RangeTests(s[start..p], base, negative);
    if digitCount > MaxDigits(base) { return OutOfRange; }
    if digitCount == MaxDigits(base) && i < MinSafe(base) { return OutOfRange; }
    if i > TWO63 - 1 + (if negative then 1 else 0) { return OutOfRange; }
    assert Accepted(digitCount, i, base, negative);
    AcceptedValue(ValueOf(s[start..p], base), base, i, negative);
    if negative {
      r := Parsed(-(TWO63 - 1) - (i - (TWO63 - 1)), p);
    } else {
      r := Parsed(i, p);
    }
  }

  lemma AcceptedValue(v: nat, base: nat, i: u64, negative: bool)
    requires IsIntBase(base) && i == v % TWO64
    ensures v <= TWO63 ==> i == v && !WrapsInto(v, base, negative)
    ensures WrapsInto(v, base, negative) ==> v > TWO63
  {
  }

  lemma ValueNone(base: nat)
    ensures ValueOf([], base) == 0
  {
  }

  lemma ValueStep(s: Text, c: u8, base: nat)
    ensures ValueOf(s + [c], base) == ValueOf(s, base) * base + DigitOf(c)
  {
    assert (s + [c])[..|s|] == s;
  }

  /** Zeros in front belong to the number but not to its size. */
  lemma Significant(s: Text, first: nat, start: nat, p: nat, base: nat)
    requires first <= start <= p <= |s| && base >= 1
    requires forall j | first <= j < start :: s[j] == ZERO
    requires start < |s| ==> s[start] != ZERO
    requires AllDigits(s[start..p], base) && (p < |s| ==> !IsDigit(s[p], base))
    ensures DigitCount(s[first..], base) == p - first
    ensures ValueOf(s[first..][..p - first], base) == ValueOf(s[start..p], base)
    ensures start < p ==> DigitOf(s[start]) > 0
  {
    var t, zeros, digits := s[first..], s[first..start], s[start..p];
    assert t[..p - first] == zeros + digits;
    var all := t[..p - first];
    forall j | 0 <= j < |all| ensures IsDigit(all[j], base) {
      if j >= start - first { assert all[j] == digits[j - (start - first)]; }
    }
    DigitCountIs(t, base, p - first);
    LeadingZeros(zeros, digits, base);
    if start < p { assert IsDigit(digits[0], base); }
  }

  /* The text of a literal. */

  predicate IsAlnum(c: u8) {
    0x30 <= c <= 0x39 || 0x41 <= c <= 0x5a || 0x61 <= c <= 0x7a
  }

  /** strchr also finds the terminating zero. */
  predicate IsKept(c: u8) {
    IsAlnum(c) || c == DOT || c == PLUS || c == MINUS || c == 0
  }

  predicate IsHex(c: u8) {
    0x30 <= c <= 0x39 || 0x41 <= c <= 0x46 || 0x61 <= c <= 0x66
  }

  predicate HasPrefix(text: Text) {
    |text| >= 2 && text[0] == ZERO && (text[1] == 0x62 || text[1] == 0x6f || text[1] == 0x78)
  }

  function Start(text: Text): nat {
    if HasPrefix(text) then 2 else 0
  }

  function Filter(s: Text): Text {
    if s == [] then [] else Filter(s[..|s| - 1]) + if IsKept(s[|s| - 1]) then [s[|s| - 1]] else []
  }

  /** A digit separator that does not stand between two digits. */
  predicate Misplaced(text: Text, size: nat, i: nat)
    requires i < size <= |text|
  {
    text[i] == QUOTE && (i == 0 || i == size - 1 || !IsHex(text[i - 1]) || !IsHex(text[i + 1]))
  }

  ghost predicate BadSeparator(text: Text, size: nat)
    requires size <= |text|
  {
    exists i | Start(text) <= i < size :: Misplaced(text, size, i)
  }

  /** The characters kept of the first `size`. */
  function Kept(text: Text, size: nat): Text
    requires size <= |text|
  {
    if Start(text) <= size then Filter(text[Start(text)..size]) else []
  }

  /** The size is kept in one byte. */
  function Formatted(text: Text): Text {
    Kept(text, Low(|text|))
  }

  lemma FilterStep(s: Text, c: u8)
    ensures Filter(s + [c]) == Filter(s) + if IsKept(c) then [c] else []
  {
    assert (s + [c])[..|s|] == s;
  }

  lemma FilterNothing()
    ensures Filter([]) == []
  {
  }

  lemma KeptNoQuote(text: Text, size: nat, i: nat)
    requires i < size <= |text| && IsKept(text[i])
    ensures !Misplaced(text, size, i)
  {
  }

  method FormatNumber(text: Text) returns (str: Text, error: bool)
    ensures str == Formatted(text)
    ensures error <==> BadSeparator(text, Low(|text|))
  {
    hide Filter, IsKept, Misplaced;
    var textSize: nat := Low(|text|);
    var i := Start(text);
    ghost var start := i;
    str, error := [], false;
    assert Filter([]) == [] by {
      FilterNothing();
    }
    assert i <= textSize ==> text[start..start] == [];
    while i < textSize
      invariant start <= i
      invariant start <= textSize ==> i <= textSize && str == Filter(text[start..i])
      invariant textSize < start ==> str == []
      invariant error <==> exists j | start <= j < i && j < textSize :: Misplaced(text, textSize, j)
    {
      var c := text[i];
      assert text[start..i + 1] == text[start..i] + [c];
      FilterStep(text[start..i], c);
      if IsKept(c) {
        KeptNoQuote(text, textSize, i);
        str := str + [c];
      } else if Misplaced(text, textSize, i) {
        error := true;
      }
      i := i + 1;
    }
  }

  /** The number that the first `size` characters stand for; None for an error. */
  ghost function Outcome(text: Text, base: nat, size: nat): Option<int>
    requires size <= |text|
  {
    var r := Expected(Kept(text, size), base);
    if BadSeparator(text, size) || !r.Parsed? then None else Some(r.value)
  }

  /** In the bases of the lexer nothing without a sign wraps into the range. */
  lemma LexerReads(s: Text, base: nat)
    requires IsBase(base)
    ensures s == [] || s[0] != MINUS ==> ReadAs(s, base) == Expected(s, base)
  {
    NoneWraps(base, false);
    ListedBases(base, false);
  }

  method IntValue(text: Text, base: nat) returns (r: Parsed, error: bool)
    requires IsBase(base)
    ensures Formatted(text) == [] || Formatted(text)[0] != MINUS ==> r == Expected(Formatted(text), base)
    ensures error <==> !r.Parsed? || BadSeparator(text, Low(|text|))
    ensures Formatted(text) == [] || Formatted(text)[0] != MINUS ==>
              (if error then None else Some(r.value as int)) == Outcome(text, base, Low(|text|))
  {
    hide Expected, Kept, BadSeparator;
    var formatted;
    formatted, error := FormatNumber(text);
    LexerReads(formatted, base);
    r := ParseInt(formatted, base);
    if !r.Parsed? { error := true; }
  }

  /** The digits of a literal, without prefix and separators. */
  function DigitsOf(text: Text): Text {
    Kept(text, |text|)
  }

  /** What the lexer puts into a number token: digits of the base and separators. */
  predicate IsNumber(text: Text, base: nat) {
    (forall i | Start(text) <= i < |text| :: IsDigit(text[i], base) || text[i] == QUOTE) && DigitsOf(text) != []
  }

  lemma {:induction false} FilterDigits(s: Text, base: nat)
    requires IsBase(base) && forall i | 0 <= i < |s| :: IsDigit(s[i], base) || s[i] == QUOTE
    ensures AllDigits(Filter(s), base)
  {
    if s != [] { FilterDigits(s[..|s| - 1], base); }
  }

  lemma DigitsExpected(s: Text, base: nat)
    requires IsBase(base) && AllDigits(s, base) && s != []
    ensures var v: int := ValueOf(s, base); Expected(s, base) == if v < TWO63 then Parsed(v, |s|) else OutOfRange
  {
    assert IsDigit(s[0], base);
    assert s[0..] == s && s[..|s|] == s;
    DigitCountIs(s, base, |s|);
  }

  /** A literal of at most 255 characters is read as its mathematical value, if that
      is below 2^63 and the separators stand between digits, and rejected otherwise. */
  lemma LiteralExact(text: Text, base: nat)
    requires IsBase(base) && |text| <= 255 && IsNumber(text, base)
    ensures Formatted(text) == DigitsOf(text)
    ensures var v: int := ValueOf(DigitsOf(text), base);
            && Expected(Formatted(text), base) == (if v < TWO63 then Parsed(v, |DigitsOf(text)|) else OutOfRange)
            && Outcome(text, base, Low(|text|)) == if v < TWO63 && !BadSeparator(text, |text|) then Some(v) else None
  {
    hide Filter, Expected, ValueOf, BadSeparator;
    FilterDigits(text[Start(text)..|text|], base);
    DigitsExpected(DigitsOf(text), base);
  }

  predicate AllZeros(s: Text) {
    forall i | 0 <= i < |s| :: s[i] == ZERO
  }

  lemma {:induction false} FilterJoin(a: Text, b: Text)
    ensures Filter(a + b) == Filter(a) + Filter(b)
    decreases b
  {
    if b == [] {
      assert a + b == a;
    } else {
      assert (a + b)[..|a + b| - 1] == a + b[..|b| - 1];
      FilterJoin(a, b[..|b| - 1]);
    }
  }

  lemma {:induction false} FilterPlain(s: Text, base: nat)
    requires IsBase(base) && AllDigits(s, base)
    ensures Filter(s) == s
    decreases s
  {
    if s != [] {
      assert IsDigit(s[|s| - 1], base);
      FilterPlain(s[..|s| - 1], base);
      assert s == s[..|s| - 1] + [s[|s| - 1]];
    }
  }

  lemma {:induction false} ZeroValue(s: Text, base: nat)
    requires base >= 1
    ensures ValueOf(s, base) == 0 <==> AllZeros(s)
    decreases s
  {
    if s != [] {
      var n := |s| - 1;
      ZeroValue(s[..n], base);
      MulMono(ValueOf(s[..n], base), 1, base);
      assert AllZeros(s) <==> AllZeros(s[..n]) && s[n] == ZERO by {
        assert s == s[..n] + [s[n]];
      }
    }
  }

  /** Only the digits among the first `size` characters are looked at. */
  lemma CutOff(text: Text, base: nat, size: nat) returns (rest: Text)
    requires IsBase(base) && IsNumber(text, base) && size <= |text|
    ensures DigitsOf(text) == Kept(text, size) + rest && AllDigits(Kept(text, size), base) && AllDigits(rest, base)
    ensures rest == [] ==> Start(text) <= size && forall i | size <= i < |text| :: text[i] == QUOTE
  {
    hide Filter;
    var start := Start(text);
    FilterNothing();
    if start <= size {
      rest := Filter(text[size..]);
      assert text[start..|text|] == text[start..size] + text[size..];
      FilterJoin(text[start..size], text[size..]);
      FilterDigits(text[start..size], base);
      FilterDigits(text[size..], base);
      FilterEmpty(text[size..], base);
    } else {
      rest := DigitsOf(text);
      FilterDigits(text[start..|text|], base);
    }
  }

  lemma {:induction false} FilterEmpty(s: Text, base: nat)
    requires IsBase(base) && forall i | 0 <= i < |s| :: IsDigit(s[i], base) || s[i] == QUOTE
    ensures Filter(s) == [] ==> forall i | 0 <= i < |s| :: s[i] == QUOTE
  {
    if s != [] { FilterEmpty(s[..|s| - 1], base); }
  }

  /** More digits: the same value only if all are zero, and never a smaller one. */
  lemma MoreDigits(s: Text, rest: Text, base: nat)
    requires base >= 2
    ensures var v, w := ValueOf(s, base), ValueOf(s + rest, base);
            && v <= w && (v == w <==> rest == [] || AllZeros(s + rest))
  {
    hide ValueOf;
    if rest == [] {
      assert s + rest == s;
    } else {
      ValueJoin(s, rest, base);
      Grows(ValueOf(s, base), base, |rest|, ValueOf(rest, base));
      ZeroValue(s + rest, base);
    }
  }

  lemma Grows(v: nat, base: nat, n: nat, low: nat)
    requires base >= 2 && n > 0
    ensures v * Pow(base, n) + low >= v + low && (v > 0 ==> v * Pow(base, n) + low > v + low)
  {
    PowMono(base, 1, n);
    assert Pow(base, 1) == base;
    MulMono(v, 2, Pow(base, n));
  }

  /** Separators at the cut: the last character that is looked at must not be one, and
      those before it are judged as in the whole literal. */
  lemma CutSeparators(text: Text, size: nat)
    requires size < |text|
    ensures BadSeparator(text, size) <==>
            || (Start(text) < size && text[size - 1] == QUOTE)
            || exists i | Start(text) <= i < size - 1 :: Misplaced(text, |text|, i)
  {
    forall i | Start(text) <= i < size - 1 ensures Misplaced(text, size, i) <==> Misplaced(text, |text|, i) {}
    if Start(text) < size && text[size - 1] == QUOTE { assert Misplaced(text, size, size - 1); }
  }

  /** Nothing but separators behind the cut: the last one is misplaced. */
  lemma DigitSoon(text: Text, size: nat, base: nat)
    requires size + 1 < |text| && IsNumber(text, base) && Start(text) <= size
    requires forall i | size <= i < |text| :: text[i] == QUOTE
    ensures BadSeparator(text, |text|)
  {
    assert Misplaced(text, |text|, |text| - 1);
  }

  /** Literals of more than 255 characters, whose separators stand between digits: what
      is delivered agrees with the literal's own value or rejection exactly when
      the value is too large, if no digit or a separator comes last before the cut, and
      otherwise when what is read is too large already or all digits are zero. */
  lemma LongExact(text: Text, base: nat)
    requires IsBase(base) && IsNumber(text, base) && |text| > 255 && !BadSeparator(text, |text|)
    ensures var size := |text| % 256;
            var cut, own := ValueOf(Formatted(text), base), ValueOf(DigitsOf(text), base);
            Outcome(text, base, Low(|text|)) == Outcome(text, base, |text|) <==>
              if Formatted(text) == [] || text[size - 1] == QUOTE then own >= TWO63
              else cut >= TWO63 || AllZeros(DigitsOf(text))
  {
    hide Filter, Expected, ValueOf, BadSeparator, IsBase;
    var size := Low(|text|);
    var rest := CutOff(text, base, size);
    CutOutcome(text, base, rest);
    CutSeparators(text, size);
    NoneBad(text, size);
    if rest == [] { DigitSoon(text, size, base); }
    if Formatted(text) != [] { EmptyKept(text, size); }
  }

  lemma NoneBad(text: Text, size: nat)
    requires size < |text| && !BadSeparator(text, |text|)
    ensures !exists i | Start(text) <= i < size - 1 :: Misplaced(text, |text|, i)
  {
  }

  lemma EmptyKept(text: Text, size: nat)
    requires size <= |text| && Kept(text, size) != []
    ensures Start(text) < size
  {
    FilterNothing();
  }

  /** The outcomes by the values read, whatever the separators. */
  lemma CutOutcome(text: Text, base: nat, rest: Text)
    requires IsBase(base) && IsNumber(text, base) && DigitsOf(text) == Formatted(text) + rest
    requires AllDigits(Formatted(text), base) && AllDigits(rest, base)
    ensures var size := Low(|text|);
            var cut, own := ValueOf(Formatted(text), base), ValueOf(DigitsOf(text), base);
            && Outcome(text, base, size)
               == (if BadSeparator(text, size) || Formatted(text) == [] || cut >= TWO63 then None else Some(cut))
            && Outcome(text, base, |text|) == (if BadSeparator(text, |text|) || own >= TWO63 then None else Some(own))
            && cut <= own && (cut == own <==> rest == [] || AllZeros(DigitsOf(text)))
  {
    hide Filter, Expected, ValueOf, BadSeparator, Kept;
    var s := Formatted(text);
    AllJoin(s, rest, base);
    DigitsExpected(s + rest, base);
    MoreDigits(s, rest, base);
    if s == [] {
      EmptyInvalid(base);
    } else {
      DigitsExpected(s, base);
    }
  }

  lemma EmptyInvalid(base: nat)
    ensures Expected([], base) == Invalid
  {
  }

  lemma AllJoin(a: Text, b: Text, base: nat)
    requires AllDigits(a, base) && AllDigits(b, base)
    ensures AllDigits(a + b, base)
  {
  }

  /** The same literals with a misplaced separator, which should be rejected: they are
      exactly when no digit is read, what is read is too large, or a separator misplaced
      already comes before the cut or one stands at it. */
  lemma LongMisplaced(text: Text, base: nat)
    requires IsBase(base) && IsNumber(text, base) && |text| > 255 && BadSeparator(text, |text|)
    ensures Outcome(text, base, |text|) == None
    ensures var size := |text| % 256;
            Outcome(text, base, Low(|text|)) == None <==>
            || Formatted(text) == [] || ValueOf(Formatted(text), base) >= TWO63 || text[size - 1] == QUOTE
            || exists i | Start(text) <= i < size - 1 :: Misplaced(text, |text|, i)
  {
    hide Filter, Expected, ValueOf, BadSeparator, IsBase;
    var size := Low(|text|);
    var rest := CutOff(text, base, size);
    CutOutcome(text, base, rest);
    CutSeparators(text, size);
    if Formatted(text) != [] { EmptyKept(text, size); }
  }

  /** Without separators and prefix the digits read are the first `|text| % 256`. */
  lemma PlainCut(text: Text, base: nat)
    requires IsBase(base) && AllDigits(text, base) && !HasPrefix(text)
    ensures Formatted(text) == text[..|text| % 256] && DigitsOf(text) == text && !BadSeparator(text, |text|)
  {
    var n := |text| % 256;
    FilterPlain(text[..n], base);
    FilterPlain(text, base);
    assert text[0..n] == text[..n] && text[0..|text|] == text;
  }

  /* Inputs. */

  /** 257 ones are read as 1. */
  lemma LongLiteral()
    ensures var text := seq(257, _ => 0x31 as u8);
            IsNumber(text, 10) && Outcome(text, 10, Low(|text|)) == Some(1) && Outcome(text, 10, |text|) == None
  {
    hide Filter, Expected, BadSeparator;
    var text := seq(257, _ => 0x31 as u8);
    assert Start(text) == 0 && |text| % 256 == 1;
    PlainCut(text, 10);
    ReadOne(text);
    ManyDigits(text);
    CutOutcome(text, 10, text[1..]);
    CutSeparators(text, 1);
  }

  lemma ManyDigits(text: Text)
    requires AllDigits(text, 10) && |text| > 20 && DigitOf(text[0]) > 0
    ensures ValueOf(text, 10) >= TWO64
  {
    hide Pow, ValueOf, DigitOf, MinSafe, IsDigit;
    ValueBound(text, 10);
    TablesRight(10);
    PowMono(10, 20, |text| - 1);
    assert MaxDigits(10) == 20;
  }

  lemma ReadOne(text: Text)
    requires |text| >= 1 && text[0] == 0x31 && !HasPrefix(text)
    ensures Kept(text, 1) == [0x31] && ValueOf([0x31], 10) == 1
  {
    assert text[0..1] == [0x31] && Filter([]) == [] && Filter([0x31]) == [0x31];
    ValueNone(10);
    ValueStep([], 0x31, 10);
    assert [] + [0x31] == [0x31];
  }

  /** `0'` and 256 zeros are zero, and rejected because the separator is the last
      character that is looked at. */
  lemma CutAtSeparator()
    ensures var text := [ZERO, QUOTE] + seq(256, _ => ZERO);
            && IsNumber(text, 10) && !BadSeparator(text, |text|)
            && Outcome(text, 10, Low(|text|)) == None && Outcome(text, 10, |text|) == Some(0)
  {
    hide Expected;
    var text := [ZERO, QUOTE] + seq(256, _ => ZERO);
    assert Low(|text|) == 2 && Start(text) == 0;
    FilterZeros(text[0..]);
    assert text[0..|text|] == text[0..];
    assert forall i | 0 <= i < |text| :: !Misplaced(text, |text|, i);
    ZeroValue(DigitsOf(text), 10);
    FilterDigits(text[0..], 10);
    DigitsExpected(DigitsOf(text), 10);
    assert Misplaced(text, 2, 1);
  }

  lemma {:induction false} FilterZeros(s: Text)
    requires forall i | 0 <= i < |s| :: s[i] == ZERO || s[i] == QUOTE
    ensures AllZeros(Filter(s)) && (s != [] && s[0] == ZERO ==> Filter(s) != [])
  {
    if s != [] { FilterZeros(s[..|s| - 1]); }
  }

  /** `1` and 256 separators should be rejected, and are read as 1. */
  lemma CutBehindOne()
    ensures var text := [0x31] + seq(256, _ => QUOTE);
            && IsNumber(text, 10) && BadSeparator(text, |text|)
            && Outcome(text, 10, Low(|text|)) == Some(1) && Outcome(text, 10, |text|) == None
  {
    hide Expected;
    var text: Text := [0x31] + seq(256, _ => QUOTE);
    assert Low(|text|) == 1 && Start(text) == 0;
    assert Misplaced(text, |text|, |text| - 1);
    ReadOne(text);
    FirstKept(text[0..]);
    assert text[0..|text|] == text[0..];
    var rest := CutOff(text, 10, 1);
    CutOutcome(text, 10, rest);
    CutSeparators(text, 1);
  }

  lemma {:induction false} FirstKept(s: Text)
    requires s != [] && IsKept(s[0])
    ensures Filter(s) != []
  {
    if |s| > 1 { FirstKept(s[..|s| - 1]); }
  }
}
