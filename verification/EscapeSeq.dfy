/** Unicode escapes (src/escape_seq.cpp): `\u{...}` names a code point by one to six
    hex digits; its UTF-8 bytes are appended to the string under construction.
    UTF-8 is that of section 3 of RFC 3629. */
module EscapeSeq {
  import opened Words
  import opened Arithmetic
  import opened Syntax

  type Text = seq<u8>

  const LOWER_U: u8 := 0x75
  const OPEN_BRACE: u8 := 0x7b
  const CLOSE_BRACE: u8 := 0x7d

  const ONE_BYTE_MAX := 0x7f
  const TWO_BYTE_MAX := 0x7ff
  const THREE_BYTE_MAX := 0xffff
  const FOUR_BYTE_MAX := 0x10ffff
  const SURROGATE_RANGE_START := 0xd800
  const SURROGATE_RANGE_END := 0xdfff

  predicate IsScalar(v: nat) {
    v <= FOUR_BYTE_MAX && !(SURROGATE_RANGE_START <= v <= SURROGATE_RANGE_END)
  }

  /* UTF-8 by definition: a reader of byte sequences. */

  /** How many bytes a sequence has, by its first byte; 0 for a byte that starts none. */
  function Announced(b: u8): nat {
    if b < 0x80 then 1
    else if b < 0xc0 then 0
    else if b < 0xe0 then 2
    else if b < 0xf0 then 3
    else if b < 0xf8 then 4
    else 0
  }

  /** The bits of the first byte that belong to the number. */
  function FirstBits(b: u8): nat
    requires Announced(b) != 0
  {
    if b < 0x80 then b as int
    else if b < 0xe0 then b as int - 0xc0
    else if b < 0xf0 then b as int - 0xe0
    else b as int - 0xf0
  }

  predicate Continuation(b: u8) {
    0x80 <= b < 0xc0
  }

  predicate AllContinue(s: Text) {
    forall i | 0 <= i < |s| :: Continuation(s[i])
  }

  function SixBits(b: u8): nat
    requires Continuation(b)
  {
    b as int - 0x80
  }

  function Payload(s: Text): (v: nat)
    requires AllContinue(s)
  {
    if s == [] then 0 else SixBits(s[0]) * Pow(64, |s| - 1) + Payload(s[1..])
  }

  /** The number one byte sequence stands for. Longer forms than needed are read too. */
  function Decode(s: Text): Option<nat> {
    if s == [] || Announced(s[0]) != |s| || !AllContinue(s[1..]) then None
    else Some(FirstBits(s[0]) * Pow(64, |s| - 1) + Payload(s[1..]))
  }

  /** The UTF-8 form of a number: no shorter sequence is read as that number. */
  ghost predicate Utf8(s: Text, v: nat) {
    Decode(s) == Some(v) && forall t | Decode(t) == Some(v) :: |s| <= |t|
  }

  lemma {:induction false} PayloadBelow(s: Text)
    requires AllContinue(s)
    ensures Payload(s) < Pow(64, |s|)
  {
    if s != [] {
      PayloadBelow(s[1..]);
      Digit(SixBits(s[0]), Pow(64, |s| - 1), Payload(s[1..]));
    }
  }

  lemma Digit(d: nat, p: nat, r: nat)
    requires d < 64 && r < p
    ensures d * p + r < 64 * p
  {
    MulMono(p, d + 1, 64);
  }

  /** Largest number plus one that fits into `n` bytes. */
  function Capacity(n: nat): nat {
    match n
    case 1 => 0x80
    case 2 => 0x800
    case 3 => 0x10000
    case _ => 0x200000
  }

  lemma DecodeBelow(s: Text)
    requires Decode(s).Some?
    ensures 1 <= |s| <= 4 && Decode(s).value < Capacity(|s|)
  {
    hide Pow, Payload;
    Powers();
    PayloadBelow(s[1..]);
  }

  /** Sequences of one length stand for different numbers. */
  lemma {:induction false} PayloadInjective(s: Text, t: Text)
    requires AllContinue(s) && AllContinue(t) && |s| == |t| && Payload(s) == Payload(t)
    ensures s == t
  {
    if s != [] {
      PayloadBelow(s[1..]);
      PayloadBelow(t[1..]);
      SameDigits(SixBits(s[0]), SixBits(t[0]), Pow(64, |s| - 1), Payload(s[1..]), Payload(t[1..]));
      PayloadInjective(s[1..], t[1..]);
    }
  }

  lemma SameDigits(d: nat, e: nat, p: nat, r: nat, q: nat)
    requires r < p && q < p && d * p + r == e * p + q
    ensures d == e && r == q
  {
    Quotient(d * p + r, p, d, r);
    Quotient(e * p + q, p, e, q);
  }

  /** A number has one UTF-8 form. */
  lemma Utf8Unique(s: Text, t: Text, v: nat)
    requires Utf8(s, v) && Utf8(t, v)
    ensures s == t
  {
    PayloadBelow(s[1..]);
    PayloadBelow(t[1..]);
    SameDigits(FirstBits(s[0]), FirstBits(t[0]), Pow(64, |s| - 1), Payload(s[1..]), Payload(t[1..]));
    PayloadInjective(s[1..], t[1..]);
  }

  /* A whole string of sequences. */

  function DecodeAll(s: Text): Option<seq<nat>>
    decreases |s|
  {
    if s == [] then Some([])
    else
      var n := Announced(s[0]);
      if n == 0 || n > |s| || Decode(s[..n]).None? then None
      else
        match DecodeAll(s[n..])
        case None => None
        case Some(rest) => Some([Decode(s[..n]).value] + rest)
  }

  lemma DecodeFirst(e: Text, rest: Text)
    requires Decode(e).Some? && DecodeAll(rest).Some?
    ensures DecodeAll(e + rest) == Some([Decode(e).value] + DecodeAll(rest).value)
  {
    hide Decode;
    Starts(e);
    assert (e + rest)[..|e|] == e && (e + rest)[|e|..] == rest;
  }

  lemma Starts(e: Text)
    requires Decode(e).Some?
    ensures e != [] && Announced(e[0]) == |e|
  {
  }

  lemma DecodeRest(s: Text)
    requires s != [] && DecodeAll(s).Some?
    ensures var n := Announced(s[0]);
            && 0 < n <= |s| && Decode(s[..n]).Some? && DecodeAll(s[n..]).Some?
            && DecodeAll(s).value == [Decode(s[..n]).value] + DecodeAll(s[n..]).value
  {
  }

  /** Appending the form of one more number appends that number. */
  lemma {:induction false} DecodeAppend(s: Text, e: Text, v: nat)
    requires DecodeAll(s).Some? && Decode(e) == Some(v)
    ensures DecodeAll(s + e) == Some(DecodeAll(s).value + [v])
    decreases |s|
  {
    hide Decode, DecodeAll;
    if s == [] {
      DecodeNothing();
      DecodeFirst(e, []);
      assert s + e == e + [];
      assert [v] + [] == [] + [v];
    } else {
      DecodeRest(s);
      var n := Announced(s[0]);
      var w, rest := Decode(s[..n]).value, DecodeAll(s[n..]).value;
      DecodeAppend(s[n..], e, v);
      DecodeFirst(s[..n], s[n..] + e);
      assert s + e == s[..n] + (s[n..] + e);
      assert [w] + (rest + [v]) == ([w] + rest) + [v];
    }
  }

  lemma DecodeNothing()
    ensures DecodeAll([]) == Some([])
  {
  }

  /* Writing. */

  lemma {:induction false} OrDisjoint(k: nat, a: nat, b: nat)
    requires b < Pow2(k)
    ensures BitOr(Pow2(k) * a, b) == Pow2(k) * a + b
    decreases k
  {
    hide BitOr;
    if k == 0 {
      assert Pow2(0) * a == a;
      OrZero(a);
    } else {
      Doubled(Pow2(k - 1), a);
      OrDisjoint(k - 1, a, b / 2);
      OrStep(Pow2(k - 1) * a, b);
    }
  }

  lemma OrZero(a: nat)
    ensures BitOr(a, 0) == a
  {
  }

  lemma OrStep(a: nat, b: nat)
    ensures BitOr(2 * a, b) == 2 * BitOr(a, b / 2) + b % 2
  {
  }

  lemma Doubled(p: nat, a: nat)
    ensures (2 * p) * a == 2 * (p * a)
  {
  }

  lemma {:induction false} AndMask(k: nat, x: nat)
    ensures BitAnd(x, Pow2(k) - 1) == x % Pow2(k)
    decreases k
  {
    hide BitAnd;
    AndZero(x);
    if k > 0 {
      AndMask(k - 1, x / 2);
      AndStep(x, Pow2(k - 1));
      Halves(x, Pow2(k - 1));
    }
  }

  lemma AndZero(x: nat)
    ensures BitAnd(x, 0) == 0
  {
  }

  lemma AndStep(x: nat, p: nat)
    requires p > 0
    ensures BitAnd(x, 2 * p - 1) == 2 * BitAnd(x / 2, p - 1) + x % 2
  {
    assert (2 * p - 1) / 2 == p - 1 && (2 * p - 1) % 2 == 1;
  }

  lemma Halves(x: nat, p: nat)
    requires p > 0
    ensures x % (2 * p) == 2 * (x / 2 % p) + x % 2
  {
    var q, r := x / 2 / p, x / 2 % p;
    assert (2 * p) * q == 2 * (p * q);
    Quotient(x, 2 * p, q, 2 * r + x % 2);
  }

  lemma Powers()
    ensures Pow2(3) == 8 && Pow2(4) == 16 && Pow2(5) == 32 && Pow2(6) == 64 && Pow2(7) == 0x80 && Pow2(8) == 0x100
    ensures Pow2(0) == 1 && Pow2(1) == 2 && Pow2(2) == 4
    ensures Pow(64, 0) == 1 && Pow(64, 1) == 64 && Pow(64, 2) == 0x1000 && Pow(64, 3) == 0x40000
  {
    assert Pow2(2) == 4;
    assert Pow2(3) == 2 * Pow2(2) && Pow2(4) == 2 * Pow2(3) && Pow2(5) == 2 * Pow2(4);
    assert Pow2(6) == 2 * Pow2(5) && Pow2(7) == 2 * Pow2(6) && Pow2(8) == 2 * Pow2(7);
    assert Pow(64, 1) == 64 * Pow(64, 0) && Pow(64, 2) == 64 * Pow(64, 1) && Pow(64, 3) == 64 * Pow(64, 2);
  }

  /** A continuation byte holds the six low bits. */
  lemma LastSixBits(value: nat)
    ensures BitOr(0, BitOr(0x80, BitAnd(value, 0x3f))) == 0x80 + value % 64
  {
    hide *;
    Powers();
    AndMask(6, value);
    OrDisjoint(6, 2, value % 64);
    ZeroOr(0x80 + value % 64);
  }

  lemma ZeroOr(a: nat)
    ensures BitOr(0, a) == a
  {
  }

  /** The first byte: `n` high bits, a zero, and what is left of the number. */
  lemma FirstByte(n: nat, value: nat)
    requires 2 <= n <= 4 && value < Pow2(7 - n)
    ensures Start(n) + value < 0x100 && BitOr(0, BitOr(Start(n), BitAnd(value, 0xff))) == Start(n) + value
    ensures Announced(Start(n) + value) == n && FirstBits(Start(n) + value) == value
  {
    hide BitOr, BitAnd, Pow2;
    Powers();
    AndMask(8, value);
    OrDisjoint(8 - n, Pow2(n) - 1, value);
    ZeroOr(Start(n) + value);
  }

  /** The `i` highest bits of a byte. */
  function Start(i: nat): (b: nat)
    requires i <= 4
  {
    match i
    case 0 => 0
    case 1 => 0x80
    case 2 => 0xc0
    case 3 => 0xe0
    case _ => 0xf0
  }

  lemma StartBit(i: nat)
    requires i < 4
    ensures BitOr(Start(i), Pow2(7 - i)) == Start(i + 1)
  {
    hide BitOr, Pow2;
    Powers();
    OrDisjoint(8 - i, Pow2(i) - 1, Pow2(7 - i));
  }

  lemma ShiftSix(value: nat, p: nat, rest: nat)
    ensures value * p + rest == (value / 64) * (64 * p) + ((value % 64) * p + rest)
  {
    var q, r := value / 64, value % 64;
    assert value == 64 * q + r;
    assert (64 * q + r) * p == q * (64 * p) + r * p;
  }

  /** Six more bits move from the number to the bytes. */
  lemma MoveSixBits(left: nat, s: Text)
    requires AllContinue(s)
    ensures var t := [0x80 + left % 64] + s;
            AllContinue(t) && left * Pow(64, |s|) + Payload(s) == (left / 64) * Pow(64, |s| + 1) + Payload(t)
  {
    ShiftSix(left, Pow(64, |s|), Payload(s));
    assert ([0x80 + left % 64] + s)[1..] == s;
  }

  lemma NoPayload(v: nat)
    ensures AllContinue([]) && v == v * Pow(64, 0) + Payload([])
  {
  }

  lemma Assembled(n: nat, left: nat, tail: Text, value: nat)
    requires 2 <= n <= 4 && |tail| == n - 1 && AllContinue(tail) && left < Pow2(7 - n)
    requires value == left * Pow(64, n - 1) + Payload(tail)
    ensures Start(n) + left < 0x100 && Decode([Start(n) + left] + tail) == Some(value)
  {
    FirstByte(n, left);
    assert ([Start(n) + left] + tail)[1..] == tail;
  }

  lemma Remaining(value: nat, n: nat, left: nat, rest: nat)
    requires 2 <= n <= 4 && value < Capacity(n) && value == left * Pow(64, n - 1) + rest
    ensures left < Pow2(7 - n)
  {
    hide Pow2, Pow;
    Powers();
  }

  lemma Shortest(s: Text, v: nat)
    requires Decode(s) == Some(v)
    requires |s| == if v > THREE_BYTE_MAX then 4 else if v > TWO_BYTE_MAX then 3 else if v > ONE_BYTE_MAX then 2 else 1
    ensures Utf8(s, v)
  {
    forall t | Decode(t) == Some(v) ensures |s| <= |t| {
      DecodeBelow(t);
    }
  }

  lemma OneByte(v: nat)
    requires v <= ONE_BYTE_MAX
    ensures Utf8([v], v)
  {
    assert Pow(64, 0) == 1;
    Shortest([v], v);
  }

  lemma StartNone()
    ensures Start(0) == 0
  {
  }

  method EncodeUtf8(str: Text, value: nat) returns (out: Text)
    requires value <= FOUR_BYTE_MAX
    ensures str <= out && Utf8(out[|str|..], value)
  {
    hide Pow, Payload, BitOr, BitAnd, Pow2, Decode, Utf8, Start;
    var numBytes := 0;
    if value > THREE_BYTE_MAX {
      numBytes := 4;
    } else if value > TWO_BYTE_MAX {
      numBytes := 3;
    } else if value > ONE_BYTE_MAX {
      numBytes := 2;
    } else {
      out := str + [value];
      assert out[|str|..] == [value];
      OneByte(value);
      return;
    }
    var buffer := new u8[4](_ => 0);
    var left: nat := value;
    NoPayload(value);
    assert buffer[numBytes..numBytes] == [];
    var i := numBytes - 1;
    while i > 0
      invariant 0 <= i < numBytes
      invariant forall j | 0 <= j <= i :: buffer[j] == 0
      invariant AllContinue(buffer[i + 1..numBytes])
      invariant value == left * Pow(64, numBytes - 1 - i) + Payload(buffer[i + 1..numBytes])
    {
      ghost var s := buffer[i + 1..numBytes];
      LastSixBits(left);
      MoveSixBits(left, s);
      buffer[i] := BitOr(buffer[i], BitOr(0x80, BitAnd(left, 0x3f)));
      assert buffer[i..numBytes] == [buffer[i]] + s;
      left := left / 64;
      i := i - 1;
    }
    ghost var tail := buffer[1..numBytes];
    var start := 0;
    StartNone();
    i := 0;
    while i < numBytes
      invariant 0 <= i <= numBytes
      invariant start == Start(i)
      invariant buffer[0] == 0 && buffer[1..numBytes] == tail
    {
      StartBit(i);
      start := BitOr(start, Pow2(7 - i));
      i := i + 1;
    }
    Remaining(value, numBytes, left, Payload(tail));
    FirstByte(numBytes, left);
    Assembled(numBytes, left, tail, value);
    buffer[0] := BitOr(buffer[0], BitOr(start, BitAnd(left, 0xff)));
    out := str + buffer[..numBytes];
    ghost var bytes := buffer[..numBytes];
    assert bytes == [Start(numBytes) + left] + tail;
    assert out[|str|..] == buffer[..numBytes];
    Shortest(buffer[..numBytes], value);
  }

  /* Reading the escape. */

  predicate IsHex(c: u8) {
    0x30 <= c <= 0x39 || 0x41 <= c <= 0x46 || 0x61 <= c <= 0x66
  }

  function FromHex(c: u8): (d: nat)
    requires IsHex(c)
    ensures d < 16
  {
    if c <= 0x39 then c as int - 0x30 else if c <= 0x46 then c as int - 0x41 + 10 else c as int - 0x61 + 10
  }

  predicate AllHex(s: Text) {
    forall i | 0 <= i < |s| :: IsHex(s[i])
  }

  function HexValue(s: Text): nat
    requires AllHex(s)
  {
    if s == [] then 0 else 16 * HexValue(s[..|s| - 1]) + FromHex(s[|s| - 1])
  }

  lemma {:induction false} HexBelow(s: Text)
    requires AllHex(s)
    ensures HexValue(s) < Pow(16, |s|)
  {
    if s != [] {
      HexBelow(s[..|s| - 1]);
    }
  }

  /** `n` hex digits from position `at` on, then a closing brace. */
  predicate Digits(text: Text, at: nat, n: nat) {
    1 <= n <= 6 && at + n < |text| && AllHex(text[at..at + n]) && text[at + n] == CLOSE_BRACE
  }

  /** `\u{` digits `}` from position `at` on, with `n` digits. */
  predicate Escape(text: Text, at: nat, n: nat) {
    at + 2 < |text| && text[at + 1] == LOWER_U && text[at + 2] == OPEN_BRACE && Digits(text, at + 3, n)
  }

  /** Digits end at the first character that is none. */
  lemma DigitsEnd(text: Text, at: nat, count: nat, n: nat)
    requires at + count < |text| && !IsHex(text[at + count]) && AllHex(text[at..at + count])
    ensures Digits(text, at, n) ==> n == count
  {
    if at + n < |text| {
      if count < n {
        assert text[at..at + n][count] == text[at + count];
      } else if n < count {
        assert text[at..at + count][n] == text[at + n];
      }
    }
  }

  method StrToHex(text: Text, it: nat, count: nat) returns (result: nat)
    requires it + count <= |text| && AllHex(text[it..it + count]) && count <= 6
    ensures result == HexValue(text[it..it + count]) < 0x100_0000
  {
    hide Pow, HexValue;
    HexNone(text, it);
    result := 0;
    for i := 0 to count
      invariant AllHex(text[it..it + i]) && result == HexValue(text[it..it + i])
    {
      HexStep(text, it, i, count);
      HexFits(text[it..it + i]);
      result := (result * 16 + FromHex(text[it + i])) % 0x1_0000_0000;
    }
    HexFits(text[it..it + count]);
  }

  lemma HexNone(text: Text, it: nat)
    requires it <= |text|
    ensures AllHex(text[it..it]) && HexValue(text[it..it]) == 0
  {
  }

  lemma HexFits(s: Text)
    requires AllHex(s) && |s| <= 6
    ensures HexValue(s) < 0x100_0000
  {
    hide Pow, HexValue;
    HexBelow(s);
    PowSmall(|s|);
  }

  lemma HexStep(text: Text, it: nat, i: nat, count: nat)
    requires i < count && it + count <= |text| && AllHex(text[it..it + count]) && AllHex(text[it..it + i])
    ensures IsHex(text[it + i]) && AllHex(text[it..it + i + 1])
    ensures HexValue(text[it..it + i + 1]) == HexValue(text[it..it + i]) * 16 + FromHex(text[it + i])
  {
    var s := text[it..it + i + 1];
    assert s[..i] == text[it..it + i] && text[it + i] == text[it..it + count][i];
    assert forall j | 0 <= j <= i :: s[j] == text[it..it + count][j];
  }

  lemma PowSmall(n: nat)
    requires n <= 6
    ensures Pow(16, n) <= 0x100_0000
    ensures Pow(16, n + 1) == 16 * Pow(16, n)
  {
    assert Pow(16, 2) == 0x100;
    assert Pow(16, 4) == 0x100 * 0x100;
    assert Pow(16, 6) == 0x100 * 0x100_00;
    assert Pow(16, 1) == 16 && Pow(16, 3) == 16 * Pow(16, 2) && Pow(16, 5) == 16 * Pow(16, 4);
  }

  /** -1, or the number of digits before the closing brace; then the position is kept. */
  method ConsumeUnicodeSequence(text: Text, it: nat) returns (count: int, it': nat)
    requires it <= |text|
    ensures it <= it' <= |text|
    ensures count == -1 || (count >= 0 && Digits(text, it, count) && it' == it)
    ensures forall n | Digits(text, it, n) :: count == n
  {
    count, it' := 0, it;
    while it + count < |text|
      invariant 0 <= count <= 6 && it + count <= |text| && it' == it
      invariant AllHex(text[it..it + count])
    {
      if !IsHex(text[it + count]) {
        forall n | Digits(text, it, n) ensures n == count {
          DigitsEnd(text, it, count, n);
        }
        if text[it + count] != CLOSE_BRACE {
          return -1, it';
        }
        break;
      }
      if count == 6 {
        SevenDigits(text, it);
        return -1, it + 6;
      }
      assert text[it..it + count + 1] == text[it..it + count] + [text[it + count]];
      count := count + 1;
    }
    if count == 0 {
      return -1, it';
    }
    if it + count == |text| || text[it + count] != CLOSE_BRACE {
      if it + count == |text| {
        NoBrace(text, it);
      }
      return -1, it + count;
    }
  }

  lemma SevenDigits(text: Text, at: nat)
    requires at + 6 < |text| && AllHex(text[at..at + 6]) && IsHex(text[at + 6])
    ensures forall n :: !Digits(text, at, n)
  {
    forall n | 1 <= n < 6 ensures !Digits(text, at, n) {
      assert text[at..at + 6][n] == text[at + n];
    }
  }

  lemma NoBrace(text: Text, at: nat)
    requires at <= |text| && AllHex(text[at..])
    ensures forall n :: !Digits(text, at, n)
  {
    forall n: nat | at + n < |text| ensures !Digits(text, at, n) {
      assert text[at..][n] == text[at + n];
    }
  }

  /** The escape at `it`, if there is one, becomes the UTF-8 form of the scalar value
      it names; otherwise nothing is written. */
  method ParseUnicodeSequence(str: Text, text: Text, it: nat) returns (ok: bool, out: Text, it': nat)
    requires it <= |text|
    ensures it <= it' <= |text|
    ensures ok <==> exists n :: Escape(text, it, n) && IsScalar(HexValue(text[it + 3..it + 3 + n]))
    ensures forall n | Escape(text, it, n) ::
              && it' == it + n + 4
              && (ok ==> str <= out && Utf8(out[|str|..], HexValue(text[it + 3..it + 3 + n])))
    ensures !ok ==> out == str
  {
    hide Utf8, HexValue, AllHex;
    ok, out, it' := false, str, it;
    if it + 1 >= |text| || text[it + 1] != LOWER_U {
      return;
    }
    it' := it' + 2;
    if it' == |text| || text[it'] != OPEN_BRACE {
      return;
    }
    it' := it' + 1;
    var at := it';
    var count;
    count, it' := ConsumeUnicodeSequence(text, it');
    if count == -1 {
      return;
    }
    var value := StrToHex(text, at, count);
    assert Escape(text, it, count);
    it' := it' + count + 1;
    if value > FOUR_BYTE_MAX || SURROGATE_RANGE_START <= value <= SURROGATE_RANGE_END {
      return;
    }
    out := EncodeUtf8(str, value);
    ok := true;
  }

  /** Whatever was written before, the string now ends in exactly that scalar value. */
  lemma AppendedScalar(str: Text, out: Text, v: nat)
    requires DecodeAll(str).Some? && str <= out && Utf8(out[|str|..], v)
    ensures DecodeAll(out) == Some(DecodeAll(str).value + [v])
  {
    DecodeAppend(str, out[|str|..], v);
    assert out == str + out[|str|..];
  }
}
