/** Ranges (src/object.cpp: Range, RangeIter; src/vm.cpp: makeRange): length,
    membership, indexing and iteration are computed by separate formulas over
    wrapping 64-bit integers. */
module Ranges {
  import opened Words
  import opened Arithmetic
  import opened Syntax

  datatype Range = Range(start: i64, stop: i64, step: i64)

  /* What the source computes. */

  /** validateRange: no range runs away from its stop. */
  predicate Validated(r: Range) {
    !((r.stop > r.start && r.step < 0) || (r.stop < r.start && r.step > 0))
  }

  /** The constructor lets a zero step pass only between equal bounds. */
  predicate Constructed(r: Range) {
    Validated(r) && (r.step == 0 ==> r.start == r.stop)
  }

  /** `start..=stop` and `start..<stop`. */
  function MakeRange(start: i64, stop: i64, equal: bool): Range {
    var stop' := Wrap64(stop - if equal then 0 else 1);
    Range(start, stop', if stop' >= start then 1 else -1)
  }

  function Length(r: Range): nat {
    var span := Wrap64(r.stop - r.start);
    if r.step == 0 || r.step == 1 then Magnitude(span) + 1 else Magnitude(TruncDiv(span, r.step)) + 1
  }

  predicate Contains(r: Range, num: i64) {
    if r.step == 0 then num == r.start
    else if r.step > 0 && (num < r.start || num > r.stop) then false
    else if r.step < 0 && (num > r.start || num < r.stop) then false
    else TruncMod(Wrap64(num - r.start), r.step) == 0
  }

  /** None when the index is out of bounds. */
  function GetIndex(r: Range, index: i64): Option<i64> {
    var reverse := r.start > r.stop;
    var value := Wrap64(r.start + Wrap64(index * r.step));
    if index < 0 then None
    else if !reverse && value > r.stop then None
    else if reverse && value < r.stop then None
    else Some(value)
  }

  class RangeIter {
    const obj: Range
    var val: i64

    constructor (obj: Range)
      ensures this.obj == obj
    {
      this.obj := obj;
      val := 0;
    }

    method Start() returns (v: i64)
      modifies this
      ensures v == val == obj.start
    {
      val := obj.start;
      v := val;
    }

    /** False after the last value. */
    method Next() returns (more: bool, v: i64)
      modifies this
      ensures more ==> v == val
      ensures obj.step == 0 ==> !more && val == old(val)
      ensures obj.step != 0 ==> val == Wrap64(old(val) + obj.step)
      ensures obj.step > 0 ==> more == (val <= obj.stop)
      ensures obj.step < 0 ==> more == (val >= obj.stop)
    {
      more, v := false, val;
      if obj.step == 0 { return; }
      val := Wrap64(val + obj.step);
      v := val;
      more := !((obj.step > 0 && val > obj.stop) || (obj.step < 0 && val < obj.stop));
    }
  }

  /* What they mean together. */

  /** No intermediate result leaves the 64-bit integers. */
  predicate NoOverflow(r: Range) {
    -TWO63 < r.stop - r.start < TWO63 && -TWO63 <= r.stop + r.step < TWO63
  }

  function Element(r: Range, k: nat): int {
    r.start + k * r.step
  }

  /** The values of a range, by definition. */
  function Values(r: Range): (vs: seq<int>)
    ensures |vs| == Length(r)
  {
    seq(Length(r), k requires 0 <= k < Length(r) => Element(r, k))
  }

  lemma Fits64(x: int)
    requires -TWO63 <= x < TWO63
    ensures Wrap64(x) == x
  {
  }

  /** Element `k` is on the way to the stop exactly when `k` is below the length. */
  lemma LengthMeans(r: Range, k: nat)
    requires Constructed(r) && NoOverflow(r) && r.step != 0
    ensures k < Length(r) <==> if r.step > 0 then Element(r, k) <= r.stop else Element(r, k) >= r.stop
  {
    hide Length, Magnitude;
    var span, step := Magnitude(r.stop - r.start), Magnitude(r.step);
    LengthQuotient(r);
    SpanQuotient(span, step, k);
    Signs(r, k);
  }

  lemma LengthQuotient(r: Range)
    requires Constructed(r) && NoOverflow(r) && r.step != 0
    ensures Magnitude(r.step) > 0 && Length(r) == Magnitude(r.stop - r.start) / Magnitude(r.step) + 1
  {
    hide Wrap64, TruncDiv;
    Fits64(r.stop - r.start);
    TruncAbs(r.stop - r.start, r.step);
    SpanQuotient(Magnitude(r.stop - r.start), Magnitude(r.step), 0);
  }

  lemma TruncAbs(a: int, b: int)
    requires b != 0
    ensures Magnitude(b) > 0 && Magnitude(TruncDiv(a, b)) == Magnitude(a) / Magnitude(b)
  {
    var q: nat := Magnitude(a) / Magnitude(b);
  }

  lemma Signs(r: Range, k: nat)
    requires Constructed(r) && r.step != 0
    ensures k * Magnitude(r.step) <= Magnitude(r.stop - r.start) <==> if r.step > 0 then Element(r, k) <= r.stop else Element(r, k) >= r.stop
  {
    assert k * r.step == if r.step > 0 then k * Magnitude(r.step) else -(k * Magnitude(r.step));
  }

  lemma SpanQuotient(span: nat, step: nat, k: nat)
    requires step > 0
    ensures k <= span / step <==> k * step <= span
    ensures step == 1 ==> span / step == span
  {
    var q := span / step;
    assert step * q <= span < step * q + step;
    if k <= q {
      MulMono(step, k, q);
    } else {
      MulMono(step, q + 1, k);
    }
    assert step * (q + 1) == step * q + step && k * step == step * k;
  }

  lemma {:induction false} Monotone(r: Range, j: nat, k: nat)
    requires j <= k
    ensures r.step >= 0 ==> Element(r, j) <= Element(r, k)
    ensures r.step <= 0 ==> Element(r, j) >= Element(r, k)
  {
    var s := Magnitude(r.step);
    MulMono(s, j, k);
    assert j * r.step == if r.step >= 0 then s * j else -(s * j);
    assert k * r.step == if r.step >= 0 then s * k else -(s * k);
  }

  /** Every value lies between the bounds. */
  lemma ElementInside(r: Range, k: nat)
    requires Constructed(r) && NoOverflow(r) && k < Length(r)
    ensures r.start <= Element(r, k) <= r.stop || r.stop <= Element(r, k) <= r.start
  {
    if r.step != 0 {
      LengthMeans(r, k);
      Monotone(r, 0, k);
    } else {
      assert Wrap64(r.stop - r.start) == 0;
    }
  }

  /** A number is in a range exactly when iterating yields it. */
  lemma ContainsExact(r: Range, num: i64)
    requires Constructed(r) && NoOverflow(r)
    ensures Contains(r, num) <==> num in Values(r)
  {
    if num in Values(r) {
      var k :| 0 <= k < Length(r) && Values(r)[k] == num;
      ElementInside(r, k);
      ContainsElement(r, num, k);
    }
    if Contains(r, num) {
      var k := IndexOf(r, num);
      assert Values(r)[k] == num;
    }
  }

  lemma ContainsElement(r: Range, num: i64, k: nat)
    requires Constructed(r) && NoOverflow(r) && k < Length(r) && num == Element(r, k)
    requires r.start <= num <= r.stop || r.stop <= num <= r.start
    ensures Contains(r, num)
  {
    if r.step != 0 {
      Fits64(num - r.start);
      Multiple(k, r.step);
      LengthMeans(r, k);
      Monotone(r, 0, k);
    }
  }

  lemma Multiple(k: nat, step: int)
    requires step != 0
    ensures TruncMod(k * step, step) == 0
  {
    var s := Magnitude(step);
    assert Magnitude(k * step) == s * k;
    Quotient(s * k, s, k, 0);
  }

  lemma IndexOf(r: Range, num: i64) returns (k: nat)
    requires Constructed(r) && NoOverflow(r) && Contains(r, num)
    ensures k < Length(r) && Element(r, k) == num
  {
    if r.step == 0 {
      k := 0;
    } else {
      Fits64(num - r.start);
      var d, s := Magnitude(num - r.start), Magnitude(r.step);
      k := d / s;
      assert d == s * k + d % s;
      assert d % s == 0;
      assert k * r.step == if r.step > 0 then s * k else -(s * k);
      LengthMeans(r, k);
    }
  }

  /** Iterating ends and yields exactly the values of the range, in order. */
  method Collect(r: Range) returns (out: seq<int>)
    requires Constructed(r) && NoOverflow(r)
    ensures out == Values(r)
  {
    hide Wrap64, Length;
    var iter := new RangeIter(r);
    var v := iter.Start();
    out := [v];
    var more := true;
    FirstValue(r);
    while more
      invariant 1 <= |out| <= Length(r) && (forall k | 0 <= k < |out| :: out[k] == Element(r, k))
      invariant more ==> iter.val == Element(r, |out| - 1)
      invariant !more ==> |out| == Length(r)
      decreases Length(r) - |out| + if more then 1 else 0
    {
      ghost var n := |out|;
      StepInside(r, n - 1);
      more, v := iter.Next();
      if more { out := out + [v]; }
    }
  }

  lemma FirstValue(r: Range)
    ensures Element(r, 0) == r.start && Length(r) >= 1
  {
  }

  lemma StepInside(r: Range, k: nat)
    requires Constructed(r) && NoOverflow(r) && k < Length(r)
    ensures r.step == 0 ==> Length(r) == 1
    ensures r.step != 0 ==>
              && Wrap64(Element(r, k) + r.step) == Element(r, k + 1)
              && (k + 1 < Length(r) <==> if r.step > 0 then Element(r, k + 1) <= r.stop else Element(r, k + 1) >= r.stop)
  {
    if r.step != 0 {
      ElementInside(r, k);
      LengthMeans(r, k);
      LengthMeans(r, k + 1);
      assert (k + 1) * r.step == k * r.step + r.step;
      Fits64(Element(r, k) + r.step);
    } else {
      assert Wrap64(r.stop - r.start) == 0;
    }
  }

  /** Does indexing agree with iterating at `index`? */
  predicate IndexAgrees(r: Range, index: i64) {
    GetIndex(r, index) == if 0 <= index < Length(r) then Some(Wrap64(Element(r, index))) else None
  }

  /** The element at a position is itself a 64-bit integer. */
  predicate IndexFits(r: Range, index: i64) {
    index < 0 || -TWO63 <= r.start + index * r.step < TWO63
  }

  lemma WrapSum(a: int, b: int)
    ensures Wrap64(a + Wrap64(b)) == Wrap64(a + b)
  {
    var q := b / TWO64;
    assert b % TWO64 == b - q * TWO64;
    var k := if b % TWO64 < TWO63 then q else q + 1;
    assert Wrap64(b) == b - k * TWO64;
    WrapShift(a + b, k);
  }

  lemma WrapShift(x: int, k: int)
    ensures Wrap64(x - k * TWO64) == Wrap64(x)
  {
    assert (x - k * TWO64) % TWO64 == x % TWO64;
  }

  lemma IndexValue(r: Range, index: i64)
    ensures var v := Wrap64(r.start + index * r.step);
            GetIndex(r, index) == if index < 0 || (if r.start > r.stop then v < r.stop else v > r.stop) then None else Some(v)
  {
    hide Wrap64;
    WrapSum(r.start, index * r.step);
  }

  lemma IndexInside(r: Range, index: i64)
    requires Constructed(r) && NoOverflow(r) && IndexFits(r, index) && (r.start != r.stop || r.step > 0)
    ensures IndexAgrees(r, index)
  {
    hide Wrap64, Length, GetIndex;
    IndexValue(r, index);
    if index >= 0 {
      LengthMeans(r, index);
      Fits64(Element(r, index));
    }
  }

  /** Indexing gives the elements, and fails behind the last, for all indices whose
      position is a 64-bit integer, exactly when the bounds differ or the step is positive. */
  lemma IndexExact(r: Range)
    requires Constructed(r) && NoOverflow(r)
    ensures (forall index: i64 | IndexFits(r, index) :: IndexAgrees(r, index)) <==> r.start != r.stop || r.step > 0
  {
    hide IndexAgrees;
    if r.start != r.stop || r.step > 0 {
      forall index: i64 | IndexFits(r, index) ensures IndexAgrees(r, index) { IndexInside(r, index); }
    } else {
      OnePastTheEnd(r);
    }
  }

  lemma OnePastTheEnd(r: Range)
    requires Constructed(r) && NoOverflow(r) && r.start == r.stop && r.step <= 0
    ensures IndexFits(r, 1) && !IndexAgrees(r, 1)
  {
    hide Wrap64, GetIndex;
    IndexValue(r, 1);
    Fits64(r.start + r.step);
    Fits64(r.stop - r.start);
  }

  const LAST_INDEX: i64 := TWO63 - 1

  /** A large index wraps around and comes out in front of the stop: these ranges
      have six elements each. */
  lemma WrappedIndex()
    ensures GetIndex(Range(5, 10, 1), LAST_INDEX) == Some(-9223372036854775804) && Length(Range(5, 10, 1)) == 6
    ensures GetIndex(Range(0, 10, 2), LAST_INDEX) == Some(-2) && Length(Range(0, 10, 2)) == 6
  {
  }

  /** The stop is not within one step of the far end of the 64-bit integers. */
  predicate StopReached(r: Range) {
    (r.step > 0 ==> r.stop >= -TWO63 + r.step - 1) && (r.step < 0 ==> r.stop <= TWO63 + r.step)
  }

  /** No guard: indexing agrees with iterating at every index exactly when the position
      of the last possible index is still a 64-bit integer. */
  lemma IndexAlways(r: Range)
    requires Constructed(r) && NoOverflow(r) && StopReached(r)
    ensures (forall index: i64 :: IndexAgrees(r, index)) <==>
            && (r.start != r.stop || r.step > 0)
            && -TWO63 <= r.start + LAST_INDEX * r.step < TWO63
  {
    hide IndexAgrees;
    if r.start == r.stop && r.step <= 0 {
      OnePastTheEnd(r);
    } else if -TWO63 <= r.start + LAST_INDEX * r.step < TWO63 {
      forall index: i64 ensures IndexAgrees(r, index) {
        AllFit(r, index);
        IndexInside(r, index);
      }
    } else {
      var index := FirstWrapped(r);
      assert !IndexAgrees(r, index);
    }
  }

  lemma AllFit(r: Range, index: i64)
    requires -TWO63 <= r.start + LAST_INDEX * r.step < TWO63
    ensures IndexFits(r, index)
  {
    if index >= 0 {
      Monotone(r, 0, index);
      Monotone(r, index, LAST_INDEX);
    }
  }

  /** The first position out of the 64-bit integers is less than one step out. */
  lemma FirstOutside(r: Range) returns (index: i64)
    requires r.step != 0 && !(-TWO63 <= r.start + LAST_INDEX * r.step < TWO63)
    ensures index > 0
    ensures var p := r.start + index * r.step;
            if r.step > 0 then TWO63 <= p < TWO63 + r.step else -TWO63 + r.step <= p < -TWO63
  {
    var room: nat := if r.step > 0 then TWO63 - 1 - r.start else r.start + TWO63;
    var step := Magnitude(r.step);
    LastBelow(r, LAST_INDEX);
    index := QuotientNext(room, step);
    LastBelow(r, index);
  }

  lemma LastBelow(r: Range, k: nat)
    ensures k * r.step == if r.step > 0 then k * Magnitude(r.step) else -(k * Magnitude(r.step))
  {
  }

  lemma QuotientNext(room: nat, step: nat) returns (k: nat)
    requires step > 0 && LAST_INDEX * step > room
    ensures 0 < k <= LAST_INDEX && room < k * step <= room + step
  {
    var q := room / step;
    SpanQuotient(room, step, q);
    SpanQuotient(room, step, q + 1);
    SpanQuotient(room, step, LAST_INDEX);
    k := q + 1;
    assert k * step == q * step + step;
  }

  /** It comes back in at the other end. */
  lemma FirstWrapped(r: Range) returns (index: i64)
    requires Constructed(r) && NoOverflow(r) && StopReached(r) && (r.start != r.stop || r.step > 0)
    requires !(-TWO63 <= r.start + LAST_INDEX * r.step < TWO63)
    ensures !IndexAgrees(r, index)
  {
    hide Wrap64, GetIndex, Length;
    index := FirstOutside(r);
    Around(r, index);
    IndexValue(r, index);
    LengthMeans(r, index);
  }

  lemma Around(r: Range, index: i64)
    requires var p := r.start + index * r.step; TWO63 <= p < TWO64 || -TWO64 <= p < -TWO63
    ensures var p := r.start + index * r.step; Wrap64(p) == if p < 0 then p + TWO64 else p - TWO64
  {
  }

  /** For ranges written with `..` without further conditions: all indices agree
      upwards from at most 0, and downwards from at least -1. */
  lemma OperatorIndex(start: i64, stop: i64, equal: bool)
    requires NoOverflow(MakeRange(start, stop, equal))
    ensures var r := MakeRange(start, stop, equal);
            (forall index: i64 :: IndexAgrees(r, index)) <==> if r.start <= r.stop then start <= 0 else start >= -1
  {
    hide IndexAgrees, Wrap64;
    MadeRangesValid(start, stop, equal);
    IndexAlways(MakeRange(start, stop, equal));
  }

  /** The constructor takes the ranges whose step leads from the start to the stop, and any
      step between equal bounds. */
  lemma ConstructedExact(r: Range)
    ensures Constructed(r) <==>
              r.start == r.stop || (r.start < r.stop && r.step > 0) || (r.start > r.stop && r.step < 0)
  {
  }

  /** Ranges written with `..` pass validation and step by one. */
  lemma MadeRangesValid(start: i64, stop: i64, equal: bool)
    ensures Constructed(MakeRange(start, stop, equal))
  {
  }

  /** `start..<stop` leaves its stop out, and is what it says, if and only if the start
      is below it: otherwise it counts down from the start past the stop. */
  lemma ExclusiveExact(start: i64, stop: i64)
    requires NoOverflow(MakeRange(start, stop, false))
    ensures stop !in Values(MakeRange(start, stop, false)) <==> start < stop
    ensures forall x: i64 :: x in Values(MakeRange(start, stop, false)) <==>
              if start < stop then start <= x < stop else stop - 1 <= x <= start
  {
    hide Contains, Values, Constructed;
    var r := MakeRange(start, stop, false);
    MadeRangesValid(start, stop, false);
    if stop > -TWO63 {
      Fits64(stop - 1);
    }
    forall x: i64 ensures x in Values(r) <==> if start < stop then start <= x < stop else stop - 1 <= x <= start {
      ContainsExact(r, x);
      UnitContains(r, x);
    }
  }

  /** `start..stop` begins with its start, ends with its stop and has all numbers between
      them, upwards or downwards. */
  lemma InclusiveExact(start: i64, stop: i64)
    requires NoOverflow(Range(start, stop, if stop >= start then 1 else -1))
    ensures var vs := Values(MakeRange(start, stop, true));
            && |vs| == Magnitude(stop - start) + 1 && vs[0] == start && vs[|vs| - 1] == stop
            && (forall x: i64 :: x in vs <==> start <= x <= stop || stop <= x <= start)
            && (forall k | 0 <= k < |vs| - 1 :: vs[k + 1] - vs[k] == if stop >= start then 1 else -1)
  {
    hide Contains, Constructed, Values, MakeRange, NoOverflow;
    var r := MakeRange(start, stop, true);
    MadeRangesValid(start, stop, true);
    Inclusive(start, stop);
    UnitValues(r);
    forall x: i64 ensures x in Values(r) <==> start <= x <= stop || stop <= x <= start {
      ContainsExact(r, x);
      UnitContains(r, x);
    }
  }

  lemma Inclusive(start: i64, stop: i64)
    ensures MakeRange(start, stop, true) == Range(start, stop, if stop >= start then 1 else -1)
  {
  }

  /** A range that steps by one has the length of its span and one more. */
  lemma UnitValues(r: Range)
    requires r.step == (if r.stop >= r.start then 1 else -1) && NoOverflow(r)
    ensures |Values(r)| == Magnitude(r.stop - r.start) + 1
    ensures forall k | 0 <= k < |Values(r)| :: Values(r)[k] == r.start + k * r.step
  {
    Fits64(r.stop - r.start);
    assert TruncDiv(r.stop - r.start, r.step) == Magnitude(r.stop - r.start);
  }

  lemma UnitContains(r: Range, x: i64)
    requires r.step == (if r.stop >= r.start then 1 else -1) && NoOverflow(r)
    ensures Contains(r, x) <==> r.start <= x <= r.stop || r.stop <= x <= r.start
  {
    if r.start <= x <= r.stop || r.stop <= x <= r.start {
      Fits64(x - r.start);
      Multiple(Magnitude(x - r.start), if x < r.start then -1 else 1);
    }
  }
}
