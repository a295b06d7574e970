/** Patching: filling in the recorded holes of a statement gives the code in
    which those jumps are resolved. */
module Holes {
  import opened Words
  import opened Opcodes
  import opened Syntax
  import opened Source
  import opened Codegen
  import opened StmtCode
  import opened Chunk

  function Offset(holes: seq<nat>, n: nat): (h: seq<nat>)
    ensures |h| == |holes|
  {
    seq(|holes|, i requires 0 <= i < |holes| => holes[i] + n)
  }

  /** Holes of two pieces, at `o1` and at `o2`. */
  function Two(h1: seq<nat>, o1: nat, h2: seq<nat>, o2: nat): seq<nat> {
    Offset(h1, o1) + Offset(h2, o2)
  }

  predicate Rebinds(tag: Option<string>, t: Target) {
    t in {Exit(None), Again(None), Exit(tag), Again(tag)}
  }

  /** Where the jumps of `s` to `t` keep their distances, from the start of `s`. */
  function HolesOf(top: bool, s: Stmt, st: CState, K: Ctx, t: Target): seq<nat>
    decreases s
  {
    match s
    case Block(ss) => Offset(HolesOfAll(top, ss, Enter(st), Shift(K, 1), t), 2)
    case If(c, thn, els) =>
      var st1 := AddPool(st, ExprConsts(c));
      var fc := Code(top, els, After(thn, st1), K);
      var tK := Shift(K, |ElseTail(els, fc)|);
      var o := |ExprCode(c, top, st.syms, st.nextReg, st.pool)| + 4;
      Two(HolesOf(top, thn, st1, tK, t), o,
          HolesOf(top, els, After(thn, st1), K, t), o + |Code(top, thn, st1, tK)| + 3)
    case While(c, tag, body, els) =>
      if Rebinds(tag, t) then []
      else
        var st1 := AddPool(st, ExprConsts(c));
        var ec := Code(top, els, After(body, st1), ElseCtx(K, tag));
        var bK := BodyCtx(K, tag, 3 + |ec|);
        var o := |ExprCode(c, top, st.syms, st.nextReg, st.pool)| + 4;
        Two(HolesOf(top, body, st1, bK, t), o,
            HolesOf(top, els, After(body, st1), ElseCtx(K, tag), t), o + |Code(top, body, st1, bK)| + 3)
    case Repeat(body, c, tag) =>
      if Rebinds(tag, t) then []
      else
        var st1 := After(body, st);
        Offset(HolesOf(top, body, st, BodyCtx(K, tag, |ExprCode(c, top, st1.syms, st1.nextReg, st1.pool)| + 7), t), 0)
    case Break(tag) => if t == Exit(tag) then [1] else []
    case Continue(tag) => if t == Again(tag) then [1] else []
    case _ => []
  }

  function HolesOfAll(top: bool, ss: seq<Stmt>, st: CState, K: Ctx, t: Target): seq<nat>
    decreases ss
  {
    if ss == [] then []
    else
      var st1 := After(ss[0], st);
      var K0 := Shift(K, |CodeAll(top, ss[1..], st1, K)|);
      Two(HolesOf(top, ss[0], st, K0, t), 0,
          HolesOfAll(top, ss[1..], st1, K, t), |Code(top, ss[0], st, K0)|)
  }

  /** patchJump on every hole in turn, all landing at `target`. */
  function PatchAll(block: seq<u8>, holes: seq<nat>, target: nat): (b: seq<u8>)
    ensures |b| == |block|
    decreases holes
  {
    if holes == [] then block
    else PatchAll(Patch(block, holes[0], target - holes[0] - 2), holes[1..], target)
  }

  lemma {:induction false} PatchAllSplit(block: seq<u8>, a: seq<nat>, b: seq<nat>, target: nat)
    ensures PatchAll(block, a + b, target) == PatchAll(PatchAll(block, a, target), b, target)
    decreases a
  {
    if a == [] {
      assert a + b == b;
    } else {
      assert (a + b)[1..] == a[1..] + b;
      PatchAllSplit(Patch(block, a[0], target - a[0] - 2), a[1..], b, target);
    }
  }

  /* Lengths do not depend on distances. */

  lemma {:induction false} SameLength(top: bool, s: Stmt, st: CState, K: Ctx, K': Ctx)
    requires K.Keys == K'.Keys
    ensures |Code(top, s, st, K)| == |Code(top, s, st, K')|
    decreases s, 1
  {
    hide ExprCode, ExprConsts, After, Shift, LoopCtx, ElseTail, OverThen, CodeAll, IfCode, WhileCode, RepeatCode;
    match s
    case Block(ss) => SameLengthAll(top, ss, Enter(st), Shift(K, 1), Shift(K', 1));
    case If(c, t, f) => SameLengthIf(top, s, st, K, K');
    case While(c, tag, body, els) => SameLengthWhile(top, s, st, K, K');
    case Repeat(body, c, tag) =>
      var st1 := After(body, st);
      var cc := ExprCode(c, top, st1.syms, st1.nextReg, st1.pool);
      var n := |cc| + 7;
      var bK, bK' := BodyCtx(K, tag, n), BodyCtx(K', tag, n);
      SameLength(top, body, st, bK, bK');
      Lengths([], st1.nextReg, Empty, Code(top, body, st, bK), cc);
      Lengths([], st1.nextReg, Empty, Code(top, body, st, bK'), cc);
    case _ =>
  }

  lemma Lengths(cc: seq<u8>, r: nat, f: Stmt, a: seq<u8>, b: seq<u8>)
    ensures |IfCode(cc, r, f, a, b)| == |cc| + 4 + |a| + |ElseTail(f, b)|
    ensures |ElseTail(f, b)| == if f.Empty? then 0 else 3 + |b|
    ensures |WhileCode(cc, r, a, b)| == |cc| + 4 + |a| + 3 + |b|
    ensures |RepeatCode(a, b, r)| == |a| + |b| + 7
  {
  }

  lemma {:induction false} SameLengthIf(top: bool, s: Stmt, st: CState, K: Ctx, K': Ctx)
    requires s.If? && K.Keys == K'.Keys
    ensures |Code(top, s, st, K)| == |Code(top, s, st, K')|
    decreases s, 0
  {
    hide ExprCode, ExprConsts, After, Shift, IfCode, ElseTail;
    var If(c, t, f) := s;
    var st1 := AddPool(st, ExprConsts(c));
    var st2 := After(t, st1);
    var fc, fc' := Code(top, f, st2, K), Code(top, f, st2, K');
    var tK, tK' := Shift(K, |ElseTail(f, fc)|), Shift(K', |ElseTail(f, fc')|);
    SameLength(top, f, st2, K, K');
    SameLength(top, t, st1, tK, tK');
    var cc := ExprCode(c, top, st.syms, st.nextReg, st.pool);
    Lengths(cc, st.nextReg, f, Code(top, t, st1, tK), fc);
    Lengths(cc, st.nextReg, f, Code(top, t, st1, tK'), fc');
  }

  lemma {:induction false} SameLengthWhile(top: bool, s: Stmt, st: CState, K: Ctx, K': Ctx)
    requires s.While? && K.Keys == K'.Keys
    ensures |Code(top, s, st, K)| == |Code(top, s, st, K')|
    decreases s, 0
  {
    hide ExprCode, ExprConsts, After, Shift, LoopCtx, WhileCode;
    var While(c, tag, body, els) := s;
    var st1 := AddPool(st, ExprConsts(c));
    var st2 := After(body, st1);
    var ec, ec' := Code(top, els, st2, ElseCtx(K, tag)), Code(top, els, st2, ElseCtx(K', tag));
    var bK, bK' := BodyCtx(K, tag, 3 + |ec|), BodyCtx(K', tag, 3 + |ec'|);
    SameLength(top, els, st2, ElseCtx(K, tag), ElseCtx(K', tag));
    SameLength(top, body, st1, bK, bK');
    var cc := ExprCode(c, top, st.syms, st.nextReg, st.pool);
    Lengths(cc, st.nextReg, Empty, Code(top, body, st1, bK), ec);
    Lengths(cc, st.nextReg, Empty, Code(top, body, st1, bK'), ec');
  }

  lemma {:induction false} SameLengthAll(top: bool, ss: seq<Stmt>, st: CState, K: Ctx, K': Ctx)
    requires K.Keys == K'.Keys
    ensures |CodeAll(top, ss, st, K)| == |CodeAll(top, ss, st, K')|
    decreases ss
  {
    hide Code, After, Shift;
    if ss != [] {
      var st1 := After(ss[0], st);
      SameLengthAll(top, ss[1..], st1, K, K');
      SameLength(top, ss[0], st, Shift(K, |CodeAll(top, ss[1..], st1, K)|), Shift(K', |CodeAll(top, ss[1..], st1, K')|));
    }
  }

  /* Nor do the places of the holes. */

  lemma {:induction false} SameHoles(top: bool, s: Stmt, st: CState, K: Ctx, K': Ctx, t: Target)
    requires K.Keys == K'.Keys
    ensures HolesOf(top, s, st, K, t) == HolesOf(top, s, st, K', t)
    decreases s, 1
  {
    hide ExprCode, ExprConsts, After, Shift, LoopCtx, ElseTail, Offset, Code, CodeAll, HolesOfAll;
    match s
    case Block(ss) => SameHolesAll(top, ss, Enter(st), Shift(K, 1), Shift(K', 1), t);
    case If(_, _, _) => SameHolesIf(top, s, st, K, K', t);
    case While(_, _, _, _) => SameHolesWhile(top, s, st, K, K', t);
    case Repeat(body, c, tag) =>
      var st1 := After(body, st);
      var n := |ExprCode(c, top, st1.syms, st1.nextReg, st1.pool)| + 7;
      SameHoles(top, body, st, BodyCtx(K, tag, n), BodyCtx(K', tag, n), t);
    case _ =>
  }

  lemma {:induction false} SameHolesIf(top: bool, s: Stmt, st: CState, K: Ctx, K': Ctx, t: Target)
    requires s.If? && K.Keys == K'.Keys
    ensures HolesOf(top, s, st, K, t) == HolesOf(top, s, st, K', t)
    decreases s, 0
  {
    hide ExprCode, ExprConsts, After, Shift, Offset, Code;
    var If(c, thn, els) := s;
    var st1 := AddPool(st, ExprConsts(c));
    var st2 := After(thn, st1);
    var fc, fc' := Code(top, els, st2, K), Code(top, els, st2, K');
    SameLength(top, els, st2, K, K');
    var n, n' := |ElseTail(els, fc)|, |ElseTail(els, fc')|;
    assert n == n';
    SameLength(top, thn, st1, Shift(K, n), Shift(K', n));
    SameHoles(top, els, st2, K, K', t);
    SameHoles(top, thn, st1, Shift(K, n), Shift(K', n), t);
  }

  lemma {:induction false} SameHolesWhile(top: bool, s: Stmt, st: CState, K: Ctx, K': Ctx, t: Target)
    requires s.While? && K.Keys == K'.Keys
    ensures HolesOf(top, s, st, K, t) == HolesOf(top, s, st, K', t)
    decreases s, 0
  {
    hide ExprCode, ExprConsts, After, Shift, Offset, Code, LoopCtx;
    var While(c, tag, body, els) := s;
    var st1 := AddPool(st, ExprConsts(c));
    var st2 := After(body, st1);
    var eK, eK' := ElseCtx(K, tag), ElseCtx(K', tag);
    SameLength(top, els, st2, eK, eK');
    var n := 3 + |Code(top, els, st2, eK)|;
    SameLength(top, body, st1, BodyCtx(K, tag, n), BodyCtx(K', tag, n));
    SameHoles(top, els, st2, eK, eK', t);
    SameHoles(top, body, st1, BodyCtx(K, tag, n), BodyCtx(K', tag, n), t);
  }

  lemma {:induction false} SameHolesAll(top: bool, ss: seq<Stmt>, st: CState, K: Ctx, K': Ctx, t: Target)
    requires K.Keys == K'.Keys
    ensures HolesOfAll(top, ss, st, K, t) == HolesOfAll(top, ss, st, K', t)
    decreases ss
  {
    hide Code, CodeAll, After, Shift, HolesOf, Offset;
    if ss != [] {
      var st1 := After(ss[0], st);
      SameLengthAll(top, ss[1..], st1, K, K');
      var n := |CodeAll(top, ss[1..], st1, K)|;
      SameLength(top, ss[0], st, Shift(K, n), Shift(K', n));
      SameHoles(top, ss[0], st, Shift(K, n), Shift(K', n), t);
      SameHolesAll(top, ss[1..], st1, K, K', t);
    }
  }

  /* Holes lie inside the code. */

  ghost predicate Inside(holes: seq<nat>, n: nat) {
    forall h | h in holes :: h + 1 < n
  }

  lemma InsideOffset(holes: seq<nat>, n: nat, k: nat)
    requires Inside(holes, n)
    ensures Inside(Offset(holes, k), n + k)
  {
    forall h | h in Offset(holes, k) ensures h + 1 < n + k {
      var i :| 0 <= i < |holes| && Offset(holes, k)[i] == h;
      assert holes[i] in holes;
    }
  }

  lemma InsideTwo(h1: seq<nat>, n1: nat, o1: nat, h2: seq<nat>, n2: nat, o2: nat, n: nat)
    requires Inside(h1, n1) && Inside(h2, n2) && n1 + o1 <= n && (h2 == [] || n2 + o2 <= n)
    ensures Inside(Two(h1, o1, h2, o2), n)
  {
    InsideOffset(h1, n1, o1);
    InsideOffset(h2, n2, o2);
  }

  lemma {:induction false} HolesInside(top: bool, s: Stmt, st: CState, K: Ctx, t: Target)
    requires t in K
    ensures Inside(HolesOf(top, s, st, K, t), |Code(top, s, st, K)|)
    decreases s, 1
  {
    hide ExprCode, ExprConsts, After, Shift, LoopCtx, ElseTail, OverThen, Offset, CodeAll, HolesOfAll, IfCode, WhileCode,
      RepeatCode;
    match s
    case Block(ss) =>
      var K1 := Shift(K, 1);
      HolesInsideAll(top, ss, Enter(st), K1, t);
      InsideOffset(HolesOfAll(top, ss, Enter(st), K1, t), |CodeAll(top, ss, Enter(st), K1)|, 2);
    case If(_, _, _) => HolesInsideIf(top, s, st, K, t);
    case While(_, _, _, _) => HolesInsideWhile(top, s, st, K, t);
    case Repeat(body, c, tag) =>
      var st1 := After(body, st);
      var cc := ExprCode(c, top, st1.syms, st1.nextReg, st1.pool);
      var bK := BodyCtx(K, tag, |cc| + 7);
      HolesInside(top, body, st, bK, t);
      Lengths([], st1.nextReg, Empty, Code(top, body, st, bK), cc);
      InsideOffset(HolesOf(top, body, st, bK, t), |Code(top, body, st, bK)|, 0);
    case _ =>
  }

  lemma {:induction false} HolesInsideIf(top: bool, s: Stmt, st: CState, K: Ctx, t: Target)
    requires s.If? && t in K
    ensures Inside(HolesOf(top, s, st, K, t), |Code(top, s, st, K)|)
    decreases s, 0
  {
    hide ExprCode, ExprConsts, After, Shift, Two, IfCode, ElseTail, Inside;
    var If(c, thn, els) := s;
    var st1 := AddPool(st, ExprConsts(c));
    var st2 := After(thn, st1);
    var fc := Code(top, els, st2, K);
    var tK := Shift(K, |ElseTail(els, fc)|);
    var tc := Code(top, thn, st1, tK);
    HolesInside(top, els, st2, K, t);
    HolesInside(top, thn, st1, tK, t);
    var cc := ExprCode(c, top, st.syms, st.nextReg, st.pool);
    Lengths(cc, st.nextReg, els, tc, fc);
    InsideTwo(HolesOf(top, thn, st1, tK, t), |tc|, |cc| + 4, HolesOf(top, els, st2, K, t), |fc|, |cc| + 4 + |tc| + 3,
              |Code(top, s, st, K)|);
  }

  lemma {:induction false} HolesInsideWhile(top: bool, s: Stmt, st: CState, K: Ctx, t: Target)
    requires s.While? && t in K
    ensures Inside(HolesOf(top, s, st, K, t), |Code(top, s, st, K)|)
    decreases s, 0
  {
    hide ExprCode, ExprConsts, After, Shift, LoopCtx, Two, WhileCode;
    var While(c, tag, body, els) := s;
    if !Rebinds(tag, t) {
      var st1 := AddPool(st, ExprConsts(c));
      var st2 := After(body, st1);
      var eK := ElseCtx(K, tag);
      var ec := Code(top, els, st2, eK);
      var bK := BodyCtx(K, tag, 3 + |ec|);
      var bc := Code(top, body, st1, bK);
      HolesInside(top, els, st2, eK, t);
      HolesInside(top, body, st1, bK, t);
      var cc := ExprCode(c, top, st.syms, st.nextReg, st.pool);
      Lengths(cc, st.nextReg, Empty, bc, ec);
      InsideTwo(HolesOf(top, body, st1, bK, t), |bc|, |cc| + 4, HolesOf(top, els, st2, eK, t), |ec|, |cc| + 4 + |bc| + 3,
                |Code(top, s, st, K)|);
    }
  }

  lemma {:induction false} HolesInsideAll(top: bool, ss: seq<Stmt>, st: CState, K: Ctx, t: Target)
    requires t in K
    ensures Inside(HolesOfAll(top, ss, st, K, t), |CodeAll(top, ss, st, K)|)
    decreases ss
  {
    hide Code, After, Shift, HolesOf, Two;
    if ss != [] {
      var st1 := After(ss[0], st);
      var n := |CodeAll(top, ss[1..], st1, K)|;
      HolesInside(top, ss[0], st, Shift(K, n), t);
      HolesInsideAll(top, ss[1..], st1, K, t);
      InsideTwo(HolesOf(top, ss[0], st, Shift(K, n), t), |Code(top, ss[0], st, Shift(K, n))|, 0,
                HolesOfAll(top, ss[1..], st1, K, t), n, |Code(top, ss[0], st, Shift(K, n))|, |CodeAll(top, ss, st, K)|);
    }
  }

  lemma OffsetJoin(a: seq<nat>, b: seq<nat>, n: nat)
    ensures Offset(a + b, n) == Offset(a, n) + Offset(b, n)
  {
  }

  lemma OffsetTwice(a: seq<nat>, n: nat, k: nat)
    ensures Offset(Offset(a, n), k) == Offset(a, n + k)
  {
  }

  /** Resolving a target commutes with moving the context. */
  lemma ShiftCommute(K: Ctx, t: Target, d: nat, n: nat)
    requires t in K && K[t] == Open
    ensures Shift(K, n)[t := At(d + n)] == Shift(K[t := At(d)], n) && Shift(K, n)[t] == Open
    ensures Shift(K, n)[t := At(d + n)].Keys == Shift(K, n).Keys && K[t := At(d)].Keys == K.Keys
  {
  }

  /** A loop rebinds some targets and passes the others on. */
  lemma LoopRebinds(K: Ctx, t: Target, d: nat, n: nat, tag: Option<string>)
    requires t in K && K[t] == Open && Rebinds(tag, t)
    ensures BodyCtx(K, tag, n) == BodyCtx(K[t := At(d)], tag, n) && ElseCtx(K, tag) == ElseCtx(K[t := At(d)], tag)
  {
    ShiftCommute(K, t, d, n);
  }

  lemma LoopPasses(K: Ctx, t: Target, d: nat, n: nat, tag: Option<string>)
    requires t in K && K[t] == Open && !Rebinds(tag, t)
    ensures var bK := BodyCtx(K, tag, n);
            t in bK && bK[t] == Open && bK[t := At(d + n)] == BodyCtx(K[t := At(d)], tag, n)
    ensures var eK := ElseCtx(K, tag);
            t in eK && eK[t] == Open && eK[t := At(d)] == ElseCtx(K[t := At(d)], tag)
  {
    hide Shift, LoopCtx;
    ShiftCommute(K, t, d, n);
    CtxPasses(Shift(K, n), t, At(d + n), tag, At(n), At(0));
    CtxPasses(K, t, At(d), tag, At(0), Open);
  }

  lemma CtxPasses(K: Ctx, t: Target, x: Dist, tag: Option<string>, exit: Dist, again: Dist)
    requires t in K && K[t] == Open && !Rebinds(tag, t)
    ensures var L := LoopCtx(K, tag, exit, again);
            t in L && L[t] == Open && L[t := x] == LoopCtx(K[t := x], tag, exit, again)
  {
    var L, L' := LoopCtx(K, tag, exit, again)[t := x], LoopCtx(K[t := x], tag, exit, again);
    forall k ensures k in L <==> k in L' ensures k in L ==> L[k] == L'[k] {}
  }

  /* Patching pieces, on plain byte sequences. */

  ghost predicate Patched(pre: seq<u8>, c: seq<u8>, c': seq<u8>, suf: seq<u8>, holes: seq<nat>, d: nat) {
    PatchAll(pre + c + suf, Offset(holes, |pre|), |pre| + |c| + d) == pre + c' + suf
  }

  lemma PatchedTwo(pre: seq<u8>, head: seq<u8>, a: seq<u8>, a': seq<u8>, mid: seq<u8>, b: seq<u8>, b': seq<u8>,
                   suf: seq<u8>, h1: seq<nat>, o1: nat, h2: seq<nat>, o2: nat, d: nat)
    requires |a'| == |a| && |b'| == |b| && o1 == |head| && (h2 == [] || o2 == |head| + |a| + |mid|)
    requires Patched(pre + head, a, a', (mid + b) + suf, h1, |mid| + |b| + d)
    requires if h2 == [] then b' == b else Patched(pre + head + a' + mid, b, b', suf, h2, d)
    ensures Patched(pre, head + (a + (mid + b)), head + (a' + (mid + b')), suf, Two(h1, o1, h2, o2), d)
  {
    hide PatchAll;
    var target := |pre| + |head| + |a| + |mid| + |b| + d;
    OffsetJoin(Offset(h1, o1), Offset(h2, o2), |pre|);
    OffsetTwice(h1, o1, |pre|);
    OffsetTwice(h2, o2, |pre|);
    var B := pre + (head + (a + (mid + b))) + suf;
    PatchAllSplit(B, Offset(h1, o1 + |pre|), Offset(h2, o2 + |pre|), target);
    assert B == (pre + head) + a + ((mid + b) + suf);
    var B1 := (pre + head) + a' + ((mid + b) + suf);
    assert B1 == (pre + head + a' + mid) + b + suf;
    assert (pre + head + a' + mid) + b' + suf == pre + (head + (a' + (mid + b'))) + suf;
    if h2 == [] {
      assert Offset(h2, o2 + |pre|) == [];
      PatchNone(B1, target);
    }
  }

  lemma PatchNone(b: seq<u8>, target: nat)
    ensures PatchAll(b, [], target) == b
  {
  }

  lemma PatchedIf(pre: seq<u8>, cc: seq<u8>, r: nat, f: Stmt, tc: seq<u8>, tc': seq<u8>, fc: seq<u8>, fc': seq<u8>,
                  suf: seq<u8>, h1: seq<nat>, h2: seq<nat>, d: nat)
    requires |tc'| == |tc| && |fc'| == |fc|
    requires f.Empty? ==> h2 == [] && fc == fc' == []
    requires var head := cc + BranchCode(OP_JUMP_FALSE, r, OverThen(f, tc));
             && Patched(pre + head, tc, tc', ElseTail(f, fc) + suf, h1, |ElseTail(f, fc)| + d)
             && (!f.Empty? ==> Patched(pre + head + tc' + JumpCode(|fc|), fc, fc', suf, h2, d))
    ensures Patched(pre, IfCode(cc, r, f, tc, fc), IfCode(cc, r, f, tc', fc'), suf,
                    Two(h1, |cc| + 4, h2, |cc| + 4 + |tc| + 3), d)
  {
    hide PatchAll, Offset;
    var br := BranchCode(OP_JUMP_FALSE, r, OverThen(f, tc));
    var mid := if f.Empty? then [] else JumpCode(|fc|);
    assert mid + fc == ElseTail(f, fc) && mid + fc' == ElseTail(f, fc');
    if h2 == [] && !f.Empty? { NoHoles(pre + (cc + br) + tc' + mid, fc, fc', suf, d); }
    PatchedTwo(pre, cc + br, tc, tc', mid, fc, fc', suf, h1, |cc| + 4, h2, |cc| + 4 + |tc| + 3, d);
    assert (cc + br) + (tc + (mid + fc)) == cc + (br + (tc + (mid + fc)));
    assert (cc + br) + (tc' + (mid + fc')) == cc + (br + (tc' + (mid + fc')));
  }

  lemma NoHoles(pre: seq<u8>, c: seq<u8>, c': seq<u8>, suf: seq<u8>, d: nat)
    requires Patched(pre, c, c', suf, [], d) && |c| == |c'|
    ensures c == c'
  {
    assert Offset([], |pre|) == [];
    assert (pre + c + suf)[|pre|..|pre| + |c|] == c;
    assert (pre + c' + suf)[|pre|..|pre| + |c|] == c';
  }

  lemma PatchedWhile(pre: seq<u8>, cc: seq<u8>, r: nat, bc: seq<u8>, bc': seq<u8>, ec: seq<u8>, ec': seq<u8>,
                     suf: seq<u8>, h1: seq<nat>, h2: seq<nat>, d: nat)
    requires |bc'| == |bc| && |ec'| == |ec|
    requires var head, loop := cc + BranchCode(OP_JUMP_FALSE, r, |bc| + 3), LoopCode(|cc| + |bc| + 7);
             && Patched(pre + head, bc, bc', (loop + ec) + suf, h1, 3 + |ec| + d)
             && Patched(pre + head + bc' + loop, ec, ec', suf, h2, d)
    ensures Patched(pre, WhileCode(cc, r, bc, ec), WhileCode(cc, r, bc', ec'), suf,
                    Two(h1, |cc| + 4, h2, |cc| + 4 + |bc| + 3), d)
  {
    hide PatchAll, Offset;
    var br, loop := BranchCode(OP_JUMP_FALSE, r, |bc| + 3), LoopCode(|cc| + |bc| + 7);
    if h2 == [] { NoHoles(pre + (cc + br) + bc' + loop, ec, ec', suf, d); }
    PatchedTwo(pre, cc + br, bc, bc', loop, ec, ec', suf, h1, |cc| + 4, h2, |cc| + 4 + |bc| + 3, d);
    assert (cc + br) + (bc + (loop + ec)) == cc + (br + (bc + (loop + ec)));
    assert (cc + br) + (bc' + (loop + ec')) == cc + (br + (bc' + (loop + ec')));
  }

  lemma PatchedWrap(pre: seq<u8>, head: seq<u8>, a: seq<u8>, a': seq<u8>, tail: seq<u8>, suf: seq<u8>, h: seq<nat>, d: nat)
    requires |a'| == |a|
    requires Patched(pre + head, a, a', tail + suf, h, |tail| + d)
    ensures Patched(pre, head + (a + tail), head + (a' + tail), suf, Offset(h, |head|), d)
  {
    hide PatchAll;
    OffsetTwice(h, |head|, |pre|);
    assert pre + (head + (a + tail)) + suf == (pre + head) + a + (tail + suf);
    assert pre + (head + (a' + tail)) + suf == (pre + head) + a' + (tail + suf);
  }

  /* Patching statements. */

  /** What filling the holes of `s` for `t` must give, in any surroundings. */
  ghost predicate Filled(top: bool, s: Stmt, st: CState, K: Ctx, t: Target, pre: seq<u8>, suf: seq<u8>, d: nat)
    requires t in K
  {
    Patched(pre, Code(top, s, st, K), Code(top, s, st, K[t := At(d)]), suf, HolesOf(top, s, st, K, t), d)
  }

  /** Patching every hole of `s` for `t` to a place `d` bytes behind `s` gives the
      code of `s` with that target resolved, whatever surrounds it. */
  lemma {:induction false} FillHoles(top: bool, s: Stmt, st: CState, K: Ctx, t: Target, pre: seq<u8>, suf: seq<u8>, d: nat)
    requires t in K && K[t] == Open
    ensures Filled(top, s, st, K, t, pre, suf, d)
    decreases s, 2
  {
    match s
    case Block(ss) => FillBlock(top, s, st, K, t, pre, suf, d);
    case If(_, _, _) => FillIf(top, s, st, K, t, pre, suf, d);
    case While(_, _, _, _) => FillWhile(top, s, st, K, t, pre, suf, d);
    case Repeat(_, _, _) => FillRepeat(top, s, st, K, t, pre, suf, d);
    case Break(tag) => FillJump(top, s, st, K, Exit(tag), t, pre, suf, d);
    case Continue(tag) => FillJump(top, s, st, K, Again(tag), t, pre, suf, d);
    case _ =>
  }

  lemma FillJump(top: bool, s: Stmt, st: CState, K: Ctx, own: Target, t: Target, pre: seq<u8>, suf: seq<u8>, d: nat)
    requires s == (if own.Exit? then Break(own.tag) else Continue(own.tag))
    requires t in K && K[t] == Open
    ensures Filled(top, s, st, K, t, pre, suf, d)
  {
    hide Patch, JumpField;
    if t == own {
      var c := Code(top, s, st, K);
      assert pre + c + suf == (pre + [OP_JUMP]) + [0, 0] + suf;
      PatchHole(pre + [OP_JUMP], suf, d);
      var holes := Offset([1], |pre|);
      assert holes == [|pre| + 1] && holes[1..] == [];
      assert PatchAll(pre + c + suf, holes, |pre| + 3 + d) == Patch(pre + c + suf, |pre| + 1, d);
      assert pre + JumpCode(d) + suf == (pre + [OP_JUMP]) + JumpField(d) + suf;
    }
  }

  lemma {:induction false} FillBlock(top: bool, s: Stmt, st: CState, K: Ctx, t: Target, pre: seq<u8>, suf: seq<u8>, d: nat)
    requires s.Block? && t in K && K[t] == Open
    ensures Filled(top, s, st, K, t, pre, suf, d)
    decreases s, 1
  {
    hide Patched, Shift, Offset;
    var ss := s.stmts;
    var enter := [OP_ENTER_SCOPE, Low(st.nextReg)];
    ShiftCommute(K, t, d, 1);
    var K1 := Shift(K, 1);
    var body, body' := CodeAll(top, ss, Enter(st), K1), CodeAll(top, ss, Enter(st), K1[t := At(d + 1)]);
    SameLengthAll(top, ss, Enter(st), K1, K1[t := At(d + 1)]);
    FillHolesAll(top, ss, Enter(st), K1, t, pre + enter, [OP_EXIT_SCOPE] + suf, d + 1);
    PatchedWrap(pre, enter, body, body', [OP_EXIT_SCOPE], suf, HolesOfAll(top, ss, Enter(st), K1, t), d);
  }

  ghost predicate FilledAll(top: bool, ss: seq<Stmt>, st: CState, K: Ctx, t: Target, pre: seq<u8>, suf: seq<u8>, d: nat)
    requires t in K
  {
    Patched(pre, CodeAll(top, ss, st, K), CodeAll(top, ss, st, K[t := At(d)]), suf, HolesOfAll(top, ss, st, K, t), d)
  }

  lemma {:induction false} FillHolesAll(top: bool, ss: seq<Stmt>, st: CState, K: Ctx, t: Target,
                                        pre: seq<u8>, suf: seq<u8>, d: nat)
    requires t in K && K[t] == Open
    ensures FilledAll(top, ss, st, K, t, pre, suf, d)
    decreases ss, 1
  {
    if ss == [] {
      assert Offset([], |pre|) == [];
    } else {
      FillTail(top, ss, st, K, t, pre, suf, d);
    }
  }

  lemma {:induction false} FillTail(top: bool, ss: seq<Stmt>, st: CState, K: Ctx, t: Target,
                                    pre: seq<u8>, suf: seq<u8>, d: nat)
    requires ss != [] && t in K && K[t] == Open
    ensures FilledAll(top, ss, st, K, t, pre, suf, d)
    decreases ss, 0
  {
    hide Code, HolesOf, After, Patched, Shift, Offset;
    var st1 := After(ss[0], st);
    var rest, rest' := CodeAll(top, ss[1..], st1, K), CodeAll(top, ss[1..], st1, K[t := At(d)]);
    ShiftCommute(K, t, d, |rest|);
    SameLengthAll(top, ss[1..], st1, K, K[t := At(d)]);
    var K0 := Shift(K, |rest|);
    var c, c' := Code(top, ss[0], st, K0), Code(top, ss[0], st, K0[t := At(d + |rest|)]);
    SameLength(top, ss[0], st, K0, K0[t := At(d + |rest|)]);
    FillHoles(top, ss[0], st, K0, t, pre, rest + suf, d + |rest|);
    FillHolesAll(top, ss[1..], st1, K, t, pre + c', suf, d);
    PatchedList(pre, c, c', rest, rest', suf, HolesOf(top, ss[0], st, K0, t), HolesOfAll(top, ss[1..], st1, K, t), d);
  }

  lemma PatchedList(pre: seq<u8>, a: seq<u8>, a': seq<u8>, b: seq<u8>, b': seq<u8>, suf: seq<u8>,
                    h1: seq<nat>, h2: seq<nat>, d: nat)
    requires |a'| == |a| && |b'| == |b|
    requires Patched(pre, a, a', b + suf, h1, |b| + d) && Patched(pre + a', b, b', suf, h2, d)
    ensures Patched(pre, a + b, a' + b', suf, Two(h1, 0, h2, |a|), d)
  {
    hide PatchAll, Offset, Patched;
    if h2 == [] { NoHoles(pre + a', b, b', suf, d); }
    assert pre + [] == pre && [] + b == b && [] + b' == b' && pre + [] + a' + [] == pre + a';
    PatchedTwo(pre, [], a, a', [], b, b', suf, h1, 0, h2, |a|, d);
    assert [] + (a + ([] + b)) == a + b && [] + (a' + ([] + b')) == a' + b';
  }

  lemma {:induction false} FillIf(top: bool, s: Stmt, st: CState, K: Ctx, t: Target, pre: seq<u8>, suf: seq<u8>, d: nat)
    requires s.If? && t in K && K[t] == Open
    ensures Filled(top, s, st, K, t, pre, suf, d)
    decreases s, 1
  {
    hide ExprCode, ExprConsts, After, Shift, Patched, Offset, IfCode, Code, HolesOf, Two;
    var If(c, thn, els) := s;
    var st1 := AddPool(st, ExprConsts(c));
    var st2 := After(thn, st1);
    ShiftCommute(K, t, d, 0);
    var fc, fc' := Code(top, els, st2, K), Code(top, els, st2, K[t := At(d)]);
    SameLength(top, els, st2, K, K[t := At(d)]);
    var n := |ElseTail(els, fc)|;
    ShiftCommute(K, t, d, n);
    var tK := Shift(K, n);
    var tc, tc' := Code(top, thn, st1, tK), Code(top, thn, st1, tK[t := At(d + n)]);
    SameLength(top, thn, st1, tK, tK[t := At(d + n)]);
    var cc := ExprCode(c, top, st.syms, st.nextReg, st.pool);
    var head := cc + BranchCode(OP_JUMP_FALSE, st.nextReg, OverThen(els, tc));
    FillHoles(top, thn, st1, tK, t, pre + head, ElseTail(els, fc) + suf, d + n);
    FillHoles(top, els, st2, K, t, pre + head + tc' + JumpCode(|fc|), suf, d);
    ThenOrElse(els, st2, K, t, d, top);
    PatchedIf(pre, cc, st.nextReg, els, tc, tc', fc, fc', suf,
              HolesOf(top, thn, st1, tK, t), HolesOf(top, els, st2, K, t), d);
    UnfoldIf(top, s, st, K, t, pre, suf, d, tc', fc');
  }

  lemma ThenOrElse(els: Stmt, st2: CState, K: Ctx, t: Target, d: nat, top: bool)
    requires t in K
    ensures els.Empty? ==>
              Code(top, els, st2, K) == Code(top, els, st2, K[t := At(d)]) == [] && HolesOf(top, els, st2, K, t) == []
  {
  }

  lemma UnfoldIf(top: bool, s: Stmt, st: CState, K: Ctx, t: Target, pre: seq<u8>, suf: seq<u8>, d: nat,
                 tc': seq<u8>, fc': seq<u8>)
    requires s.If? && t in K && K[t] == Open
    requires var If(c, thn, els) := s;
             var st1 := AddPool(st, ExprConsts(c));
             var fc := Code(top, els, After(thn, st1), K);
             var n := |ElseTail(els, fc)|;
             var tc := Code(top, thn, st1, Shift(K, n));
             var cc := ExprCode(c, top, st.syms, st.nextReg, st.pool);
             && fc' == Code(top, els, After(thn, st1), K[t := At(d)]) && |fc'| == |fc|
             && tc' == Code(top, thn, st1, Shift(K, n)[t := At(d + n)]) && |tc'| == |tc|
             && Shift(K[t := At(d)], n) == Shift(K, n)[t := At(d + n)]
             && Patched(pre, IfCode(cc, st.nextReg, els, tc, fc), IfCode(cc, st.nextReg, els, tc', fc'), suf,
                        Two(HolesOf(top, thn, st1, Shift(K, n), t), |cc| + 4,
                            HolesOf(top, els, After(thn, st1), K, t), |cc| + 4 + |tc| + 3), d)
    ensures Filled(top, s, st, K, t, pre, suf, d)
  {
    hide ExprCode, ExprConsts, After, Shift, Patched, Offset, IfCode, Two;
  }

  lemma {:induction false} FillWhile(top: bool, s: Stmt, st: CState, K: Ctx, t: Target, pre: seq<u8>, suf: seq<u8>, d: nat)
    requires s.While? && t in K && K[t] == Open
    ensures Filled(top, s, st, K, t, pre, suf, d)
    decreases s, 1
  {
    hide ExprCode, ExprConsts, After, BodyCtx, ElseCtx, Patched, Offset, WhileCode;
    var While(c, tag, body, els) := s;
    if Rebinds(tag, t) {
      var ec := Code(top, els, After(body, AddPool(st, ExprConsts(c))), ElseCtx(K, tag));
      LoopRebinds(K, t, d, 3 + |ec|, tag);
      NothingPatched(pre, Code(top, s, st, K), suf, d);
    } else {
      FillLoop(top, s, st, K, t, pre, suf, d);
    }
  }

  lemma {:induction false} FillLoop(top: bool, s: Stmt, st: CState, K: Ctx, t: Target, pre: seq<u8>, suf: seq<u8>, d: nat)
    requires s.While? && t in K && K[t] == Open && !Rebinds(s.tag, t)
    ensures Filled(top, s, st, K, t, pre, suf, d)
    decreases s, 0
  {
    hide ExprCode, ExprConsts, After, BodyCtx, ElseCtx, Patched, Offset, WhileCode;
    var While(c, tag, body, els) := s;
    var st1 := AddPool(st, ExprConsts(c));
    var st2 := After(body, st1);
    var eK := ElseCtx(K, tag);
    var ec, ec' := Code(top, els, st2, eK), Code(top, els, st2, eK[t := At(d)]);
    var n := 3 + |ec|;
    LoopPasses(K, t, d, n, tag);
    KeysKept(eK, t, At(d));
    SameLength(top, els, st2, eK, eK[t := At(d)]);
    var bK := BodyCtx(K, tag, n);
    var bc, bc' := Code(top, body, st1, bK), Code(top, body, st1, bK[t := At(d + n)]);
    KeysKept(bK, t, At(d + n));
    SameLength(top, body, st1, bK, bK[t := At(d + n)]);
    var cc := ExprCode(c, top, st.syms, st.nextReg, st.pool);
    var head := cc + BranchCode(OP_JUMP_FALSE, st.nextReg, |bc| + 3);
    var loop := LoopCode(|cc| + |bc| + 7);
    FillHoles(top, body, st1, bK, t, pre + head, (loop + ec) + suf, d + n);
    FillHoles(top, els, st2, eK, t, pre + head + bc' + loop, suf, d);
    PatchedWhile(pre, cc, st.nextReg, bc, bc', ec, ec', suf,
                 HolesOf(top, body, st1, bK, t), HolesOf(top, els, st2, eK, t), d);
  }

  lemma KeysKept(K: Ctx, t: Target, x: Dist)
    requires t in K
    ensures K[t := x].Keys == K.Keys
  {
  }

  lemma NothingPatched(pre: seq<u8>, c: seq<u8>, suf: seq<u8>, d: nat)
    ensures Patched(pre, c, c, suf, [], d)
  {
    assert Offset([], |pre|) == [];
  }

  lemma {:induction false} FillRepeat(top: bool, s: Stmt, st: CState, K: Ctx, t: Target, pre: seq<u8>, suf: seq<u8>, d: nat)
    requires s.Repeat? && t in K && K[t] == Open
    ensures Filled(top, s, st, K, t, pre, suf, d)
    decreases s, 1
  {
    hide ExprCode, ExprConsts, After, BodyCtx, Patched, Offset, RepeatCode;
    var Repeat(body, c, tag) := s;
    var st1 := After(body, st);
    var cc := ExprCode(c, top, st1.syms, st1.nextReg, st1.pool);
    var n := |cc| + 7;
    var bK := BodyCtx(K, tag, n);
    if Rebinds(tag, t) {
      LoopRebinds(K, t, d, n, tag);
      NothingPatched(pre, Code(top, s, st, K), suf, d);
    } else {
      LoopPasses(K, t, d, n, tag);
      var bc, bc' := Code(top, body, st, bK), Code(top, body, st, bK[t := At(d + n)]);
      KeysKept(bK, t, At(d + n));
      SameLength(top, body, st, bK, bK[t := At(d + n)]);
      var tail := cc + (BranchCode(OP_JUMP_TRUE, st1.nextReg, 3) + LoopCode(|bc| + |cc| + 7));
      FillHoles(top, body, st, bK, t, pre, tail + suf, d + n);
      PatchedRepeat(pre, bc, bc', cc, st1.nextReg, suf, HolesOf(top, body, st, bK, t), d);
    }
  }

  lemma PatchedRepeat(pre: seq<u8>, bc: seq<u8>, bc': seq<u8>, cc: seq<u8>, r: nat, suf: seq<u8>, h: seq<nat>, d: nat)
    requires |bc| == |bc'|
    requires var tail := cc + (BranchCode(OP_JUMP_TRUE, r, 3) + LoopCode(|bc| + |cc| + 7));
             Patched(pre, bc, bc', tail + suf, h, |cc| + 7 + d)
    ensures Patched(pre, RepeatCode(bc, cc, r), RepeatCode(bc', cc, r), suf, Offset(h, 0), d)
  {
    hide Patched, Offset;
    var tail := cc + (BranchCode(OP_JUMP_TRUE, r, 3) + LoopCode(|bc| + |cc| + 7));
    assert pre + [] == pre;
    PatchedWrap(pre, [], bc, bc', tail, suf, h, d);
    assert [] + (bc + tail) == bc + tail && [] + (bc' + tail) == bc' + tail;
  }
}
