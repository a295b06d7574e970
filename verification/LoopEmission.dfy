/** How patching the recorded jumps of a loop gives the bytes of the loop: its
    `continue` jumps once the body is compiled, its `break` jumps at the end. */
module LoopEmission {
  import opened Words
  import opened Opcodes
  import opened Syntax
  import opened Values
  import opened Source
  import opened Codegen
  import opened StmtCode
  import opened Chunk
  import opened Holes
  import opened Emission
  import opened StmtEmission

  function JumpOut(exit: bool, tag: Option<string>): Target {
    if exit then Exit(tag) else Again(tag)
  }

  function WithLabel(labels: set<string>, tag: Option<string>): set<string> {
    if tag.Some? then labels + {tag.value} else labels
  }

  /** The context of everything inside a loop while it is being compiled. */
  function LoopOpen(labels: set<string>, tag: Option<string>): Ctx {
    OpenCtx(WithLabel(labels, tag), true)
  }

  function Bound(K: Ctx, exit: bool, tag: Option<string>, x: Dist): Ctx {
    K[JumpOut(exit, None) := x][JumpOut(exit, tag) := x]
  }

  /** The vectors and tables on entry to a loop. */
  function LoopJumps(J: Jumps, tag: Option<string>): Jumps {
    Jumps([], [], if tag.Some? then J.breakLabels[tag.value := []] else J.breakLabels,
          if tag.Some? then J.continueLabels[tag.value := []] else J.continueLabels)
  }

  /** And after it: the outer vectors are restored, the label is dropped. */
  function AfterLoop(J: Jumps, J1: Jumps, tag: Option<string>): Jumps {
    Jumps(J.breaks, J.continues, if tag.Some? then J1.breakLabels - {tag.value} else J1.breakLabels,
          if tag.Some? then J1.continueLabels - {tag.value} else J1.continueLabels)
  }

  /** Patching the plain jumps and then the labelled ones to the end of `block`. */
  function PatchBoth(block: seq<u8>, J: Jumps, exit: bool, tag: Option<string>): (b: seq<u8>)
    ensures |b| == |block|
  {
    var b := PatchAll(block, Pending(J, JumpOut(exit, None)), |block|);
    if tag.None? then b else PatchAll(b, Pending(J, JumpOut(exit, tag)), |b|)
  }

  /* Contexts. */

  lemma LoopCtxs(labels: set<string>, inLoop: bool, tag: Option<string>, n: nat)
    ensures var K, K1 := OpenCtx(labels, inLoop), LoopOpen(labels, tag);
            && Bound(Bound(K1, false, tag, At(0)), true, tag, At(n)) == BodyCtx(K, tag, n)
            && K1.Keys == BodyCtx(K, tag, n).Keys
    ensures var K, K1 := OpenCtx(labels, inLoop), LoopOpen(labels, tag);
            Bound(K1, true, tag, At(0)) == ElseCtx(K, tag) && K1.Keys == ElseCtx(K, tag).Keys
  {
    LoopBodyCtx(labels, inLoop, tag, n);
    LoopElseCtx(labels, inLoop, tag);
  }

  lemma LoopBodyCtx(labels: set<string>, inLoop: bool, tag: Option<string>, n: nat)
    ensures var K, K1 := OpenCtx(labels, inLoop), LoopOpen(labels, tag);
            && Bound(Bound(K1, false, tag, At(0)), true, tag, At(n)) == BodyCtx(K, tag, n)
            && K1.Keys == BodyCtx(K, tag, n).Keys
  {
    var K, K1 := OpenCtx(labels, inLoop), LoopOpen(labels, tag);
    var B, B' := Bound(Bound(K1, false, tag, At(0)), true, tag, At(n)), BodyCtx(K, tag, n);
    forall t ensures t in B <==> t in B' ensures t in B <==> t in K1 ensures t in B ==> B[t] == B'[t] {
      assert t in K1 <==> TargetIn(t, WithLabel(labels, tag), true);
    }
    assert B.Keys == K1.Keys;
  }

  lemma LoopElseCtx(labels: set<string>, inLoop: bool, tag: Option<string>)
    ensures var K, K1 := OpenCtx(labels, inLoop), LoopOpen(labels, tag);
            Bound(K1, true, tag, At(0)) == ElseCtx(K, tag) && K1.Keys == ElseCtx(K, tag).Keys
  {
    var K, K1 := OpenCtx(labels, inLoop), LoopOpen(labels, tag);
    var E, E' := Bound(K1, true, tag, At(0)), ElseCtx(K, tag);
    forall t ensures t in E <==> t in E' ensures t in E ==> E[t] == E'[t] {
      assert t in K1 <==> TargetIn(t, WithLabel(labels, tag), true);
    }
    assert E.Keys == K1.Keys;
  }

  /* Filling the holes of one statement, some of its targets being resolved already. */

  lemma FillOne(top: bool, s: Stmt, st: CState, K1: Ctx, K: Ctx, t: Target, pre: seq<u8>, suf: seq<u8>, d: nat)
    requires t in K && K[t] == Open && K.Keys == K1.Keys
    ensures K[t := At(d)].Keys == K1.Keys && |Code(top, s, st, K)| == |Code(top, s, st, K1)| == |Code(top, s, st, K[t := At(d)])|
    ensures PatchAll(pre + Code(top, s, st, K) + suf, Offset(HolesOf(top, s, st, K1, t), |pre|),
                     |pre| + |Code(top, s, st, K1)| + d)
            == pre + Code(top, s, st, K[t := At(d)]) + suf
  {
    hide Code, HolesOf, PatchAll, Offset;
    KeysKept(K, t, At(d));
    SameLength(top, s, st, K, K1);
    SameLength(top, s, st, K, K[t := At(d)]);
    SameHoles(top, s, st, K, K1, t);
    FillHoles(top, s, st, K, t, pre, suf, d);
  }

  /** `continue`: `m1` is the state after the body `s`, compiled from `m` on. */
  lemma FillAgain(top: bool, s: Stmt, labels: set<string>, tag: Option<string>, m: Snap, m1: Snap)
    requires StmtEmitted(s, top, true, m, m1) && m.jumps.breakLabels.Keys == WithLabel(labels, tag)
    requires Pending(m.jumps, Again(None)) == [] && Pending(m.jumps, Again(tag)) == []
    ensures var KA := Bound(LoopOpen(labels, tag), false, tag, At(0));
            PatchBoth(m1.block, m1.jumps, false, tag) == m.block + Code(top, s, m.st, KA)
  {
    hide Code, HolesOf, PatchAll, Offset, OpenCtx, Pending;
    var K1 := LoopOpen(labels, tag);
    assert TargetIn(Again(None), WithLabel(labels, tag), true) && TargetIn(Again(tag), WithLabel(labels, tag), true);
    OwnRecorded(top, s, labels, tag, m, m1, Again(None));
    var c := Code(top, s, m.st, K1);
    assert m1.block == m.block + c + [];
    FillOne(top, s, m.st, K1, K1, Again(None), m.block, [], 0);
    if tag.Some? {
      OwnRecorded(top, s, labels, tag, m, m1, Again(tag));
      FillOne(top, s, m.st, K1, K1[Again(None) := At(0)], Again(tag), m.block, [], 0);
    }
    var b := m.block + Code(top, s, m.st, Bound(K1, false, tag, At(0)));
    assert b + [] == b;
    assert Bound(K1, false, None, At(0)) == K1[Again(None) := At(0)];
  }

  /** Jumps to a target of the loop itself come from its parts only. */
  lemma OwnRecorded(top: bool, s: Stmt, labels: set<string>, tag: Option<string>, m: Snap, m1: Snap, t: Target)
    requires StmtEmitted(s, top, true, m, m1) && m.jumps.breakLabels.Keys == WithLabel(labels, tag)
    requires Pending(m.jumps, t) == [] && TargetIn(t, WithLabel(labels, tag), true)
    ensures t in LoopOpen(labels, tag) && LoopOpen(labels, tag)[t] == Open
    ensures Pending(m1.jumps, t) == Offset(HolesOf(top, s, m.st, LoopOpen(labels, tag), t), |m.block|)
  {
    hide Code, HolesOf, Offset, After, StmtConsts, Pending;
    assert Recorded(m.jumps, m1.jumps, t, HolesOf(top, s, m.st, LoopOpen(labels, tag), t), |m.block|) by {
      assert Pending(m1.jumps, t) == Pending(m1.jumps, t);
    }
  }

  /* While loops: `break` leaves from the body as well as from the else clause. */

  /** One target of the loop patched in both. */
  lemma FillExit(top: bool, s: Stmt, st: CState, els: Stmt, st2: CState, K1: Ctx, KB: Ctx, KE: Ctx, t: Target,
                 pre: seq<u8>, loop: seq<u8>)
    requires t in KB && KB[t] == Open && KB.Keys == K1.Keys && t in KE && KE[t] == Open && KE.Keys == K1.Keys
    ensures var bc, ec := Code(top, s, st, KB), Code(top, els, st2, KE);
            var n := |loop| + |Code(top, els, st2, K1)|;
            var bc', ec' := Code(top, s, st, KB[t := At(n)]), Code(top, els, st2, KE[t := At(0)]);
            var holes := Offset(HolesOf(top, s, st, K1, t), |pre|)
                         + Offset(HolesOf(top, els, st2, K1, t), |pre| + |Code(top, s, st, K1)| + |loop|);
            && PatchAll(pre + bc + loop + ec, holes, |pre + bc + loop + ec|) == pre + bc' + loop + ec'
            && |bc'| == |bc| && |ec'| == |ec|
  {
    hide Code, HolesOf, PatchAll, Offset;
    var bc, ec := Code(top, s, st, KB), Code(top, els, st2, KE);
    var n := |loop| + |Code(top, els, st2, K1)|;
    var bc', ec' := Code(top, s, st, KB[t := At(n)]), Code(top, els, st2, KE[t := At(0)]);
    var h1 := Offset(HolesOf(top, s, st, K1, t), |pre|);
    var h2 := Offset(HolesOf(top, els, st2, K1, t), |pre| + |Code(top, s, st, K1)| + |loop|);
    var end := |pre + bc + loop + ec|;
    FillOne(top, els, st2, K1, KE, t, pre + bc' + loop, [], 0);
    FillOne(top, s, st, K1, KB, t, pre, loop + ec, n);
    PatchAllSplit(pre + bc + loop + ec, h1, h2, end);
    assert pre + bc + loop + ec == pre + bc + (loop + ec);
    assert pre + bc' + (loop + ec) == pre + bc' + loop + ec + [];
    assert pre + bc' + loop + ec' + [] == pre + bc' + loop + ec';
  }

  /** Both targets of the loop, the plain one and the labelled one. */
  lemma FillExits(top: bool, s: Stmt, st: CState, els: Stmt, st2: CState, labels: set<string>, tag: Option<string>,
                  pre: seq<u8>, loop: seq<u8>, J: Jumps)
    requires var K1 := LoopOpen(labels, tag);
             forall t {:trigger Pending(J, t)} | t == Exit(None) || t == Exit(tag) ::
               Pending(J, t) == Offset(HolesOf(top, s, st, K1, t), |pre|)
                                + Offset(HolesOf(top, els, st2, K1, t), |pre| + |Code(top, s, st, K1)| + |loop|)
    ensures var K1 := LoopOpen(labels, tag);
            var KA := Bound(K1, false, tag, At(0));
            var n := |loop| + |Code(top, els, st2, K1)|;
            PatchBoth(pre + Code(top, s, st, KA) + loop + Code(top, els, st2, K1), J, true, tag)
            == pre + Code(top, s, st, Bound(KA, true, tag, At(n))) + loop
               + Code(top, els, st2, Bound(K1, true, tag, At(0)))
  {
    hide Code, HolesOf, PatchAll, Offset, OpenCtx, Pending;
    var K1 := LoopOpen(labels, tag);
    var KA := Bound(K1, false, tag, At(0));
    var n := |loop| + |Code(top, els, st2, K1)|;
    LoopKeys(labels, tag);
    assert Pending(J, Exit(None)) == Pending(J, Exit(None)) && Pending(J, Exit(tag)) == Pending(J, Exit(tag));
    FillExit(top, s, st, els, st2, K1, KA, K1, Exit(None), pre, loop);
    if tag.Some? {
      var KB, KE := KA[Exit(None) := At(n)], K1[Exit(None) := At(0)];
      KeysKept(KA, Exit(None), At(n));
      KeysKept(K1, Exit(None), At(0));
      FillExit(top, s, st, els, st2, K1, KB, KE, Exit(tag), pre, loop);
    } else {
      assert Bound(KA, true, None, At(n)) == KA[Exit(None) := At(n)];
      assert Bound(K1, true, None, At(0)) == K1[Exit(None) := At(0)];
    }
  }

  lemma LoopKeys(labels: set<string>, tag: Option<string>)
    ensures var K1 := LoopOpen(labels, tag);
            var KA := Bound(K1, false, tag, At(0));
            && KA.Keys == K1.Keys && {Exit(None), Exit(tag), Again(None), Again(tag)} <= K1.Keys
            && KA[Exit(None)] == Open && KA[Exit(tag)] == Open && K1[Exit(None)] == Open && K1[Exit(tag)] == Open
  {
    var K1 := LoopOpen(labels, tag);
    forall t | t in {Exit(None), Exit(tag), Again(None), Again(tag)} ensures t in K1 {
      assert TargetIn(t, WithLabel(labels, tag), true);
    }
  }

  /* The whole loop: the compiler passes through these states. */

  /** `m` follows the condition and its jump, `m1` the body. */
  ghost predicate BodyEmitted(s: Stmt, top: bool, a: Snap, b1: seq<u8>, m: Snap, m1: Snap)
    requires s.While?
  {
    && StmtEmission.Tested(s, top, a, b1, m)
    && m.jumps == LoopJumps(a.jumps, s.tag)
    && StmtEmitted(s.body, top, true, m, m1)
  }

  /** `e` follows OP_LOOP, the exit of the condition being patched to that place. */
  ghost predicate LoopClosed(s: Stmt, a: Snap, b1: seq<u8>, m1: Snap, e: Snap)
    requires s.While?
  {
    var again := PatchBoth(m1.block, m1.jumps, false, s.tag);
    |b1| + 4 <= |again| && |a.block| <= |again|
    && e == m1.(block := Patch(again + LoopCode(|again| - |a.block| + 3), |b1| + 2, |again| + 3 - (|b1| + 2) - 2))
  }

  lemma WhileParts(s: Stmt, top: bool, st: CState, K: Ctx, st1: CState, st2: CState)
    requires s.While? && st1 == AddPool(st, ExprConsts(s.cond)) && st2 == After(s.body, st1)
    ensures var ec := Code(top, s.els, st2, ElseCtx(K, s.tag));
            Code(top, s, st, K) == WhileCode(ExprCode(s.cond, top, st.syms, st.nextReg, st.pool), st.nextReg,
                                             Code(top, s.body, st1, BodyCtx(K, s.tag, 3 + |ec|)), ec)
  {
    hide ExprCode, ExprConsts, After, WhileCode, BodyCtx, ElseCtx;
  }

  lemma WhileEffects(s: Stmt, st: CState, st1: CState, st2: CState)
    requires s.While? && st1 == AddPool(st, ExprConsts(s.cond)) && st2 == After(s.body, st1)
    ensures StmtConsts(s) == ExprConsts(s.cond) + (StmtConsts(s.body) + StmtConsts(s.els))
    ensures After(s, st) == After(s.els, st2)
  {
    hide ExprConsts;
  }

  lemma WhileHoles(s: Stmt, top: bool, st: CState, labels: set<string>, inLoop: bool, st1: CState, st2: CState, t: Target)
    requires s.While? && st1 == AddPool(st, ExprConsts(s.cond)) && st2 == After(s.body, st1)
    ensures var K, K1 := OpenCtx(labels, inLoop), LoopOpen(labels, s.tag);
            var o := |ExprCode(s.cond, top, st.syms, st.nextReg, st.pool)| + 4;
            HolesOf(top, s, st, K, t) == if Rebinds(s.tag, t) then []
              else Two(HolesOf(top, s.body, st1, K1, t), o, HolesOf(top, s.els, st2, K1, t),
                       o + |Code(top, s.body, st1, K1)| + 3)
  {
    hide ExprCode, ExprConsts, OpenCtx, Code, HolesOf, Two, After, BodyCtx, ElseCtx;
    var K, K1 := OpenCtx(labels, inLoop), LoopOpen(labels, s.tag);
    WhileHolesOf(s, top, st, K, st1, st2, t);
    if !Rebinds(s.tag, t) {
      var eK := ElseCtx(K, s.tag);
      var n := 3 + |Code(top, s.els, st2, eK)|;
      LoopCtxs(labels, inLoop, s.tag, n);
      SameHoles(top, s.els, st2, K1, eK, t);
      SameHoles(top, s.body, st1, K1, BodyCtx(K, s.tag, n), t);
      SameLength(top, s.body, st1, K1, BodyCtx(K, s.tag, n));
    }
  }

  lemma WhileHolesOf(s: Stmt, top: bool, st: CState, K: Ctx, st1: CState, st2: CState, t: Target)
    requires s.While? && st1 == AddPool(st, ExprConsts(s.cond)) && st2 == After(s.body, st1)
    ensures var eK := ElseCtx(K, s.tag);
            var bK := BodyCtx(K, s.tag, 3 + |Code(top, s.els, st2, eK)|);
            var o := |ExprCode(s.cond, top, st.syms, st.nextReg, st.pool)| + 4;
            HolesOf(top, s, st, K, t) == if Rebinds(s.tag, t) then []
              else Two(HolesOf(top, s.body, st1, bK, t), o, HolesOf(top, s.els, st2, eK, t),
                       o + |Code(top, s.body, st1, bK)| + 3)
  {
    hide ExprCode, ExprConsts, After, Code, Two, BodyCtx, ElseCtx;
  }

  /** Pieces of a while loop before its breaks are patched. */
  lemma WhileBytes(b: seq<u8>, cc: seq<u8>, r: nat, bc: seq<u8>, again: seq<u8>, e: seq<u8>)
    requires again == b + cc + [OP_JUMP_FALSE, Low(r)] + [0, 0] + bc
    requires e == Patch(again + LoopCode(|again| - |b| + 3), |b + cc| + 2, |again| + 3 - (|b + cc| + 2) - 2)
    ensures e == (b + cc + BranchCode(OP_JUMP_FALSE, r, |bc| + 3)) + bc + LoopCode(|cc| + |bc| + 7)
  {
    hide Patch, JumpField, LoopCode;
    var pre, loop := b + cc + [OP_JUMP_FALSE, Low(r)], LoopCode(|cc| + |bc| + 7);
    assert again + loop == pre + [0, 0] + (bc + loop);
    LoopSize(|cc| + |bc| + 7);
    PatchHole(pre, bc + loop, |bc| + 3);
    assert pre + JumpField(|bc| + 3) + (bc + loop)
        == (b + cc + BranchCode(OP_JUMP_FALSE, r, |bc| + 3)) + bc + loop;
  }

  lemma LoopSize(d: nat)
    ensures |LoopCode(d)| == 3
  {
  }

  lemma WhileBlock(s: Stmt, top: bool, inLoop: bool, a: Snap, b1: seq<u8>, m: Snap, m1: Snap, e: Snap, e1: Snap)
    requires s.While? && SameLabels(a.jumps, a.jumps.breakLabels.Keys)
    requires s.tag.Some? ==> s.tag.value !in a.jumps.breakLabels
    requires BodyEmitted(s, top, a, b1, m, m1) && LoopClosed(s, a, b1, m1, e) && StmtEmitted(s.els, top, true, e, e1)
    ensures PatchBoth(e1.block, e1.jumps, true, s.tag)
            == a.block + Code(top, s, a.st, OpenCtx(a.jumps.breakLabels.Keys, inLoop))
    ensures SameLabels(e1.jumps, WithLabel(a.jumps.breakLabels.Keys, s.tag))
    ensures |e.block| == |m1.block| + 3 && |m.block| == |b1| + 4
  {
    hide ExprCode, ExprConsts, Code, StmtConsts, After, HolesOf, PatchAll, Offset, OpenCtx, Pending, Recorded, BodyCtx,
      ElseCtx, Patch, PatchBoth, WhileCode, LoopCode, BranchCode;
    var labels := a.jumps.breakLabels.Keys;
    var K, K1 := OpenCtx(labels, inLoop), LoopOpen(labels, s.tag);
    var KA := Bound(K1, false, s.tag, At(0));
    var cc, r := ExprCode(s.cond, top, a.st.syms, a.st.nextReg, a.st.pool), a.st.nextReg;
    var bc, ec := Code(top, s.body, m.st, KA), Code(top, s.els, m1.st, K1);
    WhileOpen(s, top, a, b1, m, m1, e, e1);
    var pre, loop := a.block + cc + BranchCode(OP_JUMP_FALSE, r, |bc| + 3), LoopCode(|cc| + |bc| + 7);
    FillExits(top, s.body, m.st, s.els, m1.st, labels, s.tag, pre, loop, e1.jumps);
    LoopSize(|cc| + |bc| + 7);
    var n := 3 + |ec|;
    LoopCtxs(labels, inLoop, s.tag, n);
    LoopKeys(labels, s.tag);
    var bF, eF := Code(top, s.body, m.st, BodyCtx(K, s.tag, n)), Code(top, s.els, m1.st, ElseCtx(K, s.tag));
    SameLength(top, s.body, m.st, KA, K1);
    SameLength(top, s.body, m.st, K1, BodyCtx(K, s.tag, n));
    SameLength(top, s.els, m1.st, K1, ElseCtx(K, s.tag));
    WhileParts(s, top, a.st, K, m.st, m1.st);
    Assembled(a.block, cc, r, bF, eF);
  }

  /** Before the jumps out of the loop are patched: the bytes, and what is pending. */
  lemma WhileOpen(s: Stmt, top: bool, a: Snap, b1: seq<u8>, m: Snap, m1: Snap, e: Snap, e1: Snap)
    requires s.While? && SameLabels(a.jumps, a.jumps.breakLabels.Keys)
    requires s.tag.Some? ==> s.tag.value !in a.jumps.breakLabels
    requires BodyEmitted(s, top, a, b1, m, m1) && LoopClosed(s, a, b1, m1, e) && StmtEmitted(s.els, top, true, e, e1)
    ensures var labels := a.jumps.breakLabels.Keys;
            var K1 := LoopOpen(labels, s.tag);
            var cc, r := ExprCode(s.cond, top, a.st.syms, a.st.nextReg, a.st.pool), a.st.nextReg;
            var bc := Code(top, s.body, m.st, Bound(K1, false, s.tag, At(0)));
            var pre, loop := a.block + cc + BranchCode(OP_JUMP_FALSE, r, |bc| + 3), LoopCode(|cc| + |bc| + 7);
            && e1.block == pre + bc + loop + Code(top, s.els, m1.st, K1)
            && forall t {:trigger Pending(e1.jumps, t)} | t == Exit(None) || t == Exit(s.tag) ::
                 Pending(e1.jumps, t) == Offset(HolesOf(top, s.body, m.st, K1, t), |pre|)
                   + Offset(HolesOf(top, s.els, m1.st, K1, t), |pre| + |Code(top, s.body, m.st, K1)| + |loop|)
    ensures SameLabels(e1.jumps, WithLabel(a.jumps.breakLabels.Keys, s.tag))
    ensures |e.block| == |m1.block| + 3 && |m.block| == |b1| + 4
  {
    hide ExprCode, ExprConsts, Code, StmtConsts, After, HolesOf, PatchAll, Offset, OpenCtx, Pending, Recorded, BodyCtx,
      ElseCtx, Patch, PatchBoth, WhileCode, LoopCode, BranchCode;
    var labels := a.jumps.breakLabels.Keys;
    var K1 := LoopOpen(labels, s.tag);
    var KA := Bound(K1, false, s.tag, At(0));
    assert m.jumps.breakLabels.Keys == WithLabel(labels, s.tag);
    NewLabels(a.jumps, s.tag);
    FillAgain(top, s.body, labels, s.tag, m, m1);
    var cc, r := ExprCode(s.cond, top, a.st.syms, a.st.nextReg, a.st.pool), a.st.nextReg;
    var bc := Code(top, s.body, m.st, KA);
    WhileBytes(a.block, cc, r, bc, m.block + bc, e.block);
    LoopSize(|cc| + |bc| + 7);
    BranchSize(OP_JUMP_FALSE, r, |bc| + 3);
    LoopKeys(labels, s.tag);
    SameLength(top, s.body, m.st, KA, K1);
    forall t {:trigger Pending(e1.jumps, t)} | t == Exit(None) || t == Exit(s.tag)
      ensures Pending(e1.jumps, t) == Offset(HolesOf(top, s.body, m.st, K1, t), |a.block| + |cc| + 4)
                + Offset(HolesOf(top, s.els, m1.st, K1, t), |a.block| + |cc| + 4 + |Code(top, s.body, m.st, K1)| + 3)
    {
      assert TargetIn(t, WithLabel(labels, s.tag), true);
      OwnRecorded(top, s.body, labels, s.tag, m, m1, t);
      ElseRecorded(top, s.els, labels, s.tag, e, e1, t);
    }
  }

  lemma NewLabels(J: Jumps, tag: Option<string>)
    ensures forall t | Rebinds(tag, t) :: Pending(LoopJumps(J, tag), t) == []
    ensures forall t | !Rebinds(tag, t) && t.tag.Some? :: Pending(LoopJumps(J, tag), t) == Pending(J, t)
  {
  }

  lemma BranchSize(op: u8, r: nat, d: nat)
    ensures |BranchCode(op, r, d)| == 4
  {
  }

  lemma Assembled(b: seq<u8>, cc: seq<u8>, r: nat, bc: seq<u8>, ec: seq<u8>)
    ensures (b + cc + BranchCode(OP_JUMP_FALSE, r, |bc| + 3)) + bc + LoopCode(|cc| + |bc| + 7) + ec
         == b + WhileCode(cc, r, bc, ec)
  {
    hide BranchCode, LoopCode;
    var br, loop := BranchCode(OP_JUMP_FALSE, r, |bc| + 3), LoopCode(|cc| + |bc| + 7);
    Regroup(b + cc + br, bc, loop, ec);
    Regroup(b, cc, br, bc + (loop + ec));
  }

  lemma ElseRecorded(top: bool, els: Stmt, labels: set<string>, tag: Option<string>, e: Snap, e1: Snap, t: Target)
    requires StmtEmitted(els, top, true, e, e1) && e.jumps.breakLabels.Keys == WithLabel(labels, tag)
    requires TargetIn(t, WithLabel(labels, tag), true)
    ensures Pending(e1.jumps, t)
         == Pending(e.jumps, t) + Offset(HolesOf(top, els, e.st, LoopOpen(labels, tag), t), |e.block|)
  {
    hide Code, HolesOf, Offset, After, StmtConsts, Pending;
    assert Recorded(e.jumps, e1.jumps, t, HolesOf(top, els, e.st, LoopOpen(labels, tag), t), |e.block|) by {
      assert Pending(e1.jumps, t) == Pending(e1.jumps, t);
    }
  }

  /** Jumps to outer loops pass through. */
  lemma WhileRecorded(s: Stmt, top: bool, inLoop: bool, a: Snap, b1: seq<u8>, m: Snap, m1: Snap, e: Snap, e1: Snap, z: Snap,
                      t: Target)
    requires s.While? && SameLabels(a.jumps, a.jumps.breakLabels.Keys)
    requires s.tag.Some? ==> s.tag.value !in a.jumps.breakLabels
    requires BodyEmitted(s, top, a, b1, m, m1) && LoopClosed(s, a, b1, m1, e) && StmtEmitted(s.els, top, true, e, e1)
    requires z.jumps == AfterLoop(a.jumps, e1.jumps, s.tag) && TargetIn(t, a.jumps.breakLabels.Keys, inLoop)
    ensures Recorded(a.jumps, z.jumps, t, HolesOf(top, s, a.st, OpenCtx(a.jumps.breakLabels.Keys, inLoop), t), |a.block|)
  {
    hide ExprCode, ExprConsts, Code, StmtConsts, After, HolesOf, PatchAll, Offset, OpenCtx, Pending, BodyCtx,
      ElseCtx, Patch, PatchBoth, WhileCode, LoopCode, BranchCode;
    if Rebinds(s.tag, t) {
      WhileHoles(s, top, a.st, a.jumps.breakLabels.Keys, inLoop, m.st, m1.st, t);
      PassesOut(a.jumps, e1.jumps, s.tag, t);
      NoneRecorded(a.jumps, |a.block|);
      assert Recorded(a.jumps, a.jumps, t, [], |a.block|);
    } else {
      WhilePassed(s, top, inLoop, a, b1, m, m1, e, e1, z, t);
    }
  }

  lemma WhilePassed(s: Stmt, top: bool, inLoop: bool, a: Snap, b1: seq<u8>, m: Snap, m1: Snap, e: Snap, e1: Snap, z: Snap,
                    t: Target)
    requires s.While? && SameLabels(a.jumps, a.jumps.breakLabels.Keys) && !Rebinds(s.tag, t)
    requires s.tag.Some? ==> s.tag.value !in a.jumps.breakLabels
    requires BodyEmitted(s, top, a, b1, m, m1) && LoopClosed(s, a, b1, m1, e) && StmtEmitted(s.els, top, true, e, e1)
    requires z.jumps == AfterLoop(a.jumps, e1.jumps, s.tag) && TargetIn(t, a.jumps.breakLabels.Keys, inLoop)
    ensures Recorded(a.jumps, z.jumps, t, HolesOf(top, s, a.st, OpenCtx(a.jumps.breakLabels.Keys, inLoop), t), |a.block|)
  {
    hide ExprCode, ExprConsts, Code, StmtConsts, After, HolesOf, PatchAll, Offset, OpenCtx, Pending, BodyCtx,
      ElseCtx, Patch, PatchBoth, WhileCode, LoopCode, BranchCode, Two;
    var labels := a.jumps.breakLabels.Keys;
    var K1 := LoopOpen(labels, s.tag);
    WhileHoles(s, top, a.st, labels, inLoop, m.st, m1.st, t);
    PassesOut(a.jumps, e1.jumps, s.tag, t);
    WhilePending(s, top, a, b1, m, m1, e, e1, t);
    var cc := ExprCode(s.cond, top, a.st.syms, a.st.nextReg, a.st.pool);
    HolesJoin(Pending(a.jumps, t), HolesOf(top, s.body, m.st, K1, t), |cc| + 4, HolesOf(top, s.els, m1.st, K1, t),
              |cc| + 4 + |Code(top, s.body, m.st, K1)| + 3, |a.block|);
  }

  /** The holes of the body and of the else clause follow those there were. */
  lemma WhilePending(s: Stmt, top: bool, a: Snap, b1: seq<u8>, m: Snap, m1: Snap, e: Snap, e1: Snap, t: Target)
    requires s.While? && SameLabels(a.jumps, a.jumps.breakLabels.Keys) && !Rebinds(s.tag, t)
    requires s.tag.Some? ==> s.tag.value !in a.jumps.breakLabels
    requires BodyEmitted(s, top, a, b1, m, m1) && LoopClosed(s, a, b1, m1, e) && StmtEmitted(s.els, top, true, e, e1)
    requires TargetIn(t, WithLabel(a.jumps.breakLabels.Keys, s.tag), true)
    ensures var K1 := LoopOpen(a.jumps.breakLabels.Keys, s.tag);
            var o := |a.block| + |ExprCode(s.cond, top, a.st.syms, a.st.nextReg, a.st.pool)| + 4;
            t.tag.Some? ==>
              Pending(e1.jumps, t) == Pending(a.jumps, t) + Offset(HolesOf(top, s.body, m.st, K1, t), o)
                + Offset(HolesOf(top, s.els, m1.st, K1, t), o + |Code(top, s.body, m.st, K1)| + 3)
  {
    hide ExprCode, ExprConsts, Code, StmtConsts, After, HolesOf, PatchAll, Offset, OpenCtx, Pending, BodyCtx,
      ElseCtx, Patch, PatchBoth, WhileCode, LoopCode, BranchCode, Recorded;
    var labels := a.jumps.breakLabels.Keys;
    NewLabels(a.jumps, s.tag);
    assert m.jumps.breakLabels.Keys == WithLabel(labels, s.tag);
    WhileOpen(s, top, a, b1, m, m1, e, e1);
    ElseRecorded(top, s.body, labels, s.tag, m, m1, t);
    ElseRecorded(top, s.els, labels, s.tag, e, e1, t);
  }

  lemma PassesOut(J: Jumps, J1: Jumps, tag: Option<string>, t: Target)
    requires tag.Some? ==> t.tag != tag
    ensures Pending(AfterLoop(J, J1, tag), t) == if t.tag.None? then Pending(J, t) else Pending(J1, t)
  {
  }

  lemma WhileEmitted(s: Stmt, top: bool, inLoop: bool, a: Snap, b1: seq<u8>, m: Snap, m1: Snap, e: Snap, e1: Snap, z: Snap)
    requires s.While? && SameLabels(a.jumps, a.jumps.breakLabels.Keys)
    requires s.tag.Some? ==> s.tag.value !in a.jumps.breakLabels
    requires BodyEmitted(s, top, a, b1, m, m1) && LoopClosed(s, a, b1, m1, e) && StmtEmitted(s.els, top, true, e, e1)
    requires z == Snap(e1.st, AfterLoop(a.jumps, e1.jumps, s.tag), PatchBoth(e1.block, e1.jumps, true, s.tag), e1.pool)
    ensures StmtEmitted(s, top, inLoop, a, z)
  {
    hide ExprCode, ExprConsts, Code, StmtConsts, After, HolesOf, PatchAll, Offset, OpenCtx, Pending, Recorded, BodyCtx,
      ElseCtx, Patch, PatchBoth, WhileCode;
    var labels := a.jumps.breakLabels.Keys;
    var K, K1 := OpenCtx(labels, inLoop), LoopOpen(labels, s.tag);
    WhileBlock(s, top, inLoop, a, b1, m, m1, e, e1);
    WhileEffects(s, a.st, m.st, m1.st);
    Regroup(a.pool, ExprConsts(s.cond), StmtConsts(s.body), StmtConsts(s.els));
    assert SameLabels(z.jumps, labels);
    forall t | t in K ensures Recorded(a.jumps, z.jumps, t, HolesOf(top, s, a.st, K, t), |a.block|) {
      WhileRecorded(s, top, inLoop, a, b1, m, m1, e, e1, z, t);
    }
  }

  /* Repeat loops. */

  ghost predicate RepeatEmitted(s: Stmt, top: bool, a: Snap, m: Snap, m1: Snap, b2: seq<u8>, p2: seq<Value>, b4: seq<u8>)
    requires s.Repeat?
  {
    var again, r := PatchBoth(m1.block, m1.jumps, false, s.tag), m1.st.nextReg;
    && m == a.(jumps := LoopJumps(a.jumps, s.tag)) && a.st.pool == |a.pool|
    && StmtEmitted(s.body, top, true, m, m1) && m1.st.pool == |m1.pool|
    && Emitted(s.cond, top, m1.st.syms, r, again, m1.pool, b2, p2) && |a.block| <= |b2|
    && b4 == Patch(b2 + [OP_JUMP_TRUE, Low(r)] + [0, 0] + LoopCode(|b2| + 4 - |a.block| + 3), |b2| + 2, 3)
  }

  lemma RepeatParts(s: Stmt, top: bool, st: CState, K: Ctx, st1: CState)
    requires s.Repeat? && st1 == After(s.body, st)
    ensures var cc := ExprCode(s.cond, top, st1.syms, st1.nextReg, st1.pool);
            Code(top, s, st, K) == RepeatCode(Code(top, s.body, st, BodyCtx(K, s.tag, |cc| + 7)), cc, st1.nextReg)
    ensures StmtConsts(s) == StmtConsts(s.body) + ExprConsts(s.cond)
    ensures After(s, st) == AddPool(st1, ExprConsts(s.cond))
  {
    hide ExprCode, ExprConsts, RepeatCode, BodyCtx;
  }

  lemma RepeatHoles(s: Stmt, top: bool, st: CState, labels: set<string>, inLoop: bool, t: Target)
    requires s.Repeat?
    ensures HolesOf(top, s, st, OpenCtx(labels, inLoop), t)
         == if Rebinds(s.tag, t) then [] else HolesOf(top, s.body, st, LoopOpen(labels, s.tag), t)
  {
    hide ExprCode, ExprConsts, OpenCtx, Code, After, BodyCtx;
    if !Rebinds(s.tag, t) {
      var K, K1, st1 := OpenCtx(labels, inLoop), LoopOpen(labels, s.tag), After(s.body, st);
      var n := |ExprCode(s.cond, top, st1.syms, st1.nextReg, st1.pool)| + 7;
      LoopCtxs(labels, inLoop, s.tag, n);
      SameHoles(top, s.body, st, K1, BodyCtx(K, s.tag, n), t);
      var h := HolesOf(top, s.body, st, BodyCtx(K, s.tag, n), t);
      assert Offset(h, 0) == h;
    }
  }

  lemma RepeatBytes(b: seq<u8>, bc: seq<u8>, cc: seq<u8>, r: nat, b4: seq<u8>)
    requires var b2 := b + bc + cc;
             b4 == Patch(b2 + [OP_JUMP_TRUE, Low(r)] + [0, 0] + LoopCode(|b2| + 4 - |b| + 3), |b2| + 2, 3)
    ensures b4 == b + bc + (cc + (BranchCode(OP_JUMP_TRUE, r, 3) + LoopCode(|bc| + |cc| + 7)))
  {
    hide Patch, JumpField, LoopCode;
    var b2, loop := b + bc + cc, LoopCode(|bc| + |cc| + 7);
    PatchHole(b2 + [OP_JUMP_TRUE, Low(r)], loop, 3);
    assert b2 + [OP_JUMP_TRUE, Low(r)] + JumpField(3) + loop
        == b + bc + (cc + (BranchCode(OP_JUMP_TRUE, r, 3) + loop));
  }

  lemma FillBreaks(top: bool, s: Stmt, labels: set<string>, tag: Option<string>, m: Snap, m1: Snap, suf: seq<u8>)
    requires StmtEmitted(s, top, true, m, m1) && m.jumps.breakLabels.Keys == WithLabel(labels, tag)
    requires Pending(m.jumps, Exit(None)) == [] && Pending(m.jumps, Exit(tag)) == []
    ensures var KA := Bound(LoopOpen(labels, tag), false, tag, At(0));
            PatchBoth(m.block + Code(top, s, m.st, KA) + suf, m1.jumps, true, tag)
            == m.block + Code(top, s, m.st, Bound(KA, true, tag, At(|suf|))) + suf
  {
    hide Code, HolesOf, PatchAll, Offset, OpenCtx, Pending;
    var K1 := LoopOpen(labels, tag);
    var KA := Bound(K1, false, tag, At(0));
    LoopKeys(labels, tag);
    assert TargetIn(Exit(None), WithLabel(labels, tag), true) && TargetIn(Exit(tag), WithLabel(labels, tag), true);
    OwnRecorded(top, s, labels, tag, m, m1, Exit(None));
    FillOne(top, s, m.st, K1, KA, Exit(None), m.block, suf, |suf|);
    assert Bound(KA, true, None, At(|suf|)) == KA[Exit(None) := At(|suf|)];
    if tag.Some? {
      OwnRecorded(top, s, labels, tag, m, m1, Exit(tag));
      KeysKept(KA, Exit(None), At(|suf|));
      FillOne(top, s, m.st, K1, KA[Exit(None) := At(|suf|)], Exit(tag), m.block, suf, |suf|);
    }
  }

  lemma RepeatBlock(s: Stmt, top: bool, inLoop: bool, a: Snap, m: Snap, m1: Snap, b2: seq<u8>, p2: seq<Value>, b4: seq<u8>)
    requires s.Repeat? && SameLabels(a.jumps, a.jumps.breakLabels.Keys)
    requires RepeatEmitted(s, top, a, m, m1, b2, p2, b4)
    ensures PatchBoth(b4, m1.jumps, true, s.tag)
            == a.block + Code(top, s, a.st, OpenCtx(a.jumps.breakLabels.Keys, inLoop))
  {
    hide ExprCode, ExprConsts, Code, StmtConsts, After, HolesOf, PatchAll, Offset, OpenCtx, Pending, Recorded, BodyCtx,
      Patch, PatchBoth, RepeatCode, LoopCode, BranchCode;
    var labels := a.jumps.breakLabels.Keys;
    var K, K1 := OpenCtx(labels, inLoop), LoopOpen(labels, s.tag);
    var KA := Bound(K1, false, s.tag, At(0));
    NewLabels(a.jumps, s.tag);
    assert m.jumps.breakLabels.Keys == WithLabel(labels, s.tag);
    FillAgain(top, s.body, labels, s.tag, m, m1);
    var cc, r := ExprCode(s.cond, top, m1.st.syms, m1.st.nextReg, m1.st.pool), m1.st.nextReg;
    var bc := Code(top, s.body, m.st, KA);
    RepeatBytes(a.block, bc, cc, r, b4);
    var tail := cc + (BranchCode(OP_JUMP_TRUE, r, 3) + LoopCode(|bc| + |cc| + 7));
    LoopSize(|bc| + |cc| + 7);
    BranchSize(OP_JUMP_TRUE, r, 3);
    FillBreaks(top, s.body, labels, s.tag, m, m1, tail);
    LoopCtxs(labels, inLoop, s.tag, |tail|);
    LoopKeys(labels, s.tag);
    RepeatParts(s, top, a.st, K, m1.st);
    var bF := Code(top, s.body, m.st, BodyCtx(K, s.tag, |tail|));
    SameLength(top, s.body, m.st, KA, BodyCtx(K, s.tag, |tail|));
    RepeatAssembled(a.block, bF, cc, r);
  }

  lemma RepeatAssembled(b: seq<u8>, bc: seq<u8>, cc: seq<u8>, r: nat)
    ensures b + bc + (cc + (BranchCode(OP_JUMP_TRUE, r, 3) + LoopCode(|bc| + |cc| + 7))) == b + RepeatCode(bc, cc, r)
  {
    Regroup(b, bc, cc + (BranchCode(OP_JUMP_TRUE, r, 3) + LoopCode(|bc| + |cc| + 7)), []);
  }

  lemma TestGrows(c: Expr, top: bool, syms: Syms, r: nat, b: seq<u8>, p: seq<Value>, b2: seq<u8>, p2: seq<Value>)
    requires Emitted(c, top, syms, r, b, p, b2, p2)
    ensures |b2| >= |b|
  {
  }

  lemma RepeatDone(s: Stmt, top: bool, inLoop: bool, a: Snap, m: Snap, m1: Snap, b2: seq<u8>, p2: seq<Value>, b4: seq<u8>,
                   z: Snap)
    requires s.Repeat? && SameLabels(a.jumps, a.jumps.breakLabels.Keys)
    requires s.tag.Some? ==> s.tag.value !in a.jumps.breakLabels
    requires RepeatEmitted(s, top, a, m, m1, b2, p2, b4)
    requires z == Snap(m1.st.(pool := |p2|), AfterLoop(a.jumps, m1.jumps, s.tag), PatchBoth(b4, m1.jumps, true, s.tag), p2)
    ensures StmtEmitted(s, top, inLoop, a, z)
  {
    hide ExprCode, ExprConsts, Code, StmtConsts, After, HolesOf, PatchAll, Offset, OpenCtx, Pending, BodyCtx,
      Patch, PatchBoth, RepeatCode;
    var labels := a.jumps.breakLabels.Keys;
    var K, K1 := OpenCtx(labels, inLoop), LoopOpen(labels, s.tag);
    RepeatBlock(s, top, inLoop, a, m, m1, b2, p2, b4);
    RepeatParts(s, top, a.st, K, m1.st);
    Regroup(a.pool, StmtConsts(s.body), ExprConsts(s.cond), []);
    assert SameLabels(z.jumps, labels);
    forall t | t in K ensures Recorded(a.jumps, z.jumps, t, HolesOf(top, s, a.st, K, t), |a.block|) {
      RepeatHoles(s, top, a.st, labels, inLoop, t);
      PassesOut(a.jumps, m1.jumps, s.tag, t);
      if Rebinds(s.tag, t) {
        NoneRecorded(a.jumps, |a.block|);
        assert Recorded(a.jumps, a.jumps, t, [], |a.block|);
      } else {
        NewLabels(a.jumps, s.tag);
        assert m.jumps.breakLabels.Keys == WithLabel(labels, s.tag);
        assert TargetIn(t, WithLabel(labels, s.tag), true);
        ElseRecorded(top, s.body, labels, s.tag, m, m1, t);
      }
    }
  }

  /* The recorded jumps lie in the chunk. */

  lemma OwnInside(top: bool, s: Stmt, labels: set<string>, tag: Option<string>, m: Snap, m1: Snap, t: Target)
    requires StmtEmitted(s, top, true, m, m1) && m.jumps.breakLabels.Keys == WithLabel(labels, tag)
    requires Pending(m.jumps, t) == [] && TargetIn(t, WithLabel(labels, tag), true)
    ensures Inside(Pending(m1.jumps, t), |m1.block|)
  {
    hide Code, HolesOf, Offset, After, StmtConsts, Pending, Inside;
    var K1 := LoopOpen(labels, tag);
    OwnRecorded(top, s, labels, tag, m, m1, t);
    HolesInside(top, s, m.st, K1, t);
    InsideOffset(HolesOf(top, s, m.st, K1, t), |Code(top, s, m.st, K1)|, |m.block|);
  }

  /** Those of the body stay there, those of the else clause are added. */
  lemma ExitInside(top: bool, els: Stmt, labels: set<string>, tag: Option<string>, e: Snap, e1: Snap, t: Target)
    requires StmtEmitted(els, top, true, e, e1) && e.jumps.breakLabels.Keys == WithLabel(labels, tag)
    requires Inside(Pending(e.jumps, t), |e.block|) && TargetIn(t, WithLabel(labels, tag), true)
    ensures Inside(Pending(e1.jumps, t), |e1.block|)
  {
    hide Code, HolesOf, Offset, After, StmtConsts, Pending;
    var K1 := LoopOpen(labels, tag);
    ElseRecorded(top, els, labels, tag, e, e1, t);
    HolesInside(top, els, e.st, K1, t);
    InsideOffset(HolesOf(top, els, e.st, K1, t), |Code(top, els, e.st, K1)|, |e.block|);
  }

  ghost predicate NoJumps(J: Jumps, tag: Option<string>) {
    forall t | Rebinds(tag, t) :: Pending(J, t) == []
  }

  ghost predicate AllInside(J: Jumps, tag: Option<string>, n: nat) {
    forall t | Rebinds(tag, t) :: Inside(Pending(J, t), n)
  }

  lemma BodyInside(s: Stmt, top: bool, labels: set<string>, tag: Option<string>, m: Snap, m1: Snap)
    requires StmtEmitted(s, top, true, m, m1) && m.jumps.breakLabels.Keys == WithLabel(labels, tag)
    requires NoJumps(m.jumps, tag)
    ensures AllInside(m1.jumps, tag, |m1.block|)
  {
    hide StmtEmitted, Pending, Inside;
    forall t | Rebinds(tag, t) ensures Inside(Pending(m1.jumps, t), |m1.block|) {
      assert TargetIn(t, WithLabel(labels, tag), true);
      OwnInside(top, s, labels, tag, m, m1, t);
    }
  }

  lemma ElseInside(els: Stmt, top: bool, labels: set<string>, tag: Option<string>, e: Snap, e1: Snap, n: nat)
    requires StmtEmitted(els, top, true, e, e1) && e.jumps.breakLabels.Keys == WithLabel(labels, tag)
    requires AllInside(e.jumps, tag, n) && |e.block| >= n
    ensures AllInside(e1.jumps, tag, |e1.block|)
  {
    hide StmtEmitted, Pending;
    forall t | Rebinds(tag, t) ensures Inside(Pending(e1.jumps, t), |e1.block|) {
      assert TargetIn(t, WithLabel(labels, tag), true);
      assert Inside(Pending(e.jumps, t), n);
      ExitInside(top, els, labels, tag, e, e1, t);
    }
  }

  lemma InsideMore(J: Jumps, tag: Option<string>, n: nat, n': nat)
    requires AllInside(J, tag, n) && n <= n'
    ensures AllInside(J, tag, n')
  {
    forall t | Rebinds(tag, t) ensures Inside(Pending(J, t), n') { assert Inside(Pending(J, t), n); }
  }

  /** What the loop methods patch. */
  lemma LoopVectors(J: Jumps, tag: Option<string>, n: nat)
    requires AllInside(J, tag, n)
    ensures Inside(J.breaks, n) && Inside(J.continues, n) && Inside([], n)
    ensures tag.Some? ==> Inside(Labelled(J.breakLabels, tag.value), n) && Inside(Labelled(J.continueLabels, tag.value), n)
  {
    assert Inside(Pending(J, Exit(None)), n) && Inside(Pending(J, Again(None)), n);
    assert Inside(Pending(J, Exit(tag)), n) && Inside(Pending(J, Again(tag)), n);
  }

  lemma EnterLoop(J: Jumps, tag: Option<string>)
    requires SameLabels(J, J.breakLabels.Keys)
    ensures SameLabels(LoopJumps(J, tag), WithLabel(J.breakLabels.Keys, tag)) && NoJumps(LoopJumps(J, tag), tag)
  {
    NewLabels(J, tag);
  }
}
