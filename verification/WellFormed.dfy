/** Emitted code is well formed: every chunk is a row of whole instructions, and every
    patched jump lands on the beginning of one. */
module WellFormed {
  import opened Words
  import opened Opcodes
  import opened Syntax
  import opened Values
  import opened Source
  import opened Codegen
  import opened StmtCode
  import opened Instructions

  /* Single instructions. */

  lemma One(c: Bytes)
    requires |c| > 0 && Length(c) == |c| && Jump(c, 0) == {}
    ensures Piece(c, {}, {})
  {
    JustOne(c);
  }

  lemma JustOne(c: Bytes)
    requires |c| > 0 && Length(c) == |c|
    ensures Whole(c) && Targets(c, 0) == Jump(c, 0)
  {
    hide Length, Jump;
    assert Rest(c) == [];
    assert Whole(Rest(c));
    NoTargets(Length(c));
    assert Targets(c, 0) == Jump(c, 0) + Targets(Rest(c), Length(c));
  }

  lemma Nothing()
    ensures Piece([], {}, {})
  {
  }

  lemma OneJump(c: Bytes, x: int, back: set<nat>, ahead: set<nat>)
    requires |c| > 0 && Length(c) == |c| && Jump(c, 0) == {x} && Lands(c, back, ahead, x)
    ensures Piece(c, back, ahead)
  {
    hide Lands;
    JustOne(c);
  }

  /** A patched distance, or the zeros of one that was too long. */
  lemma FieldValue(d: nat)
    ensures var f := JumpField(d); |f| == 2 && Distance(f[0], f[1]) == if d <= BYTE_JUMP_MAX then d else 0
  {
  }

  lemma ForwardLands(c: Bytes, d: nat)
    requires Whole(c)
    ensures Lands(c, {}, {d}, |c| + d) && Lands(c, {}, {d}, |c|)
  {
    BoundaryEnd(c);
  }

  lemma JumpPiece(d: nat)
    ensures Piece(JumpCode(d), {}, {d})
  {
    hide Length, Jump, JumpField, Lands, Boundary;
    var c := JumpCode(d);
    FieldValue(d);
    assert c[1] == JumpField(d)[0] && c[2] == JumpField(d)[1];
    JumpLength(c);
    JustOne(c);
    ForwardLands(c, d);
    OneJump(c, 3 + Distance(c[1], c[2]), {}, {d});
  }

  lemma JumpLength(c: Bytes)
    requires |c| == 3 && c[0] == OP_JUMP
    ensures Length(c) == 3 && Jump(c, 0) == {3 + Distance(c[1], c[2])}
  {
  }

  lemma BranchPiece(op: u8, r: nat, d: nat)
    requires op == OP_JUMP_TRUE || op == OP_JUMP_FALSE
    ensures Piece(BranchCode(op, r, d), {}, {d})
  {
    hide Length, Jump, JumpField, Lands, Boundary;
    var c := BranchCode(op, r, d);
    FieldValue(d);
    assert c[2] == JumpField(d)[0] && c[3] == JumpField(d)[1];
    BranchLength(c);
    JustOne(c);
    ForwardLands(c, d);
    OneJump(c, 4 + Distance(c[2], c[3]), {}, {d});
  }

  lemma BranchLength(c: Bytes)
    requires |c| == 4 && (c[0] == OP_JUMP_TRUE || c[0] == OP_JUMP_FALSE)
    ensures Length(c) == 4 && Jump(c, 0) == {4 + Distance(c[2], c[3])}
  {
  }

  /** A loop instruction jumps `d` bytes back from its end. */
  lemma LoopPiece(d: nat)
    requires 3 < d <= BYTE_JUMP_MAX
    ensures Piece(LoopCode(d), {d - 3}, {})
  {
    hide Length, Jump, Distance, Lands, Boundary;
    var c := LoopCode(d);
    ShortValue(d);
    LoopLength(c);
    assert Lands(c, {d - 3}, {}, 3 - d) by {
      BackLands(c, d - 3);
    }
    OneJump(c, 3 - d, {d - 3}, {});
  }

  lemma ShortValue(d: nat)
    requires d <= BYTE_JUMP_MAX
    ensures Distance(Low(d / 0x100), Low(d)) == d
  {
  }

  lemma LoopLength(c: Bytes)
    requires |c| == 3 && c[0] == OP_LOOP
    ensures Length(c) == 3 && Jump(c, 0) == {3 - Distance(c[1], c[2])}
  {
  }

  lemma BackLands(c: Bytes, y: nat)
    requires y > 0
    ensures Lands(c, {y}, {}, 0 - y as int)
  {
  }

  lemma Plain1(op: u8)
    requires op == OP_EXIT_SCOPE || op == OP_HALT
    ensures Piece([op], {}, {})
  {
    One([op]);
  }

  lemma Plain2(op: u8, a: u8)
    requires op in {OP_NEG, OP_NOT, OP_COMP, OP_INCR, OP_DECR, OP_LIST, OP_ENTER_SCOPE}
    ensures Piece([op, a], {}, {})
  {
    One([op, a]);
  }

  predicate IsPlain3(op: u8) {
    OP_ADD <= op <= OP_MOD || OP_EQUAL <= op <= OP_IN || op == OP_AND || op == OP_OR || op == OP_XOR || op == OP_SHIFT_L
    || op == OP_SHIFT_R || OP_GET_GLOBAL <= op <= OP_SET_LOCAL || op == OP_MOVE_REG || op == OP_VAR || op == OP_FIX
  }

  lemma Plain3(op: u8, a: u8, b: u8)
    requires IsPlain3(op)
    ensures Piece([op, a, b], {}, {})
  {
    One([op, a, b]);
  }

  lemma Plain4(op: u8, a: u8, b: u8, c: u8)
    requires op == OP_EXT_LIST || op == OP_GET_INDEX
    ensures Piece([op, a, b, c], {}, {})
  {
    One([op, a, b, c]);
  }

  lemma LoadPiece(r: u8, operand: Bytes)
    requires |operand| > 0 && Loadable(operand[0]) && |operand| == 1 + OperandSize(operand[0])
    ensures Piece([OP_LOAD_REG, r] + operand, {}, {})
  {
    var c := [OP_LOAD_REG, r] + operand;
    assert c[0] == OP_LOAD_REG && c[2] == operand[0];
    One(c);
  }

  lemma LoadImmediate(r: u8, oper: u8)
    requires oper <= OP_NULL
    ensures Piece([OP_LOAD_REG, r, oper], {}, {})
  {
    LoadPiece(r, [oper]);
    assert [OP_LOAD_REG, r] + [oper] == [OP_LOAD_REG, r, oper];
  }

  lemma LoadIntPiece(i: i64, r: nat, pool: nat)
    ensures Piece(LoadInt(i, r, pool), {}, {})
  {
    LoadPiece(Low(r), if Immediate(i) then [Low(i + 2)] else Operand(pool));
  }

  /* Expressions: no jump leaves them. */

  lemma SkipOver(a: Bytes, d: nat, b: Bytes)
    requires Piece(a, {}, {d}) && Piece(b, {}, {}) && d <= |b| && Boundary(b, d)
    ensures Piece(a + b, {}, {})
  {
    hide Piece, Boundary;
    Join(a, {}, {d}, b, {}, {});
  }

  lemma WholeEnds(c: Bytes, back: set<nat>, ahead: set<nat>)
    requires Piece(c, back, ahead)
    ensures Boundary(c, |c|) && Boundary(c, 0)
  {
    BoundaryEnd(c);
  }

  lemma {:induction false} ExprPiece(e: Expr, top: bool, syms: Syms, r: nat, p: nat)
    ensures Piece(ExprCode(e, top, syms, r, p), {}, {})
    decreases e
  {
    hide Piece, Boundary, LoadInt, BinaryCode, CompoundCode, CrementCode, ShortCircuit, ListCode;
    match e
    case IntLit(i) => LoadIntPiece(i, r, p);
    case BoolLit(b) => LoadImmediate(Low(r), if b then OP_TRUE else OP_FALSE);
    case NullLit => LoadImmediate(Low(r), OP_NULL);
    case Var(name) =>
      Nothing();
      var k := Innermost(syms, name);
      if k >= 0 {
        VarPieces(top, k, r, syms[k][name].reg);
      }
    case Unary(op, e1) =>
      ExprPiece(e1, top, syms, r, p);
      Plain2(UnaryOpcode(op), Low(r));
      JoinClosed(ExprCode(e1, top, syms, r, p), [UnaryOpcode(op), Low(r)]);
    case Binary(op, l, rt) =>
      ExprPiece(l, top, syms, r, p);
      ExprPiece(rt, top, syms, r + 1, p + |ExprConsts(l)|);
      BinaryPiece(op, r);
      JoinClosed(ExprCode(rt, top, syms, r + 1, p + |ExprConsts(l)|), BinaryCode(op, r));
      JoinClosed(ExprCode(l, top, syms, r, p), ExprCode(rt, top, syms, r + 1, p + |ExprConsts(l)|) + BinaryCode(op, r));
    case And(l, rt) =>
      ExprPiece(l, top, syms, r, p);
      ExprPiece(rt, top, syms, r, p + |ExprConsts(l)|);
      LogicPiece(OP_JUMP_FALSE, ExprCode(l, top, syms, r, p), ExprCode(rt, top, syms, r, p + |ExprConsts(l)|), r);
    case Or(l, rt) =>
      ExprPiece(l, top, syms, r, p);
      ExprPiece(rt, top, syms, r, p + |ExprConsts(l)|);
      LogicPiece(OP_JUMP_TRUE, ExprCode(l, top, syms, r, p), ExprCode(rt, top, syms, r, p + |ExprConsts(l)|), r);
    case IfExpr(c, t, f) =>
      var p1 := p + |ExprConsts(c)|;
      ExprPiece(c, top, syms, r, p);
      ExprPiece(t, top, syms, r, p1);
      ExprPiece(f, top, syms, r, p1 + |ExprConsts(t)|);
      IfPiece(ExprCode(c, top, syms, r, p), r, ExprCode(t, top, syms, r, p1), ExprCode(f, top, syms, r, p1 + |ExprConsts(t)|));
    case Assign(name, e1) =>
      Nothing();
      ExprPiece(e1, top, syms, r, p);
      var k := Innermost(syms, name);
      if k >= 0 {
        VarPieces(top, k, r, syms[k][name].reg);
      }
      JoinClosed(ExprCode(e1, top, syms, r, p), if k < 0 then [] else SetVar(top, k, syms[k][name].reg, r));
    case CompoundAssign(op, name, e1) =>
      Nothing();
      ExprPiece(e1, top, syms, r, p);
      var k := Innermost(syms, name);
      if k >= 0 {
        CompoundPiece(op, top, k, syms[k][name].reg, r);
      }
      JoinClosed(ExprCode(e1, top, syms, r, p), if k < 0 then [] else CompoundCode(op, top, k, syms[k][name].reg, r));
    case Crement(incr, prev, name) =>
      Nothing();
      var k := Innermost(syms, name);
      if k >= 0 {
        CrementPiece(incr, prev, top, k, syms[k][name].reg, r);
      }
    case ListLit(es) =>
      Plain2(OP_LIST, Low(r));
      ListPiece(es, top, syms, r, 0, p);
      JoinClosed([OP_LIST, Low(r)], ListCode(es, top, syms, r, 0, p));
    case Index(l, rt) =>
      ExprPiece(l, top, syms, r, p);
      ExprPiece(rt, top, syms, r + 1, p + |ExprConsts(l)|);
      var ic := [OP_GET_INDEX, Low(r), Low(r), Low(r + 1)];
      Plain4(OP_GET_INDEX, Low(r), Low(r), Low(r + 1));
      JoinClosed(ExprCode(rt, top, syms, r + 1, p + |ExprConsts(l)|), ic);
      JoinClosed(ExprCode(l, top, syms, r, p), ExprCode(rt, top, syms, r + 1, p + |ExprConsts(l)|) + ic);
  }

  lemma VarPieces(top: bool, k: int, r: nat, slot: nat)
    ensures Piece(GetVar(top, k, r, slot), {}, {}) && Piece(SetVar(top, k, slot, r), {}, {})
  {
    hide Piece;
    Plain3(if top && k == 0 then OP_GET_GLOBAL else OP_GET_LOCAL, Low(r), Low(slot));
    Plain3(if top && k == 0 then OP_SET_GLOBAL else OP_SET_LOCAL, Low(slot), Low(r));
  }

  lemma BinaryPiece(op: BinaryOp, r: nat)
    ensures Piece(BinaryCode(op, r), {}, {})
  {
    hide Piece;
    var c := [BinaryOpcode(op), Low(r), Low(r + 1)];
    Plain3(BinaryOpcode(op), Low(r), Low(r + 1));
    Plain2(OP_NOT, Low(r));
    Nothing();
    JoinClosed(c, if Inverted(op) then [OP_NOT, Low(r)] else []);
  }

  lemma LogicPiece(op: u8, lc: Bytes, rc: Bytes, r: nat)
    requires Piece(lc, {}, {}) && Piece(rc, {}, {}) && (op == OP_JUMP_TRUE || op == OP_JUMP_FALSE)
    ensures Piece(ShortCircuit(op, lc, rc, r), {}, {})
  {
    hide Piece, Boundary, BranchCode;
    BranchPiece(op, r, |rc|);
    WholeEnds(rc, {}, {});
    SkipOver(BranchCode(op, r, |rc|), |rc|, rc);
    JoinClosed(lc, BranchCode(op, r, |rc|) + rc);
  }

  lemma IfPiece(cc: Bytes, r: nat, tc: Bytes, fc: Bytes)
    requires Piece(cc, {}, {}) && Piece(tc, {}, {}) && Piece(fc, {}, {})
    ensures Piece(cc + (BranchCode(OP_JUMP_FALSE, r, |tc| + 3) + (tc + (JumpCode(|fc|) + fc))), {}, {})
  {
    hide Piece, Boundary, BranchCode, JumpCode;
    var tail := JumpCode(|fc|) + fc;
    JumpPiece(|fc|);
    WholeEnds(fc, {}, {});
    SkipOver(JumpCode(|fc|), |fc|, fc);
    JoinClosed(tc, tail);
    AfterJump(tc, fc, {}, {});
    BranchPiece(OP_JUMP_FALSE, r, |tc| + 3);
    SkipOver(BranchCode(OP_JUMP_FALSE, r, |tc| + 3), |tc| + 3, tc + tail);
    JoinClosed(cc, BranchCode(OP_JUMP_FALSE, r, |tc| + 3) + (tc + tail));
  }

  /** The instruction after a piece and the jump behind it. */
  lemma AfterJump(tc: Bytes, fc: Bytes, back: set<nat>, ahead: set<nat>)
    requires Piece(tc, back, ahead)
    ensures |JumpCode(|fc|)| == 3 && Boundary(tc + (JumpCode(|fc|) + fc), |tc| + 3)
    ensures Boundary(tc + (JumpCode(|fc|) + fc), |tc|)
  {
    hide Boundary;
    var j := JumpCode(|fc|);
    JumpPiece(|fc|);
    WholeEnds(j, {}, {|fc|});
    FieldValue(|fc|);
    BoundaryFirst(j, fc, 3);
    BoundarySecond(tc, j + fc, 3);
    WholeEnds(tc, back, ahead);
    BoundaryFirst(tc, j + fc, |tc|);
  }

  lemma CompoundPiece(op: BinaryOp, top: bool, k: int, slot: nat, r: nat)
    requires HasCompound(op)
    ensures Piece(CompoundCode(op, top, k, slot, r), {}, {})
  {
    hide Piece, GetVar, SetVar;
    VarPieces(top, k, r + 1, slot);
    Plain3(BinaryOpcode(op), Low(r + 1), Low(r));
    Plain3(OP_MOVE_REG, Low(r), Low(r + 1));
    var oc, mc := [BinaryOpcode(op), Low(r + 1), Low(r)], [OP_MOVE_REG, Low(r), Low(r + 1)];
    JoinClosed(SetVar(top, k, slot, r + 1), mc);
    JoinClosed(oc, SetVar(top, k, slot, r + 1) + mc);
    JoinClosed(GetVar(top, k, r + 1, slot), oc + (SetVar(top, k, slot, r + 1) + mc));
  }

  lemma CrementPiece(incr: bool, prev: bool, top: bool, k: int, slot: nat, r: nat)
    ensures Piece(CrementCode(incr, prev, top, k, slot, r), {}, {})
  {
    hide Piece, GetVar, SetVar;
    VarPieces(top, k, r, slot);
    VarPieces(top, k, r + 1, slot);
    Plain2(if incr then OP_INCR else OP_DECR, Low(r + 1));
    Plain3(OP_MOVE_REG, Low(r), Low(r + 1));
    Nothing();
    var oc := [if incr then OP_INCR else OP_DECR, Low(r + 1)];
    var mc := if prev then [] else [OP_MOVE_REG, Low(r), Low(r + 1)];
    var sc := SetVar(top, k, slot, r + 1);
    JoinClosed(sc, mc);
    JoinClosed(oc, sc + mc);
    JoinClosed(GetVar(top, k, r + 1, slot), oc + (sc + mc));
    JoinClosed(GetVar(top, k, r, slot), GetVar(top, k, r + 1, slot) + (oc + (sc + mc)));
  }

  lemma ExtendPiece(r: nat, count: nat)
    ensures Piece(ExtendList(r, count), {}, {})
  {
    Plain4(OP_EXT_LIST, Low(r), Low(r + 1), Low(count));
  }

  lemma {:induction false} ListPiece(es: seq<Expr>, top: bool, syms: Syms, r: nat, count: nat, p: nat)
    ensures Piece(ListCode(es, top, syms, r, count, p), {}, {})
    decreases es
  {
    hide Piece, ExtendList, ExprCode;
    Nothing();
    ExtendPiece(r, count);
    ExtendPiece(r, count + 1);
    if es != [] {
      var p1, full := p + |ExprConsts(es[0])|, count + 1 == LIST_ENTRY_GROUP;
      var rest := ListCode(es[1..], top, syms, r, if full then 0 else count + 1, p1);
      ExprPiece(es[0], top, syms, r + 1 + count, p);
      ListPiece(es[1..], top, syms, r, if full then 0 else count + 1, p1);
      var group := if full then ExtendList(r, count + 1) else [];
      JoinClosed(group, rest);
      JoinClosed(ExprCode(es[0], top, syms, r + 1 + count, p), group + rest);
    }
  }

  /* Statements: jumps leave them for the targets of enclosing loops only. */

  ghost function Dists(K: Ctx): set<nat> {
    set t | t in K && K[t].At? :: K[t].d
  }

  lemma InDists(K: Ctx, t: Target)
    requires t in K && K[t].At?
    ensures K[t].d in Dists(K)
  {
  }

  /** Behind `n` more bytes the distances are `n` less. */
  lemma ShiftMeets(a: Bytes, K: Ctx, b: Bytes, back: set<nat>, ahead: set<nat>)
    requires Piece(b, back, ahead) && Dists(K) <= ahead
    ensures Meets(a, Dists(Shift(K, |b|)), b, ahead)
  {
    hide Piece, Boundary, Dists;
    WholeEnds(b, back, ahead);
    forall d | d in Dists(Shift(K, |b|)) ensures d >= |b| && (d == |b| || d - |b| in ahead) {
      ShiftedDist(K, |b|, d);
    }
  }

  lemma ShiftedDist(K: Ctx, n: nat, d: nat)
    requires d in Dists(Shift(K, n))
    ensures d >= n && d - n in Dists(K)
  {
    var t :| t in Shift(K, n) && Shift(K, n)[t].At? && Shift(K, n)[t].d == d;
    assert K[t].At? && K[t].d == d - n;
  }

  lemma BodyDist(K: Ctx, tag: Option<string>, n: nat, d: nat)
    requires d in Dists(BodyCtx(K, tag, n))
    ensures d == 0 || d == n || (d >= n && d - n in Dists(K))
  {
    var L := BodyCtx(K, tag, n);
    var t :| t in L && L[t].At? && L[t].d == d;
    if L[t] != At(n) && L[t] != At(0) {
      assert L[t] == Shift(K, n)[t];
    }
  }

  lemma ElseDist(K: Ctx, tag: Option<string>, d: nat)
    requires d in Dists(ElseCtx(K, tag))
    ensures d == 0 || d in Dists(K)
  {
    var L := ElseCtx(K, tag);
    var t :| t in L && L[t].At? && L[t].d == d;
  }

  lemma HolePiece(K: Ctx, t: Target)
    requires JumpFits(K, t)
    ensures Piece(JumpTo(K, t), {}, Dists(K))
  {
    hide Piece, Dists;
    JumpPiece(K[t].d);
    InDists(K, t);
    Widen(JumpCode(K[t].d), {}, {K[t].d}, {}, Dists(K));
  }

  /** A closed piece in front. */
  lemma Before(a: Bytes, b: Bytes, ahead: set<nat>)
    requires Piece(a, {}, {}) && Piece(b, {}, ahead)
    ensures Piece(a + b, {}, ahead)
  {
    hide Piece;
    Join(a, {}, {}, b, {}, ahead);
  }

  lemma BlockPiece(r: nat, body: Bytes, K: Ctx)
    requires Piece(body, {}, Dists(Shift(K, 1)))
    ensures Piece(BlockCode(r, body), {}, Dists(K))
  {
    hide Piece, Dists, Shift, Boundary;
    Plain1(OP_EXIT_SCOPE);
    Plain2(OP_ENTER_SCOPE, Low(r));
    Widen([OP_EXIT_SCOPE], {}, {}, {}, Dists(K));
    ShiftMeets(body, K, [OP_EXIT_SCOPE], {}, Dists(K));
    Join(body, {}, Dists(Shift(K, 1)), [OP_EXIT_SCOPE], {}, Dists(K));
    Before([OP_ENTER_SCOPE, Low(r)], body + [OP_EXIT_SCOPE], Dists(K));
  }

  lemma SequencePiece(a: Bytes, b: Bytes, K: Ctx)
    requires Piece(a, {}, Dists(Shift(K, |b|))) && Piece(b, {}, Dists(K))
    ensures Piece(a + b, {}, Dists(K))
  {
    hide Piece, Dists, Shift, Boundary;
    ShiftMeets(a, K, b, {}, Dists(K));
    Join(a, {}, Dists(Shift(K, |b|)), b, {}, Dists(K));
  }

  /** A jump over the beginning of what follows. */
  lemma SkipPart(a: Bytes, d: nat, b: Bytes, ahead: set<nat>)
    requires Piece(a, {}, {d}) && Piece(b, {}, ahead) && d <= |b| && Boundary(b, d)
    ensures Piece(a + b, {}, ahead)
  {
    hide Piece, Boundary;
    Join(a, {}, {d}, b, {}, ahead);
  }

  lemma IfStmtPiece(cc: Bytes, r: nat, f: Stmt, tc: Bytes, fc: Bytes, K: Ctx)
    requires Piece(cc, {}, {}) && Piece(fc, {}, Dists(K)) && Piece(tc, {}, Dists(Shift(K, |ElseTail(f, fc)|)))
    ensures Piece(IfCode(cc, r, f, tc, fc), {}, Dists(K))
  {
    hide Piece, Dists, Shift, Boundary, BranchCode, JumpCode;
    var tail, over := ElseTail(f, fc), OverThen(f, tc);
    assert Piece(tail, {}, Dists(K)) by {
      if f.Empty? {
        Nothing();
        Widen([], {}, {}, {}, Dists(K));
      } else {
        JumpPiece(|fc|);
        WholeEnds(fc, {}, Dists(K));
        SkipPart(JumpCode(|fc|), |fc|, fc, Dists(K));
      }
    }
    SequencePiece(tc, tail, K);
    assert over <= |tc + tail| && Boundary(tc + tail, over) by {
      WholeEnds(tc, {}, Dists(Shift(K, |tail|)));
      BoundaryFirst(tc, tail, |tc|);
      AfterJump(tc, fc, {}, Dists(Shift(K, |tail|)));
    }
    BranchPiece(OP_JUMP_FALSE, r, over);
    SkipPart(BranchCode(OP_JUMP_FALSE, r, over), over, tc + tail, Dists(K));
    Before(cc, BranchCode(OP_JUMP_FALSE, r, over) + (tc + tail), Dists(K));
  }

  /** `back` has one element, which lies at the start of `a` or before it. */
  lemma JoinLoop(a: Bytes, mid: set<nat>, b: Bytes, y: nat, ahead: set<nat>)
    requires Piece(a, {}, mid) && Piece(b, {y}, ahead) && Meets(a, mid, b, ahead) && y >= |a|
    ensures Piece(a + b, {y - |a|}, ahead)
  {
    hide Piece, Boundary, Meets;
    WholeEnds(a, {}, mid);
    Widen(a, {}, mid, {y - |a|}, mid);
    Join(a, {y - |a|}, mid, b, {y}, ahead);
  }

  /** The code in front of which the loop starts. */
  lemma CloseLoop(a: Bytes, b: Bytes, ahead: set<nat>)
    requires Piece(a, {}, {}) && Piece(b, {|a|}, ahead)
    ensures Piece(a + b, {}, ahead)
  {
    hide Piece, Boundary;
    WholeEnds(a, {}, {});
    Join(a, {}, {}, b, {|a|}, ahead);
  }

  lemma WhilePiece(cc: Bytes, r: nat, bc: Bytes, ec: Bytes, K: Ctx, tag: Option<string>)
    requires Piece(cc, {}, {}) && Piece(bc, {}, Dists(BodyCtx(K, tag, 3 + |ec|))) && Piece(ec, {}, Dists(ElseCtx(K, tag)))
    requires |cc| + |bc| + 7 <= BYTE_JUMP_MAX
    ensures Piece(WhileCode(cc, r, bc, ec), {}, Dists(K))
  {
    hide Piece, Dists, Boundary, BranchCode, LoopCode, BodyCtx, ElseCtx;
    var n, ahead := |cc| + |bc| + 4, Dists(K) + {0};
    var loop, branch := LoopCode(n + 3), BranchCode(OP_JUMP_FALSE, r, |bc| + 3);
    LoopPiece(n + 3);
    SizeOfJumps(n + 3, OP_JUMP_FALSE, r, |bc| + 3);
    forall d | d in Dists(ElseCtx(K, tag)) ensures d in ahead {
      ElseDist(K, tag, d);
    }
    Widen(ec, {}, Dists(ElseCtx(K, tag)), {}, ahead);
    Widen(loop, {n}, {}, {n}, ahead);
    LoopThen(loop, n, ec, ahead);
    BodyMeets(bc, K, tag, loop + ec, n, ahead);
    JoinLoop(bc, Dists(BodyCtx(K, tag, 3 + |ec|)), loop + ec, n, ahead);
    var rest := bc + (loop + ec);
    assert Boundary(rest, |bc| + 3) by {
      WholeEnds(loop, {n}, ahead);
      BoundaryFirst(loop, ec, 3);
      WholeOf(bc, {}, Dists(BodyCtx(K, tag, 3 + |ec|)));
      BoundarySecond(bc, loop + ec, 3);
    }
    BranchPiece(OP_JUMP_FALSE, r, |bc| + 3);
    JoinLoop(branch, {|bc| + 3}, rest, n - |bc|, ahead);
    CloseLoop(cc, branch + rest, ahead);
    DropZero(WhileCode(cc, r, bc, ec), Dists(K));
  }

  lemma WholeOf(c: Bytes, back: set<nat>, ahead: set<nat>)
    requires Piece(c, back, ahead)
    ensures Whole(c)
  {
  }

  lemma SizeOfJumps(d: nat, op: u8, r: nat, e: nat)
    ensures |LoopCode(d)| == 3 && |BranchCode(op, r, e)| == 4
  {
  }

  lemma LoopThen(loop: Bytes, n: nat, ec: Bytes, ahead: set<nat>)
    requires Piece(loop, {n}, {}) && Piece(ec, {}, ahead)
    ensures Piece(loop + ec, {n}, ahead)
  {
    hide Piece, Boundary;
    Join(loop, {n}, {}, ec, {}, ahead);
  }

  /** Inside the body, `continue` goes to the instruction behind it and `break` to the
      end of the loop. */
  lemma BodyMeets(bc: Bytes, K: Ctx, tag: Option<string>, rest: Bytes, n: nat, ahead: set<nat>)
    requires Piece(rest, {n}, ahead) && Dists(K) + {0} <= ahead
    ensures Meets(bc, Dists(BodyCtx(K, tag, |rest|)), rest, ahead)
  {
    hide Piece, Boundary, Dists, BodyCtx;
    WholeEnds(rest, {n}, ahead);
    forall d | d in Dists(BodyCtx(K, tag, |rest|)) ensures if d <= |rest| then Boundary(rest, d) else d - |rest| in ahead {
      BodyDist(K, tag, |rest|, d);
    }
  }

  /** Jumping 0 bytes ahead is jumping to the end. */
  lemma DropZero(c: Bytes, ahead: set<nat>)
    requires Piece(c, {}, ahead + {0})
    ensures Piece(c, {}, ahead)
  {
    hide Whole, Targets, Boundary;
    forall x | x in Targets(c, 0) ensures Lands(c, {}, ahead, x) {
      assert Lands(c, {}, ahead + {0}, x);
    }
  }

  lemma RepeatPiece(bc: Bytes, cc: Bytes, r: nat, K: Ctx, tag: Option<string>)
    requires Piece(cc, {}, {}) && Piece(bc, {}, Dists(BodyCtx(K, tag, |cc| + 7))) && |bc| + |cc| + 7 <= BYTE_JUMP_MAX
    ensures Piece(RepeatCode(bc, cc, r), {}, Dists(K))
  {
    hide Piece, Dists, Boundary, BranchCode, LoopCode, BodyCtx;
    var n, ahead := |bc| + |cc| + 4, Dists(K) + {0};
    var loop, branch := LoopCode(n + 3), BranchCode(OP_JUMP_TRUE, r, 3);
    LoopPiece(n + 3);
    SizeOfJumps(n + 3, OP_JUMP_TRUE, r, 3);
    Widen(loop, {n}, {}, {n}, ahead);
    WholeEnds(loop, {n}, ahead);
    BranchPiece(OP_JUMP_TRUE, r, 3);
    JoinLoop(branch, {3}, loop, n, ahead);
    JoinLoop(cc, {}, branch + loop, n - 4, ahead);
    var rest := cc + (branch + loop);
    BodyMeets(bc, K, tag, rest, n - 4 - |cc|, ahead);
    RepeatClose(bc, Dists(BodyCtx(K, tag, |rest|)), rest, ahead);
    DropZero(RepeatCode(bc, cc, r), Dists(K));
  }

  lemma RepeatClose(bc: Bytes, mid: set<nat>, rest: Bytes, ahead: set<nat>)
    requires Piece(bc, {}, mid) && Piece(rest, {|bc|}, ahead) && Meets(bc, mid, rest, ahead)
    ensures Piece(bc + rest, {}, ahead)
  {
    hide Piece, Boundary, Meets;
    WholeEnds(bc, {}, mid);
    Join(bc, {}, mid, rest, {|bc|}, ahead);
  }

  lemma {:induction false} ValuesPiece(es: seq<Expr>, top: bool, syms: Syms, r: nat, p: nat)
    ensures Piece(ValuesCode(es, top, syms, r, p), {}, {})
    decreases es
  {
    hide Piece, ExprCode;
    Nothing();
    if es != [] {
      var p1 := p + |ExprConsts(es[0])|;
      ExprPiece(es[0], top, syms, r, p);
      ValuesPiece(es[1..], top, syms, r + 1, p1);
      JoinClosed(ExprCode(es[0], top, syms, r, p), ValuesCode(es[1..], top, syms, r + 1, p1));
    }
  }

  lemma {:induction false} NullsPiece(r: nat, n: nat)
    ensures Piece(NullsCode(r, n), {}, {})
    decreases n
  {
    hide Piece;
    Nothing();
    if n > 0 {
      LoadImmediate(Low(r), OP_NULL);
      NullsPiece(r + 1, n - 1);
      JoinClosed([OP_LOAD_REG, Low(r), OP_NULL], NullsCode(r + 1, n - 1));
    }
  }

  lemma DeclPiece(fix: bool, names: seq<string>, values: seq<Expr>, top: bool, st: CState)
    ensures Piece(DeclCode(fix, names, values, top, st), {}, {})
  {
    hide Piece, ValuesCode, NullsCode;
    ValuesPiece(values, top, st.syms, st.nextReg, st.pool);
    NullsPiece(st.nextReg, |names|);
    Plain3(if fix then OP_FIX else OP_VAR, Low(st.nextReg), Low(|names|));
    JoinClosed(if values == [] then NullsCode(st.nextReg, |names|)
               else ValuesCode(values, top, st.syms, st.nextReg, st.pool),
               [if fix then OP_FIX else OP_VAR, Low(st.nextReg), Low(|names|)]);
  }

  lemma Closed(c: Bytes, ahead: set<nat>)
    requires Piece(c, {}, {})
    ensures Piece(c, {}, ahead)
  {
    hide Piece;
    Widen(c, {}, {}, {}, ahead);
  }

  /** Statements are whole instructions, and their jumps stay inside or go to the
      targets that enclosing loops provide. */
  lemma {:induction false} StmtPiece(top: bool, s: Stmt, st: CState, K: Ctx)
    requires Fits(top, s, st, K)
    ensures Piece(Code(top, s, st, K), {}, Dists(K))
    decreases s
  {
    hide Piece, Dists, ExprCode, After, AfterAll, CodeAll, Shift, BodyCtx, ElseCtx, DeclCode, BlockCode, IfCode, WhileCode,
      RepeatCode, JumpTo, JumpFits, ExprFits, ValuesFit;
    match s
    case Empty =>
      Nothing();
      Closed([], Dists(K));
    case ExprStmt(e) =>
      ExprPiece(e, top, st.syms, st.nextReg, st.pool);
      Closed(ExprCode(e, top, st.syms, st.nextReg, st.pool), Dists(K));
    case VarDecl(fix, names, values) =>
      DeclPiece(fix, names, values, top, st);
      Closed(DeclCode(fix, names, values, top, st), Dists(K));
    case Block(ss) =>
      ListCodePiece(top, ss, Enter(st), Shift(K, 1));
      BlockPiece(st.nextReg, CodeAll(top, ss, Enter(st), Shift(K, 1)), K);
    case If(c, t, f) =>
      var st1 := AddPool(st, ExprConsts(c));
      var fc := Code(top, f, After(t, st1), K);
      var tK := Shift(K, |ElseTail(f, fc)|);
      ExprPiece(c, top, st.syms, st.nextReg, st.pool);
      StmtPiece(top, f, After(t, st1), K);
      StmtPiece(top, t, st1, tK);
      IfStmtPiece(ExprCode(c, top, st.syms, st.nextReg, st.pool), st.nextReg, f, Code(top, t, st1, tK), fc, K);
    case While(c, tag, body, els) =>
      var st1 := AddPool(st, ExprConsts(c));
      var ec := Code(top, els, After(body, st1), ElseCtx(K, tag));
      var bodyK := BodyCtx(K, tag, 3 + |ec|);
      ExprPiece(c, top, st.syms, st.nextReg, st.pool);
      StmtPiece(top, els, After(body, st1), ElseCtx(K, tag));
      StmtPiece(top, body, st1, bodyK);
      WhilePiece(ExprCode(c, top, st.syms, st.nextReg, st.pool), st.nextReg, Code(top, body, st1, bodyK), ec, K, tag);
    case Repeat(body, c, tag) =>
      var st1 := After(body, st);
      var cc := ExprCode(c, top, st1.syms, st1.nextReg, st1.pool);
      var bodyK := BodyCtx(K, tag, |cc| + 7);
      ExprPiece(c, top, st1.syms, st1.nextReg, st1.pool);
      StmtPiece(top, body, st, bodyK);
      RepeatPiece(Code(top, body, st, bodyK), cc, st1.nextReg, K, tag);
    case Break(tag) => HolePiece(K, Exit(tag));
    case Continue(tag) => HolePiece(K, Again(tag));
  }

  lemma {:induction false} ListCodePiece(top: bool, ss: seq<Stmt>, st: CState, K: Ctx)
    requires FitsAll(top, ss, st, K)
    ensures Piece(CodeAll(top, ss, st, K), {}, Dists(K))
    decreases ss
  {
    hide Piece, Dists, Code, After, Shift, Fits;
    if ss == [] {
      Nothing();
      Closed([], Dists(K));
    } else {
      var st1 := After(ss[0], st);
      var rest := CodeAll(top, ss[1..], st1, K);
      ListCodePiece(top, ss[1..], st1, K);
      StmtPiece(top, ss[0], st, Shift(K, |rest|));
      SequencePiece(Code(top, ss[0], st, Shift(K, |rest|)), rest, K);
    }
  }
}
