/** How the pieces the compiler appends and patches make up the bytes of an
    expression. */
module Emission {
  import opened Words
  import opened Opcodes
  import opened Syntax
  import opened Values
  import opened Source
  import opened Codegen
  import opened Chunk

  datatype VarInfo = VarInfo(found: bool, slot: nat, global: bool, access: bool)

  /** What compiling `e` must append, with `r` the next register. */
  ghost predicate Emitted(e: Expr, top: bool, syms: Syms, r: nat, block: seq<u8>, pool: seq<Value>,
                          block': seq<u8>, pool': seq<Value>) {
    block' == block + ExprCode(e, top, syms, r, |pool|) && pool' == pool + ExprConsts(e)
  }

  /* How the emitted pieces make up an expression. */

  lemma LogicEmitted(e: Expr, top: bool, syms: Syms, r: nat, b: seq<u8>, p: seq<Value>, b1: seq<u8>, p1: seq<Value>,
                     op: u8, b2: seq<u8>, p2: seq<Value>)
    requires (e.And? && op == OP_JUMP_FALSE) || (e.Or? && op == OP_JUMP_TRUE)
    requires Emitted(e.left, top, syms, r, b, p, b1, p1)
    requires Emitted(e.right, top, syms, r, b1 + [op, Low(r)] + [0, 0], p1, b2, p2)
    ensures |b2| >= |b1| + 4 && Emitted(e, top, syms, r, b, p, Patch(b2, |b1| + 2, |b2| - (|b1| + 2) - 2), p2)
  {
    hide ShortCircuit, JumpField, Patch;
    var lc, rc := ExprCode(e.left, top, syms, r, |p|), ExprCode(e.right, top, syms, r, |p1|);
    ShortCircuitBytes(b, lc, op, r, rc);
  }

  lemma ShortCircuitBytes(b: seq<u8>, lc: seq<u8>, op: u8, r: nat, rc: seq<u8>)
    ensures var b1 := b + lc + [op, Low(r)];
            Patch(b1 + [0, 0] + rc, |b1|, |rc|) == b + ShortCircuit(op, lc, rc, r)
  {
    var b1 := b + lc + [op, Low(r)];
    PatchHole(b1, rc, |rc|);
    assert b1 + JumpField(|rc|) + rc == b + ShortCircuit(op, lc, rc, r);
  }

  lemma IfEmitted(e: Expr, top: bool, syms: Syms, r: nat, b: seq<u8>, p: seq<Value>, b1: seq<u8>, p1: seq<Value>,
                  b2: seq<u8>, p2: seq<Value>, over: seq<u8>, b3: seq<u8>, p3: seq<Value>)
    requires e.IfExpr? && Emitted(e.cond, top, syms, r, b, p, b1, p1)
    requires Emitted(e.thn, top, syms, r, b1 + [OP_JUMP_FALSE, Low(r)] + [0, 0], p1, b2, p2)
    requires over == Patch(b2 + [OP_JUMP] + [0, 0], |b1| + 2, |b2| + 3 - (|b1| + 2) - 2)
    requires Emitted(e.els, top, syms, r, over, p2, b3, p3)
    ensures |b3| >= |b2| + 3 && Emitted(e, top, syms, r, b, p, Patch(b3, |b2| + 1, |b3| - (|b2| + 1) - 2), p3)
  {
    hide ExprCode, ExprConsts, BranchCode, JumpCode, Patch;
    var cc, tc := ExprCode(e.cond, top, syms, r, |p|), ExprCode(e.thn, top, syms, r, |p1|);
    var fc := ExprCode(e.els, top, syms, r, |p2|);
    IfExprCode(e, top, syms, r, |p|);
    IfBytes(b, cc, r, tc, fc, b1, b2, over, b3);
    Regroup(p, ExprConsts(e.cond), ExprConsts(e.thn), ExprConsts(e.els));
    Regroup(ExprConsts(e.cond), ExprConsts(e.thn), ExprConsts(e.els), []);
  }

  lemma IfExprCode(e: Expr, top: bool, syms: Syms, r: nat, p: nat)
    requires e.IfExpr?
    ensures var p1 := p + |ExprConsts(e.cond)|;
            var tc := ExprCode(e.thn, top, syms, r, p1);
            var fc := ExprCode(e.els, top, syms, r, p1 + |ExprConsts(e.thn)|);
            ExprCode(e, top, syms, r, p) == ExprCode(e.cond, top, syms, r, p)
              + (BranchCode(OP_JUMP_FALSE, r, |tc| + 3) + (tc + (JumpCode(|fc|) + fc)))
    ensures ExprConsts(e) == ExprConsts(e.cond) + ExprConsts(e.thn) + ExprConsts(e.els)
  {
    hide BranchCode, JumpCode, GetVar, SetVar, LoadInt, CompoundCode, CrementCode, ListCode, ShortCircuit;
  }

  lemma IfBytes(b: seq<u8>, cc: seq<u8>, r: nat, tc: seq<u8>, fc: seq<u8>, b1: seq<u8>, b2: seq<u8>, over: seq<u8>, b3: seq<u8>)
    requires b1 == b + cc && b2 == b1 + [OP_JUMP_FALSE, Low(r)] + [0, 0] + tc
    requires over == Patch(b2 + [OP_JUMP] + [0, 0], |b1| + 2, |b2| + 3 - (|b1| + 2) - 2) && b3 == over + fc
    ensures |b3| == |b2| + 3 + |fc|
    ensures Patch(b3, |b2| + 1, |fc|)
         == b + (cc + (BranchCode(OP_JUMP_FALSE, r, |tc| + 3) + (tc + (JumpCode(|fc|) + fc))))
  {
    hide Patch, JumpField;
    var pre, mid := b1 + [OP_JUMP_FALSE, Low(r)], tc + [OP_JUMP] + [0, 0];
    assert b2 + [OP_JUMP] + [0, 0] == pre + [0, 0] + mid;
    PatchHole(pre, mid, |tc| + 3);
    var pre2 := pre + JumpField(|tc| + 3) + tc + [OP_JUMP];
    assert b3 == pre2 + [0, 0] + fc;
    PatchHole(pre2, fc, |fc|);
    var whole := BranchCode(OP_JUMP_FALSE, r, |tc| + 3) + (tc + (JumpCode(|fc|) + fc));
    assert pre2 + JumpField(|fc|) + fc == b1 + whole;
    Regroup(b, cc, whole, []);
  }

  lemma UnaryEmitted(e: Expr, top: bool, syms: Syms, r: nat, b: seq<u8>, p: seq<Value>, b1: seq<u8>, p1: seq<Value>)
    requires e.Unary? && Emitted(e.operand, top, syms, r, b, p, b1, p1)
    ensures Emitted(e, top, syms, r, b, p, b1 + [UnaryOpcode(e.uop), Low(r)], p1)
  {
    Regroup(b, ExprCode(e.operand, top, syms, r, |p|), [UnaryOpcode(e.uop), Low(r)], []);
  }

  /** Only whether a variable is global matters to its instructions. */
  lemma SameVariableCode(top: bool, k: nat, info: VarInfo)
    requires info.global == (top && k == 0)
    ensures forall op, slot, r :: CompoundRow(op, top, k, slot, r) == CompoundRow(op, info.global, 0, slot, r)
    ensures forall incr, prev, slot, r ::
              CrementCode(incr, prev, top, k, slot, r) == CrementCode(incr, prev, info.global, 0, slot, r)
  {
  }

  lemma CompoundBytes(b: seq<u8>, opcode: u8, global: bool, slot: nat, r: nat)
    ensures b + GetVar(global, 0, r + 1, slot) + [opcode, Low(r + 1), Low(r)] + SetVar(global, 0, slot, r + 1)
            + [OP_MOVE_REG, Low(r), Low(r + 1)]
         == b + CompoundRow(opcode, global, 0, slot, r)
  {
    hide GetVar, SetVar;
    var store := SetVar(global, 0, slot, r + 1) + [OP_MOVE_REG, Low(r), Low(r + 1)];
    Regroup(b, GetVar(global, 0, r + 1, slot), [opcode, Low(r + 1), Low(r)], store);
    Regroup(b + GetVar(global, 0, r + 1, slot) + [opcode, Low(r + 1), Low(r)],
            SetVar(global, 0, slot, r + 1), [OP_MOVE_REG, Low(r), Low(r + 1)], []);
  }

  lemma CrementBytes(b: seq<u8>, incr: bool, prev: bool, global: bool, slot: nat, r: nat)
    ensures var b1 := b + GetVar(global, 0, r, slot) + GetVar(global, 0, r + 1, slot)
                      + [if incr then OP_INCR else OP_DECR, Low(r + 1)] + SetVar(global, 0, slot, r + 1);
            (if prev then b1 else b1 + [OP_MOVE_REG, Low(r), Low(r + 1)])
            == b + CrementCode(incr, prev, global, 0, slot, r)
  {
    hide GetVar, SetVar;
    var get, get1 := GetVar(global, 0, r, slot), GetVar(global, 0, r + 1, slot);
    var op := [if incr then OP_INCR else OP_DECR, Low(r + 1)];
    var store := SetVar(global, 0, slot, r + 1) + (if prev then [] else [OP_MOVE_REG, Low(r), Low(r + 1)]);
    Regroup(b, get, get1, op + store);
    Regroup(b + get + get1, op, store, []);
    Regroup(b + get + get1 + op, SetVar(global, 0, slot, r + 1), if prev then [] else [OP_MOVE_REG, Low(r), Low(r + 1)], []);
  }

  lemma IfThenSize(e: Expr, top: bool, syms: Syms, r: nat, b1: seq<u8>, p1: seq<Value>, b2: seq<u8>, p2: seq<Value>)
    requires Emitted(e, top, syms, r, b1 + [OP_JUMP_FALSE, Low(r)] + [0, 0], p1, b2, p2)
    ensures |b2| >= |b1| + 4
  {
  }

  lemma BinaryEmitted(e: Expr, top: bool, syms: Syms, r: nat, b: seq<u8>, p: seq<Value>, b1: seq<u8>, p1: seq<Value>,
                      b2: seq<u8>, p2: seq<Value>)
    requires e.Binary? && Emitted(e.left, top, syms, r, b, p, b1, p1) && Emitted(e.right, top, syms, r + 1, b1, p1, b2, p2)
    ensures Emitted(e, top, syms, r, b, p, b2 + BinaryCode(e.op, r), p2)
  {
    hide BinaryCode, ExprCode, ExprConsts;
    BinaryParts(e, top, syms, r, |p|);
    var lc, rc := ExprCode(e.left, top, syms, r, |p|), ExprCode(e.right, top, syms, r + 1, |p1|);
    Regroup(b, lc, rc, BinaryCode(e.op, r));
  }

  lemma BinaryParts(e: Expr, top: bool, syms: Syms, r: nat, p: nat)
    requires e.Binary?
    ensures ExprConsts(e) == ExprConsts(e.left) + ExprConsts(e.right)
    ensures ExprCode(e, top, syms, r, p) ==
              ExprCode(e.left, top, syms, r, p)
              + (ExprCode(e.right, top, syms, r + 1, p + |ExprConsts(e.left)|) + BinaryCode(e.op, r))
  {
    hide BinaryCode;
  }

  lemma BinaryBytes(b: seq<u8>, op: BinaryOp, r: nat)
    ensures var plain := b + [BinaryOpcode(op), Low(r), Low(r + 1)];
            (if Inverted(op) then plain + [OP_NOT, Low(r)] else plain) == b + BinaryCode(op, r)
  {
    Regroup(b, [BinaryOpcode(op), Low(r), Low(r + 1)], if Inverted(op) then [OP_NOT, Low(r)] else [], []);
  }

  lemma IndexEmitted(e: Expr, top: bool, syms: Syms, r: nat, b: seq<u8>, p: seq<Value>, b1: seq<u8>, p1: seq<Value>,
                     b2: seq<u8>, p2: seq<Value>)
    requires e.Index? && Emitted(e.obj, top, syms, r, b, p, b1, p1) && Emitted(e.index, top, syms, r + 1, b1, p1, b2, p2)
    ensures Emitted(e, top, syms, r, b, p, b2 + [OP_GET_INDEX, Low(r), Low(r), Low(r + 1)], p2)
  {
    var lc, rc := ExprCode(e.obj, top, syms, r, |p|), ExprCode(e.index, top, syms, r + 1, |p1|);
    Regroup(b, lc, rc, [OP_GET_INDEX, Low(r), Low(r), Low(r + 1)]);
  }

  lemma Regroup<T>(b: seq<T>, x: seq<T>, y: seq<T>, z: seq<T>)
    ensures b + x + y + z == b + (x + (y + z)) && b + x + y == b + (x + y)
  {
  }

  lemma AssignEmitted(e: Expr, top: bool, syms: Syms, r: nat, b: seq<u8>, p: seq<Value>, b1: seq<u8>, p1: seq<Value>)
    requires e.Assign? && Emitted(e.value, top, syms, r, b, p, b1, p1) && Innermost(syms, e.name) >= 0
    ensures var k := Innermost(syms, e.name);
            Emitted(e, top, syms, r, b, p, b1 + SetVar(top, k, syms[k][e.name].reg, r), p1)
  {
  }

  lemma CompoundEmitted(e: Expr, top: bool, syms: Syms, r: nat, b: seq<u8>, p: seq<Value>, b1: seq<u8>, p1: seq<Value>)
    requires e.CompoundAssign? && Emitted(e.value, top, syms, r, b, p, b1, p1) && Innermost(syms, e.name) >= 0
    ensures var k := Innermost(syms, e.name);
            Emitted(e, top, syms, r, b, p, b1 + CompoundCode(e.cop, top, k, syms[k][e.name].reg, r), p1)
  {
    hide CompoundCode;
  }

  /** After entry `i`, the bytes so far and those of the remaining entries make up
      the list literal. */
  ghost predicate EntriesLeft(e: Expr, i: nat, top: bool, syms: Syms, r: nat, count: nat, block: seq<u8>, pool: seq<Value>,
                           b: seq<u8>, p: seq<Value>) {
    e.ListLit? && i <= |e.entries|
    && block + ListCode(e.entries[i..], top, syms, r, count, |pool|) == b + ExprCode(e, top, syms, r, |p|)
    && pool + ListConsts(e.entries[i..]) == p + ExprConsts(e)
  }

  lemma EntriesStart(e: Expr, top: bool, syms: Syms, r: nat, b: seq<u8>, p: seq<Value>)
    requires e.ListLit?
    ensures EntriesLeft(e, 0, top, syms, r, 0, b + [OP_LIST, Low(r)], p, b, p)
  {
    hide ListCode;
    assert e.entries[0..] == e.entries;
    Regroup(b, [OP_LIST, Low(r)], ListCode(e.entries, top, syms, r, 0, |p|), []);
  }

  lemma EntriesStep(e: Expr, i: nat, top: bool, syms: Syms, r: nat, count: nat, b1: seq<u8>, p1: seq<Value>,
                 b2: seq<u8>, p2: seq<Value>, b: seq<u8>, p: seq<Value>)
    requires EntriesLeft(e, i, top, syms, r, count, b1, p1, b, p) && i < |e.entries|
    requires Emitted(e.entries[i], top, syms, r + 1 + count, b1, p1, b2, p2)
    ensures if count + 1 == LIST_ENTRY_GROUP then EntriesLeft(e, i + 1, top, syms, r, 0, b2 + ExtendList(r, count + 1), p2, b, p)
            else EntriesLeft(e, i + 1, top, syms, r, count + 1, b2, p2, b, p)
  {
    hide ExprCode, ExprConsts, ExtendList;
    var es := e.entries[i..];
    assert es[1..] == e.entries[i + 1..] && es[0] == e.entries[i];
    var full := count + 1 == LIST_ENTRY_GROUP;
    var ec := ExprCode(es[0], top, syms, r + 1 + count, |p1|);
    var rest := ListCode(es[1..], top, syms, r, if full then 0 else count + 1, |p2|);
    Regroup(b1, ec, if full then ExtendList(r, count + 1) else [], rest);
    Regroup(p1, ExprConsts(es[0]), ListConsts(es[1..]), []);
    if !full { assert [] + rest == rest; }
  }

  lemma EntriesEnd(e: Expr, top: bool, syms: Syms, r: nat, count: nat, b1: seq<u8>, p1: seq<Value>, b: seq<u8>, p: seq<Value>)
    requires e.ListLit? && EntriesLeft(e, |e.entries|, top, syms, r, count, b1, p1, b, p)
    ensures Emitted(e, top, syms, r, b, p, if count > 0 then b1 + ExtendList(r, count) else b1, p1)
  {
    assert e.entries[|e.entries|..] == [];
    assert p1 + [] == p1 && b1 + [] == b1;
  }

  lemma ExtendCode(r: nat, count: nat)
    ensures ExtendList(r, count) == [OP_EXT_LIST, Low(r), Low(r + 1), Low(count)]
  {
  }
}
