/** What the compiler emits, as functions of the syntax tree: position
    independent bytes, since every jump is relative. The methods of `Compiler`
    are proved to append exactly these bytes. */
module Codegen {
  import opened Words
  import opened Opcodes
  import opened Syntax
  import opened Values
  import opened Source

  const BYTE_JUMP_MAX := 0xffff
  const LIST_ENTRY_GROUP := 50

  /** A declared variable: its register and whether it may be assigned. */
  datatype Sym = Sym(reg: nat, isVar: bool)
  type Syms = seq<map<string, Sym>>

  /* Encodings. */

  function Short(x: int): seq<u8> {
    [Low(x / 0x100), Low(x)]
  }

  function Operand(index: nat): seq<u8> {
    if index < 0x100 then [OP_BYTE_OPER, Low(index)]
    else if index < 0x1_0000 then [OP_SHORT_OPER] + Short(index)
    else [OP_LONG_OPER] + Short(index / 0x1_0000) + Short(index)
  }

  /** Small integers are immediate operands and stay out of the pool. */
  predicate Immediate(i: i64) {
    -3 < i < 3
  }

  function LoadInt(i: i64, r: nat, pool: nat): seq<u8> {
    [OP_LOAD_REG, Low(r)] + if Immediate(i) then [Low(i + 2)] else Operand(pool)
  }

  /** Distance field of a patched forward jump: too long a jump keeps its zeros. */
  function JumpField(d: nat): seq<u8> {
    if d <= BYTE_JUMP_MAX then Short(d) else [0, 0]
  }

  function JumpCode(d: nat): seq<u8> {
    [OP_JUMP] + JumpField(d)
  }

  function BranchCode(op: u8, r: nat, d: nat): seq<u8> {
    [op, Low(r)] + JumpField(d)
  }

  function GetVar(top: bool, scope: int, dest: nat, slot: nat): seq<u8> {
    [if top && scope == 0 then OP_GET_GLOBAL else OP_GET_LOCAL, Low(dest), Low(slot)]
  }

  function SetVar(top: bool, scope: int, slot: nat, src: nat): seq<u8> {
    [if top && scope == 0 then OP_SET_GLOBAL else OP_SET_LOCAL, Low(slot), Low(src)]
  }

  function UnaryOpcode(op: UnaryOp): u8 {
    match op
    case Negate => OP_NEG
    case Not => OP_NOT
    case Complement => OP_COMP
  }

  function BinaryOpcode(op: BinaryOp): u8 {
    match op
    case Add => OP_ADD
    case Sub => OP_SUB
    case Mult => OP_MULT
    case Mod => OP_MOD
    case BAnd => OP_AND
    case BOr => OP_OR
    case BXor => OP_XOR
    case Shl => OP_SHIFT_L
    case Shr => OP_SHIFT_R
    case Eq => OP_EQUAL
    case Ne => OP_EQUAL
    case Gt => OP_GT
    case Le => OP_GT
    case Lt => OP_LT
    case Ge => OP_LT
    case In => OP_IN
    case NotIn => OP_IN
  }

  /** `!=`, `<=`, `>=` and `not in` are the opposite test followed by OP_NOT. */
  predicate Inverted(op: BinaryOp) {
    op.Ne? || op.Le? || op.Ge? || op.NotIn?
  }

  function BinaryCode(op: BinaryOp, r: nat): seq<u8> {
    [BinaryOpcode(op), Low(r), Low(r + 1)] + if Inverted(op) then [OP_NOT, Low(r)] else []
  }

  /* Expressions. `r` is nextReg and `p` the pool size on entry. */

  function ExprConsts(e: Expr): seq<Value> {
    match e
    case IntLit(i) => if Immediate(i) then [] else [Int(i)]
    case Unary(_, e1) => ExprConsts(e1)
    case Binary(_, l, r) => ExprConsts(l) + ExprConsts(r)
    case And(l, r) => ExprConsts(l) + ExprConsts(r)
    case Or(l, r) => ExprConsts(l) + ExprConsts(r)
    case IfExpr(c, t, f) => ExprConsts(c) + ExprConsts(t) + ExprConsts(f)
    case Assign(_, e1) => ExprConsts(e1)
    case CompoundAssign(_, _, e1) => ExprConsts(e1)
    case ListLit(es) => ListConsts(es)
    case Index(l, r) => ExprConsts(l) + ExprConsts(r)
    case _ => []
  }

  function ListConsts(es: seq<Expr>): seq<Value> {
    if es == [] then [] else ExprConsts(es[0]) + ListConsts(es[1..])
  }

  function ExprCode(e: Expr, top: bool, syms: Syms, r: nat, p: nat): seq<u8>
    decreases e
  {
    match e
    case IntLit(i) => LoadInt(i, r, p)
    case BoolLit(b) => [OP_LOAD_REG, Low(r), if b then OP_TRUE else OP_FALSE]
    case NullLit => [OP_LOAD_REG, Low(r), OP_NULL]
    case Var(name) =>
      var k := Innermost(syms, name);
      if k < 0 then [] else GetVar(top, k, r, syms[k][name].reg)
    case Unary(op, e1) => ExprCode(e1, top, syms, r, p) + [UnaryOpcode(op), Low(r)]
    case Binary(op, l, rt) =>
      ExprCode(l, top, syms, r, p)
      + (ExprCode(rt, top, syms, r + 1, p + |ExprConsts(l)|) + BinaryCode(op, r))
    case And(l, rt) =>
      ShortCircuit(OP_JUMP_FALSE, ExprCode(l, top, syms, r, p),
                   ExprCode(rt, top, syms, r, p + |ExprConsts(l)|), r)
    case Or(l, rt) =>
      ShortCircuit(OP_JUMP_TRUE, ExprCode(l, top, syms, r, p),
                   ExprCode(rt, top, syms, r, p + |ExprConsts(l)|), r)
    case IfExpr(c, t, f) =>
      var p1 := p + |ExprConsts(c)|;
      var tc := ExprCode(t, top, syms, r, p1);
      var fc := ExprCode(f, top, syms, r, p1 + |ExprConsts(t)|);
      ExprCode(c, top, syms, r, p)
      + (BranchCode(OP_JUMP_FALSE, r, |tc| + 3) + (tc + (JumpCode(|fc|) + fc)))
    case Assign(name, e1) =>
      var k := Innermost(syms, name);
      ExprCode(e1, top, syms, r, p)
      + if k < 0 then [] else SetVar(top, k, syms[k][name].reg, r)
    case CompoundAssign(op, name, e1) =>
      var k := Innermost(syms, name);
      ExprCode(e1, top, syms, r, p)
      + if k < 0 then [] else CompoundCode(op, top, k, syms[k][name].reg, r)
    case Crement(incr, prev, name) =>
      var k := Innermost(syms, name);
      if k < 0 then [] else CrementCode(incr, prev, top, k, syms[k][name].reg, r)
    case ListLit(es) => [OP_LIST, Low(r)] + ListCode(es, top, syms, r, 0, p)
    case Index(l, rt) =>
      ExprCode(l, top, syms, r, p)
      + (ExprCode(rt, top, syms, r + 1, p + |ExprConsts(l)|)
         + [OP_GET_INDEX, Low(r), Low(r), Low(r + 1)])
  }

  function ShortCircuit(op: u8, lc: seq<u8>, rc: seq<u8>, r: nat): seq<u8> {
    lc + (BranchCode(op, r, |rc|) + rc)
  }

  /** The value is in `r`; the variable is fetched into the register after it. */
  function CompoundRow(opcode: u8, top: bool, k: int, slot: nat, r: nat): seq<u8> {
    GetVar(top, k, r + 1, slot)
    + ([opcode, Low(r + 1), Low(r)]
       + (SetVar(top, k, slot, r + 1) + [OP_MOVE_REG, Low(r), Low(r + 1)]))
  }

  function CompoundCode(op: BinaryOp, top: bool, k: int, slot: nat, r: nat): seq<u8> {
    CompoundRow(BinaryOpcode(op), top, k, slot, r)
  }

  function CrementCode(incr: bool, prev: bool, top: bool, k: int, slot: nat, r: nat): seq<u8> {
    GetVar(top, k, r, slot)
    + (GetVar(top, k, r + 1, slot)
       + ([if incr then OP_INCR else OP_DECR, Low(r + 1)]
          + (SetVar(top, k, slot, r + 1) + if prev then [] else [OP_MOVE_REG, Low(r), Low(r + 1)])))
  }

  /** The rest of a list literal, `count` entries of the current group being
      already in the registers after `r`. */
  function ListCode(es: seq<Expr>, top: bool, syms: Syms, r: nat, count: nat, p: nat): seq<u8>
    decreases es
  {
    if es == [] then
      if count > 0 then ExtendList(r, count) else []
    else
      var p1 := p + |ExprConsts(es[0])|;
      var full := count + 1 == LIST_ENTRY_GROUP;
      ExprCode(es[0], top, syms, r + 1 + count, p)
      + ((if full then ExtendList(r, count + 1) else [])
         + ListCode(es[1..], top, syms, r, if full then 0 else count + 1, p1))
  }

  function ExtendList(r: nat, count: nat): seq<u8> {
    [OP_EXT_LIST, Low(r), Low(r + 1), Low(count)]
  }

  /** The implementation limits the source leaves unchecked: registers are
      single bytes and jump distances two. */
  predicate ExprFits(e: Expr, top: bool, syms: Syms, r: nat, p: nat)
    decreases e
  {
    r <= 0xff &&
    match e
    case Unary(_, e1) => ExprFits(e1, top, syms, r, p)
    case Binary(_, l, rt) =>
      ExprFits(l, top, syms, r, p) && ExprFits(rt, top, syms, r + 1, p + |ExprConsts(l)|)
    case And(l, rt) =>
      var p1 := p + |ExprConsts(l)|;
      ExprFits(l, top, syms, r, p) && ExprFits(rt, top, syms, r, p1)
      && |ExprCode(rt, top, syms, r, p1)| <= BYTE_JUMP_MAX
    case Or(l, rt) =>
      var p1 := p + |ExprConsts(l)|;
      ExprFits(l, top, syms, r, p) && ExprFits(rt, top, syms, r, p1)
      && |ExprCode(rt, top, syms, r, p1)| <= BYTE_JUMP_MAX
    case IfExpr(c, t, f) =>
      var p1 := p + |ExprConsts(c)|;
      var p2 := p1 + |ExprConsts(t)|;
      ExprFits(c, top, syms, r, p) && ExprFits(t, top, syms, r, p1) && ExprFits(f, top, syms, r, p2)
      && |ExprCode(t, top, syms, r, p1)| + 3 <= BYTE_JUMP_MAX
      && |ExprCode(f, top, syms, r, p2)| <= BYTE_JUMP_MAX
    case Assign(_, e1) => ExprFits(e1, top, syms, r, p)
    case CompoundAssign(_, _, e1) => r + 1 <= 0xff && ExprFits(e1, top, syms, r, p)
    case Crement(_, _, _) => r + 1 <= 0xff
    case ListLit(es) => ListFits(es, top, syms, r, 0, p)
    case Index(l, rt) =>
      ExprFits(l, top, syms, r, p) && ExprFits(rt, top, syms, r + 1, p + |ExprConsts(l)|)
    case _ => true
  }

  predicate ListFits(es: seq<Expr>, top: bool, syms: Syms, r: nat, count: nat, p: nat)
    decreases es
  {
    es == [] ||
    (ExprFits(es[0], top, syms, r + 1 + count, p)
     && ListFits(es[1..], top, syms, r, if count + 1 == LIST_ENTRY_GROUP then 0 else count + 1,
                 p + |ExprConsts(es[0])|))
  }
}
