/** Running the bytes of an expression computes its source value. */
module ExprCorrect {
  import opened Words
  import opened Opcodes
  import opened Syntax
  import opened Values
  import opened Source
  import opened Codegen
  import opened Machine

  /* Where code and constants lie in a program. */

  ghost predicate ByteAt(P: Program, o: nat, c: seq<u8>, i: nat) {
    i < |c| && o + i < |P.code| && P.code[o + i] == c[i]
  }

  ghost predicate CodeAt(P: Program, o: nat, c: seq<u8>) {
    o + |c| <= |P.code| && forall i: nat {:trigger ByteAt(P, o, c, i)} | i < |c| :: ByteAt(P, o, c, i)
  }

  ghost predicate PoolAt(P: Program, p: nat, cs: seq<Value>) {
    p + |cs| <= |P.pool| <= 0x1_0000_0000 && P.pool[p..p + |cs|] == cs
  }

  lemma CodeSplit(P: Program, o: nat, a: seq<u8>, b: seq<u8>)
    requires CodeAt(P, o, a + b)
    ensures CodeAt(P, o, a) && CodeAt(P, o + |a|, b)
  {
    forall i: nat | i < |a| ensures ByteAt(P, o, a, i) { assert ByteAt(P, o, a + b, i); }
    forall i: nat {:trigger ByteAt(P, o + |a|, b, i)} | i < |b| ensures ByteAt(P, o + |a|, b, i) {
      assert ByteAt(P, o, a + b, |a| + i);
    }
  }

  lemma PoolSplit(P: Program, p: nat, a: seq<Value>, b: seq<Value>)
    requires PoolAt(P, p, a + b)
    ensures PoolAt(P, p, a) && PoolAt(P, p + |a|, b)
  {
    var c := P.pool[p..p + |a + b|];
    assert c[..|a|] == a && c[|a|..] == b;
    assert P.pool[p..p + |a|] == c[..|a|];
    assert P.pool[p + |a|..p + |a| + |b|] == c[|a|..];
  }

  lemma CodeByte(P: Program, o: nat, c: seq<u8>, i: nat)
    requires CodeAt(P, o, c) && i < |c|
    ensures P.code[o + i] == c[i]
  {
    assert ByteAt(P, o, c, i);
  }

  /* The link between named variables and registers. */

  ghost predicate VarAt(syms: Syms, k: int, n: string) {
    0 <= k < |syms| && n in syms[k]
  }

  /** Every variable lies below `r`, no two in one register. */
  ghost predicate SymsOk(syms: Syms, r: nat) {
    && (forall k, n {:trigger VarAt(syms, k, n)} | VarAt(syms, k, n) :: syms[k][n].reg < r)
    && (forall k, n, k', n' {:trigger VarAt(syms, k, n), VarAt(syms, k', n')}
          | VarAt(syms, k, n) && VarAt(syms, k', n') && syms[k][n].reg == syms[k'][n'].reg :: k == k' && n == n')
  }

  ghost predicate IsVarReg(syms: Syms, i: nat) {
    exists k, n {:trigger VarAt(syms, k, n)} :: VarAt(syms, k, n) && syms[k][n].reg == i
  }

  ghost predicate SameNames<S, T>(a: seq<map<string, S>>, b: seq<map<string, T>>) {
    |a| == |b| && forall k | 0 <= k < |a| :: a[k].Keys == b[k].Keys
  }

  /** The registers hold the values of the source variables. */
  ghost predicate Rel(env: Env, syms: Syms, regs: seq<Value>) {
    && SameNames(env, syms)
    && forall k, n {:trigger VarAt(syms, k, n)} | VarAt(syms, k, n) ::
         syms[k][n].reg < |regs| && n in env[k] && regs[syms[k][n].reg] == env[k][n]
  }

  ghost predicate Kept(syms: Syms, regs: seq<Value>, regs': seq<Value>, i: nat) {
    i < |regs| && i < |regs'| && (regs'[i] == regs[i] || IsVarReg(syms, i))
  }

  /** Below `r`, only registers of variables may differ. */
  ghost predicate Frame(syms: Syms, r: nat, regs: seq<Value>, regs': seq<Value>) {
    |regs'| == |regs| &&
    forall i: nat {:trigger Kept(syms, regs, regs', i)} | i < r && i < |regs| :: Kept(syms, regs, regs', i)
  }

  function Access(syms: Syms): (decls: Decls)
    ensures |decls| == |syms|
  {
    seq(|syms|, k requires 0 <= k < |syms| => map n | n in syms[k] :: syms[k][n].isVar)
  }

  lemma {:induction false} InnermostSame<S, T>(a: seq<map<string, S>>, b: seq<map<string, T>>, name: string)
    requires SameNames(a, b)
    ensures Innermost(a, name) == Innermost(b, name)
    decreases |a|
  {
    if a != [] {
      var last := |a| - 1;
      assert a[last].Keys == b[last].Keys;
      assert name in a[last] <==> name in b[last];
      InnermostSame(a[..last], b[..last], name);
    }
  }

  lemma ReadRel(env: Env, syms: Syms, regs: seq<Value>, name: string)
    requires Rel(env, syms, regs) && Declared(Access(syms), name)
    ensures var k := Innermost(syms, name);
            k >= 0 && VarAt(syms, k, name) && syms[k][name].reg < |regs| && Lookup(env, name) == regs[syms[k][name].reg]
    ensures Assignable(Access(syms), name) == syms[Innermost(syms, name)][name].isVar
  {
    assert SameNames(syms, Access(syms)) by {
      forall k | 0 <= k < |syms| ensures syms[k].Keys == Access(syms)[k].Keys {}
    }
    InnermostSame(syms, Access(syms), name);
    InnermostSame(env, syms, name);
    assert VarAt(syms, Innermost(syms, name), name);
  }

  lemma WriteRel(env: Env, syms: Syms, regs: seq<Value>, name: string, v: Value, r: nat)
    requires SymsOk(syms, r) && Rel(env, syms, regs) && Innermost(syms, name) >= 0
    ensures var slot := syms[Innermost(syms, name)][name].reg;
            slot < |regs| && IsVarReg(syms, slot)
            && Rel(Update(env, name, v), syms, regs[slot := v])
  {
    InnermostSame(env, syms, name);
    var k := Innermost(syms, name);
    assert VarAt(syms, k, name);
    var slot := syms[k][name].reg;
    var env' := Update(env, name, v);
    assert env' == env[k := env[k][name := v]];
    forall j | 0 <= j < |syms| ensures env'[j].Keys == syms[j].Keys {
      if j == k { assert env'[j].Keys == env[j].Keys + {name}; }
    }
  }

  lemma SymsOkMore(syms: Syms, r: nat, r': nat)
    requires SymsOk(syms, r) && r <= r'
    ensures SymsOk(syms, r')
  {
  }

  lemma FitsReg(e: Expr, top: bool, syms: Syms, r: nat, p: nat)
    requires ExprFits(e, top, syms, r, p)
    ensures r <= 0xff
  {
  }

  lemma TempRel(env: Env, syms: Syms, regs: seq<Value>, i: nat, v: Value, r: nat)
    requires SymsOk(syms, r) && Rel(env, syms, regs) && r <= i < |regs|
    ensures Rel(env, syms, regs[i := v]) && Frame(syms, r, regs, regs[i := v])
  {
  }

  lemma FrameTrans(syms: Syms, r: nat, a: seq<Value>, b: seq<Value>, c: seq<Value>)
    requires Frame(syms, r, a, b) && Frame(syms, r, b, c)
    ensures Frame(syms, r, a, c)
  {
    forall i: nat | i < r && i < |a| ensures Kept(syms, a, c, i) {
      assert Kept(syms, a, b, i) && Kept(syms, b, c, i);
    }
  }

  lemma FrameShrink(syms: Syms, r: nat, r': nat, a: seq<Value>, b: seq<Value>)
    requires Frame(syms, r', a, b) && r <= r'
    ensures Frame(syms, r, a, b)
  {
    forall i: nat | i < r && i < |a| ensures Kept(syms, a, b, i) {
      assert Kept(syms, a, b, i);
    }
  }

  /** A temporary below the frame keeps its value. */
  lemma FrameKeeps(syms: Syms, r: nat, r': nat, a: seq<Value>, b: seq<Value>, i: nat)
    requires SymsOk(syms, r) && Frame(syms, r', a, b) && r <= i < r' && i < |a|
    ensures b[i] == a[i]
  {
    assert Kept(syms, a, b, i);
  }

  /* The simulation. */

  /** `m` is about to run `code` with room for its registers. */
  ghost predicate Ready(P: Program, code: seq<u8>, syms: Syms, r: nat, env: Env, m: State) {
    && m.status == Running && |m.regs| >= WINDOW
    && CodeAt(P, m.ip, code)
    && SymsOk(syms, r) && Rel(env, syms, m.regs)
  }

  /** `m'` is where the code of an expression ends: its value is in `r`. */
  ghost predicate Arrived(m: State, m': State, len: nat, syms: Syms, r: nat, v: Value, env: Env) {
    && m'.status == Running && m'.ip == m.ip + len && m'.scopes == m.scopes
    && Frame(syms, r, m.regs, m'.regs)
    && r < |m'.regs| && m'.regs[r] == v
    && Rel(env, syms, m'.regs)
  }

  ghost predicate ExprPost(P: Program, m: State, m': State, len: nat, syms: Syms, r: nat, result: Eval) {
    && Reaches(P, m, m')
    && match result
       case Raised(x) => m'.status == Failed(x)
       case Val(v, env) => Arrived(m, m', len, syms, r, v, env)
  }

  /* Single instructions, as runs of one step. */

  lemma RunCopy(P: Program, m: State, op: u8, a: u8, b: u8)
    requires m.status == Running && |m.regs| >= WINDOW
    requires CodeAt(P, m.ip, [op, a, b]) && IsCopy(op)
    ensures Reaches(P, m, m.(ip := m.ip + 3, regs := m.regs[a := m.regs[b]]))
  {
    CodeByte(P, m.ip, [op, a, b], 0);
    CodeByte(P, m.ip, [op, a, b], 1);
    CodeByte(P, m.ip, [op, a, b], 2);
    ReachesStep(P, m);
  }

  lemma RunUnary(P: Program, m: State, op: u8, a: u8)
    requires m.status == Running && |m.regs| >= WINDOW
    requires CodeAt(P, m.ip, [op, a]) && IsUnary(op)
    ensures Reaches(P, m, Store(m, a, UnaryOper(op, m.regs[a]), m.ip + 2))
  {
    CodeByte(P, m.ip, [op, a], 0);
    CodeByte(P, m.ip, [op, a], 1);
    ReachesStep(P, m);
  }

  lemma RunOperator(P: Program, m: State, op: u8, a: u8, b: u8)
    requires m.status == Running && |m.regs| >= WINDOW
    requires CodeAt(P, m.ip, [op, a, b]) && IsBinary(op)
    ensures Reaches(P, m, Store(m, a, BinaryOper(op, m.regs[a], m.regs[b]), m.ip + 3))
  {
    CodeByte(P, m.ip, [op, a, b], 0);
    CodeByte(P, m.ip, [op, a, b], 1);
    CodeByte(P, m.ip, [op, a, b], 2);
    ReachesStep(P, m);
  }

  lemma RunMove(P: Program, m: State, a: u8, b: u8)
    requires m.status == Running && |m.regs| >= WINDOW
    requires CodeAt(P, m.ip, [OP_MOVE_REG, a, b])
    ensures Reaches(P, m, m.(ip := m.ip + 3, regs := Move(m.regs, a, b)))
  {
    CodeByte(P, m.ip, [OP_MOVE_REG, a, b], 0);
    CodeByte(P, m.ip, [OP_MOVE_REG, a, b], 1);
    CodeByte(P, m.ip, [OP_MOVE_REG, a, b], 2);
    ReachesStep(P, m);
  }

  lemma RunLoad(P: Program, m: State, a: u8, v: Value, size: nat)
    requires m.status == Running && |m.regs| >= WINDOW
    requires CodeAt(P, m.ip, [OP_LOAD_REG, a]) && LoadOper(P, m.ip + 2) == Oper(v, size)
    ensures Reaches(P, m, m.(ip := m.ip + 2 + size, regs := m.regs[a := v]))
  {
    CodeByte(P, m.ip, [OP_LOAD_REG, a], 0);
    CodeByte(P, m.ip, [OP_LOAD_REG, a], 1);
    ReachesStep(P, m);
  }

  lemma RunList(P: Program, m: State, a: u8)
    requires m.status == Running && |m.regs| >= WINDOW && CodeAt(P, m.ip, [OP_LIST, a])
    ensures Reaches(P, m, m.(ip := m.ip + 2, regs := m.regs[a := List([])]))
  {
    CodeByte(P, m.ip, [OP_LIST, a], 0);
    CodeByte(P, m.ip, [OP_LIST, a], 1);
    ReachesStep(P, m);
  }

  lemma RunIndex(P: Program, m: State, a: u8, b: u8, c: u8)
    requires m.status == Running && |m.regs| >= WINDOW && CodeAt(P, m.ip, [OP_GET_INDEX, a, b, c])
    ensures Reaches(P, m, Store(m, a, GetIndex(m.regs[b], m.regs[c]), m.ip + 4))
  {
    var code := [OP_GET_INDEX, a, b, c];
    CodeByte(P, m.ip, code, 0);
    CodeByte(P, m.ip, code, 1);
    CodeByte(P, m.ip, code, 2);
    CodeByte(P, m.ip, code, 3);
    ReachesStep(P, m);
  }

  lemma RunExtend(P: Program, m: State, a: u8, b: u8, c: u8)
    requires m.status == Running && |m.regs| >= WINDOW && CodeAt(P, m.ip, [OP_EXT_LIST, a, b, c])
    requires m.regs[a].List? && b + c <= WINDOW
    ensures Reaches(P, m, m.(ip := m.ip + 4, regs := m.regs[a := List(m.regs[a].items + m.regs[b..b + c])]))
  {
    var code := [OP_EXT_LIST, a, b, c];
    CodeByte(P, m.ip, code, 0);
    CodeByte(P, m.ip, code, 1);
    CodeByte(P, m.ip, code, 2);
    CodeByte(P, m.ip, code, 3);
    ReachesStep(P, m);
  }

  lemma ShortValue(d: nat)
    requires d <= BYTE_JUMP_MAX
    ensures Low(d / 0x100) * 0x100 + Low(d) == d
  {
  }

  lemma RunJump(P: Program, m: State, d: nat)
    requires m.status == Running && |m.regs| >= WINDOW
    requires CodeAt(P, m.ip, JumpCode(d)) && d <= BYTE_JUMP_MAX
    ensures Reaches(P, m, m.(ip := m.ip + 3 + d))
  {
    var c := JumpCode(d);
    CodeByte(P, m.ip, c, 0);
    CodeByte(P, m.ip, c, 1);
    CodeByte(P, m.ip, c, 2);
    ShortValue(d);
    ReachesStep(P, m);
  }

  lemma RunBranch(P: Program, m: State, op: u8, a: u8, d: nat)
    requires m.status == Running && |m.regs| >= WINDOW
    requires CodeAt(P, m.ip, BranchCode(op, a, d)) && d <= BYTE_JUMP_MAX
    requires op == OP_JUMP_TRUE || op == OP_JUMP_FALSE
    ensures Reaches(P, m, m.(ip := m.ip + 4 + if Truthy(m.regs[a]) == (op == OP_JUMP_TRUE) then d else 0))
  {
    var c := BranchCode(op, a, d);
    CodeByte(P, m.ip, c, 0);
    CodeByte(P, m.ip, c, 1);
    CodeByte(P, m.ip, c, 2);
    CodeByte(P, m.ip, c, 3);
    ShortValue(d);
    ReachesStep(P, m);
  }

  /** `source operator` = `opcode, then OP_NOT if inverted`. */
  lemma BinaryAgrees(op: BinaryOp, a: Value, b: Value)
    ensures IsBinary(BinaryOpcode(op))
    ensures var res := BinaryOper(BinaryOpcode(op), a, b);
            BinaryValue(op, a, b) ==
              if Inverted(op) && res.Ok? then UnaryOper(OP_NOT, res.value) else res
  {
    hide BitAnd, BitOr, BitXor, Wrap64, AsDouble, Equal, TruncMod, FromUnsigned, Pow2;
    match op
    case Shl => if a.Int? && b.Int? { assert ToUnsigned(b.i) >= 64 <==> !(0 <= b.i < 64); }
    case Shr => if a.Int? && b.Int? { assert ToUnsigned(b.i) >= 64 <==> !(0 <= b.i < 64); }
    case _ =>
  }

  lemma NotAgrees(v: Value)
    ensures IsUnary(OP_NOT) && UnaryOper(OP_NOT, v) == Ok(Bool(!Truthy(v)))
  {
  }

  lemma UnaryAgrees(op: UnaryOp, v: Value)
    ensures IsUnary(UnaryOpcode(op)) && UnaryOper(UnaryOpcode(op), v) == UnaryValue(op, v)
  {
    if v.Int? && op.Complement? {
      assert FromUnsigned(TWO64 - 1 - ToUnsigned(v.i)) == -1 - v.i;
      assert Wrap64(-1 - v.i) == -1 - v.i;
    }
  }

  /** Running an operator on `r` and `r + 1`. */
  lemma RunBinary(P: Program, m: State, op: BinaryOp, syms: Syms, r: nat, env: Env) returns (m': State)
    requires Ready(P, BinaryCode(op, r), syms, r, env, m) && r + 1 <= 0xff
    ensures ExprPost(P, m, m', |BinaryCode(op, r)|, syms, r,
                     Done(BinaryValue(op, m.regs[r], m.regs[r + 1]), env))
  {
    hide BinaryOper, BinaryValue, UnaryOper, Truthy, IsBinary, BinaryOpcode;
    var a, b := m.regs[r], m.regs[r + 1];
    BinaryAgrees(op, a, b);
    var code := BinaryOpcode(op);
    var first, second := [code, Low(r), Low(r + 1)], if Inverted(op) then [OP_NOT, Low(r)] else [];
    CodeSplit(P, m.ip, first, second);
    RunOperator(P, m, code, r, r + 1);
    var res := BinaryOper(code, a, b);
    m' := Store(m, r, res, m.ip + 3);
    if res.Ok? {
      TempRel(env, syms, m.regs, r, res.value, r);
      if Inverted(op) {
        var m1 := m';
        NotAgrees(res.value);
        RunUnary(P, m1, OP_NOT, r);
        m' := Store(m1, r, UnaryOper(OP_NOT, res.value), m1.ip + 2);
        ReachesTrans(P, m, m1, m');
        TempRel(env, syms, m1.regs, r, Bool(!Truthy(res.value)), r);
      }
    }
  }

  lemma Chain(P: Program, m: State, m1: State, m2: State, len1: nat, len2: nat, syms: Syms, r: nat,
              v: Value, env: Env, result: Eval)
    requires Reaches(P, m, m1) && Arrived(m, m1, len1, syms, r, v, env)
    requires ExprPost(P, m1, m2, len2, syms, r, result)
    ensures ExprPost(P, m, m2, len1 + len2, syms, r, result)
  {
    ReachesTrans(P, m, m1, m2);
    if result.Val? { FrameTrans(syms, r, m.regs, m1.regs, m2.regs); }
  }

  /** Running the bytes of `e` from their first byte: either the end is reached
      with the value in `r`, or the VM raises the error the source raises. */
  lemma {:induction false} ExprSim(P: Program, e: Expr, top: bool, syms: Syms, r: nat, p: nat, env: Env, m: State)
    returns (m': State)
    requires ScopedExpr(e, Access(syms)) && ExprFits(e, top, syms, r, p)
    requires Ready(P, ExprCode(e, top, syms, r, p), syms, r, env, m)
    requires PoolAt(P, p, ExprConsts(e))
    ensures ExprPost(P, m, m', |ExprCode(e, top, syms, r, p)|, syms, r, EvalExpr(e, env))
    decreases e, 4
  {
    hide Rel, SymsOk, Reaches, CodeAt;
    match e
    case IntLit(_) => m' := SimLoad(P, e, top, syms, r, p, env, m);
    case BoolLit(_) => m' := SimLoad(P, e, top, syms, r, p, env, m);
    case NullLit => m' := SimLoad(P, e, top, syms, r, p, env, m);
    case Var(name) => m' := SimGet(P, m, top, syms, r, env, name, r);
    case Unary(_, _) => m' := SimUnary(P, e, top, syms, r, p, env, m);
    case Binary(_, _, _) => m' := SimBinary(P, e, top, syms, r, p, env, m);
    case And(_, _) => m' := SimLogic(P, e, top, syms, r, p, env, m);
    case Or(_, _) => m' := SimLogic(P, e, top, syms, r, p, env, m);
    case IfExpr(_, _, _) => m' := SimIf(P, e, top, syms, r, p, env, m);
    case Assign(name, e1) =>
      m' := SimAssign(P, e, top, syms, r, p, env, m);
    case CompoundAssign(_, _, _) => m' := SimCompound(P, e, top, syms, r, p, env, m);
    case Crement(_, _, _) => m' := SimCrement(P, e, top, syms, r, env, m);
    case ListLit(es) => m' := SimListLit(P, es, top, syms, r, p, env, m);
    case Index(_, _) => m' := SimIndex(P, e, top, syms, r, p, env, m);
  }

  lemma SimLoad(P: Program, e: Expr, top: bool, syms: Syms, r: nat, p: nat, env: Env, m: State) returns (m': State)
    requires (e.IntLit? || e.BoolLit? || e.NullLit?) && r <= 0xff
    requires Ready(P, ExprCode(e, top, syms, r, p), syms, r, env, m)
    requires PoolAt(P, p, ExprConsts(e))
    ensures ExprPost(P, m, m', |ExprCode(e, top, syms, r, p)|, syms, r, EvalExpr(e, env))
  {
    var c := ExprCode(e, top, syms, r, p);
    var v := match e case IntLit(i) => Int(i) case BoolLit(b) => Bool(b) case _ => Null;
    assert c == [OP_LOAD_REG, Low(r)] + c[2..];
    CodeSplit(P, m.ip, [OP_LOAD_REG, Low(r)], c[2..]);
    LoadDecodes(P, e, top, syms, r, p, m.ip);
    RunLoad(P, m, r, v, |c| - 2);
    TempRel(env, syms, m.regs, r, v, r);
    m' := m.(ip := m.ip + |c|, regs := m.regs[r := v]);
  }

  lemma LoadDecodes(P: Program, e: Expr, top: bool, syms: Syms, r: nat, p: nat, o: nat)
    requires e.IntLit? || e.BoolLit? || e.NullLit?
    requires CodeAt(P, o, ExprCode(e, top, syms, r, p)) && PoolAt(P, p, ExprConsts(e))
    ensures LoadOper(P, o + 2) == Oper(match e case IntLit(i) => Int(i) case BoolLit(b) => Bool(b) case _ => Null,
                                       |ExprCode(e, top, syms, r, p)| - 2)
  {
    var c := ExprCode(e, top, syms, r, p);
    CodeByte(P, o, c, 2);
    if e.IntLit? && !Immediate(e.i) {
      assert P.pool[p..p + 1][0] == Int(e.i);
      assert c == [OP_LOAD_REG, Low(r)] + Operand(p);
      CodeSplit(P, o, [OP_LOAD_REG, Low(r)], Operand(p));
      OperandDecodes(P, o + 2, p);
    }
  }

  /** The VM reads back the pool index the compiler wrote. */
  lemma OperandDecodes(P: Program, o: nat, index: nat)
    requires index < |P.pool| <= 0x1_0000_0000
    requires CodeAt(P, o, Operand(index))
    ensures LoadOper(P, o) == Oper(P.pool[index], |Operand(index)|)
  {
    var c := Operand(index);
    CodeByte(P, o, c, 0);
    CodeByte(P, o, c, 1);
    if index >= 0x100 {
      CodeByte(P, o, c, 2);
      if index < 0x1_0000 {
        ShortValue(index);
      } else {
        CodeByte(P, o, c, 3);
        CodeByte(P, o, c, 4);
        LongValue(index);
      }
    }
  }

  lemma LongValue(x: nat)
    requires x < 0x1_0000_0000
    ensures var hi := x / 0x1_0000;
            (Low(hi / 0x100) * 0x100 + Low(hi)) * 0x1_0000 + (Low(x / 0x100) * 0x100 + Low(x)) == x
  {
    ShortValue(x / 0x1_0000);
    LowPart(x);
  }

  lemma LowPart(x: nat)
    ensures Low(x / 0x100) * 0x100 + Low(x) == x % 0x1_0000
  {
  }

  lemma {:induction false} SimUnary(P: Program, e: Expr, top: bool, syms: Syms, r: nat, p: nat, env: Env, m: State)
    returns (m': State)
    requires e.Unary? && ScopedExpr(e, Access(syms)) && ExprFits(e, top, syms, r, p)
    requires Ready(P, ExprCode(e, top, syms, r, p), syms, r, env, m)
    requires PoolAt(P, p, ExprConsts(e))
    ensures ExprPost(P, m, m', |ExprCode(e, top, syms, r, p)|, syms, r, EvalExpr(e, env))
    decreases e, 0
  {
    hide Rel, SymsOk, Reaches, CodeAt;
    var Unary(op, e1) := e;
    var c1, c2 := ExprCode(e1, top, syms, r, p), [UnaryOpcode(op), Low(r)];
    CodeSplit(P, m.ip, c1, c2);
    m' := ExprSim(P, e1, top, syms, r, p, env, m);
    if EvalExpr(e1, env).Val? {
      var Val(v, env1) := EvalExpr(e1, env);
      var m1 := m';
      UnaryAgrees(op, v);
      RunUnary(P, m1, UnaryOpcode(op), r);
      m' := Store(m1, r, UnaryValue(op, v), m1.ip + 2);
      ReachesTrans(P, m, m1, m');
      if UnaryValue(op, v).Ok? {
        StoreArrived(P, m, m1, |c1|, 2, syms, r, v, env1, UnaryValue(op, v));
      }
    }
  }

  /** A result stored over the value in `r`. */
  lemma StoreArrived(P: Program, m: State, m1: State, len: nat, size: nat, syms: Syms, r: nat, v: Value, env: Env, res: Result)
    requires |m.regs| >= WINDOW && r <= 0xff && SymsOk(syms, r)
    requires Arrived(m, m1, len, syms, r, v, env) && res.Ok?
    ensures Arrived(m, Store(m1, r, res, m1.ip + size), len + size, syms, r, res.value, env)
  {
    TempRel(env, syms, m1.regs, r, res.value, r);
    FrameTrans(syms, r, m.regs, m1.regs, m1.regs[r := res.value]);
  }

  lemma {:induction false} SimBinary(P: Program, e: Expr, top: bool, syms: Syms, r: nat, p: nat, env: Env, m: State)
    returns (m': State)
    requires e.Binary? && ScopedExpr(e, Access(syms)) && ExprFits(e, top, syms, r, p)
    requires Ready(P, ExprCode(e, top, syms, r, p), syms, r, env, m)
    requires PoolAt(P, p, ExprConsts(e))
    ensures ExprPost(P, m, m', |ExprCode(e, top, syms, r, p)|, syms, r, EvalExpr(e, env))
    decreases e, 1
  {
    hide PoolAt, BinaryValue;
    hide Rel, SymsOk, Reaches, CodeAt;
    var Binary(op, l, rt) := e;
    PoolSplit(P, p, ExprConsts(l), ExprConsts(rt));
    var c1, c2 := ExprCode(l, top, syms, r, p), ExprCode(rt, top, syms, r + 1, p + |ExprConsts(l)|);
    var c3 := BinaryCode(op, r);
    m' := SimOperands(P, e, l, rt, c1, c2, c3, top, syms, r, p, env, m);
    if EvalExpr(l, env).Val? {
      var Val(a, env1) := EvalExpr(l, env);
      if EvalExpr(rt, env1).Val? {
        var env2 := EvalExpr(rt, env1).env;
        var m2 := m';
        m' := RunBinary(P, m2, op, syms, r, env2);
        var len := |ExprCode(l, top, syms, r, p)| + |ExprCode(rt, top, syms, r + 1, p + |ExprConsts(l)|)|;
        Chain(P, m, m2, m', len, |c3|, syms, r, a, env2, EvalExpr(e, env));
      }
    }
  }

  /** Two operands into `r` and `r + 1`, with the code `c3` to follow. */
  lemma {:induction false} SimOperands(P: Program, e: Expr, l: Expr, rt: Expr, c1: seq<u8>, c2: seq<u8>, c3: seq<u8>,
                                       top: bool, syms: Syms, r: nat, p: nat, env: Env, m: State)
    returns (m': State)
    requires l < e && rt < e
    requires ScopedExpr(l, Access(syms)) && ExprFits(l, top, syms, r, p) && PoolAt(P, p, ExprConsts(l))
    requires var p1 := p + |ExprConsts(l)|;
             ScopedExpr(rt, Access(syms)) && ExprFits(rt, top, syms, r + 1, p1) && PoolAt(P, p1, ExprConsts(rt))
    requires c1 == ExprCode(l, top, syms, r, p) && c2 == ExprCode(rt, top, syms, r + 1, p + |ExprConsts(l)|)
    requires Ready(P, c1 + (c2 + c3), syms, r, env, m)
    ensures Reaches(P, m, m')
    ensures var res := EvalExpr(l, env);
            if res.Raised? then m'.status == Failed(res.error)
            else var res2 := EvalExpr(rt, res.env);
                 if res2.Raised? then m'.status == Failed(res2.error)
                 else OperandsIn(P, m, m', |c1| + |c2|, c3, syms, r, res.value, res2.value, res2.env)
    decreases e, 0
  {
    hide ExprCode, EvalExpr, ExprFits, ScopedExpr, ExprConsts;
    CodeSplit(P, m.ip, c1, c2 + c3);
    CodeSplit(P, m.ip + |c1|, c2, c3);
    m' := ExprSim(P, l, top, syms, r, p, env, m);
    var res := EvalExpr(l, env);
    if res.Val? {
      var m1 := m';
      m' := ExprSim(P, rt, top, syms, r + 1, p + |ExprConsts(l)|, res.env, m1);
      ReachesTrans(P, m, m1, m');
      if EvalExpr(rt, res.env).Val? {
        FrameKeeps(syms, r, r + 1, m1.regs, m'.regs, r);
        FrameShrink(syms, r, r + 1, m1.regs, m'.regs);
        FrameTrans(syms, r, m.regs, m1.regs, m'.regs);
      }
    }
  }

  ghost predicate OperandsIn(P: Program, m: State, m': State, len: nat, rest: seq<u8>, syms: Syms, r: nat,
                             a: Value, b: Value, env: Env) {
    Arrived(m, m', len, syms, r, a, env) && Ready(P, rest, syms, r, env, m')
    && r + 1 < |m'.regs| && m'.regs[r + 1] == b
  }

  lemma {:induction false} SimIndex(P: Program, e: Expr, top: bool, syms: Syms, r: nat, p: nat, env: Env, m: State)
    returns (m': State)
    requires e.Index? && ScopedExpr(e, Access(syms)) && ExprFits(e, top, syms, r, p)
    requires Ready(P, ExprCode(e, top, syms, r, p), syms, r, env, m)
    requires PoolAt(P, p, ExprConsts(e))
    ensures ExprPost(P, m, m', |ExprCode(e, top, syms, r, p)|, syms, r, EvalExpr(e, env))
    decreases e, 1
  {
    hide PoolAt, GetIndex;
    hide Rel, SymsOk, Reaches, CodeAt;
    var Index(l, rt) := e;
    PoolSplit(P, p, ExprConsts(l), ExprConsts(rt));
    var c1, c2 := ExprCode(l, top, syms, r, p), ExprCode(rt, top, syms, r + 1, p + |ExprConsts(l)|);
    var c3 := [OP_GET_INDEX, Low(r), Low(r), Low(r + 1)];
    m' := SimOperands(P, e, l, rt, c1, c2, c3, top, syms, r, p, env, m);
    if EvalExpr(l, env).Val? {
      var Val(a, env1) := EvalExpr(l, env);
      if EvalExpr(rt, env1).Val? {
        var Val(b, env2) := EvalExpr(rt, env1);
        m' := TakeElement(P, m, m', |c1| + |c2|, syms, r, a, b, env2);
      }
    }
  }

  lemma TakeElement(P: Program, m: State, m1: State, len: nat, syms: Syms, r: nat, a: Value, b: Value, env: Env)
    returns (m': State)
    requires |m.regs| >= WINDOW && r + 1 <= 0xff && SymsOk(syms, r) && Reaches(P, m, m1)
    requires OperandsIn(P, m, m1, len, [OP_GET_INDEX, Low(r), Low(r), Low(r + 1)], syms, r, a, b, env)
    ensures Reaches(P, m, m')
    ensures match GetIndex(a, b)
            case Ok(v) => Arrived(m, m', len + 4, syms, r, v, env)
            case Err(x) => m'.status == Failed(x)
  {
    hide Rel, SymsOk, Reaches, CodeAt, GetIndex;
    RunIndex(P, m1, r, r, r + 1);
    m' := Store(m1, r, GetIndex(a, b), m1.ip + 4);
    ReachesTrans(P, m, m1, m');
    if GetIndex(a, b).Ok? {
      StoreArrived(P, m, m1, len, 4, syms, r, a, env, GetIndex(a, b));
    }
  }

  /** A conditional jump over `d` bytes on the value just computed. */
  lemma AfterBranch(P: Program, m: State, m1: State, a: seq<u8>, op: u8, d: nat, b: seq<u8>, syms: Syms, r: nat,
                    v: Value, env: Env)
    returns (m2: State)
    requires m.status == Running && |m.regs| >= WINDOW && CodeAt(P, m.ip, a + (BranchCode(op, r, d) + b))
    requires (op == OP_JUMP_TRUE || op == OP_JUMP_FALSE) && d <= BYTE_JUMP_MAX && r <= 0xff
    requires Reaches(P, m, m1) && Arrived(m, m1, |a|, syms, r, v, env)
    ensures CodeAt(P, m.ip + |a| + 4, b) && Reaches(P, m, m2)
    ensures Arrived(m, m2, |a| + 4 + if Truthy(v) == (op == OP_JUMP_TRUE) then d else 0, syms, r, v, env)
  {
    CodeSplit(P, m.ip, a, BranchCode(op, r, d) + b);
    CodeSplit(P, m1.ip, BranchCode(op, r, d), b);
    RunBranch(P, m1, op, r, d);
    m2 := m1.(ip := m1.ip + 4 + if Truthy(v) == (op == OP_JUMP_TRUE) then d else 0);
    ReachesTrans(P, m, m1, m2);
  }

  /** An unconditional jump over `d` bytes after a value. */
  lemma AfterJump(P: Program, m: State, m1: State, len: nat, d: nat, syms: Syms, r: nat, v: Value, env: Env)
    returns (m2: State)
    requires |m1.regs| >= WINDOW && CodeAt(P, m1.ip, JumpCode(d)) && d <= BYTE_JUMP_MAX
    requires Reaches(P, m, m1) && Arrived(m, m1, len, syms, r, v, env)
    ensures Reaches(P, m, m2) && Arrived(m, m2, len + 3 + d, syms, r, v, env)
  {
    RunJump(P, m1, d);
    m2 := m1.(ip := m1.ip + 3 + d);
    ReachesTrans(P, m, m1, m2);
  }

  lemma {:induction false} SimLogic(P: Program, e: Expr, top: bool, syms: Syms, r: nat, p: nat, env: Env, m: State)
    returns (m': State)
    requires (e.And? || e.Or?) && ScopedExpr(e, Access(syms)) && ExprFits(e, top, syms, r, p)
    requires Ready(P, ExprCode(e, top, syms, r, p), syms, r, env, m)
    requires PoolAt(P, p, ExprConsts(e))
    ensures ExprPost(P, m, m', |ExprCode(e, top, syms, r, p)|, syms, r, EvalExpr(e, env))
    decreases e, 1
  {
    hide Rel, SymsOk, Reaches, CodeAt;
    PoolSplit(P, p, ExprConsts(e.left), ExprConsts(e.right));
    m' := SimShortCircuit(P, e, e.left, e.right, if e.And? then OP_JUMP_FALSE else OP_JUMP_TRUE,
                          top, syms, r, p, env, m);
  }

  lemma {:induction false} SimShortCircuit(P: Program, e: Expr, l: Expr, rt: Expr, op: u8, top: bool, syms: Syms,
                                           r: nat, p: nat, env: Env, m: State)
    returns (m': State)
    requires l < e && rt < e && (op == OP_JUMP_TRUE || op == OP_JUMP_FALSE) && r <= 0xff
    requires ScopedExpr(l, Access(syms)) && ExprFits(l, top, syms, r, p) && PoolAt(P, p, ExprConsts(l))
    requires var p1 := p + |ExprConsts(l)|;
             ScopedExpr(rt, Access(syms)) && ExprFits(rt, top, syms, r, p1) && PoolAt(P, p1, ExprConsts(rt))
    requires var lc, rc := ExprCode(l, top, syms, r, p), ExprCode(rt, top, syms, r, p + |ExprConsts(l)|);
             Ready(P, ShortCircuit(op, lc, rc, r), syms, r, env, m) && |rc| <= BYTE_JUMP_MAX
    ensures var lc, rc := ExprCode(l, top, syms, r, p), ExprCode(rt, top, syms, r, p + |ExprConsts(l)|);
            ExprPost(P, m, m', |ShortCircuit(op, lc, rc, r)|, syms, r,
                     match EvalExpr(l, env)
                     case Raised(x) => Raised(x)
                     case Val(a, env1) => if Truthy(a) == (op == OP_JUMP_TRUE) then Val(a, env1) else EvalExpr(rt, env1))
    decreases e, 0
  {
    hide Rel, SymsOk, Reaches, CodeAt, Innermost;
    hide ExprCode, EvalExpr, ExprFits, ScopedExpr, ExprConsts;
    var p1 := p + |ExprConsts(l)|;
    var lc, rc := ExprCode(l, top, syms, r, p), ExprCode(rt, top, syms, r, p1);
    CodeSplit(P, m.ip, lc, BranchCode(op, r, |rc|) + rc);
    m' := ExprSim(P, l, top, syms, r, p, env, m);
    var res := EvalExpr(l, env);
    if res.Val? {
      var m2 := AfterBranch(P, m, m', lc, op, |rc|, rc, syms, r, res.value, res.env);
      if Truthy(res.value) == (op == OP_JUMP_TRUE) {
        m' := m2;
      } else {
        m' := ExprSim(P, rt, top, syms, r, p1, res.env, m2);
        Chain(P, m, m2, m', |lc| + 4, |rc|, syms, r, res.value, res.env, EvalExpr(rt, res.env));
      }
    }
  }

  lemma {:induction false} SimIf(P: Program, e: Expr, top: bool, syms: Syms, r: nat, p: nat, env: Env, m: State)
    returns (m': State)
    requires e.IfExpr? && ScopedExpr(e, Access(syms)) && ExprFits(e, top, syms, r, p)
    requires Ready(P, ExprCode(e, top, syms, r, p), syms, r, env, m)
    requires PoolAt(P, p, ExprConsts(e))
    ensures ExprPost(P, m, m', |ExprCode(e, top, syms, r, p)|, syms, r, EvalExpr(e, env))
    decreases e, 3
  {
    hide ExprCode, ExprConsts, EvalExpr, ExprFits, ScopedExpr, Rel, SymsOk, Reaches, CodeAt, PoolAt, Frame;
    var IfExpr(c, t, f) := e;
    var p1 := p + |ExprConsts(c)|;
    IfLayout(e, top, syms, r, p);
    IfConsts(e);
    IfFits(e, top, syms, r, p);
    IfEval(e, env);
    PoolSplit(P, p, ExprConsts(c) + ExprConsts(t), ExprConsts(f));
    PoolSplit(P, p, ExprConsts(c), ExprConsts(t));
    m' := SimCondition(P, e, c, t, f, ExprCode(c, top, syms, r, p), ExprCode(t, top, syms, r, p1),
                       ExprCode(f, top, syms, r, p1 + |ExprConsts(t)|), top, syms, r, p, env, m);
  }

  /* The definitions of an if-expression, unfolded once. */

  lemma IfFits(e: Expr, top: bool, syms: Syms, r: nat, p: nat)
    requires e.IfExpr? && ScopedExpr(e, Access(syms)) && ExprFits(e, top, syms, r, p)
    ensures var IfExpr(c, t, f) := e;
            var p1 := p + |ExprConsts(c)|;
            var p2 := p1 + |ExprConsts(t)|;
            && r <= 0xff
            && ScopedExpr(c, Access(syms)) && ExprFits(c, top, syms, r, p)
            && ScopedExpr(t, Access(syms)) && ExprFits(t, top, syms, r, p1)
            && ScopedExpr(f, Access(syms)) && ExprFits(f, top, syms, r, p2)
            && |ExprCode(t, top, syms, r, p1)| + 3 <= BYTE_JUMP_MAX && |ExprCode(f, top, syms, r, p2)| <= BYTE_JUMP_MAX
  {
    hide ExprConsts, ExprCode;
  }

  lemma IfLayout(e: Expr, top: bool, syms: Syms, r: nat, p: nat)
    requires e.IfExpr?
    ensures var p1 := p + |ExprConsts(e.cond)|;
            var cc, tc := ExprCode(e.cond, top, syms, r, p), ExprCode(e.thn, top, syms, r, p1);
            var fc := ExprCode(e.els, top, syms, r, p1 + |ExprConsts(e.thn)|);
            ExprCode(e, top, syms, r, p) == cc + (BranchCode(OP_JUMP_FALSE, r, |tc| + 3) + (tc + (JumpCode(|fc|) + fc)))
  {
    hide BranchCode, JumpCode, ExprConsts, LoadInt, BinaryCode, ShortCircuit, CompoundCode, CrementCode, ListCode, SetVar, GetVar;
  }

  lemma IfConsts(e: Expr)
    requires e.IfExpr?
    ensures ExprConsts(e) == ExprConsts(e.cond) + ExprConsts(e.thn) + ExprConsts(e.els)
  {
  }

  lemma IfEval(e: Expr, env: Env)
    requires e.IfExpr?
    ensures EvalExpr(e, env) ==
            match EvalExpr(e.cond, env)
            case Raised(x) => Raised(x)
            case Val(v, env1) => if Truthy(v) then EvalExpr(e.thn, env1) else EvalExpr(e.els, env1)
  {
    hide Truthy;
  }

  lemma {:induction false} SimCondition(P: Program, e: Expr, c: Expr, t: Expr, f: Expr, cc: seq<u8>, tc: seq<u8>,
                                        fc: seq<u8>, top: bool, syms: Syms, r: nat, p: nat, env: Env, m: State)
    returns (m': State)
    requires c < e && t < e && f < e && r <= 0xff
    requires var p1 := p + |ExprConsts(c)|;
             var p2 := p1 + |ExprConsts(t)|;
             && cc == ExprCode(c, top, syms, r, p) && tc == ExprCode(t, top, syms, r, p1)
             && fc == ExprCode(f, top, syms, r, p2)
             && ScopedExpr(c, Access(syms)) && ExprFits(c, top, syms, r, p) && PoolAt(P, p, ExprConsts(c))
             && ScopedExpr(t, Access(syms)) && ExprFits(t, top, syms, r, p1) && PoolAt(P, p1, ExprConsts(t))
             && ScopedExpr(f, Access(syms)) && ExprFits(f, top, syms, r, p2) && PoolAt(P, p2, ExprConsts(f))
    requires Ready(P, cc + (BranchCode(OP_JUMP_FALSE, r, |tc| + 3) + (tc + (JumpCode(|fc|) + fc))), syms, r, env, m)
    requires |tc| + 3 <= BYTE_JUMP_MAX && |fc| <= BYTE_JUMP_MAX
    ensures ExprPost(P, m, m', |cc| + 7 + |tc| + |fc|, syms, r,
                     match EvalExpr(c, env)
                     case Raised(x) => Raised(x)
                     case Val(v, env1) => if Truthy(v) then EvalExpr(t, env1) else EvalExpr(f, env1))
    decreases e, 2
  {
    hide Rel, SymsOk, Reaches, CodeAt, Innermost;
    hide ExprCode, EvalExpr, ExprFits, ScopedExpr, ExprConsts;
    var rest := tc + (JumpCode(|fc|) + fc);
    var m2 := SimTest(P, c, cc, OP_JUMP_FALSE, |tc| + 3, rest, top, syms, r, p, env, m);
    m' := m2;
    var res := EvalExpr(c, env);
    if res.Val? {
      m' := SimChosen(P, e, t, f, tc, fc, |cc|, top, syms, r, p + |ExprConsts(c)|, res.value, res.env, m, m2);
    }
  }

  /** The arm that the condition, whose code has length `n`, has chosen. */
  lemma {:induction false} SimChosen(P: Program, e: Expr, t: Expr, f: Expr, tc: seq<u8>, fc: seq<u8>, n: nat, top: bool,
                                     syms: Syms, r: nat, p: nat, v: Value, env: Env, m: State, m2: State)
    returns (m': State)
    requires t < e && f < e
    requires var p1 := p + |ExprConsts(t)|;
             && tc == ExprCode(t, top, syms, r, p) && fc == ExprCode(f, top, syms, r, p1)
             && ScopedExpr(t, Access(syms)) && ExprFits(t, top, syms, r, p) && PoolAt(P, p, ExprConsts(t))
             && ScopedExpr(f, Access(syms)) && ExprFits(f, top, syms, r, p1) && PoolAt(P, p1, ExprConsts(f))
    requires |m.regs| >= WINDOW && SymsOk(syms, r)
    requires CodeAt(P, m.ip + n + 4, tc + (JumpCode(|fc|) + fc)) && |fc| <= BYTE_JUMP_MAX
    requires Reaches(P, m, m2) && Arrived(m, m2, n + 4 + if Truthy(v) then 0 else |tc| + 3, syms, r, v, env)
    ensures ExprPost(P, m, m', n + 7 + |tc| + |fc|, syms, r, EvalExpr(if Truthy(v) then t else f, env))
    decreases e, 1
  {
    hide Rel, SymsOk, Reaches, CodeAt, PoolAt, Innermost, Truthy, JumpCode;
    hide ExprCode, EvalExpr, ExprFits, ScopedExpr, ExprConsts;
    m' := SimArms(P, e, t, f, top, syms, r, p, m.ip + n + 4, env, Truthy(v), m2);
    Chain(P, m, m2, m', m2.ip - m.ip, m.ip + n + 7 + |tc| + |fc| - m2.ip, syms, r, v, env,
          EvalExpr(if Truthy(v) then t else f, env));
  }

  /** A condition and the conditional jump on it. */
  lemma {:induction false} SimTest(P: Program, c: Expr, cc: seq<u8>, op: u8, d: nat, rest: seq<u8>, top: bool, syms: Syms,
                                   r: nat, p: nat, env: Env, m: State)
    returns (m': State)
    requires cc == ExprCode(c, top, syms, r, p) && r <= 0xff
    requires ScopedExpr(c, Access(syms)) && ExprFits(c, top, syms, r, p) && PoolAt(P, p, ExprConsts(c))
    requires Ready(P, cc + (BranchCode(op, r, d) + rest), syms, r, env, m)
    requires (op == OP_JUMP_TRUE || op == OP_JUMP_FALSE) && d <= BYTE_JUMP_MAX
    ensures Reaches(P, m, m')
    ensures match EvalExpr(c, env)
            case Raised(x) => m'.status == Failed(x)
            case Val(v, env1) =>
              && Arrived(m, m', |cc| + 4 + if Truthy(v) == (op == OP_JUMP_TRUE) then d else 0, syms, r, v, env1)
              && CodeAt(P, m.ip + |cc| + 4, rest)
    decreases c, 5
  {
    hide ExprCode, EvalExpr, ExprFits, ScopedExpr, ExprConsts;
    CodeSplit(P, m.ip, cc, BranchCode(op, r, d) + rest);
    m' := ExprSim(P, c, top, syms, r, p, env, m);
    var res := EvalExpr(c, env);
    if res.Val? {
      m' := AfterBranch(P, m, m', cc, op, d, rest, syms, r, res.value, res.env);
    }
  }

  /** The arms of an if-expression, laid out from `o`. */
  lemma {:induction false} SimArms(P: Program, e: Expr, t: Expr, f: Expr, top: bool, syms: Syms, r: nat, p: nat, o: nat,
                                   env: Env, taken: bool, m: State)
    returns (m': State)
    requires t < e && f < e
    requires ScopedExpr(t, Access(syms)) && ExprFits(t, top, syms, r, p) && PoolAt(P, p, ExprConsts(t))
    requires var p1 := p + |ExprConsts(t)|;
             ScopedExpr(f, Access(syms)) && ExprFits(f, top, syms, r, p1) && PoolAt(P, p1, ExprConsts(f))
    requires m.status == Running && |m.regs| >= WINDOW && SymsOk(syms, r) && Rel(env, syms, m.regs)
    requires var tc, fc := ExprCode(t, top, syms, r, p), ExprCode(f, top, syms, r, p + |ExprConsts(t)|);
             && CodeAt(P, o, tc + (JumpCode(|fc|) + fc)) && |fc| <= BYTE_JUMP_MAX
             && m.ip == if taken then o else o + |tc| + 3
    ensures var tc, fc := ExprCode(t, top, syms, r, p), ExprCode(f, top, syms, r, p + |ExprConsts(t)|);
            m.ip <= o + |tc| + 3 + |fc|
            && ExprPost(P, m, m', o + |tc| + 3 + |fc| - m.ip, syms, r, EvalExpr(if taken then t else f, env))
    decreases e, 0
  {
    hide ExprCode, EvalExpr, ExprFits, ScopedExpr, ExprConsts;
    var tc, fc := ExprCode(t, top, syms, r, p), ExprCode(f, top, syms, r, p + |ExprConsts(t)|);
    CodeSplit(P, o, tc, JumpCode(|fc|) + fc);
    CodeSplit(P, o + |tc|, JumpCode(|fc|), fc);
    if taken {
      m' := ExprSim(P, t, top, syms, r, p, env, m);
      var res := EvalExpr(t, env);
      if res.Val? {
        m' := AfterJump(P, m, m', |tc|, |fc|, syms, r, res.value, res.env);
      }
    } else {
      m' := ExprSim(P, f, top, syms, r, p + |ExprConsts(t)|, env, m);
    }
  }

  /** One step that stores register `src` in the variable `name`. */
  lemma SimSet(P: Program, m: State, top: bool, syms: Syms, r: nat, env: Env, name: string, src: nat) returns (m': State)
    requires Innermost(syms, name) >= 0 && r <= src <= 0xff
    requires var k := Innermost(syms, name); Ready(P, SetVar(top, k, syms[k][name].reg, src), syms, r, env, m)
    ensures Reaches(P, m, m') && m' == m.(ip := m.ip + 3, regs := m'.regs)
    ensures Frame(syms, r, m.regs, m'.regs) && Rel(Update(env, name, m.regs[src]), syms, m'.regs)
    ensures forall i | r <= i < |m.regs| :: m'.regs[i] == m.regs[i]
  {
    var k := Innermost(syms, name);
    var slot := syms[k][name].reg;
    WriteRel(env, syms, m.regs, name, m.regs[src], r);
    RunCopy(P, m, if top && k == 0 then OP_SET_GLOBAL else OP_SET_LOCAL, slot, src);
    m' := m.(ip := m.ip + 3, regs := m.regs[slot := m.regs[src]]);
  }

  /** One step that fetches the variable `name` into register `dest`. */
  lemma SimGet(P: Program, m: State, top: bool, syms: Syms, r: nat, env: Env, name: string, dest: nat) returns (m': State)
    requires Declared(Access(syms), name) && r <= dest <= 0xff
    requires var k := Innermost(syms, name);
             Ready(P, if k < 0 then [] else GetVar(top, k, dest, syms[k][name].reg), syms, r, env, m)
    ensures Innermost(syms, name) >= 0
    ensures Reaches(P, m, m') && m' == m.(ip := m.ip + 3, regs := m.regs[dest := Lookup(env, name)])
    ensures Rel(env, syms, m'.regs) && Frame(syms, r, m.regs, m'.regs)
  {
    ReadRel(env, syms, m.regs, name);
    var k := Innermost(syms, name);
    RunCopy(P, m, if top && k == 0 then OP_GET_GLOBAL else OP_GET_LOCAL, dest, syms[k][name].reg);
    TempRel(env, syms, m.regs, dest, Lookup(env, name), r);
    m' := m.(ip := m.ip + 3, regs := m.regs[dest := Lookup(env, name)]);
  }

  lemma {:induction false} SimAssign(P: Program, e: Expr, top: bool, syms: Syms, r: nat, p: nat, env: Env, m: State)
    returns (m': State)
    requires e.Assign? && ScopedExpr(e, Access(syms)) && ExprFits(e, top, syms, r, p)
    requires Ready(P, ExprCode(e, top, syms, r, p), syms, r, env, m)
    requires PoolAt(P, p, ExprConsts(e))
    ensures ExprPost(P, m, m', |ExprCode(e, top, syms, r, p)|, syms, r, EvalExpr(e, env))
    decreases e, 0
  {
    hide Rel, SymsOk, Reaches, CodeAt;
    var Assign(name, e1) := e;
    ReadRel(env, syms, m.regs, name);
    var k := Innermost(syms, name);
    var c1, c2 := ExprCode(e1, top, syms, r, p), SetVar(top, k, syms[k][name].reg, r);
    CodeSplit(P, m.ip, c1, c2);
    m' := ExprSim(P, e1, top, syms, r, p, env, m);
    if EvalExpr(e1, env).Val? {
      var Val(v, env1) := EvalExpr(e1, env);
      var m1 := m';
      m' := SimSet(P, m1, top, syms, r, env1, name, r);
      ReachesTrans(P, m, m1, m');
      FrameTrans(syms, r, m.regs, m1.regs, m'.regs);
    }
  }

  lemma {:induction false} SimCompound(P: Program, e: Expr, top: bool, syms: Syms, r: nat, p: nat, env: Env, m: State)
    returns (m': State)
    requires e.CompoundAssign? && ScopedExpr(e, Access(syms)) && ExprFits(e, top, syms, r, p)
    requires Ready(P, ExprCode(e, top, syms, r, p), syms, r, env, m)
    requires PoolAt(P, p, ExprConsts(e))
    ensures ExprPost(P, m, m', |ExprCode(e, top, syms, r, p)|, syms, r, EvalExpr(e, env))
    decreases e, 0
  {
    hide Lookup, Update, BinaryValue;
    hide Rel, SymsOk, Reaches, CodeAt;
    var CompoundAssign(op, name, e1) := e;
    ReadRel(env, syms, m.regs, name);
    var k := Innermost(syms, name);
    var c1, c2 := ExprCode(e1, top, syms, r, p), CompoundCode(op, top, k, syms[k][name].reg, r);
    CodeSplit(P, m.ip, c1, c2);
    m' := ExprSim(P, e1, top, syms, r, p, env, m);
    if EvalExpr(e1, env).Val? {
      var Val(v, env1) := EvalExpr(e1, env);
      var m1 := m';
      m' := RunCompound(P, m1, op, name, top, syms, r, env1);
      Chain(P, m, m1, m', |c1|, |c2|, syms, r, v, env1, EvalExpr(e, env));
    }
  }

  /** The value of an assignment whose right hand side gave `result`. */
  function Assigned(result: Result, name: string, env: Env): Eval {
    match result
    case Err(x) => Raised(x)
    case Ok(w) => Val(w, Update(env, name, w))
  }

  lemma RunCompound(P: Program, m: State, op: CompoundOp, name: string, top: bool, syms: Syms, r: nat, env: Env)
    returns (m': State)
    requires Declared(Access(syms), name) && Innermost(syms, name) >= 0 && r + 1 <= 0xff
    requires var k := Innermost(syms, name); Ready(P, CompoundCode(op, top, k, syms[k][name].reg, r), syms, r, env, m)
    ensures ExprPost(P, m, m', 12, syms, r, Assigned(BinaryValue(op, Lookup(env, name), m.regs[r]), name, env))
  {
    hide Rel, SymsOk, Reaches, CodeAt, Innermost;
    var k := Innermost(syms, name);
    var slot := syms[k][name].reg;
    var c1, c2 := GetVar(top, k, r + 1, slot), [BinaryOpcode(op), Low(r + 1), Low(r)];
    var c3, c4 := SetVar(top, k, slot, r + 1), [OP_MOVE_REG, Low(r), Low(r + 1)];
    CodeSplit(P, m.ip, c1, c2 + (c3 + c4));
    CodeSplit(P, m.ip + 3, c2, c3 + c4);
    var m1 := SimGet(P, m, top, syms, r, env, name, r + 1);
    var res := BinaryValue(op, Lookup(env, name), m.regs[r]);
    BinaryAgrees(op, Lookup(env, name), m.regs[r]);
    RunOperator(P, m1, BinaryOpcode(op), r + 1, r);
    m' := Store(m1, r + 1, res, m1.ip + 3);
    ReachesTrans(P, m, m1, m');
    if res.Ok? {
      TempRel(env, syms, m1.regs, r + 1, res.value, r);
      var m2 := m';
      m' := SetAndMove(P, m2, name, top, syms, r, env);
      ReachesTrans(P, m, m2, m');
      FrameTrans(syms, r, m.regs, m1.regs, m2.regs);
      FrameTrans(syms, r, m.regs, m2.regs, m'.regs);
    }
  }

  /** Store `r + 1` in the variable, then move it to `r`. */
  lemma SetAndMove(P: Program, m: State, name: string, top: bool, syms: Syms, r: nat, env: Env) returns (m': State)
    requires Innermost(syms, name) >= 0 && r + 1 <= 0xff
    requires var k := Innermost(syms, name);
             Ready(P, SetVar(top, k, syms[k][name].reg, r + 1) + [OP_MOVE_REG, Low(r), Low(r + 1)], syms, r, env, m)
    ensures ExprPost(P, m, m', 6, syms, r, Val(m.regs[r + 1], Update(env, name, m.regs[r + 1])))
  {
    hide Rel, SymsOk, Reaches, CodeAt, Innermost;
    var k := Innermost(syms, name);
    CodeSplit(P, m.ip, SetVar(top, k, syms[k][name].reg, r + 1), [OP_MOVE_REG, Low(r), Low(r + 1)]);
    var w := m.regs[r + 1];
    var env' := Update(env, name, w);
    var m1 := SimSet(P, m, top, syms, r, env, name, r + 1);
    RunMove(P, m1, r, r + 1);
    m' := m1.(ip := m1.ip + 3, regs := m1.regs[r := w][r + 1 := Invalid]);
    ReachesTrans(P, m, m1, m');
    TempRel(env', syms, m1.regs, r, w, r);
    TempRel(env', syms, m1.regs[r := w], r + 1, Invalid, r);
    FrameTrans(syms, r, m1.regs, m1.regs[r := w], m'.regs);
    FrameTrans(syms, r, m.regs, m1.regs, m'.regs);
  }

  lemma SimCrement(P: Program, e: Expr, top: bool, syms: Syms, r: nat, env: Env, m: State) returns (m': State)
    requires e.Crement? && ScopedExpr(e, Access(syms)) && r + 1 <= 0xff
    requires Ready(P, ExprCode(e, top, syms, r, 0), syms, r, env, m)
    ensures ExprPost(P, m, m', |ExprCode(e, top, syms, r, 0)|, syms, r, EvalExpr(e, env))
  {
    hide Rel, SymsOk, Reaches, CodeAt, Frame;
    ReadRel(env, syms, m.regs, e.name);
    m' := RunCrement(P, m, e.incr, e.prev, e.name, top, syms, r, env);
  }

  function Next(i: i64, incr: bool): Value {
    Int(Wrap64(if incr then i + 1 else i - 1))
  }

  lemma RunCrement(P: Program, m: State, incr: bool, prev: bool, name: string, top: bool, syms: Syms, r: nat, env: Env)
    returns (m': State)
    requires Declared(Access(syms), name) && r + 1 <= 0xff && Innermost(syms, name) >= 0
    requires var k := Innermost(syms, name);
             Ready(P, CrementCode(incr, prev, top, k, syms[k][name].reg, r), syms, r, env, m)
    ensures var v := Lookup(env, name);
            if !v.Int? then Reaches(P, m, m') && m'.status == Failed(BadOperand)
            else ExprPost(P, m, m', if prev then 11 else 14, syms, r,
                          Val(if prev then v else Next(v.i, incr), Update(env, name, Next(v.i, incr))))
  {
    hide Rel, SymsOk, Reaches, CodeAt, Innermost;
    var k := Innermost(syms, name);
    var op := if incr then OP_INCR else OP_DECR;
    var c3 := [op, Low(r + 1)];
    var rest := SetVar(top, k, syms[k][name].reg, r + 1) + if prev then [] else [OP_MOVE_REG, Low(r), Low(r + 1)];
    var m2 := FetchTwice(P, m, name, top, syms, r, env, c3 + rest);
    CodeSplit(P, m2.ip, c3, rest);
    var v := Lookup(env, name);
    RunUnary(P, m2, op, r + 1);
    m' := Store(m2, r + 1, UnaryOper(op, v), m2.ip + 2);
    ReachesTrans(P, m, m2, m');
    if v.Int? {
      var m3 := m';
      TempRel(env, syms, m2.regs, r + 1, m3.regs[r + 1], r);
      m' := CrementEnd(P, m3, prev, name, top, syms, r, env);
      ReachesTrans(P, m, m3, m');
      FrameTrans(syms, r, m.regs, m2.regs, m3.regs);
      FrameTrans(syms, r, m.regs, m3.regs, m'.regs);
    }
  }

  lemma CrementEnd(P: Program, m: State, prev: bool, name: string, top: bool, syms: Syms, r: nat, env: Env)
    returns (m': State)
    requires Innermost(syms, name) >= 0 && r + 1 <= 0xff
    requires var k := Innermost(syms, name);
             Ready(P, SetVar(top, k, syms[k][name].reg, r + 1) + if prev then [] else [OP_MOVE_REG, Low(r), Low(r + 1)],
                   syms, r, env, m)
    ensures ExprPost(P, m, m', if prev then 3 else 6, syms, r,
                     Val(if prev then m.regs[r] else m.regs[r + 1], Update(env, name, m.regs[r + 1])))
  {
    if prev {
      var k := Innermost(syms, name);
      CodeSplit(P, m.ip, SetVar(top, k, syms[k][name].reg, r + 1), []);
      m' := SimSet(P, m, top, syms, r, env, name, r + 1);
    } else {
      m' := SetAndMove(P, m, name, top, syms, r, env);
    }
  }

  /** The variable's value in `r` and `r + 1`. */
  lemma FetchTwice(P: Program, m: State, name: string, top: bool, syms: Syms, r: nat, env: Env, rest: seq<u8>)
    returns (m2: State)
    requires Declared(Access(syms), name) && r + 1 <= 0xff && Innermost(syms, name) >= 0
    requires var k := Innermost(syms, name);
             Ready(P, GetVar(top, k, r, syms[k][name].reg) + (GetVar(top, k, r + 1, syms[k][name].reg) + rest),
                   syms, r, env, m)
    ensures Reaches(P, m, m2) && m2 == m.(ip := m.ip + 6, regs := m2.regs)
    ensures Ready(P, rest, syms, r, env, m2) && Frame(syms, r, m.regs, m2.regs)
    ensures m2.regs[r] == m2.regs[r + 1] == Lookup(env, name)
  {
    var k := Innermost(syms, name);
    var c1, c2 := GetVar(top, k, r, syms[k][name].reg), GetVar(top, k, r + 1, syms[k][name].reg);
    CodeSplit(P, m.ip, c1, c2 + rest);
    CodeSplit(P, m.ip + 3, c2, rest);
    var m1 := SimGet(P, m, top, syms, r, env, name, r);
    m2 := SimGet(P, m1, top, syms, r, env, name, r + 1);
    ReachesTrans(P, m, m1, m2);
    FrameTrans(syms, r, m.regs, m1.regs, m2.regs);
  }

  lemma {:induction false} SimListLit(P: Program, es: seq<Expr>, top: bool, syms: Syms, r: nat, p: nat, env: Env, m: State)
    returns (m': State)
    requires ScopedExpr(ListLit(es), Access(syms)) && ExprFits(ListLit(es), top, syms, r, p)
    requires Ready(P, ExprCode(ListLit(es), top, syms, r, p), syms, r, env, m)
    requires PoolAt(P, p, ListConsts(es))
    ensures ExprPost(P, m, m', |ExprCode(ListLit(es), top, syms, r, p)|, syms, r, EvalExpr(ListLit(es), env))
    decreases es, 2
  {
    hide Rel, SymsOk, Reaches, CodeAt;
    var c1, c2 := [OP_LIST, Low(r)], ListCode(es, top, syms, r, 0, p);
    CodeSplit(P, m.ip, c1, c2);
    RunList(P, m, r);
    var m1 := m.(ip := m.ip + 2, regs := m.regs[r := List([])]);
    TempRel(env, syms, m.regs, r, List([]), r);
    m' := SimList(P, es, top, syms, r, 0, p, env, m1, [], []);
    ReachesTrans(P, m, m1, m');
    if EvalList(es, env).Vals? {
      assert [] + [] + EvalList(es, env).values == EvalList(es, env).values;
      FrameTrans(syms, r, m.regs, m1.regs, m'.regs);
    }
  }

  /** The registers in the middle of a list literal: the list so far in `r`,
      the entries of the current group after it. */
  ghost predicate ListState(m: State, r: nat, done: seq<Value>, group: seq<Value>) {
    r + |group| < |m.regs| && m.regs[r] == List(done) && m.regs[r + 1..r + 1 + |group|] == group
  }

  lemma {:induction false} SimList(P: Program, es: seq<Expr>, top: bool, syms: Syms, r: nat, count: nat, p: nat,
                                   env: Env, m: State, done: seq<Value>, group: seq<Value>)
    returns (m': State)
    requires (forall x | x in es :: ScopedExpr(x, Access(syms))) && ListFits(es, top, syms, r, count, p)
    requires count == |group| < LIST_ENTRY_GROUP && r + count <= 0xff
    requires Ready(P, ListCode(es, top, syms, r, count, p), syms, r, env, m)
    requires PoolAt(P, p, ListConsts(es))
    requires ListState(m, r, done, group)
    ensures Reaches(P, m, m')
    ensures match EvalList(es, env)
            case RaisedL(x) => m'.status == Failed(x)
            case Vals(vs, env1) =>
              Arrived(m, m', |ListCode(es, top, syms, r, count, p)|, syms, r, List(done + group + vs), env1)
    decreases es, 1
  {
    hide Rel, SymsOk, Reaches, CodeAt, PoolAt;
    hide ExprCode, EvalExpr, ExprFits, ScopedExpr, ExprConsts;
    if es == [] {
      m' := SimListEnd(P, m, syms, r, env, done, group);
    } else {
      hide ListCode, ListConsts, ListFits, EvalList;
      var full := count + 1 == LIST_ENTRY_GROUP;
      var p1 := p + |ExprConsts(es[0])|;
      var c1 := ExprCode(es[0], top, syms, r + 1 + count, p);
      var c2 := if full then ExtendList(r, count + 1) else [];
      var c3 := ListCode(es[1..], top, syms, r, if full then 0 else count + 1, p1);
      ListNext(es, top, syms, r, count, p, env);
      CodeSplit(P, m.ip, c1, c2 + c3);
      CodeSplit(P, m.ip + |c1|, c2, c3);
      PoolSplit(P, p, ExprConsts(es[0]), ListConsts(es[1..]));
      SymsOkMore(syms, r, r + 1 + count);
      FitsReg(es[0], top, syms, r + 1 + count, p);
      m' := ExprSim(P, es[0], top, syms, r + 1 + count, p, env, m);
      var res := EvalExpr(es[0], env);
      if res.Val? {
        var m2 := AfterEntry(P, m, m', |c1|, syms, r, res.env, done, group, res.value);
        m' := SimListRest(P, es, top, syms, r, p, m, m2, |c1| + |c2|, done, group, res.value, res.env);
      }
    }
  }

  /** The entries behind the first, after `n` bytes. */
  lemma {:induction false} SimListRest(P: Program, es: seq<Expr>, top: bool, syms: Syms, r: nat, p: nat, m: State, m2: State,
                                       n: nat, done: seq<Value>, group: seq<Value>, v: Value, env: Env)
    returns (m': State)
    requires es != [] && forall x | x in es[1..] :: ScopedExpr(x, Access(syms))
    requires |group| < LIST_ENTRY_GROUP && r + 1 + |group| <= 0xff
    requires var full := |group| + 1 == LIST_ENTRY_GROUP;
             var group2 := if full then [] else group + [v];
             var p1 := p + |ExprConsts(es[0])|;
             && ListFits(es[1..], top, syms, r, |group2|, p1)
             && Ready(P, ListCode(es[1..], top, syms, r, |group2|, p1), syms, r, env, m2)
             && PoolAt(P, p1, ListConsts(es[1..])) && m2.ip == m.ip + n && m2.scopes == m.scopes
             && ListState(m2, r, if full then done + (group + [v]) else done, group2)
    requires Reaches(P, m, m2) && Frame(syms, r, m.regs, m2.regs)
    ensures Reaches(P, m, m')
    ensures var p1 := p + |ExprConsts(es[0])|;
            var rest := ListCode(es[1..], top, syms, r, if |group| + 1 == LIST_ENTRY_GROUP then 0 else |group| + 1, p1);
            match EvalList(es[1..], env)
            case RaisedL(x) => m'.status == Failed(x)
            case Vals(vs, env1) => Arrived(m, m', n + |rest|, syms, r, List(done + group + ([v] + vs)), env1)
    decreases es, 0
  {
    hide Rel, SymsOk, Reaches, CodeAt, PoolAt;
    hide ExprCode, EvalExpr, ExprFits, ScopedExpr, ExprConsts, ListCode, ListConsts, ListFits, EvalList;
    var full := |group| + 1 == LIST_ENTRY_GROUP;
    var done2 := if full then done + (group + [v]) else done;
    var group2 := if full then [] else group + [v];
    m' := SimList(P, es[1..], top, syms, r, |group2|, p + |ExprConsts(es[0])|, env, m2, done2, group2);
    ReachesTrans(P, m, m2, m');
    var res := EvalList(es[1..], env);
    if res.Vals? {
      EntryAppended(done, group, v, res.values, full);
      FrameTrans(syms, r, m.regs, m2.regs, m'.regs);
    }
  }

  lemma SimListEnd(P: Program, m: State, syms: Syms, r: nat, env: Env, done: seq<Value>, group: seq<Value>)
    returns (m': State)
    requires |group| < LIST_ENTRY_GROUP && r + |group| <= 0xff && ListState(m, r, done, group)
    requires Ready(P, if |group| > 0 then ExtendList(r, |group|) else [], syms, r, env, m)
    ensures Reaches(P, m, m') && Arrived(m, m', if |group| > 0 then 4 else 0, syms, r, List(done + group + []), env)
  {
    hide Rel, SymsOk, Reaches, CodeAt;
    if |group| > 0 {
      m' := SimExtend(P, m, syms, r, env, done, group);
    } else {
      ReachesSelf(P, m);
      m' := m;
    }
    assert done + group + [] == done + group;
  }

  /** The definitions of a list literal with entries left, unfolded once. */
  lemma ListNext(es: seq<Expr>, top: bool, syms: Syms, r: nat, count: nat, p: nat, env: Env)
    requires es != []
    ensures ListConsts(es) == ExprConsts(es[0]) + ListConsts(es[1..])
    ensures var full, p1 := count + 1 == LIST_ENTRY_GROUP, p + |ExprConsts(es[0])|;
            var rest := if full then 0 else count + 1;
            && ListCode(es, top, syms, r, count, p)
               == ExprCode(es[0], top, syms, r + 1 + count, p)
                  + ((if full then ExtendList(r, count + 1) else []) + ListCode(es[1..], top, syms, r, rest, p1))
            && (ListFits(es, top, syms, r, count, p) ==>
                  ExprFits(es[0], top, syms, r + 1 + count, p) && ListFits(es[1..], top, syms, r, rest, p1))
    ensures EvalList(es, env) ==
            match EvalExpr(es[0], env)
            case Raised(x) => RaisedL(x)
            case Val(v, env1) =>
              match EvalList(es[1..], env1)
              case RaisedL(x) => RaisedL(x)
              case Vals(vs, env2) => Vals([v] + vs, env2)
  {
    hide ExprCode, ExprConsts, ExprFits, EvalExpr, ExtendList;
  }

  lemma EntryAppended(done: seq<Value>, group: seq<Value>, v: Value, vs: seq<Value>, full: bool)
    ensures (if full then done + (group + [v]) else done) + (if full then [] else group + [v]) + vs
            == done + group + ([v] + vs)
  {
  }

  /** After an entry: a full group is appended to the list. */
  lemma AfterEntry(P: Program, m: State, m1: State, len: nat, syms: Syms, r: nat, env: Env,
                   done: seq<Value>, group: seq<Value>, v: Value)
    returns (m2: State)
    requires |m.regs| >= WINDOW && SymsOk(syms, r) && ListState(m, r, done, group)
    requires |group| < LIST_ENTRY_GROUP && r + 1 + |group| <= 0xff
    requires Reaches(P, m, m1) && Arrived(m, m1, len, syms, r + 1 + |group|, v, env)
    requires CodeAt(P, m1.ip, if |group| + 1 == LIST_ENTRY_GROUP then ExtendList(r, |group| + 1) else [])
    ensures Reaches(P, m, m2) && m2.status == Running && m2.scopes == m.scopes
    ensures Frame(syms, r, m.regs, m2.regs) && Rel(env, syms, m2.regs)
    ensures if |group| + 1 == LIST_ENTRY_GROUP
            then m2.ip == m.ip + len + 4 && ListState(m2, r, done + (group + [v]), [])
            else m2.ip == m.ip + len && ListState(m2, r, done, group + [v])
  {
    hide Rel, SymsOk, Reaches, CodeAt;
    GroupGrows(syms, r, m, m1, done, group, v);
    m2 := m1;
    if |group| + 1 == LIST_ENTRY_GROUP {
      m2 := SimExtend(P, m1, syms, r, env, done, group + [v]);
      ReachesTrans(P, m, m1, m2);
      FrameTrans(syms, r, m.regs, m1.regs, m2.regs);
    }
  }

  /** An entry evaluated after the group leaves the list and the group alone. */
  lemma GroupGrows(syms: Syms, r: nat, m: State, m1: State, done: seq<Value>, group: seq<Value>, v: Value)
    requires SymsOk(syms, r) && ListState(m, r, done, group)
    requires Frame(syms, r + 1 + |group|, m.regs, m1.regs)
    requires r + 1 + |group| < |m1.regs| && m1.regs[r + 1 + |group|] == v
    ensures ListState(m1, r, done, group + [v]) && Frame(syms, r, m.regs, m1.regs)
  {
    forall i | r <= i <= r + |group| ensures m1.regs[i] == m.regs[i] {
      FrameKeeps(syms, r, r + 1 + |group|, m.regs, m1.regs, i);
    }
    FrameShrink(syms, r, r + 1 + |group|, m.regs, m1.regs);
    forall i | 0 <= i < |group| ensures m1.regs[r + 1 + i] == group[i] {
      assert m.regs[r + 1..r + 1 + |group|][i] == group[i];
    }
    assert m1.regs[r + 1..r + 1 + |group + [v]|] == group + [v];
  }

  /** OP_EXT_LIST appends the group to the list. */
  lemma SimExtend(P: Program, m: State, syms: Syms, r: nat, env: Env, done: seq<Value>, group: seq<Value>)
    returns (m': State)
    requires m.status == Running && |m.regs| >= WINDOW && SymsOk(syms, r) && Rel(env, syms, m.regs)
    requires CodeAt(P, m.ip, ExtendList(r, |group|)) && 0 < |group| <= LIST_ENTRY_GROUP && r + |group| <= 0xff
    requires ListState(m, r, done, group)
    ensures Reaches(P, m, m') && m' == m.(ip := m.ip + 4, regs := m.regs[r := List(done + group)])
    ensures Rel(env, syms, m'.regs) && Frame(syms, r, m.regs, m'.regs)
  {
    RunExtend(P, m, r, r + 1, |group|);
    m' := m.(ip := m.ip + 4, regs := m.regs[r := List(done + group)]);
    TempRel(env, syms, m.regs, r, List(done + group), r);
  }
}
