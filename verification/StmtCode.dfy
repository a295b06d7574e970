/** The bytes of statements, and what compiling one does to the symbol table,
    the register counter and the pool. */
module StmtCode {
  import opened Words
  import opened Opcodes
  import opened Syntax
  import opened Values
  import opened Source
  import opened Codegen

  /** The compiler state statements depend on. `scopeStart` is one field, not a
      stack: leaving a block resets nextReg to the start of the scope pushed last. */
  datatype CState = CState(syms: Syms, nextReg: nat, scopeStart: nat, pool: nat)

  /** What a `break` or `continue` aims at. */
  datatype Target = Exit(tag: Option<string>) | Again(tag: Option<string>)

  /** How far behind the end of a statement a target lies; `Open` while the jump
      is still an unpatched hole. */
  datatype Dist = Open | At(d: nat)

  type Ctx = map<Target, Dist>

  function ShiftDist(x: Dist, n: nat): Dist {
    match x
    case Open => Open
    case At(d) => At(d + n)
  }

  function Shift(K: Ctx, n: nat): (K': Ctx)
    ensures K'.Keys == K.Keys
  {
    map t | t in K :: ShiftDist(K[t], n)
  }

  /** The targets inside a loop labelled `tag`. */
  function LoopCtx(K: Ctx, tag: Option<string>, exit: Dist, again: Dist): (K': Ctx)
    ensures K'.Keys == K.Keys + {Exit(None), Again(None), Exit(tag), Again(tag)}
  {
    K[Exit(None) := exit][Again(None) := again][Exit(tag) := exit][Again(tag) := again]
  }

  function HoleCode(x: Dist): seq<u8> {
    match x
    case Open => [OP_JUMP, 0, 0]
    case At(d) => JumpCode(d)
  }

  function JumpTo(K: Ctx, t: Target): seq<u8> {
    if t in K then HoleCode(K[t]) else []
  }

  function LoopCode(d: nat): seq<u8> {
    [OP_LOOP] + Short(d)
  }

  /** Targets inside the body of a loop whose end is `n` bytes behind the body. */
  function BodyCtx(K: Ctx, tag: Option<string>, n: nat): Ctx {
    LoopCtx(Shift(K, n), tag, At(n), At(0))
  }

  /** Targets inside its else clause: `break` still leaves this loop, while
      `continue` is never patched any more. */
  function ElseCtx(K: Ctx, tag: Option<string>): Ctx {
    LoopCtx(K, tag, At(0), Open)
  }

  /* Declarations. */

  function ValueConsts(es: seq<Expr>): seq<Value> {
    ListConsts(es)
  }

  /** Initialisers go into successive registers. */
  function ValuesCode(es: seq<Expr>, top: bool, syms: Syms, r: nat, p: nat): seq<u8> {
    if es == [] then []
    else ExprCode(es[0], top, syms, r, p) + ValuesCode(es[1..], top, syms, r + 1, p + |ExprConsts(es[0])|)
  }

  function NullsCode(r: nat, n: nat): seq<u8>
    decreases n
  {
    if n == 0 then [] else [OP_LOAD_REG, Low(r), OP_NULL] + NullsCode(r + 1, n - 1)
  }

  function DeclCode(fix: bool, names: seq<string>, values: seq<Expr>, top: bool, st: CState): seq<u8> {
    (if values == [] then NullsCode(st.nextReg, |names|)
     else ValuesCode(values, top, st.syms, st.nextReg, st.pool))
    + [if fix then OP_FIX else OP_VAR, Low(st.nextReg), Low(|names|)]
  }

  function BindSyms(scope: map<string, Sym>, names: seq<string>, r: nat, isVar: bool): map<string, Sym>
    decreases names
  {
    if names == [] then scope else BindSyms(scope[names[0] := Sym(r, isVar)], names[1..], r + 1, isVar)
  }

  function Declare(st: CState, fix: bool, names: seq<string>): (st': CState)
    ensures |st'.syms| == |st.syms|
  {
    if st.syms == [] then st
    else
      var last := |st.syms| - 1;
      st.(syms := st.syms[last := BindSyms(st.syms[last], names, st.nextReg, !fix)],
          nextReg := st.nextReg + |names|)
  }

  /* Statements. */

  function StmtConsts(s: Stmt): seq<Value>
    decreases s
  {
    match s
    case ExprStmt(e) => ExprConsts(e)
    case VarDecl(_, _, values) => ValueConsts(values)
    case Block(ss) => StmtsConsts(ss)
    case If(c, t, f) => ExprConsts(c) + (StmtConsts(t) + StmtConsts(f))
    case While(c, _, body, els) => ExprConsts(c) + (StmtConsts(body) + StmtConsts(els))
    case Repeat(body, c, _) => StmtConsts(body) + ExprConsts(c)
    case _ => []
  }

  function StmtsConsts(ss: seq<Stmt>): seq<Value>
    decreases ss
  {
    if ss == [] then [] else StmtConsts(ss[0]) + StmtsConsts(ss[1..])
  }

  function AddPool(st: CState, cs: seq<Value>): CState {
    st.(pool := st.pool + |cs|)
  }

  function Enter(st: CState): CState {
    st.(syms := st.syms + [map[]], scopeStart := st.nextReg)
  }

  /** popScope; `inner` is the state at the end of the block. */
  function Leave(inner: CState): CState {
    if inner.syms == [] then inner
    else inner.(syms := inner.syms[..|inner.syms| - 1], nextReg := inner.scopeStart)
  }

  function After(s: Stmt, st: CState): (st': CState)
    ensures |st'.syms| == |st.syms|
    decreases s
  {
    match s
    case ExprStmt(e) => AddPool(st, ExprConsts(e))
    case VarDecl(fix, names, values) => Declare(AddPool(st, ValueConsts(values)), fix, names)
    case Block(ss) => Leave(AfterAll(ss, Enter(st)))
    case If(c, t, f) => After(f, After(t, AddPool(st, ExprConsts(c))))
    case While(c, _, body, els) => After(els, After(body, AddPool(st, ExprConsts(c))))
    case Repeat(body, c, _) => AddPool(After(body, st), ExprConsts(c))
    case _ => st
  }

  function AfterAll(ss: seq<Stmt>, st: CState): (st': CState)
    ensures |st'.syms| == |st.syms|
    decreases ss
  {
    if ss == [] then st else AfterAll(ss[1..], After(ss[0], st))
  }

  /** What follows the true branch: nothing when there is no else. */
  function ElseTail(f: Stmt, fc: seq<u8>): seq<u8> {
    if f.Empty? then [] else JumpCode(|fc|) + fc
  }

  /** Distance over the true branch when the condition fails. */
  function OverThen(f: Stmt, tc: seq<u8>): nat {
    if f.Empty? then |tc| else |tc| + 3
  }

  /* How the pieces of a statement are put together. */

  function BlockCode(r: nat, body: seq<u8>): seq<u8> {
    [OP_ENTER_SCOPE, Low(r)] + (body + [OP_EXIT_SCOPE])
  }

  function IfCode(cc: seq<u8>, r: nat, f: Stmt, tc: seq<u8>, fc: seq<u8>): seq<u8> {
    cc + (BranchCode(OP_JUMP_FALSE, r, OverThen(f, tc)) + (tc + ElseTail(f, fc)))
  }

  function WhileCode(cc: seq<u8>, r: nat, bc: seq<u8>, ec: seq<u8>): seq<u8> {
    cc + (BranchCode(OP_JUMP_FALSE, r, |bc| + 3) + (bc + (LoopCode(|cc| + |bc| + 7) + ec)))
  }

  function RepeatCode(bc: seq<u8>, cc: seq<u8>, r: nat): seq<u8> {
    bc + (cc + (BranchCode(OP_JUMP_TRUE, r, 3) + LoopCode(|bc| + |cc| + 7)))
  }

  /** `K` measures from the end of the statement. */
  function Code(top: bool, s: Stmt, st: CState, K: Ctx): seq<u8>
    decreases s
  {
    match s
    case Empty => []
    case ExprStmt(e) => ExprCode(e, top, st.syms, st.nextReg, st.pool)
    case VarDecl(fix, names, values) => DeclCode(fix, names, values, top, st)
    case Block(ss) =>
      BlockCode(st.nextReg, CodeAll(top, ss, Enter(st), Shift(K, 1)))
    case If(c, t, f) =>
      var st1 := AddPool(st, ExprConsts(c));
      var fc := Code(top, f, After(t, st1), K);
      var tc := Code(top, t, st1, Shift(K, |ElseTail(f, fc)|));
      IfCode(ExprCode(c, top, st.syms, st.nextReg, st.pool), st.nextReg, f, tc, fc)
    case While(c, tag, body, els) =>
      var st1 := AddPool(st, ExprConsts(c));
      var ec := Code(top, els, After(body, st1), ElseCtx(K, tag));
      var bc := Code(top, body, st1, BodyCtx(K, tag, 3 + |ec|));
      WhileCode(ExprCode(c, top, st.syms, st.nextReg, st.pool), st.nextReg, bc, ec)
    case Repeat(body, c, tag) =>
      var st1 := After(body, st);
      var cc := ExprCode(c, top, st1.syms, st1.nextReg, st1.pool);
      var bc := Code(top, body, st, BodyCtx(K, tag, |cc| + 7));
      RepeatCode(bc, cc, st1.nextReg)
    case Break(tag) => JumpTo(K, Exit(tag))
    case Continue(tag) => JumpTo(K, Again(tag))
  }

  function CodeAll(top: bool, ss: seq<Stmt>, st: CState, K: Ctx): seq<u8>
    decreases ss
  {
    if ss == [] then []
    else
      var rest := CodeAll(top, ss[1..], After(ss[0], st), K);
      Code(top, ss[0], st, Shift(K, |rest|)) + rest
  }

  /* The limits the source leaves unchecked. */

  predicate JumpFits(K: Ctx, t: Target) {
    t in K && K[t].At? && K[t].d <= BYTE_JUMP_MAX
  }

  predicate ValuesFit(es: seq<Expr>, top: bool, syms: Syms, r: nat, p: nat) {
    es == [] ||
    (ExprFits(es[0], top, syms, r, p) && ValuesFit(es[1..], top, syms, r + 1, p + |ExprConsts(es[0])|))
  }

  predicate Fits(top: bool, s: Stmt, st: CState, K: Ctx)
    decreases s
  {
    match s
    case Empty => true
    case ExprStmt(e) => ExprFits(e, top, st.syms, st.nextReg, st.pool)
    case VarDecl(fix, names, values) =>
      st.nextReg + |names| <= 0xff && ValuesFit(values, top, st.syms, st.nextReg, st.pool)
    case Block(ss) => st.nextReg <= 0xff && FitsAll(top, ss, Enter(st), Shift(K, 1))
    case If(c, t, f) =>
      var st1 := AddPool(st, ExprConsts(c));
      var fc := Code(top, f, After(t, st1), K);
      var tail := ElseTail(f, fc);
      && ExprFits(c, top, st.syms, st.nextReg, st.pool)
      && Fits(top, t, st1, Shift(K, |tail|)) && Fits(top, f, After(t, st1), K)
      && |Code(top, t, st1, Shift(K, |tail|))| + 3 <= BYTE_JUMP_MAX && |fc| <= BYTE_JUMP_MAX
    case While(c, tag, body, els) =>
      var st1 := AddPool(st, ExprConsts(c));
      var ec := Code(top, els, After(body, st1), ElseCtx(K, tag));
      var bodyK := BodyCtx(K, tag, 3 + |ec|);
      && ExprFits(c, top, st.syms, st.nextReg, st.pool)
      && Fits(top, body, st1, bodyK) && Fits(top, els, After(body, st1), ElseCtx(K, tag))
      && |ExprCode(c, top, st.syms, st.nextReg, st.pool)| + |Code(top, body, st1, bodyK)| + 7 <= BYTE_JUMP_MAX
    case Repeat(body, c, tag) =>
      var st1 := After(body, st);
      var cc := ExprCode(c, top, st1.syms, st1.nextReg, st1.pool);
      var bodyK := BodyCtx(K, tag, |cc| + 7);
      && ExprFits(c, top, st1.syms, st1.nextReg, st1.pool)
      && Fits(top, body, st, bodyK)
      && |Code(top, body, st, bodyK)| + |cc| + 7 <= BYTE_JUMP_MAX
    case Break(tag) => JumpFits(K, Exit(tag))
    case Continue(tag) => JumpFits(K, Again(tag))
  }

  predicate FitsAll(top: bool, ss: seq<Stmt>, st: CState, K: Ctx)
    decreases ss
  {
    ss == [] ||
    (var st1 := After(ss[0], st);
     FitsAll(top, ss[1..], st1, K)
     && Fits(top, ss[0], st, Shift(K, |CodeAll(top, ss[1..], st1, K)|)))
  }
}
