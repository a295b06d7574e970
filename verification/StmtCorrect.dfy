/** Running the bytes of a statement follows its source meaning. */
module StmtCorrect {
  import opened Words
  import opened Opcodes
  import opened Syntax
  import opened Values
  import opened Source
  import opened Codegen
  import opened Machine
  import opened ExprCorrect
  import opened StmtCode
  import opened Scopes

  /** `m` is about to run `code`, compiled in state `st`. */
  ghost predicate StmtReady(P: Program, code: seq<u8>, st: CState, env: Env, m: State) {
    st.syms != [] && Ready(P, code, st.syms, st.nextReg, env, m)
  }

  /** `m'` is `len` bytes further; temporaries of the surroundings are as they were.
      A jump out of a block leaves entries on the stack of scope starts. */
  ghost predicate Landed(m: State, m': State, len: nat, st: CState, syms': Syms, env: Env) {
    && m'.status == Running && m'.ip == m.ip + len
    && m.scopes <= m'.scopes
    && Frame(st.syms, st.nextReg, m.regs, m'.regs)
    && Rel(env, syms', m'.regs)
  }

  function Outer<T>(scopes: seq<T>): seq<T> {
    if scopes == [] then [] else scopes[..|scopes| - 1]
  }

  /** A jump to `t` arrived where `K` says; variables of the scopes `syms` hold. */
  ghost predicate Jumped(m: State, m': State, len: nat, st: CState, K: Ctx, t: Target, syms: Syms, env: Env) {
    t in K && K[t].At? && Landed(m, m', len + K[t].d, st, syms, env)
  }

  /** The run and the source statement agree. With too little fuel the source
      gives no answer, and the machine has run for at least that long. */
  ghost predicate StmtPost(P: Program, m: State, m': State, len: nat, st: CState, st': CState, K: Ctx,
                           o: Outcome, fuel: nat) {
    match o
    case Normal(env) => Reaches(P, m, m') && Landed(m, m', len, st, st'.syms, env)
    case Broke(tag, env) => Reaches(P, m, m') && Jumped(m, m', len, st, K, Exit(tag), st.syms, env)
    case Continued(tag, env) => Reaches(P, m, m') && Jumped(m, m', len, st, K, Again(tag), st.syms, env)
    case Threw(x) => Reaches(P, m, m') && m'.status == Failed(x)
    case Timeout => Busy(P, m, fuel)
  }

  /** The same for the statements of a block: a jump out of them may leave new
      variables in the innermost scope. */
  ghost predicate ListPost(P: Program, m: State, m': State, len: nat, st: CState, st': CState, K: Ctx,
                           o: Outcome, fuel: nat) {
    match o
    case Normal(env) => Reaches(P, m, m') && Landed(m, m', len, st, st'.syms, env)
    case Broke(tag, env) =>
      |env| == |st.syms| && Reaches(P, m, m') && Jumped(m, m', len, st, K, Exit(tag), Outer(st.syms), Outer(env))
    case Continued(tag, env) =>
      |env| == |st.syms| && Reaches(P, m, m') && Jumped(m, m', len, st, K, Again(tag), Outer(st.syms), Outer(env))
    case Threw(x) => Reaches(P, m, m') && m'.status == Failed(x)
    case Timeout => Busy(P, m, fuel)
  }

  lemma RelTake(env: Env, syms: Syms, regs: seq<Value>, n: nat)
    requires Rel(env, syms, regs) && n <= |env|
    ensures n <= |syms| && Rel(env[..n], syms[..n], regs)
  {
    forall k, x {:trigger VarAt(syms[..n], k, x)} | VarAt(syms[..n], k, x)
      ensures syms[..n][k][x].reg < |regs| && x in env[..n][k] && regs[syms[..n][k][x].reg] == env[..n][k][x]
    {
      assert VarAt(syms, k, x);
    }
  }

  lemma RelEnter(env: Env, syms: Syms, regs: seq<Value>)
    requires Rel(env, syms, regs)
    ensures Rel(env + [map[]], syms + [map[]], regs)
  {
    var syms' := syms + [map[]];
    forall k, x {:trigger VarAt(syms', k, x)} | VarAt(syms', k, x)
      ensures syms'[k][x].reg < |regs| && x in (env + [map[]])[k] && regs[syms'[k][x].reg] == (env + [map[]])[k][x]
    {
      assert VarAt(syms, k, x);
    }
  }

  /** A frame for more variables or more registers is a frame for fewer. */
  lemma FrameExtends(syms: Syms, r: nat, syms': Syms, r': nat, a: seq<Value>, b: seq<Value>)
    requires Extends(syms, r, syms') && r <= r' && Frame(syms', r', a, b)
    ensures Frame(syms, r, a, b)
  {
    forall i: nat | i < r && i < |a| ensures Kept(syms, a, b, i) {
      assert Kept(syms', a, b, i);
      if IsVarReg(syms', i) {
        var k, n :| VarAt(syms', k, n) && syms'[k][n].reg == i;
        assert VarAt(syms, k, n);
      }
    }
  }

  /* Single instructions. */

  lemma RunEnter(P: Program, m: State, a: u8)
    requires m.status == Running && |m.regs| >= WINDOW && CodeAt(P, m.ip, [OP_ENTER_SCOPE, a])
    ensures Reaches(P, m, m.(ip := m.ip + 2, scopes := m.scopes + [a]))
  {
    CodeByte(P, m.ip, [OP_ENTER_SCOPE, a], 0);
    CodeByte(P, m.ip, [OP_ENTER_SCOPE, a], 1);
    ReachesStep(P, m);
  }

  lemma RunExit(P: Program, m: State)
    requires m.status == Running && |m.regs| >= WINDOW && CodeAt(P, m.ip, [OP_EXIT_SCOPE]) && m.scopes != []
    ensures Reaches(P, m, m.(ip := m.ip + 1, scopes := m.scopes[..|m.scopes| - 1]))
  {
    CodeByte(P, m.ip, [OP_EXIT_SCOPE], 0);
    ReachesStep(P, m);
  }

  lemma RunFlags(P: Program, m: State, fix: bool, a: u8, b: u8)
    requires m.status == Running && |m.regs| >= WINDOW
    requires CodeAt(P, m.ip, [if fix then OP_FIX else OP_VAR, a, b])
    ensures Reaches(P, m, m.(ip := m.ip + 3))
  {
    var c := [if fix then OP_FIX else OP_VAR, a, b];
    CodeByte(P, m.ip, c, 0);
    CodeByte(P, m.ip, c, 1);
    CodeByte(P, m.ip, c, 2);
    ReachesStep(P, m);
  }

  lemma LoopStep(P: Program, m: State, d: nat)
    requires m.status == Running && |m.regs| >= WINDOW
    requires CodeAt(P, m.ip, LoopCode(d)) && d <= BYTE_JUMP_MAX && d <= m.ip + 3
    ensures Step(P, m) == m.(ip := m.ip + 3 - d)
  {
    CodeByte(P, m.ip, LoopCode(d), 0);
    CodeByte(P, m.ip, LoopCode(d), 1);
    CodeByte(P, m.ip, LoopCode(d), 2);
    ShortValue(d);
  }

  /** Jumping back takes a step, so a loop that never ends keeps the machine busy. */
  lemma RunLoop(P: Program, m: State, d: nat, n: nat)
    requires m.status == Running && |m.regs| >= WINDOW
    requires CodeAt(P, m.ip, LoopCode(d)) && d <= BYTE_JUMP_MAX && d <= m.ip + 3
    ensures Reaches(P, m, m.(ip := m.ip + 3 - d))
    ensures Busy(P, m.(ip := m.ip + 3 - d), n) ==> Busy(P, m, n + 1)
  {
    hide Step, Reaches, Busy, CodeAt;
    LoopStep(P, m, d);
    ReachesStep(P, m);
    if Busy(P, m.(ip := m.ip + 3 - d), n) { BusyStep(P, m, n); }
  }

  /* Composition. */

  /** First `m` to `m1`, then a statement from `m1`. */
  lemma Then(P: Program, m: State, m1: State, m2: State, len1: nat, len2: nat, st: CState, st1: CState, st2: CState,
             K: Ctx, env1: Env, o: Outcome, fuel: nat)
    requires Reaches(P, m, m1) && Landed(m, m1, len1, st, st.syms, env1)
    requires st1.syms == st.syms && st1.nextReg >= st.nextReg
    requires StmtPost(P, m1, m2, len2, st1, st2, K, o, fuel)
    ensures StmtPost(P, m, m2, len1 + len2, st, st2, K, o, fuel)
  {
    hide Rel;
    if o.Timeout? {
      BusyLater(P, m, m1, fuel);
    } else {
      ReachesTrans(P, m, m1, m2);
      if !o.Threw? {
        FrameShrink(st.syms, st.nextReg, st1.nextReg, m1.regs, m2.regs);
        FrameTrans(st.syms, st.nextReg, m.regs, m1.regs, m2.regs);
      }
    }
  }

  /* Expressions in statements. */

  lemma SimExprStmt(P: Program, top: bool, e: Expr, st: CState, K: Ctx, env: Env, fuel: nat, m: State)
    returns (m': State)
    requires ScopedExpr(e, Access(st.syms)) && ExprFits(e, top, st.syms, st.nextReg, st.pool)
    requires StmtReady(P, ExprCode(e, top, st.syms, st.nextReg, st.pool), st, env, m)
    requires PoolAt(P, st.pool, ExprConsts(e))
    ensures StmtPost(P, m, m', |ExprCode(e, top, st.syms, st.nextReg, st.pool)|, st, AddPool(st, ExprConsts(e)), K,
                     Exec(ExprStmt(e), env, fuel), fuel)
  {
    hide ExprCode, EvalExpr, ExprFits, ScopedExpr, Rel, Reaches;
    m' := ExprSim(P, e, top, st.syms, st.nextReg, st.pool, env, m);
  }

  /** Initialisers into successive registers. */
  lemma {:induction false} SimValues(P: Program, es: seq<Expr>, top: bool, syms: Syms, r: nat, p: nat, env: Env, m: State)
    returns (m': State)
    requires (forall x | x in es :: ScopedExpr(x, Access(syms))) && ValuesFit(es, top, syms, r, p)
    requires r + |es| <= 0xff
    requires Ready(P, ValuesCode(es, top, syms, r, p), syms, r, env, m)
    requires PoolAt(P, p, ListConsts(es))
    ensures Reaches(P, m, m')
    ensures match EvalList(es, env)
            case RaisedL(x) => m'.status == Failed(x)
            case Vals(vs, env1) =>
              && m'.status == Running && m'.ip == m.ip + |ValuesCode(es, top, syms, r, p)| && m'.scopes == m.scopes
              && Frame(syms, r, m.regs, m'.regs) && Rel(env1, syms, m'.regs)
              && forall i | 0 <= i < |vs| :: m'.regs[r + i] == vs[i]
    decreases es
  {
    hide ExprCode, EvalExpr, ExprFits, ScopedExpr, Rel, SymsOk, Reaches, CodeAt;
    if es == [] {
      ReachesSelf(P, m);
      m' := m;
    } else {
      var c1 := ExprCode(es[0], top, syms, r, p);
      var p1 := p + |ExprConsts(es[0])|;
      CodeSplit(P, m.ip, c1, ValuesCode(es[1..], top, syms, r + 1, p1));
      PoolSplit(P, p, ExprConsts(es[0]), ListConsts(es[1..]));
      m' := ExprSim(P, es[0], top, syms, r, p, env, m);
      var res := EvalExpr(es[0], env);
      if res.Val? {
        var m1 := m';
        SymsOkMore(syms, r, r + 1);
        m' := SimValues(P, es[1..], top, syms, r + 1, p1, res.env, m1);
        ReachesTrans(P, m, m1, m');
        if EvalList(es[1..], res.env).Vals? {
          FrameKeeps(syms, r, r + 1, m1.regs, m'.regs, r);
          FrameShrink(syms, r, r + 1, m1.regs, m'.regs);
          FrameTrans(syms, r, m.regs, m1.regs, m'.regs);
          var vs := EvalList(es[1..], res.env).values;
          forall i | 0 <= i < |vs| + 1 ensures m'.regs[r + i] == ([res.value] + vs)[i] {
            if i > 0 { assert m'.regs[r + 1 + (i - 1)] == vs[i - 1]; }
          }
        }
      }
    }
  }

  lemma {:induction false} SimNulls(P: Program, syms: Syms, r: nat, n: nat, env: Env, m: State) returns (m': State)
    requires r + n <= 0xff && Ready(P, NullsCode(r, n), syms, r, env, m)
    ensures Reaches(P, m, m')
    ensures m'.status == Running && m'.ip == m.ip + |NullsCode(r, n)| && m'.scopes == m.scopes
    ensures Frame(syms, r, m.regs, m'.regs) && Rel(env, syms, m'.regs)
    ensures forall i | 0 <= i < n :: m'.regs[r + i] == Nulls(n)[i]
    decreases n
  {
    hide Rel, SymsOk, Reaches, CodeAt;
    if n == 0 {
      ReachesSelf(P, m);
      m' := m;
    } else {
      var c := [OP_LOAD_REG, Low(r), OP_NULL];
      CodeSplit(P, m.ip, c, NullsCode(r + 1, n - 1));
      CodeByte(P, m.ip, c, 2);
      assert c == [OP_LOAD_REG, Low(r)] + [OP_NULL];
      CodeSplit(P, m.ip, [OP_LOAD_REG, Low(r)], [OP_NULL]);
      CodeBound(P, m.ip, c);
      RunLoad(P, m, r, Null, 1);
      var m1 := m.(ip := m.ip + 3, regs := m.regs[r := Null]);
      TempRel(env, syms, m.regs, r, Null, r);
      SymsOkMore(syms, r, r + 1);
      m' := SimNulls(P, syms, r + 1, n - 1, env, m1);
      ReachesTrans(P, m, m1, m');
      FrameKeeps(syms, r, r + 1, m1.regs, m'.regs, r);
      FrameShrink(syms, r, r + 1, m1.regs, m'.regs);
      FrameTrans(syms, r, m.regs, m1.regs, m'.regs);
      forall i | 0 <= i < n ensures m'.regs[r + i] == Nulls(n)[i] {
        if i > 0 { assert m'.regs[r + 1 + (i - 1)] == Nulls(n - 1)[i - 1]; }
      }
    }
  }

  lemma CodeBound(P: Program, o: nat, c: seq<u8>)
    requires CodeAt(P, o, c)
    ensures o + |c| <= |P.code|
  {
  }

  /* Where jumps can go. */

  ghost predicate Escapes(o: Outcome, own: Option<string>, inner: bool) {
    match o
    case Broke(tag, _) => if tag.None? then inner else tag != own
    case Continued(tag, _) => if tag.None? then inner else tag != own
    case _ => true
  }

  /** A statement without jumps to the loop `own` does not produce one. */
  lemma {:induction false} NoJumpEscapes(s: Stmt, own: Option<string>, inner: bool, env: Env, fuel: nat)
    requires NoJumpTo(s, own, inner)
    ensures Escapes(Exec(s, env, fuel), own, inner)
    decreases fuel, s, 1
  {
    hide EvalExpr;
    match s
    case Block(ss) => NoJumpEscapesAll(ss, own, inner, env + [map[]], fuel);
    case If(c, t, f) =>
      var res := EvalExpr(c, env);
      if res.Val? {
        NoJumpEscapes(t, own, inner, res.env, fuel);
        NoJumpEscapes(f, own, inner, res.env, fuel);
      }
    case While(c, _, body, els) =>
      var res := EvalExpr(c, env);
      if res.Val? {
        NoJumpEscapes(els, own, inner, res.env, fuel);
        NoJumpEscapes(body, own, true, res.env, fuel);
        NoJumpAgain(s, own, inner, Exec(body, res.env, fuel), fuel);
      }
    case Repeat(body, c, _) =>
      NoJumpEscapes(body, own, true, env, fuel);
      var o := Exec(body, env, fuel);
      if o.Normal? || o.Continued? {
        var res := EvalExpr(c, o.env);
        if res.Val? && fuel > 0 { NoJumpEscapes(s, own, inner, res.env, fuel - 1); }
      }
    case _ =>
  }

  lemma {:induction false} NoJumpAgain(s: Stmt, own: Option<string>, inner: bool, o: Outcome, fuel: nat)
    requires s.While? && NoJumpTo(s, own, inner)
    ensures (o.Normal? || o.Continued?) && fuel > 0 ==> Escapes(Exec(s, o.env, fuel - 1), own, inner)
    decreases fuel, s, 0
  {
    if (o.Normal? || o.Continued?) && fuel > 0 { NoJumpEscapes(s, own, inner, o.env, fuel - 1); }
  }

  lemma {:induction false} NoJumpEscapesAll(ss: seq<Stmt>, own: Option<string>, inner: bool, env: Env, fuel: nat)
    requires forall x | x in ss :: NoJumpTo(x, own, inner)
    ensures Escapes(ExecAll(ss, env, fuel), own, inner)
    decreases fuel, ss, 0
  {
    if ss != [] {
      NoJumpEscapes(ss[0], own, inner, env, fuel);
      var o := Exec(ss[0], env, fuel);
      if o.Normal? { NoJumpEscapesAll(ss[1..], own, inner, o.env, fuel); }
    }
  }

  /* The simulation. */

  ghost predicate Static(P: Program, top: bool, s: Stmt, st: CState, K: Ctx, tags: set<string>, inLoop: bool) {
    && ScopedStmt(s, Access(st.syms), tags) && InFragment(s, tags, inLoop) && Fits(top, s, st, K)
    && PoolAt(P, st.pool, StmtConsts(s))
  }

  ghost predicate Sound(P: Program, top: bool, s: Stmt, st: CState, K: Ctx, tags: set<string>, inLoop: bool,
                        env: Env, m: State) {
    Static(P, top, s, st, K, tags, inLoop) && StmtReady(P, Code(top, s, st, K), st, env, m)
  }

  /** Running the bytes of `s` from their first byte: normal completion is the
      byte after the last, `break` and `continue` arrive at the targets of the
      loop they name, and an error of the source is the error of the VM. */
  lemma {:induction false} StmtSim(P: Program, top: bool, s: Stmt, st: CState, K: Ctx, tags: set<string>, inLoop: bool,
                                   env: Env, fuel: nat, m: State)
    returns (m': State)
    requires Sound(P, top, s, st, K, tags, inLoop, env, m)
    ensures StmtPost(P, m, m', |Code(top, s, st, K)|, st, After(s, st), K, Exec(s, env, fuel), fuel)
    decreases fuel, s, 3
  {
    hide Rel, SymsOk, Reaches, CodeAt, PoolAt, Frame;
    match s
    case Empty => m' := SimNothing(P, top, st, K, env, fuel, m);
    case ExprStmt(e) => m' := SimExprStmt(P, top, e, st, K, env, fuel, m);
    case VarDecl(_, _, _) => m' := SimDecl(P, top, s, st, K, tags, env, fuel, m);
    case Block(_) => m' := SimBlock(P, top, s, st, K, tags, inLoop, env, fuel, m);
    case If(_, _, _) => m' := SimIfStmt(P, top, s, st, K, tags, inLoop, env, fuel, m);
    case While(_, _, _, _) => m' := SimWhile(P, top, s, st, K, tags, inLoop, env, fuel, m);
    case Break(tag) => m' := SimHole(P, st, K, Exit(tag), env, m);
    case Continue(tag) => m' := SimHole(P, st, K, Again(tag), env, m);
    case Repeat(_, _, _) => m' := SimRepeat(P, top, s, st, K, tags, inLoop, env, fuel, m);
  }

  lemma SimNothing(P: Program, top: bool, st: CState, K: Ctx, env: Env, fuel: nat, m: State) returns (m': State)
    requires StmtReady(P, [], st, env, m)
    ensures StmtPost(P, m, m', 0, st, st, K, Normal(env), fuel)
  {
    ReachesSelf(P, m);
    m' := m;
  }

  lemma SimHole(P: Program, st: CState, K: Ctx, t: Target, env: Env, m: State) returns (m': State)
    requires JumpFits(K, t) && StmtReady(P, JumpTo(K, t), st, env, m)
    ensures Reaches(P, m, m') && Jumped(m, m', |JumpTo(K, t)|, st, K, t, st.syms, env)
  {
    RunJump(P, m, K[t].d);
    m' := m.(ip := m.ip + 3 + K[t].d);
  }

  lemma SimDecl(P: Program, top: bool, s: Stmt, st: CState, K: Ctx, tags: set<string>, env: Env, fuel: nat, m: State)
    returns (m': State)
    requires s.VarDecl? && Sound(P, top, s, st, K, tags, false, env, m)
    ensures StmtPost(P, m, m', |Code(top, s, st, K)|, st, After(s, st), K, Exec(s, env, fuel), fuel)
  {
    hide Rel, SymsOk, Reaches, CodeAt, PoolAt, Frame, Busy, ExprCode, EvalExpr, ExprFits, ScopedExpr, ExprConsts;
    hide Fits, ScopedStmt, InFragment, StmtConsts, Access, Code, After, Exec, Bind, BindSyms, ValuesCode, NullsCode;
    var VarDecl(fix, names, values) := s;
    var r := st.nextReg;
    var c1 := if values == [] then NullsCode(r, |names|) else ValuesCode(values, top, st.syms, r, st.pool);
    var c2 := [if fix then OP_FIX else OP_VAR, Low(r), Low(|names|)];
    RelSize(env, st.syms, m.regs);
    DeclStatic(P, top, s, st, K, tags);
    DeclReady(P, top, s, st, K, env, m);
    DeclExec(s, st, env, fuel);
    CodeSplit(P, m.ip, c1, c2);
    if values == [] {
      var m1 := SimNulls(P, st.syms, r, |names|, env, m);
      m' := DeclEnd(P, m, m1, fix, names, Nulls(|names|), |c1|, st, values, env);
    } else {
      var res := EvalList(values, env);
      m' := SimValues(P, values, top, st.syms, r, st.pool, env, m);
      if res.Vals? {
        RelSize(res.env, st.syms, m'.regs);
        m' := DeclEnd(P, m, m', fix, names, res.values, |c1|, st, values, res.env);
      }
    }
  }

  lemma DeclStatic(P: Program, top: bool, s: Stmt, st: CState, K: Ctx, tags: set<string>)
    requires s.VarDecl? && Static(P, top, s, st, K, tags, false)
    ensures Distinct(s.names) && (s.values != [] ==> |s.values| == |s.names|) && st.nextReg + |s.names| <= 0xff
    ensures (forall x | x in s.values :: ScopedExpr(x, Access(st.syms)))
    ensures ValuesFit(s.values, top, st.syms, st.nextReg, st.pool) && PoolAt(P, st.pool, ListConsts(s.values))
  {
    hide PoolAt, ExprFits, ScopedExpr, Access;
  }

  lemma DeclReady(P: Program, top: bool, s: Stmt, st: CState, K: Ctx, env: Env, m: State)
    requires s.VarDecl? && StmtReady(P, Code(top, s, st, K), st, env, m)
    ensures var c1 := if s.values == [] then NullsCode(st.nextReg, |s.names|)
                      else ValuesCode(s.values, top, st.syms, st.nextReg, st.pool);
            && StmtReady(P, c1 + [if s.fix then OP_FIX else OP_VAR, Low(st.nextReg), Low(|s.names|)], st, env, m)
            && |Code(top, s, st, K)| == |c1| + 3
  {
    hide Rel, SymsOk, CodeAt;
  }

  lemma DeclExec(s: Stmt, st: CState, env: Env, fuel: nat)
    requires s.VarDecl? && env != [] && (s.values != [] ==> |s.values| == |s.names|)
    ensures var last := |env| - 1;
            var res := EvalList(s.values, env);
            Exec(s, env, fuel) ==
              if s.values == [] then Normal(env[last := Bind(env[last], s.names, Nulls(|s.names|))])
              else if res.RaisedL? then Threw(res.error)
              else if res.env == [] then Normal(res.env)
              else Normal(res.env[|res.env| - 1 := Bind(res.env[|res.env| - 1], s.names, res.values)])
    ensures After(s, st) == Declare(AddPool(st, ValueConsts(s.values)), s.fix, s.names)
  {
  }

  lemma DeclEnd(P: Program, m: State, m1: State, fix: bool, names: seq<string>, vs: seq<Value>, len: nat, st: CState,
                values: seq<Expr>, env: Env)
    returns (m': State)
    requires Distinct(names) && st.syms != [] && |vs| == |names| && st.nextReg + |names| <= 0xff && |m.regs| >= WINDOW
    requires Reaches(P, m, m1) && m1.status == Running && m1.ip == m.ip + len && m1.scopes == m.scopes
    requires Frame(st.syms, st.nextReg, m.regs, m1.regs) && Rel(env, st.syms, m1.regs)
    requires forall i | 0 <= i < |vs| :: m1.regs[st.nextReg + i] == vs[i]
    requires CodeAt(P, m1.ip, [if fix then OP_FIX else OP_VAR, Low(st.nextReg), Low(|names|)])
    ensures Reaches(P, m, m')
    ensures var st1 := AddPool(st, ValueConsts(values));
            env != [] && Landed(m, m', len + 3, st, Declare(st1, fix, names).syms,
                                env[|env| - 1 := Bind(env[|env| - 1], names, vs)])
  {
    hide Reaches, CodeAt, Frame, Bind, BindSyms;
    FrameSize(st.syms, st.nextReg, m.regs, m1.regs);
    RunFlags(P, m1, fix, st.nextReg, |names|);
    m' := m1.(ip := m1.ip + 3);
    ReachesTrans(P, m, m1, m');
    BindRel(AddPool(st, ValueConsts(values)), env, m1.regs, fix, names, vs);
  }

  lemma FrameSize(syms: Syms, r: nat, a: seq<Value>, b: seq<Value>)
    requires Frame(syms, r, a, b)
    ensures |a| == |b|
  {
  }

  /* Blocks. */

  ghost predicate SoundAll(P: Program, top: bool, ss: seq<Stmt>, st: CState, K: Ctx, tags: set<string>, inLoop: bool,
                           env: Env, m: State) {
    && ScopedAll(ss, Access(st.syms), tags) && (forall x | x in ss :: InFragment(x, tags, inLoop))
    && FitsAll(top, ss, st, K)
    && StmtReady(P, CodeAll(top, ss, st, K), st, env, m)
    && PoolAt(P, st.pool, StmtsConsts(ss))
  }

  lemma {:induction false} SimAll(P: Program, top: bool, ss: seq<Stmt>, st: CState, K: Ctx, tags: set<string>, inLoop: bool,
                                  env: Env, fuel: nat, m: State)
    returns (m': State)
    requires SoundAll(P, top, ss, st, K, tags, inLoop, env, m)
    ensures ListPost(P, m, m', |CodeAll(top, ss, st, K)|, st, AfterAll(ss, st), K, ExecAll(ss, env, fuel), fuel)
    decreases fuel, ss, 0
  {
    hide Rel, SymsOk, Reaches, CodeAt, PoolAt, Frame, Code, Fits, ScopedStmt, InFragment, Exec, After, StmtConsts, Busy;
    if ss == [] {
      m' := SimNothing(P, top, st, K, env, fuel, m);
    } else {
      hide CodeAll, ExecAll, AfterAll, FitsAll, ScopedAll, StmtsConsts, Shift, Access, Extends;
      var st1 := After(ss[0], st);
      var rest := CodeAll(top, ss[1..], st1, K);
      var K0 := Shift(K, |rest|);
      var len := |Code(top, ss[0], st, K0)|;
      AllNext(P, top, ss, st, K, tags, inLoop, env, fuel, m);
      AfterOk(ss[0], st, tags, inLoop);
      m' := StmtSim(P, top, ss[0], st, K0, tags, inLoop, env, fuel, m);
      var o := Exec(ss[0], env, fuel);
      if o.Normal? {
        var m1 := m';
        LandedReady(P, m, m1, len, rest, st, st1, o.env);
        m' := SimAll(P, top, ss[1..], st1, K, tags, inLoop, o.env, fuel, m1);
        ThenList(P, m, m1, m', len, |rest|, st, st1, AfterAll(ss, st), K, o.env, ExecAll(ss[1..], o.env, fuel), fuel);
      } else {
        JumpList(P, m, m', len, |rest|, st, st1, AfterAll(ss, st), K, o, fuel);
      }
    }
  }

  /** The definitions for a list of statements, unfolded once. */
  lemma AllNext(P: Program, top: bool, ss: seq<Stmt>, st: CState, K: Ctx, tags: set<string>, inLoop: bool, env: Env,
                fuel: nat, m: State)
    requires ss != [] && SoundAll(P, top, ss, st, K, tags, inLoop, env, m)
    ensures ScopedStmt(ss[0], Access(st.syms), tags) && InFragment(ss[0], tags, inLoop)
    ensures var st1 := After(ss[0], st);
            var rest := CodeAll(top, ss[1..], st1, K);
            var code := Code(top, ss[0], st, Shift(K, |rest|));
            && Sound(P, top, ss[0], st, Shift(K, |rest|), tags, inLoop, env, m)
            && |CodeAll(top, ss, st, K)| == |code| + |rest| && AfterAll(ss, st) == AfterAll(ss[1..], st1)
            && CodeAt(P, m.ip + |code|, rest) && PoolAt(P, st1.pool, StmtsConsts(ss[1..]))
            && ScopedAll(ss[1..], Access(st1.syms), tags) && FitsAll(top, ss[1..], st1, K)
            && (forall x | x in ss[1..] :: InFragment(x, tags, inLoop))
    ensures var o := Exec(ss[0], env, fuel);
            ExecAll(ss, env, fuel) == if o.Normal? then ExecAll(ss[1..], o.env, fuel) else o
  {
    hide Rel, SymsOk, CodeAt, PoolAt, Code, Fits, ScopedStmt, InFragment, Exec, After, StmtConsts;
    var st1 := After(ss[0], st);
    var rest := CodeAll(top, ss[1..], st1, K);
    CodeSplit(P, m.ip, Code(top, ss[0], st, Shift(K, |rest|)), rest);
    PoolSplit(P, st.pool, StmtConsts(ss[0]), StmtsConsts(ss[1..]));
    AfterOk(ss[0], st, tags, inLoop);
  }

  lemma LandedReady(P: Program, m: State, m1: State, len: nat, code: seq<u8>, st: CState, st1: CState, env: Env)
    requires Landed(m, m1, len, st, st1.syms, env) && |m.regs| >= WINDOW
    requires CodeAt(P, m.ip + len, code) && SymsOk(st1.syms, st1.nextReg) && st1.syms != []
    ensures StmtReady(P, code, st1, env, m1)
  {
  }

  lemma ThenList(P: Program, m: State, m1: State, m2: State, len1: nat, len2: nat, st: CState, st1: CState, st2: CState,
                 K: Ctx, env1: Env, o: Outcome, fuel: nat)
    requires Reaches(P, m, m1) && Landed(m, m1, len1, st, st1.syms, env1)
    requires 0 < |st.syms| == |st1.syms| && st1.syms[..|st.syms| - 1] == st.syms[..|st.syms| - 1]
    requires Extends(st.syms, st.nextReg, st1.syms) && st1.nextReg >= st.nextReg
    requires ListPost(P, m1, m2, len2, st1, st2, K, o, fuel)
    ensures ListPost(P, m, m2, len1 + len2, st, st2, K, o, fuel)
  {
    hide Rel, Frame, Extends, Reaches, Busy;
    if o.Timeout? {
      BusyLater(P, m, m1, fuel);
    } else {
      ReachesTrans(P, m, m1, m2);
      if !o.Threw? {
        FrameExtends(st.syms, st.nextReg, st1.syms, st1.nextReg, m1.regs, m2.regs);
        FrameTrans(st.syms, st.nextReg, m.regs, m1.regs, m2.regs);
      }
    }
  }

  /** The first statement of a list jumped, over the `n` bytes after it. */
  lemma JumpList(P: Program, m: State, m1: State, len: nat, n: nat, st: CState, st1: CState, st2: CState, K: Ctx,
                 o: Outcome, fuel: nat)
    requires StmtPost(P, m, m1, len, st, st1, Shift(K, n), o, fuel) && !o.Normal? && st.syms != []
    ensures ListPost(P, m, m1, len + n, st, st2, K, o, fuel)
  {
    hide Frame, Reaches, Busy;
    if o.Broke? || o.Continued? {
      RelTake(o.env, st.syms, m1.regs, |o.env| - 1);
    }
  }

  lemma {:induction false} SimBlock(P: Program, top: bool, s: Stmt, st: CState, K: Ctx, tags: set<string>, inLoop: bool,
                                    env: Env, fuel: nat, m: State)
    returns (m': State)
    requires s.Block? && Sound(P, top, s, st, K, tags, inLoop, env, m)
    ensures StmtPost(P, m, m', |Code(top, s, st, K)|, st, After(s, st), K, Exec(s, env, fuel), fuel)
    decreases fuel, s, 2
  {
    hide Rel, SymsOk, Reaches, CodeAt, PoolAt, Frame, Busy;
    var ss := s.stmts;
    var r := st.nextReg;
    var body := CodeAll(top, ss, Enter(st), Shift(K, 1));
    CodeSplit(P, m.ip, [OP_ENTER_SCOPE, Low(r)], body + [OP_EXIT_SCOPE]);
    CodeSplit(P, m.ip + 2, body, [OP_EXIT_SCOPE]);
    RunEnter(P, m, r);
    var m1 := m.(ip := m.ip + 2, scopes := m.scopes + [Low(r)]);
    EnterOk(st);
    RelEnter(env, st.syms, m.regs);
    AfterAllOk(ss, Enter(st), tags, inLoop);
    m' := SimAll(P, top, ss, Enter(st), Shift(K, 1), tags, inLoop, env + [map[]], fuel, m1);
    RelSize(env, st.syms, m.regs);
    m' := BlockEnd(P, m, m1, m', |body|, st, AfterAll(ss, Enter(st)), K, |env|, ExecAll(ss, env + [map[]], fuel), fuel);
  }

  lemma RelSize(env: Env, syms: Syms, regs: seq<Value>)
    requires Rel(env, syms, regs)
    ensures |env| == |syms|
  {
  }

  /** Leaving a block: its scope is gone, its registers are free. */
  lemma BlockEnd(P: Program, m: State, m1: State, m2: State, len: nat, st: CState, inner: CState, K: Ctx, depth: nat,
                 o: Outcome, fuel: nat)
    returns (m': State)
    requires st.syms != [] && depth == |st.syms| && |m.regs| >= WINDOW
    requires Reaches(P, m, m1) && m1 == m.(ip := m.ip + 2, scopes := m.scopes + [Low(st.nextReg)])
    requires |inner.syms| == depth + 1 && inner.syms[..depth] == st.syms
    requires CodeAt(P, m.ip + 2 + len, [OP_EXIT_SCOPE])
    requires ListPost(P, m1, m2, len, Enter(st), inner, Shift(K, 1), o, fuel)
    ensures StmtPost(P, m, m', len + 3, st, Leave(inner), K, Trim(o, depth), fuel)
  {
    hide Rel, Reaches, CodeAt, Frame, Busy;
    m' := m2;
    if o.Timeout? {
      BusyLater(P, m, m1, fuel);
    } else {
      ReachesTrans(P, m, m1, m2);
      if !o.Threw? {
        ExtendsEnter(st);
        FrameExtends(st.syms, st.nextReg, Enter(st).syms, st.nextReg, m1.regs, m2.regs);
        FrameSize(st.syms, st.nextReg, m1.regs, m2.regs);
        if o.Normal? {
          assert m1.scopes[..|m.scopes|] == m.scopes;
          RunExit(P, m2);
          m' := m2.(ip := m2.ip + 1, scopes := m2.scopes[..|m2.scopes| - 1]);
          ReachesTrans(P, m, m2, m');
          RelSize(o.env, inner.syms, m2.regs);
          RelTake(o.env, inner.syms, m2.regs, depth);
        } else {
          assert m1.scopes[..|m.scopes|] == m.scopes;
          assert Outer(Enter(st).syms) == st.syms;
          assert Outer(o.env) == o.env[..depth];
        }
      }
    }
  }

  lemma ExtendsEnter(st: CState)
    ensures Extends(st.syms, st.nextReg, Enter(st).syms)
  {
    var e := Enter(st).syms;
    forall k, n {:trigger VarAt(e, k, n)} | VarAt(e, k, n) ensures VarAt(st.syms, k, n) {}
  }

  /* Conditionals. */

  lemma {:induction false} SimIfStmt(P: Program, top: bool, s: Stmt, st: CState, K: Ctx, tags: set<string>, inLoop: bool,
                                     env: Env, fuel: nat, m: State)
    returns (m': State)
    requires s.If? && Sound(P, top, s, st, K, tags, inLoop, env, m)
    ensures StmtPost(P, m, m', |Code(top, s, st, K)|, st, After(s, st), K, Exec(s, env, fuel), fuel)
    decreases fuel, s, 2
  {
    hide Rel, SymsOk, Reaches, CodeAt, PoolAt, Frame, Busy, ExprCode, EvalExpr, ExprFits, ScopedExpr, ExprConsts;
    hide Fits, ScopedStmt, InFragment, StmtConsts, Access, Extends, Code, After, Exec;
    var If(c, t, f) := s;
    var st1 := AddPool(st, ExprConsts(c));
    var st2 := After(t, st1);
    var fc := Code(top, f, st2, K);
    var tc := Code(top, t, st1, Shift(K, |ElseTail(f, fc)|));
    IfStatic(P, top, s, st, K, tags, inLoop);
    IfReady(P, top, s, st, K, env, m);
    IfExec(s, st, env, fuel);
    AfterOk(t, st1, tags, inLoop);
    AfterOk(f, st2, tags, inLoop);
    FitsReg(c, top, st.syms, st.nextReg, st.pool);
    m' := SimBranches(P, top, s, tc, fc, st, st1, st2, K, tags, inLoop, env, fuel, m);
  }

  lemma IfReady(P: Program, top: bool, s: Stmt, st: CState, K: Ctx, env: Env, m: State)
    requires s.If? && StmtReady(P, Code(top, s, st, K), st, env, m)
    ensures var If(c, t, f) := s;
            var st1 := AddPool(st, ExprConsts(c));
            var fc := Code(top, f, After(t, st1), K);
            var tc := Code(top, t, st1, Shift(K, |ElseTail(f, fc)|));
            var cc := ExprCode(c, top, st.syms, st.nextReg, st.pool);
            && StmtReady(P, cc + (BranchCode(OP_JUMP_FALSE, st.nextReg, OverThen(f, tc)) + (tc + ElseTail(f, fc))),
                         st, env, m)
            && |Code(top, s, st, K)| == |cc| + 4 + |tc| + |ElseTail(f, fc)|
  {
    hide Rel, SymsOk, CodeAt, ExprCode, ExprConsts, After;
  }

  lemma IfExec(s: Stmt, st: CState, env: Env, fuel: nat)
    requires s.If?
    ensures var res := EvalExpr(s.cond, env);
            Exec(s, env, fuel) ==
              if res.Raised? then Threw(res.error)
              else if Truthy(res.value) then Exec(s.thn, res.env, fuel) else Exec(s.els, res.env, fuel)
    ensures After(s, st) == After(s.els, After(s.thn, AddPool(st, ExprConsts(s.cond))))
  {
    hide EvalExpr, ExprConsts, Truthy;
  }

  /** The static conditions of an if-statement, for its parts. */
  lemma IfStatic(P: Program, top: bool, s: Stmt, st: CState, K: Ctx, tags: set<string>, inLoop: bool)
    requires s.If? && Static(P, top, s, st, K, tags, inLoop) && st.syms != [] && SymsOk(st.syms, st.nextReg)
    ensures var If(c, t, f) := s;
            var st1 := AddPool(st, ExprConsts(c));
            var st2 := After(t, st1);
            var fc := Code(top, f, st2, K);
            var tK := Shift(K, |ElseTail(f, fc)|);
            && !t.VarDecl? && !f.VarDecl?
            && ScopedExpr(c, Access(st.syms)) && ExprFits(c, top, st.syms, st.nextReg, st.pool)
            && PoolAt(P, st.pool, ExprConsts(c))
            && Static(P, top, t, st1, tK, tags, inLoop) && Static(P, top, f, st2, K, tags, inLoop)
            && |Code(top, t, st1, tK)| + 3 <= BYTE_JUMP_MAX && |fc| <= BYTE_JUMP_MAX
  {
    hide Rel, SymsOk, PoolAt, ExprCode, ExprFits, ScopedExpr, ExprConsts, Access, Extends, Code, After;
    var If(c, t, f) := s;
    var st1 := AddPool(st, ExprConsts(c));
    PoolSplit(P, st.pool, ExprConsts(c), StmtConsts(t) + StmtConsts(f));
    PoolSplit(P, st1.pool, StmtConsts(t), StmtConsts(f));
    AfterOk(t, st1, tags, inLoop);
  }

  lemma {:induction false} SimBranches(P: Program, top: bool, s: Stmt, tc: seq<u8>, fc: seq<u8>,
                                       st: CState, st1: CState, st2: CState, K: Ctx, tags: set<string>, inLoop: bool,
                                       env: Env, fuel: nat, m: State)
    returns (m': State)
    requires s.If? && st1 == AddPool(st, ExprConsts(s.cond)) && st2 == After(s.thn, st1)
    requires fc == Code(top, s.els, st2, K) && tc == Code(top, s.thn, st1, Shift(K, |ElseTail(s.els, fc)|))
    requires ScopedExpr(s.cond, Access(st.syms)) && ExprFits(s.cond, top, st.syms, st.nextReg, st.pool)
    requires PoolAt(P, st.pool, ExprConsts(s.cond)) && st.nextReg <= 0xff
    requires Static(P, top, s.thn, st1, Shift(K, |ElseTail(s.els, fc)|), tags, inLoop)
    requires Static(P, top, s.els, st2, K, tags, inLoop)
    requires SymsOk(st2.syms, st2.nextReg) && st2.syms == st.syms && st2.nextReg >= st.nextReg
    requires After(s.els, st2).syms == st.syms
    requires StmtReady(P, ExprCode(s.cond, top, st.syms, st.nextReg, st.pool)
                          + (BranchCode(OP_JUMP_FALSE, st.nextReg, OverThen(s.els, tc)) + (tc + ElseTail(s.els, fc))),
                       st, env, m)
    requires |tc| + 3 <= BYTE_JUMP_MAX && |fc| <= BYTE_JUMP_MAX
    ensures StmtPost(P, m, m', |ExprCode(s.cond, top, st.syms, st.nextReg, st.pool)| + 4 + |tc| + |ElseTail(s.els, fc)|,
                     st, After(s.els, st2), K,
                     var res := EvalExpr(s.cond, env);
                     if res.Raised? then Threw(res.error)
                     else if Truthy(res.value) then Exec(s.thn, res.env, fuel) else Exec(s.els, res.env, fuel),
                     fuel)
    decreases fuel, s, 1
  {
    hide Rel, SymsOk, Reaches, CodeAt, PoolAt, Frame, Busy, ExprCode, EvalExpr, ExprFits, ScopedExpr, ExprConsts;
    hide Code, Fits, ScopedStmt, InFragment, Exec, After, StmtConsts;
    var If(c, t, f) := s;
    var tail, d := ElseTail(f, fc), OverThen(f, tc);
    var cc := ExprCode(c, top, st.syms, st.nextReg, st.pool);
    CodeSplit(P, m.ip, cc, BranchCode(OP_JUMP_FALSE, st.nextReg, d) + (tc + tail));
    CodeSplit(P, m.ip + |cc|, BranchCode(OP_JUMP_FALSE, st.nextReg, d), tc + tail);
    CodeSplit(P, m.ip + |cc| + 4, tc, tail);
    m' := SimTest(P, c, cc, OP_JUMP_FALSE, d, tc + tail, top, st.syms, st.nextReg, st.pool, env, m);
    var res := EvalExpr(c, env);
    if res.Val? {
      var m1 := m';
      ArrivedLanded(m, m1, m1.ip - m.ip, st, res.value, res.env);
      if Truthy(res.value) {
        LandedReady(P, m, m1, |cc| + 4, tc, st, st1, res.env);
        m' := StmtSim(P, top, t, st1, Shift(K, |tail|), tags, inLoop, res.env, fuel, m1);
        FrameSize(st.syms, st.nextReg, m.regs, m1.regs);
        m' := SkipTail(P, m1, m', |tc|, fc, f, st1, st2, After(f, st2), K, Exec(t, res.env, fuel), fuel);
        Then(P, m, m1, m', |cc| + 4, |tc| + |tail|, st, st1, After(f, st2), K, res.env, Exec(t, res.env, fuel), fuel);
      } else {
        EmptyCode(top, f, st2, K);
        ElseCode(P, m.ip + |cc| + 4 + |tc|, f, fc);
        LandedReady(P, m, m1, |cc| + 4 + d, fc, st, st2, res.env);
        m' := StmtSim(P, top, f, st2, K, tags, inLoop, res.env, fuel, m1);
        Then(P, m, m1, m', |cc| + 4 + d, |fc|, st, st2, After(f, st2), K, res.env, Exec(f, res.env, fuel), fuel);
      }
    }
  }

  lemma EmptyCode(top: bool, f: Stmt, st: CState, K: Ctx)
    ensures f.Empty? ==> Code(top, f, st, K) == []
  {
  }

  /** Where the else branch lies in the tail at `o`. */
  lemma ElseCode(P: Program, o: nat, f: Stmt, fc: seq<u8>)
    requires CodeAt(P, o, ElseTail(f, fc)) && (f.Empty? ==> fc == [])
    ensures CodeAt(P, o + if f.Empty? then 0 else 3, fc)
  {
    if !f.Empty? { CodeSplit(P, o, JumpCode(|fc|), fc); }
  }

  lemma ArrivedLanded(m: State, m1: State, len: nat, st: CState, v: Value, env: Env)
    requires Arrived(m, m1, len, st.syms, st.nextReg, v, env)
    ensures Landed(m, m1, len, st, st.syms, env)
  {
  }

  /** The jump over the else branch after the true branch. */
  lemma SkipTail(P: Program, m: State, m1: State, len: nat, fc: seq<u8>, f: Stmt, st: CState, st1: CState, st2: CState,
                 K: Ctx, o: Outcome, fuel: nat)
    returns (m': State)
    requires StmtPost(P, m, m1, len, st, st1, Shift(K, |ElseTail(f, fc)|), o, fuel)
    requires CodeAt(P, m.ip + len, ElseTail(f, fc))
    requires |fc| <= BYTE_JUMP_MAX && st2.syms == st1.syms && |m.regs| >= WINDOW
    ensures StmtPost(P, m, m', len + |ElseTail(f, fc)|, st, st2, K, o, fuel)
  {
    hide Rel, Reaches, CodeAt, Busy;
    m' := m1;
    if o.Normal? && !f.Empty? {
      CodeSplit(P, m.ip + len, JumpCode(|fc|), fc);
      RunJump(P, m1, |fc|);
      m' := m1.(ip := m1.ip + 3 + |fc|);
      ReachesTrans(P, m, m1, m');
    }
  }

  /* Loops. */

  /** The else clause ran and is the end of the loop. */
  lemma ElseDone(P: Program, m: State, m1: State, m2: State, len1: nat, len2: nat, st: CState, st1: CState, st2: CState,
                 K: Ctx, tag: Option<string>, env1: Env, o: Outcome, fuel: nat)
    requires Reaches(P, m, m1) && Landed(m, m1, len1, st, st.syms, env1)
    requires st1.syms == st.syms && st1.nextReg >= st.nextReg
    requires StmtPost(P, m1, m2, len2, st1, st2, ElseCtx(K, tag), o, fuel) && Escapes(o, tag, false)
    ensures StmtPost(P, m, m2, len1 + len2, st, st2, K, o, fuel)
  {
    hide Landed, Reaches, Busy;
    assert StmtPost(P, m1, m2, len2, st1, st2, K, o, fuel);
    Then(P, m, m1, m2, len1, len2, st, st1, st2, K, env1, o, fuel);
  }

  /** Does the loop `tag` test its condition next? */
  predicate LoopsOn(o: Outcome, tag: Option<string>) {
    o.Normal? || (o.Continued? && Hits(o.tag, tag))
  }

  /** The outcome of the loop when its body ends it. */
  function LoopExit(o: Outcome, tag: Option<string>): Outcome {
    if o.Broke? && Hits(o.tag, tag) then Normal(o.env) else o
  }

  /** The body left the loop, whose end lies `n` bytes behind the body. */
  lemma BodyDone(P: Program, m: State, m1: State, m2: State, len1: nat, len2: nat, n: nat, st: CState, st1: CState,
                 st1': CState, st2: CState, K: Ctx, tag: Option<string>, env1: Env, o: Outcome, fuel: nat)
    requires Reaches(P, m, m1) && Landed(m, m1, len1, st, st.syms, env1)
    requires st1.syms == st.syms == st2.syms && st1.nextReg >= st.nextReg
    requires StmtPost(P, m1, m2, len2, st1, st1', BodyCtx(K, tag, n), o, fuel) && !LoopsOn(o, tag)
    ensures StmtPost(P, m, m2, len1 + len2 + n, st, st2, K, LoopExit(o, tag), fuel)
  {
    hide Frame, Rel, Reaches, Busy;
    assert StmtPost(P, m1, m2, len2 + n, st1, st2, K, LoopExit(o, tag), fuel);
    Then(P, m, m1, m2, len1, len2 + n, st, st1, st2, K, env1, LoopExit(o, tag), fuel);
  }

  /** The body ended normally or by `continue`: the next byte is the re-test. */
  lemma BodyAgain(P: Program, m: State, m1: State, m2: State, len1: nat, len2: nat, n: nat, st: CState, st1: CState,
                  st1': CState, K: Ctx, tag: Option<string>, env1: Env, o: Outcome, fuel: nat)
    requires Reaches(P, m, m1) && Landed(m, m1, len1, st, st.syms, env1)
    requires st1.syms == st.syms == st1'.syms && st1.nextReg >= st.nextReg
    requires StmtPost(P, m1, m2, len2, st1, st1', BodyCtx(K, tag, n), o, fuel) && LoopsOn(o, tag)
    ensures Reaches(P, m, m2) && Landed(m, m2, len1 + len2, st, st.syms, o.env)
  {
    hide Frame, Rel, Reaches, Busy;
    assert StmtPost(P, m1, m2, len2, st1, st1', K, Normal(o.env), fuel);
    Then(P, m, m1, m2, len1, len2, st, st1, st1', K, env1, Normal(o.env), fuel);
  }

  lemma LandedSelf(P: Program, m: State, st: CState, env: Env)
    requires m.status == Running && Rel(env, st.syms, m.regs)
    ensures Reaches(P, m, m) && Landed(m, m, 0, st, st.syms, env)
  {
    ReachesSelf(P, m);
  }

  /** Back to the start of the loop at `o`, with a step for the fuel. */
  lemma GoAround(P: Program, top: bool, s: Stmt, st: CState, K: Ctx, tags: set<string>, inLoop: bool,
                 env: Env, m: State, m1: State, env1: Env, d: nat, n: nat)
    returns (m2: State)
    requires Sound(P, top, s, st, K, tags, inLoop, env, m)
    requires Reaches(P, m, m1) && m1.status == Running && m1.ip + 3 - d == m.ip && m.scopes <= m1.scopes
    requires Frame(st.syms, st.nextReg, m.regs, m1.regs) && Rel(env1, st.syms, m1.regs)
    requires CodeAt(P, m1.ip, LoopCode(d)) && d <= BYTE_JUMP_MAX
    ensures Sound(P, top, s, st, K, tags, inLoop, env1, m2)
    ensures Reaches(P, m, m2) && Landed(m, m2, 0, st, st.syms, env1)
    ensures Busy(P, m2, n) ==> Busy(P, m, n + 1)
  {
    hide Rel, SymsOk, Reaches, CodeAt, Busy, Static, Code;
    FrameSize(st.syms, st.nextReg, m.regs, m1.regs);
    RunLoop(P, m1, d, n);
    m2 := m1.(ip := m.ip);
    ReachesTrans(P, m, m1, m2);
    if Busy(P, m2, n) { BusyLater(P, m, m1, n + 1); }
  }

  /** The rest of the loop from its start, after one round. */
  lemma AnotherRound(P: Program, m: State, m1: State, m2: State, len: nat, st: CState, st2: CState, K: Ctx, env1: Env,
                     o: Outcome, fuel: nat)
    requires Reaches(P, m, m1) && Landed(m, m1, 0, st, st.syms, env1) && fuel > 0
    requires Busy(P, m1, fuel - 1) ==> Busy(P, m, fuel)
    requires StmtPost(P, m1, m2, len, st, st2, K, o, fuel - 1)
    ensures StmtPost(P, m, m2, len, st, st2, K, o, fuel)
  {
    hide Frame, Rel, Reaches, Busy;
    if !o.Timeout? { Then(P, m, m1, m2, 0, len, st, st, st2, K, env1, o, fuel - 1); }
  }

  lemma {:induction false} SimWhile(P: Program, top: bool, s: Stmt, st: CState, K: Ctx, tags: set<string>, inLoop: bool,
                                    env: Env, fuel: nat, m: State)
    returns (m': State)
    requires s.While? && Sound(P, top, s, st, K, tags, inLoop, env, m)
    ensures StmtPost(P, m, m', |Code(top, s, st, K)|, st, After(s, st), K, Exec(s, env, fuel), fuel)
    decreases fuel, s, 2
  {
    hide Rel, SymsOk, Reaches, CodeAt, PoolAt, Frame, Busy, ExprCode, EvalExpr, ExprFits, ScopedExpr, ExprConsts;
    hide Fits, ScopedStmt, InFragment, StmtConsts, Access, Extends, Code, After, Exec, NoJumpTo, BodyCtx, ElseCtx;
    hide BranchCode, LoopCode, Truthy;
    var While(c, tag, body, els) := s;
    var inner := if tag.Some? then tags + {tag.value} else tags;
    var st1 := AddPool(st, ExprConsts(c));
    var st2 := After(body, st1);
    var ec := Code(top, els, st2, ElseCtx(K, tag));
    var bc := Code(top, body, st1, BodyCtx(K, tag, 3 + |ec|));
    var cc := ExprCode(c, top, st.syms, st.nextReg, st.pool);
    WhileStatic(P, top, s, st, K, tags, inLoop);
    WhileReady(P, top, s, st, K, env, m);
    WhileExec(s, st, env, fuel);
    AfterOk(body, st1, inner, true);
    AfterOk(els, st2, inner, inLoop);
    FitsReg(c, top, st.syms, st.nextReg, st.pool);
    var rest := bc + (LoopCode(|cc| + |bc| + 7) + ec);
    m' := SimTest(P, c, cc, OP_JUMP_FALSE, |bc| + 3, rest, top, st.syms, st.nextReg, st.pool, env, m);
    var res := EvalExpr(c, env);
    if res.Val? {
      var m1 := m';
      LoopParts(P, m.ip + |cc| + 4, bc, |cc| + |bc| + 7, ec);
      ArrivedLanded(m, m1, m1.ip - m.ip, st, res.value, res.env);
      if Truthy(res.value) {
        LandedReady(P, m, m1, |cc| + 4, bc, st, st1, res.env);
        m' := StmtSim(P, top, body, st1, BodyCtx(K, tag, 3 + |ec|), inner, true, res.env, fuel, m1);
        var o := Exec(body, res.env, fuel);
        if LoopsOn(o, tag) {
          BodyAgain(P, m, m1, m', |cc| + 4, |bc|, 3 + |ec|, st, st1, st2, K, tag, res.env, o, fuel);
          if fuel == 0 {
            BusyNow(P, m);
          } else {
            var m2 := GoAround(P, top, s, st, K, tags, inLoop, env, m, m', o.env, |cc| + |bc| + 7, fuel - 1);
            m' := StmtSim(P, top, s, st, K, tags, inLoop, o.env, fuel - 1, m2);
            AnotherRound(P, m, m2, m', |Code(top, s, st, K)|, st, After(s, st), K, o.env, Exec(s, o.env, fuel - 1), fuel);
          }
        } else {
          BodyDone(P, m, m1, m', |cc| + 4, |bc|, 3 + |ec|, st, st1, st2, After(s, st), K, tag, res.env, o, fuel);
        }
      } else {
        LandedReady(P, m, m1, |cc| + 4 + |bc| + 3, ec, st, st2, res.env);
        m' := StmtSim(P, top, els, st2, ElseCtx(K, tag), inner, inLoop, res.env, fuel, m1);
        NoJumpEscapes(els, tag, false, res.env, fuel);
        ElseDone(P, m, m1, m', |cc| + 4 + |bc| + 3, |ec|, st, st2, After(s, st), K, tag, res.env,
                 Exec(els, res.env, fuel), fuel);
      }
    }
  }

  /** The parts of a loop behind its conditional jump. */
  lemma LoopParts(P: Program, o: nat, bc: seq<u8>, d: nat, ec: seq<u8>)
    requires CodeAt(P, o, bc + (LoopCode(d) + ec))
    ensures CodeAt(P, o, bc) && CodeAt(P, o + |bc|, LoopCode(d)) && CodeAt(P, o + |bc| + 3, ec)
  {
    CodeSplit(P, o, bc, LoopCode(d) + ec);
    CodeSplit(P, o + |bc|, LoopCode(d), ec);
  }

  lemma WhileStatic(P: Program, top: bool, s: Stmt, st: CState, K: Ctx, tags: set<string>, inLoop: bool)
    requires s.While? && Static(P, top, s, st, K, tags, inLoop) && st.syms != [] && SymsOk(st.syms, st.nextReg)
    ensures var While(c, tag, body, els) := s;
            var inner := if tag.Some? then tags + {tag.value} else tags;
            var st1 := AddPool(st, ExprConsts(c));
            var st2 := After(body, st1);
            var ec := Code(top, els, st2, ElseCtx(K, tag));
            var bK := BodyCtx(K, tag, 3 + |ec|);
            && !body.VarDecl? && !els.VarDecl? && NoJumpTo(els, tag, false)
            && ScopedExpr(c, Access(st.syms)) && ExprFits(c, top, st.syms, st.nextReg, st.pool)
            && PoolAt(P, st.pool, ExprConsts(c))
            && Static(P, top, body, st1, bK, inner, true) && Static(P, top, els, st2, ElseCtx(K, tag), inner, inLoop)
            && |ExprCode(c, top, st.syms, st.nextReg, st.pool)| + |Code(top, body, st1, bK)| + 7 <= BYTE_JUMP_MAX
  {
    hide Rel, SymsOk, PoolAt, ExprCode, ExprFits, ScopedExpr, ExprConsts, Access, Extends, Code, After, NoJumpTo;
    var While(c, tag, body, els) := s;
    var st1 := AddPool(st, ExprConsts(c));
    PoolSplit(P, st.pool, ExprConsts(c), StmtConsts(body) + StmtConsts(els));
    PoolSplit(P, st1.pool, StmtConsts(body), StmtConsts(els));
    AfterOk(body, st1, if tag.Some? then tags + {tag.value} else tags, true);
  }

  lemma WhileReady(P: Program, top: bool, s: Stmt, st: CState, K: Ctx, env: Env, m: State)
    requires s.While? && StmtReady(P, Code(top, s, st, K), st, env, m)
    ensures var While(c, tag, body, els) := s;
            var st1 := AddPool(st, ExprConsts(c));
            var ec := Code(top, els, After(body, st1), ElseCtx(K, tag));
            var bc := Code(top, body, st1, BodyCtx(K, tag, 3 + |ec|));
            var cc := ExprCode(c, top, st.syms, st.nextReg, st.pool);
            && StmtReady(P, cc + (BranchCode(OP_JUMP_FALSE, st.nextReg, |bc| + 3)
                                  + (bc + (LoopCode(|cc| + |bc| + 7) + ec))), st, env, m)
            && |Code(top, s, st, K)| == |cc| + 7 + |bc| + |ec|
  {
    hide Rel, SymsOk, CodeAt, ExprCode, ExprConsts, After, BodyCtx, ElseCtx;
  }

  lemma WhileExec(s: Stmt, st: CState, env: Env, fuel: nat)
    requires s.While?
    ensures var res := EvalExpr(s.cond, env);
            Exec(s, env, fuel) ==
              if res.Raised? then Threw(res.error)
              else if !Truthy(res.value) then Exec(s.els, res.env, fuel)
              else
                var o := Exec(s.body, res.env, fuel);
                if !LoopsOn(o, s.tag) then LoopExit(o, s.tag)
                else if fuel == 0 then Timeout
                else Exec(s, o.env, fuel - 1)
    ensures After(s, st) == After(s.els, After(s.body, AddPool(st, ExprConsts(s.cond))))
  {
    hide EvalExpr, ExprConsts, Truthy;
  }

  lemma {:induction false} SimRepeat(P: Program, top: bool, s: Stmt, st: CState, K: Ctx, tags: set<string>, inLoop: bool,
                                     env: Env, fuel: nat, m: State)
    returns (m': State)
    requires s.Repeat? && Sound(P, top, s, st, K, tags, inLoop, env, m)
    ensures StmtPost(P, m, m', |Code(top, s, st, K)|, st, After(s, st), K, Exec(s, env, fuel), fuel)
    decreases fuel, s, 2
  {
    hide Rel, SymsOk, Reaches, CodeAt, PoolAt, Frame, Busy, ExprCode, EvalExpr, ExprFits, ScopedExpr, ExprConsts;
    hide Fits, ScopedStmt, InFragment, StmtConsts, Access, Extends, Code, After, Exec, NoJumpTo;
    var Repeat(body, c, tag) := s;
    var inner := if tag.Some? then tags + {tag.value} else tags;
    var st1 := After(body, st);
    var cc := ExprCode(c, top, st1.syms, st1.nextReg, st1.pool);
    var bc := Code(top, body, st, BodyCtx(K, tag, |cc| + 7));
    RepeatStatic(P, top, s, st, K, tags, inLoop);
    RepeatReady(P, top, s, st, K, env, m);
    RepeatExec(s, st, env, fuel);
    AfterOk(body, st, inner, true);
    var d := |bc| + |cc| + 7;
    CodeSplit(P, m.ip, bc, cc + (BranchCode(OP_JUMP_TRUE, st1.nextReg, 3) + LoopCode(d)));
    LandedSelf(P, m, st, env);
    LandedReady(P, m, m, 0, bc, st, st, env);
    m' := StmtSim(P, top, body, st, BodyCtx(K, tag, |cc| + 7), inner, true, env, fuel, m);
    var o := Exec(body, env, fuel);
    if LoopsOn(o, tag) {
      BodyAgain(P, m, m, m', 0, |bc|, |cc| + 7, st, st, st1, K, tag, env, o, fuel);
      m' := SimUntil(P, top, s, st, st1, K, tags, inLoop, env, o.env, fuel, m, m', cc, d);
    } else {
      BodyDone(P, m, m, m', 0, |bc|, |cc| + 7, st, st, st1, After(s, st), K, tag, env, o, fuel);
    }
  }

  /** The test at the end of a repeat block, from `m1`. */
  lemma {:induction false} SimUntil(P: Program, top: bool, s: Stmt, st: CState, st1: CState, K: Ctx, tags: set<string>,
                                    inLoop: bool, env: Env, env1: Env, fuel: nat, m: State, m1: State, cc: seq<u8>, d: nat)
    returns (m': State)
    requires s.Repeat? && Sound(P, top, s, st, K, tags, inLoop, env, m)
    requires cc == ExprCode(s.cond, top, st1.syms, st1.nextReg, st1.pool)
    requires ScopedExpr(s.cond, Access(st1.syms)) && ExprFits(s.cond, top, st1.syms, st1.nextReg, st1.pool)
    requires PoolAt(P, st1.pool, ExprConsts(s.cond)) && SymsOk(st1.syms, st1.nextReg)
    requires st1.syms == st.syms == After(s, st).syms && st1.nextReg >= st.nextReg
    requires m1.ip == m.ip + d - |cc| - 7 && d <= BYTE_JUMP_MAX && d == |Code(top, s, st, K)| >= |cc| + 7
    requires Reaches(P, m, m1) && Landed(m, m1, d - |cc| - 7, st, st.syms, env1)
    requires CodeAt(P, m1.ip, cc + (BranchCode(OP_JUMP_TRUE, st1.nextReg, 3) + LoopCode(d)))
    ensures StmtPost(P, m, m', |Code(top, s, st, K)|, st, After(s, st), K,
                     Until(s.body, s.cond, s.tag, env1, fuel), fuel)
    decreases fuel, s, 1
  {
    hide Rel, SymsOk, Reaches, CodeAt, PoolAt, Frame, Busy, ExprCode, EvalExpr, ExprFits, ScopedExpr, ExprConsts;
    hide Static, Code, After, Exec, Access, Extends;
    var c := s.cond;
    FrameSize(st.syms, st.nextReg, m.regs, m1.regs);
    FitsReg(c, top, st1.syms, st1.nextReg, st1.pool);
    m' := SimTest(P, c, cc, OP_JUMP_TRUE, 3, LoopCode(d), top, st1.syms, st1.nextReg, st1.pool, env1, m1);
    var m2 := m';
    ReachesTrans(P, m, m1, m2);
    var res := EvalExpr(c, env1);
    if res.Val? {
      FrameShrink(st.syms, st.nextReg, st1.nextReg, m1.regs, m2.regs);
      FrameTrans(st.syms, st.nextReg, m.regs, m1.regs, m2.regs);
      CodeSplit(P, m1.ip, cc, BranchCode(OP_JUMP_TRUE, st1.nextReg, 3) + LoopCode(d));
      CodeSplit(P, m1.ip + |cc|, BranchCode(OP_JUMP_TRUE, st1.nextReg, 3), LoopCode(d));
      if !Truthy(res.value) {
        if fuel == 0 {
          BusyNow(P, m);
        } else {
          var m3 := GoAround(P, top, s, st, K, tags, inLoop, env, m, m2, res.env, d, fuel - 1);
          m' := StmtSim(P, top, s, st, K, tags, inLoop, res.env, fuel - 1, m3);
          AnotherRound(P, m, m3, m', |Code(top, s, st, K)|, st, After(s, st), K, res.env, Exec(s, res.env, fuel - 1), fuel);
        }
      }
    }
  }

  lemma RepeatStatic(P: Program, top: bool, s: Stmt, st: CState, K: Ctx, tags: set<string>, inLoop: bool)
    requires s.Repeat? && Static(P, top, s, st, K, tags, inLoop) && st.syms != [] && SymsOk(st.syms, st.nextReg)
    ensures var Repeat(body, c, tag) := s;
            var inner := if tag.Some? then tags + {tag.value} else tags;
            var st1 := After(body, st);
            var cc := ExprCode(c, top, st1.syms, st1.nextReg, st1.pool);
            var bK := BodyCtx(K, tag, |cc| + 7);
            && !body.VarDecl?
            && ScopedExpr(c, Access(st1.syms)) && ExprFits(c, top, st1.syms, st1.nextReg, st1.pool)
            && PoolAt(P, st1.pool, ExprConsts(c))
            && Static(P, top, body, st, bK, inner, true)
            && |Code(top, body, st, bK)| + |cc| + 7 <= BYTE_JUMP_MAX
  {
    hide Rel, SymsOk, PoolAt, ExprCode, ExprFits, ScopedExpr, ExprConsts, Access, Extends, Code, After, NoJumpTo;
    var Repeat(body, c, tag) := s;
    PoolSplit(P, st.pool, StmtConsts(body), ExprConsts(c));
    AfterOk(body, st, if tag.Some? then tags + {tag.value} else tags, true);
  }

  lemma RepeatReady(P: Program, top: bool, s: Stmt, st: CState, K: Ctx, env: Env, m: State)
    requires s.Repeat? && StmtReady(P, Code(top, s, st, K), st, env, m)
    ensures var Repeat(body, c, tag) := s;
            var st1 := After(body, st);
            var cc := ExprCode(c, top, st1.syms, st1.nextReg, st1.pool);
            var bc := Code(top, body, st, BodyCtx(K, tag, |cc| + 7));
            && StmtReady(P, bc + (cc + (BranchCode(OP_JUMP_TRUE, st1.nextReg, 3) + LoopCode(|bc| + |cc| + 7))), st, env, m)
            && |Code(top, s, st, K)| == |cc| + 7 + |bc|
  {
    hide Rel, SymsOk, CodeAt, ExprCode, ExprConsts, After, BodyCtx, ElseCtx;
  }

  lemma RepeatExec(s: Stmt, st: CState, env: Env, fuel: nat)
    requires s.Repeat?
    ensures var o := Exec(s.body, env, fuel);
            Exec(s, env, fuel) ==
              if LoopsOn(o, s.tag) then Until(s.body, s.cond, s.tag, o.env, fuel) else LoopExit(o, s.tag)
    ensures After(s, st).syms == After(s.body, st).syms
  {
    hide EvalExpr, ExprConsts, Truthy, Until;
  }
}
