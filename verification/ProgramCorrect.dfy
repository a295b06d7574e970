/** Whole scripts: the machine stops exactly when the source does, with the same
    outcome, and never reaches a state the VM leaves undefined. */
module ProgramCorrect {
  import opened Words
  import opened Opcodes
  import opened Syntax
  import opened Values
  import opened Source
  import opened Codegen
  import opened Machine
  import opened ExprCorrect
  import opened StmtCode
  import opened Scopes
  import opened StmtCorrect

  /** The chunk of a script compiled in state `st`: its statements and OP_HALT. */
  function Script(ss: seq<Stmt>, st: CState, pool: seq<Value>): Program {
    Program(CodeAll(true, ss, st, map[]) + [OP_HALT], pool + StmtsConsts(ss))
  }

  /** A script the compiler accepts, within the limits, about to run. */
  ghost predicate Compiled(ss: seq<Stmt>, st: CState, pool: seq<Value>, env: Env, m: State) {
    && ScopedAll(ss, Access(st.syms), {}) && (forall x | x in ss :: InFragment(x, {}, false))
    && FitsAll(true, ss, st, map[])
    && st.pool == |pool| && |pool + StmtsConsts(ss)| <= 0x1_0000_0000
    && st.syms != [] && SymsOk(st.syms, st.nextReg)
    && m.status == Running && m.ip == 0 && |m.regs| >= WINDOW && Rel(env, st.syms, m.regs)
  }

  /** The state `m` is the end of the script when the source ends with `o`. */
  ghost predicate Ended(ss: seq<Stmt>, st: CState, o: Outcome, m: State) {
    match o
    case Normal(env) => m.status == Halted && Rel(env, AfterAll(ss, st).syms, m.regs)
    case Threw(x) => m.status == Failed(x)
    case _ => false
  }

  lemma RunHalt(P: Program, m: State)
    requires m.status == Running && |m.regs| >= WINDOW && CodeAt(P, m.ip, [OP_HALT])
    ensures Reaches(P, m, m.(ip := m.ip + 1, status := Halted))
  {
    CodeByte(P, m.ip, [OP_HALT], 0);
    ReachesStep(P, m);
  }

  /** With any fuel: either the source answers and the machine ends the same
      way, or the machine is still running after that many steps. */
  lemma ScriptRuns(ss: seq<Stmt>, st: CState, pool: seq<Value>, env: Env, m: State, fuel: nat)
    requires Compiled(ss, st, pool, env, m)
    ensures var P := Script(ss, st, pool);
            var o := ExecAll(ss, env, fuel);
            if o.Timeout? then Busy(P, m, fuel)
            else exists m' :: Reaches(P, m, m') && Ended(ss, st, o, m')
  {
    hide SymsOk, CodeAt, Frame, Rel, FitsAll, CodeAll, ScopedAll, InFragment, ExecAll, AfterAll, StmtsConsts, Busy;
    var P := Script(ss, st, pool);
    var code := CodeAll(true, ss, st, map[]);
    CodeHere(P, code);
    PoolHere(pool, StmtsConsts(ss), P);
    var m1 := SimAll(P, true, ss, st, map[], {}, false, env, fuel, m);
    var o := ExecAll(ss, env, fuel);
    if o.Normal? {
      FrameSize(st.syms, st.nextReg, m.regs, m1.regs);
      RunHalt(P, m1);
      ReachesTrans(P, m, m1, m1.(ip := m1.ip + 1, status := Halted));
    }
  }

  lemma CodeHere(P: Program, code: seq<u8>)
    requires P.code == code + [OP_HALT]
    ensures CodeAt(P, 0, code) && CodeAt(P, |code|, [OP_HALT])
  {
    assert CodeAt(P, 0, code + [OP_HALT]);
    CodeSplit(P, 0, code, [OP_HALT]);
  }

  lemma PoolHere(pool: seq<Value>, cs: seq<Value>, P: Program)
    requires P.pool == pool + cs && |pool + cs| <= 0x1_0000_0000
    ensures PoolAt(P, |pool|, cs)
  {
  }

  /* The machine is deterministic. */

  lemma {:induction false} TracesAgree(P: Program, t: seq<State>, u: seq<State>, i: nat)
    requires Trace(P, t) && Trace(P, u) && t[0] == u[0] && i < |t| && i < |u|
    ensures t[i] == u[i]
  {
    hide Step;
    if i > 0 {
      TracesAgree(P, t, u, i - 1);
      assert t[i - 1 + 1] == Step(P, t[i - 1]);
      assert u[i - 1 + 1] == Step(P, u[i - 1]);
    }
  }

  lemma {:induction false} StoppedStays(P: Program, t: seq<State>, i: nat, j: nat)
    requires Trace(P, t) && i <= j < |t| && t[i].status != Running
    ensures t[j] == t[i]
    decreases j
  {
    if i < j {
      StoppedStays(P, t, i, j - 1);
      assert t[j - 1 + 1] == Step(P, t[j - 1]);
    }
  }

  /** Once stopped after `|t| - 1` steps, the machine is not running later. */
  lemma StoppedNotBusy(P: Program, t: seq<State>)
    requires Trace(P, t) && t[|t| - 1].status != Running
    ensures !Busy(P, t[0], |t|)
  {
    hide Step;
    if Busy(P, t[0], |t|) {
      var u: seq<State> :| Trace(P, u) && u[0] == t[0] && |u| > |t| && u[|u| - 1].status == Running;
      TracesAgree(P, t, u, |t| - 1);
      StoppedStays(P, u, |t| - 1, |u| - 1);
    }
  }

  lemma StoppedUnique(P: Program, m: State, a: State, b: State)
    requires Reaches(P, m, a) && Reaches(P, m, b) && a.status != Running && b.status != Running
    ensures a == b
  {
    hide Step;
    var t :| TraceFromTo(P, t, m, a);
    var u :| TraceFromTo(P, u, m, b);
    if |t| <= |u| {
      TracesAgree(P, t, u, |t| - 1);
      StoppedStays(P, u, |t| - 1, |u| - 1);
    } else {
      TracesAgree(P, t, u, |u| - 1);
      StoppedStays(P, t, |u| - 1, |t| - 1);
    }
  }

  /** A machine that stops stops the way the source ends: it halts with the final
      values of the variables in their registers, or fails with the source's
      error. In particular it is never stuck. */
  lemma ScriptStops(ss: seq<Stmt>, st: CState, pool: seq<Value>, env: Env, m: State, m': State)
    requires Compiled(ss, st, pool, env, m)
    requires Reaches(Script(ss, st, pool), m, m') && m'.status != Running
    ensures exists fuel: nat :: Ended(ss, st, ExecAll(ss, env, fuel), m')
  {
    hide Compiled, Step, ExecAll, CodeAll, StmtsConsts;
    var P := Script(ss, st, pool);
    var t :| TraceFromTo(P, t, m, m');
    StoppedNotBusy(P, t);
    ScriptRuns(ss, st, pool, env, m, |t|);
    var o := ExecAll(ss, env, |t|);
    var m'' :| Reaches(P, m, m'') && Ended(ss, st, o, m'');
    StoppedUnique(P, m, m', m'');
    assert Ended(ss, st, ExecAll(ss, env, |t|), m');
  }

  /** The script stops on the machine iff it stops in the source. */
  lemma ScriptTerminates(ss: seq<Stmt>, st: CState, pool: seq<Value>, env: Env, m: State)
    requires Compiled(ss, st, pool, env, m)
    ensures (exists m' :: Reaches(Script(ss, st, pool), m, m') && m'.status != Running)
            <==> (exists fuel: nat :: !ExecAll(ss, env, fuel).Timeout?)
  {
    hide Compiled, Step, ExecAll, CodeAll, StmtsConsts, Reaches, Busy, Rel;
    var P := Script(ss, st, pool);
    if m' :| Reaches(P, m, m') && m'.status != Running {
      ScriptStops(ss, st, pool, env, m, m');
      var fuel: nat :| Ended(ss, st, ExecAll(ss, env, fuel), m');
      assert !ExecAll(ss, env, fuel).Timeout?;
    }
    if fuel: nat :| !ExecAll(ss, env, fuel).Timeout? {
      ScriptRuns(ss, st, pool, env, m, fuel);
      var m' :| Reaches(P, m, m') && Ended(ss, st, ExecAll(ss, env, fuel), m');
      assert Reaches(P, m, m') && m'.status != Running;
    }
  }
}
