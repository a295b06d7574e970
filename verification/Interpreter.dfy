/** From the syntax tree to the end of the run: the compiler and the machine
    together do what the source semantics says. */
module Interpreter {
  import opened Words
  import opened Syntax
  import opened Values
  import opened Source
  import opened Codegen
  import opened Machine
  import opened ExprCorrect
  import opened StmtCode
  import opened ProgramCorrect
  import C = Compiler
  import V = VirtualMachine

  const START := CState([map[]], 0, 0, 0)

  /** A compiled script runs into none of the cases the source leaves undefined. */
  lemma NeverStuck(ss: seq<Stmt>, st: CState, pool: seq<Value>, env: Env, m: State)
    requires Compiled(ss, st, pool, env, m)
    ensures V.Safe(Script(ss, st, pool), m)
  {
    hide Compiled, Reaches, CodeAll, StmtsConsts, ExecAll;
    forall m' | Reaches(Script(ss, st, pool), m, m') ensures m'.status != Stuck {
      if m'.status != Running {
        ScriptStops(ss, st, pool, env, m, m');
        var fuel: nat :| Ended(ss, st, ExecAll(ss, env, fuel), m');
      }
    }
  }

  lemma StartCompiled(ss: seq<Stmt>, m: State)
    requires ScopedAll(ss, [map[]], {}) && (forall x | x in ss :: InFragment(x, {}, false))
    requires FitsAll(true, ss, START, map[]) && |StmtsConsts(ss)| <= 0x1_0000_0000
    requires m.status == Running && m.ip == 0 && |m.regs| >= WINDOW
    ensures Compiled(ss, START, [], [map[]], m)
  {
    hide ScopedAll, InFragment, FitsAll;
    assert Access([map[]]) == [map[]];
    assert [] + StmtsConsts(ss) == StmtsConsts(ss);
  }

  /** Compile a script and run at most `steps` instructions of it. An ill-scoped
      script is rejected; any other either is still running, or has stopped as the
      source does, with the final values of its variables in their registers. */
  method RunScript(ss: seq<Stmt>, steps: nat) returns (hitError: bool, vm: V.VirtualMachine?)
    requires forall x | x in ss :: InFragment(x, {}, false)
    requires FitsAll(true, ss, START, map[]) && |StmtsConsts(ss)| <= 0x1_0000_0000
    ensures hitError == !ScopedAll(ss, [map[]], {}) == (vm == null)
    ensures vm != null && vm.status != Running ==>
              exists fuel: nat :: Ended(ss, START, ExecAll(ss, [map[]], fuel), vm.Now())
  {
    hide ScopedAll, FitsAll, CodeAll, StmtsConsts, ExecAll, AfterAll, Compiled, Ended, V.Safe, Reaches;
    var compiler := new C.Compiler(0);
    assert Access([map[]]) == [map[]];
    compiler.Compile(ss);
    hitError, vm := compiler.hitError, null;
    if hitError { return; }
    vm := new V.VirtualMachine(Program(compiler.code.block, compiler.code.pool));
    ghost var m := vm.Now();
    StartCompiled(ss, m);
    NeverStuck(ss, START, [], [map[]], m);
    ghost var t := vm.Run(steps);
    if vm.status != Running {
      assert Reaches(vm.program, m, vm.Now()) by { Witness(vm.program, t, m, vm.Now()); }
      ScriptStops(ss, START, [], [map[]], m, vm.Now());
    }
  }

  lemma Witness(P: Program, t: seq<State>, m: State, m': State)
    requires TraceFromTo(P, t, m, m')
    ensures Reaches(P, m, m')
  {
  }
}
