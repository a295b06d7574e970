/** Calls of user functions (src/vm.cpp: callUserFunc, prepFuncArgs, restoreData and
    OP_RETURN). A callee gets a window of the register file that starts at its
    arguments; frames remember the caller. Instructions that have nothing to do with
    functions, cells or globals work inside the window as `Machine` says. */
module Calls {
  import opened Words
  import opened Opcodes
  import opened Values
  import opened Syntax
  import M = Machine

  const MAX_CALL_DEPTH := 1000

  datatype Function = Function(
    body: M.Program,
    arityMin: u8,
    arityMax: u8,
    variadic: bool,
    defaults: seq<M.Program>)

  /** Which chunk is running. While a call is being prepared it is the chunk of a
      default argument: prepFuncArgs has run those before `k` and has those after it
      still to run. */
  datatype Code = Script | DefaultOf(func: nat, k: nat) | BodyOf(func: nat)

  datatype Unit = Unit(script: M.Program, funcs: seq<Function>)

  function Chunk(U: Unit, code: Code): M.Program {
    match code
    case Script => U.script
    case BodyOf(f) => if f < |U.funcs| then U.funcs[f].body else M.Program([], [])
    case DefaultOf(f, k) =>
      if f < |U.funcs| && k < |U.funcs[f].defaults| then U.funcs[f].defaults[k] else M.Program([], [])
  }

  datatype Frame = Frame(code: Code, closure: Option<nat>, window: nat, ip: nat)

  datatype Object = UserFunc(func: nat) | Closure(func: nat, cells: seq<nat>)

  datatype Cell = Open(loc: nat) | Closed(value: Value)

  datatype State = State(
    code: Code,
    ip: nat,
    closure: Option<nat>,
    window: nat,
    args: nat,
    regs: seq<Value>,
    scopes: seq<nat>,
    frames: seq<Frame>,
    objects: seq<Object>,
    cells: seq<Cell>,
    status: M.Status)

  function Stop(s: State): State {
    s.(status := M.Stuck)
  }

  /** Register `a` of the window. */
  function Reg(s: State, a: nat): Value
    requires s.window + a < |s.regs|
  {
    s.regs[s.window + a]
  }

  function SetReg(s: State, a: nat, v: Value): State
    requires s.window + a < |s.regs|
  {
    s.(regs := s.regs[s.window + a := v])
  }

  /* Cells. */

  /** The open cell at a location among the first `n`, newest first; `n` when there is none. */
  function FindCell(cells: seq<Cell>, loc: nat, n: nat): (c: nat)
    requires n <= |cells|
    ensures c < |cells| ==> cells[c] == Open(loc)
    ensures c <= |cells|
  {
    if n == 0 then |cells| else if cells[n - 1] == Open(loc) then n - 1 else FindCell(cells, loc, n - 1)
  }

  /** closeCells: every open cell at `limit` or above takes its value over. */
  function CloseFrom(cells: seq<Cell>, regs: seq<Value>, limit: nat): (r: seq<Cell>)
    ensures |r| == |cells|
  {
    seq(|cells|, c requires 0 <= c < |cells| =>
      if cells[c].Open? && limit <= cells[c].loc < |regs| then Closed(regs[cells[c].loc]) else cells[c])
  }

  function CellAt(s: State, index: nat): Option<nat> {
    if s.closure.None? || s.closure.value >= |s.objects| then None
    else
      var o := s.objects[s.closure.value];
      if o.Closure? && index < |o.cells| && o.cells[index] < |s.cells| then Some(o.cells[index]) else None
  }

  function GetCell(s: State, dest: nat, index: nat): State
    requires s.window + dest < |s.regs|
  {
    match CellAt(s, index)
    case None => Stop(s)
    case Some(c) =>
      match s.cells[c]
      case Open(loc) => if loc < |s.regs| then SetReg(s, dest, s.regs[loc]) else Stop(s)
      case Closed(v) => SetReg(s, dest, v)
  }

  function SetCell(s: State, index: nat, src: nat): State
    requires s.window + src < |s.regs|
  {
    match CellAt(s, index)
    case None => Stop(s)
    case Some(c) =>
      match s.cells[c]
      case Open(loc) => if loc < |s.regs| then s.(regs := s.regs[loc := Reg(s, src)]) else Stop(s)
      case Closed(_) => s.(cells := s.cells[c := Closed(Reg(s, src))])
  }

  /** OP_CLOSURE. */
  function MakeClosure(s: State, slot: nat): State
    requires s.window + slot < |s.regs|
  {
    match Reg(s, slot)
    case Callable(h) =>
      if h < |s.objects| && s.objects[h].UserFunc?
      then SetReg(s.(objects := s.objects + [Closure(s.objects[h].func, [])]), slot, Callable(|s.objects|))
      else Stop(s)
    case _ => Stop(s)
  }

  function AddCell(s: State, slot: nat, c: nat): State
    requires s.window + slot < |s.regs|
  {
    match Reg(s, slot)
    case Callable(h) =>
      if h < |s.objects| && s.objects[h].Closure?
      then s.(objects := s.objects[h := s.objects[h].(cells := s.objects[h].cells + [c])])
      else Stop(s)
    case _ => Stop(s)
  }

  /** OP_CAPTURE_GLOBAL and OP_CAPTURE_LOCAL. */
  function CaptureAt(s: State, slot: nat, loc: nat): State
    requires s.window + slot < |s.regs|
  {
    var c := FindCell(s.cells, loc, |s.cells|);
    AddCell(if c < |s.cells| then s else s.(cells := s.cells + [Open(loc)]), slot, c)
  }

  function CaptureCell(s: State, slot: nat, index: nat): State
    requires s.window + slot < |s.regs|
  {
    match CellAt(s, index)
    case None => Stop(s)
    case Some(c) => AddCell(s, slot, c)
  }

  /* Calling and returning. */

  /** checkFuncArgs: three tests, one for each message. */
  predicate ArityError(f: Function, argCount: u8) {
    || (!f.variadic && f.arityMin == f.arityMax && argCount != f.arityMin)
    || argCount < f.arityMin
    || (!f.variadic && argCount > f.arityMax)
  }

  /** prepFuncArgs: the chunk to run when `k` defaults are done or not needed. */
  function Prepared(U: Unit, f: nat, k: nat): Code
    requires f < |U.funcs|
  {
    if k < Low(U.funcs[f].arityMax - U.funcs[f].arityMin) then DefaultOf(f, k) else BodyOf(f)
  }

  function Enter(U: Unit, s: State, h: nat, start: nat, argCount: u8): State
    requires h < |s.objects| && s.objects[h].func < |U.funcs|
  {
    var f := s.objects[h].func;
    s.(frames := s.frames + [Frame(s.code, s.closure, s.window, s.ip)],
       closure := if s.objects[h].Closure? then Some(h) else None,
       window := s.window + start,
       code := Prepared(U, f, Low(argCount - U.funcs[f].arityMin)),
       ip := 0)
  }

  /** OP_CALL_DEF; `s` is past the instruction. The compiler reserves a register for
      the callee, so the arguments never start at 0. */
  function Call(U: Unit, s: State, location: u8, start: u8, argCount: u8): (s': State)
    requires s.window + M.WINDOW <= |s.regs|
    ensures |s'.regs| == |s.regs|
  {
    var s := s.(args := argCount);
    match Reg(s, location)
    case Callable(h) =>
      if start == 0 || h >= |s.objects| || s.objects[h].func >= |U.funcs| then Stop(s)
      else if |s.frames| == MAX_CALL_DEPTH then SetReg(s, start - 1, Invalid)
      else if ArityError(U.funcs[s.objects[h].func], argCount) then s.(status := M.Failed(ArityMismatch))
      else Enter(U, s, h, start, argCount)
    case _ => s.(status := M.Failed(NotCallable))
  }

  /** restoreData. */
  function Restore(s: State): State
    requires s.frames != []
  {
    var frame := s.frames[|s.frames| - 1];
    s.(code := frame.code, closure := frame.closure, window := frame.window, ip := frame.ip,
       frames := s.frames[..|s.frames| - 1])
  }

  function Return(s: State, slot: u8): (s': State)
    requires s.window + M.WINDOW <= |s.regs|
    ensures |s'.regs| == |s.regs|
  {
    if s.frames == [] || s.window == 0 then Stop(s)
    else
      var regs := s.regs[s.window - 1 := Reg(s, slot)][s.window + slot := Invalid];
      Restore(s.(regs := regs, cells := CloseFrom(s.cells, regs, s.window)))
  }

  /** OP_HALT ends the script and the chunks of default arguments. */
  function Halt(U: Unit, s: State): State {
    match s.code
    case Script => s.(ip := s.ip + 1, status := M.Halted)
    case DefaultOf(f, k) => if f < |U.funcs| then s.(code := Prepared(U, f, k + 1), ip := 0) else Stop(s)
    case BodyOf(_) => Stop(s)
  }

  /** OP_VAR_ARGS. */
  function VarArgs(s: State, start: u8): (s': State)
    requires s.window + M.WINDOW <= |s.regs|
    ensures |s'.regs| == |s.regs|
  {
    if s.args > M.WINDOW then Stop(s)
    else
      var surplus := if start < s.args then s.regs[s.window + start..s.window + s.args] else [];
      SetReg(s, start, List(surplus))
  }

  function ExitScope(s: State): State {
    if s.scopes == [] then Stop(s)
    else
      var limit := s.scopes[|s.scopes| - 1];
      s.(scopes := s.scopes[..|s.scopes| - 1], cells := CloseFrom(s.cells, s.regs, limit))
  }

  /** All other instructions stay inside the window. */
  function Inner(U: Unit, s: State): (s': State)
    requires s.window + M.WINDOW <= |s.regs|
    ensures |s'.regs| == |s.regs|
  {
    var m := M.Step(Chunk(U, s.code), M.State(s.ip, s.regs[s.window..s.window + M.WINDOW], [], s.status));
    s.(ip := m.ip, regs := s.regs[..s.window] + m.regs + s.regs[s.window + M.WINDOW..], status := m.status)
  }

  predicate HasTwo(op: u8) {
    op == OP_RETURN || op == OP_VOID || op == OP_VAR_ARGS || op == OP_CLOSURE || op == OP_ENTER_SCOPE
  }

  function StepTwo(s: State, op: u8, a: u8): (s': State)
    requires s.window + M.WINDOW <= |s.regs|
    ensures |s'.regs| == |s.regs|
  {
    if op == OP_RETURN then Return(s, a)
    else if op == OP_VOID then SetReg(s, a, Void)
    else if op == OP_VAR_ARGS then VarArgs(s, a)
    else if op == OP_CLOSURE then MakeClosure(s, a)
    else s.(scopes := s.scopes + [s.window + a])
  }

  predicate HasThree(op: u8) {
    || op == OP_GET_GLOBAL || op == OP_SET_GLOBAL || op == OP_GET_CELL || op == OP_SET_CELL
    || op == OP_CAPTURE_GLOBAL || op == OP_CAPTURE_LOCAL || op == OP_CAPTURE_CELL
  }

  function StepThree(s: State, op: u8, a: u8, b: u8): (s': State)
    requires s.window + M.WINDOW <= |s.regs|
    ensures |s'.regs| == |s.regs|
  {
    if op == OP_GET_GLOBAL then SetReg(s, a, s.regs[b])
    else if op == OP_SET_GLOBAL then s.(regs := s.regs[a := Reg(s, b)])
    else if op == OP_GET_CELL then GetCell(s, a, b)
    else if op == OP_SET_CELL then SetCell(s, a, b)
    else if op == OP_CAPTURE_GLOBAL then CaptureAt(s, a, b)
    else if op == OP_CAPTURE_LOCAL then CaptureAt(s, a, s.window + b)
    else CaptureCell(s, a, b)
  }

  function Step(U: Unit, s: State): (s': State)
    ensures |s'.regs| == |s.regs|
  {
    var P := Chunk(U, s.code);
    if s.status != M.Running then s
    else if s.window + M.WINDOW > |s.regs| || !M.Has(P, s.ip, 1) then Stop(s)
    else
      var op := P.code[s.ip];
      if op == OP_HALT then Halt(U, s)
      else if op == OP_EXIT_SCOPE then ExitScope(s.(ip := s.ip + 1))
      else if HasTwo(op) then
        if M.Has(P, s.ip, 2) then StepTwo(s.(ip := s.ip + 2), op, P.code[s.ip + 1]) else Stop(s)
      else if HasThree(op) then
        if M.Has(P, s.ip, 3) then StepThree(s.(ip := s.ip + 3), op, P.code[s.ip + 1], P.code[s.ip + 2]) else Stop(s)
      else if op == OP_CALL_DEF then
        if M.Has(P, s.ip, 4) then Call(U, s.(ip := s.ip + 4), P.code[s.ip + 1], P.code[s.ip + 2], P.code[s.ip + 3])
        else Stop(s)
      else Inner(U, s)
  }

  /* Runs. */

  function After(U: Unit, s: State, n: nat): (s': State)
    ensures |s'.regs| == |s.regs|
  {
    if n == 0 then s else Step(U, After(U, s, n - 1))
  }

  /** Register a step writes as a global variable or through a cell. */
  function Shared(U: Unit, s: State): set<nat> {
    var P := Chunk(U, s.code);
    if s.status != M.Running || !M.Has(P, s.ip, 3) then {}
    else if P.code[s.ip] == OP_SET_GLOBAL then {P.code[s.ip + 1] as nat}
    else if P.code[s.ip] == OP_SET_CELL then
      match CellAt(s, P.code[s.ip + 1])
      case Some(c) => (match s.cells[c] case Open(loc) => {loc} case _ => {})
      case None => {}
    else {}
  }

  function Touched(U: Unit, s: State, n: nat): set<nat> {
    if n == 0 then {} else Touched(U, s, n - 1) + Shared(U, After(U, s, n - 1))
  }

  lemma {:induction false} AfterPlus(U: Unit, s: State, m: nat, n: nat)
    ensures After(U, s, m + n) == After(U, After(U, s, m), n)
    decreases n
  {
    hide Step;
    if n > 0 {
      AfterPlus(U, s, m, n - 1);
    }
  }

  /* What one step may do to its callers. */

  ghost predicate SameBelow(regs: seq<Value>, regs': seq<Value>, limit: nat, except: set<nat>) {
    |regs| == |regs'| && forall i | 0 <= i < |regs| && i < limit && i !in except :: regs'[i] == regs[i]
  }

  /** Stays in its function. */
  ghost predicate Stays(U: Unit, s: State, s': State) {
    && s'.frames == s.frames && s'.window == s.window && s'.closure == s.closure
    && SameBelow(s.regs, s'.regs, s.window, Shared(U, s))
  }

  /** Enters a callee. */
  ghost predicate Enters(s: State, s': State) {
    && s'.window > s.window && s'.regs == s.regs
    && |s'.frames| == |s.frames| + 1 && s'.frames[..|s.frames|] == s.frames
    && s'.frames[|s.frames|].window == s.window && s'.frames[|s.frames|].closure == s.closure
  }

  /** Goes back to a caller, with the value of a register. */
  ghost predicate Returns(s: State, s': State, slot: nat) {
    && s.frames != [] && 0 < s.window && s.window + slot < |s.regs| == |s'.regs| && s'.status == s.status
    && Restored(s.frames[|s.frames| - 1], s') && s'.frames == s.frames[..|s.frames| - 1]
    && SameBelow(s.regs, s'.regs, s.window, {s.window - 1})
    && s'.regs[s.window - 1] == s.regs[s.window + slot]
  }

  ghost predicate Restored(frame: Frame, s: State) {
    s.code == frame.code && s.closure == frame.closure && s.window == frame.window && s.ip == frame.ip
  }

  /** The instruction at `ip`, when its first operand is there too. */
  ghost predicate At(U: Unit, s: State, op: u8) {
    var P := Chunk(U, s.code);
    s.status == M.Running && M.Has(P, s.ip, 2) && P.code[s.ip] == op
  }

  ghost function Operand(U: Unit, s: State): u8
    requires M.Has(Chunk(U, s.code), s.ip, 2)
  {
    Chunk(U, s.code).code[s.ip + 1]
  }

  lemma InnerStays(U: Unit, s: State)
    requires s.window + M.WINDOW <= |s.regs|
    ensures Stays(U, s, Inner(U, s))
  {
    hide M.Step;
  }

  lemma TwoMoves(s: State, op: u8, a: u8)
    requires s.window + M.WINDOW <= |s.regs|
    ensures var s' := StepTwo(s, op, a);
            || (s'.frames == s.frames && s'.window == s.window && s'.closure == s.closure
                && SameBelow(s.regs, s'.regs, s.window, {}))
            || (op == OP_RETURN && Returns(s, s', a))
  {
  }

  lemma CallMoves(U: Unit, s: State, location: u8, start: u8, argCount: u8)
    requires s.window + M.WINDOW <= |s.regs|
    ensures var s' := Call(U, s, location, start, argCount);
            || (s'.frames == s.frames && s'.window == s.window && s'.closure == s.closure
                && SameBelow(s.regs, s'.regs, s.window, {}))
            || Enters(s, s')
  {
  }

  lemma ThreeMoves(U: Unit, s: State, s1: State, op: u8, a: u8, b: u8)
    requires s.window + M.WINDOW <= |s.regs| && s.status == M.Running && s1 == s.(ip := s.ip + 3) && HasThree(op)
    requires var P := Chunk(U, s.code); M.Has(P, s.ip, 3) && P.code[s.ip] == op && P.code[s.ip + 1] == a && P.code[s.ip + 2] == b
    ensures Stays(U, s, StepThree(s1, op, a, b))
  {
    hide CloseFrom;
  }

  lemma StepMoves(U: Unit, s: State)
    ensures var s' := Step(U, s);
            Stays(U, s, s') || Enters(s, s') || (At(U, s, OP_RETURN) && Returns(s, s', Operand(U, s)))
  {
    hide M.Step, StepTwo, StepThree, Call, Inner, CloseFrom, Shared;
    var P := Chunk(U, s.code);
    if s.status == M.Running && s.window + M.WINDOW <= |s.regs| && M.Has(P, s.ip, 1) {
      var op := P.code[s.ip];
      if HasTwo(op) {
        if M.Has(P, s.ip, 2) {
          TwoMoves(s.(ip := s.ip + 2), op, P.code[s.ip + 1]);
        }
      } else if HasThree(op) {
        if M.Has(P, s.ip, 3) {
          ThreeMoves(U, s, s.(ip := s.ip + 3), op, P.code[s.ip + 1], P.code[s.ip + 2]);
        }
      } else if op == OP_CALL_DEF {
        if M.Has(P, s.ip, 4) {
          CallMoves(U, s.(ip := s.ip + 4), P.code[s.ip + 1], P.code[s.ip + 2], P.code[s.ip + 3]);
        }
      } else {
        InnerStays(U, s);
      }
    }
  }

  /* A whole call. */

  /** Window of the `k`-th active function, counted from the script. */
  function Level(s: State, k: nat): nat
    requires k <= |s.frames|
  {
    if k < |s.frames| then s.frames[k].window else s.window
  }

  /** `t` is still inside the call that was entered with `s`. */
  ghost predicate Within(s: State, t: State, touched: set<nat>) {
    var d := |s.frames|;
    && 0 < d <= |t.frames| && t.frames[..d] == s.frames
    && Level(t, d) == s.window && s.window > 0
    && (forall k | d < k <= |t.frames| :: Level(t, k) > s.window)
    && SameBelow(s.regs, t.regs, s.window - 1, touched)
  }

  lemma WithinStays(U: Unit, s: State, t: State, t': State, touched: set<nat>)
    requires Within(s, t, touched) && Stays(U, t, t')
    ensures Within(s, t', touched + Shared(U, t))
  {
    hide Shared;
    var d := |s.frames|;
    assert Level(t, |t.frames|) >= s.window;
    forall k | d <= k <= |t.frames| ensures Level(t', k) == Level(t, k) {}
    KeepsBelow(s, t, t', touched, Shared(U, t));
  }

  lemma WithinEnters(s: State, t: State, t': State, touched: set<nat>)
    requires Within(s, t, touched) && Enters(t, t')
    ensures Within(s, t', touched)
  {
    var d := |s.frames|;
    assert Level(t, |t.frames|) >= s.window;
    assert t'.frames[..d] == t'.frames[..|t.frames|][..d];
    forall k | d <= k <= |t.frames| ensures Level(t', k) == Level(t, k) {
      if k < |t.frames| { assert t'.frames[..|t.frames|][k] == t.frames[k]; }
    }
    forall k | d < k <= |t'.frames| ensures Level(t', k) > s.window {
      if k <= |t.frames| { assert Level(t', k) == Level(t, k); }
    }
  }

  lemma WithinReturns(s: State, t: State, t': State, slot: nat, touched: set<nat>)
    requires Within(s, t, touched) && Returns(t, t', slot) && |t'.frames| >= |s.frames|
    ensures Within(s, t', touched)
  {
    var d, n := |s.frames|, |t.frames| - 1;
    assert t'.frames[..d] == t.frames[..d];
    forall k | d <= k <= n ensures Level(t', k) == Level(t, k) {}
    assert Level(t, n + 1) > s.window;
    KeepsBelow(s, t, t', touched, {t.window - 1});
    assert SameBelow(s.regs, t'.regs, s.window - 1, touched);
  }

  /** Registers that are changed are touched, or not below the window of `s`. */
  lemma KeepsBelow(s: State, t: State, t': State, touched: set<nat>, more: set<nat>)
    requires 0 < s.window <= t.window && SameBelow(s.regs, t.regs, s.window - 1, touched)
    requires SameBelow(t.regs, t'.regs, t.window, more)
    ensures SameBelow(s.regs, t'.regs, s.window - 1, touched + more)
    ensures (forall x | x in more :: x >= s.window) ==> SameBelow(s.regs, t'.regs, s.window - 1, touched)
  {
    forall i | 0 <= i < |s.regs| && i < s.window - 1 && i !in touched && i !in more ensures t'.regs[i] == s.regs[i] {
      assert t.regs[i] == s.regs[i];
    }
  }

  lemma WithinStep(U: Unit, s: State, t: State, touched: set<nat>)
    requires Within(s, t, touched) && |Step(U, t).frames| >= |s.frames|
    ensures Within(s, Step(U, t), touched + Shared(U, t))
  {
    hide Step, Shared, Within, Stays, Enters, Returns;
    var t' := Step(U, t);
    StepMoves(U, t);
    if Stays(U, t, t') {
      WithinStays(U, s, t, t', touched);
    } else if Enters(t, t') {
      WithinEnters(s, t, t', touched);
      TouchedMore(s, t', touched, Shared(U, t));
    } else {
      WithinReturns(s, t, t', Operand(U, t), touched);
      TouchedMore(s, t', touched, Shared(U, t));
    }
  }

  lemma TouchedMore(s: State, t: State, touched: set<nat>, more: set<nat>)
    requires Within(s, t, touched)
    ensures Within(s, t, touched + more)
  {
  }

  lemma WithinHome(U: Unit, s: State, t: State, touched: set<nat>)
    requires Within(s, t, touched) && |Step(U, t).frames| < |s.frames|
    ensures var u, d := Step(U, t), |s.frames|;
            && At(U, t, OP_RETURN) && t.window == s.window && t.window + Operand(U, t) < |t.regs|
            && u.frames == s.frames[..d - 1] && Restored(s.frames[d - 1], u) && u.status == M.Running
            && SameBelow(s.regs, u.regs, s.window - 1, touched)
            && u.regs[s.window - 1] == Reg(t, Operand(U, t))
  {
    hide Step;
    StepMoves(U, t);
    var d := |s.frames|;
    assert Level(t, d) == s.window;
    assert s.frames[d - 1] == t.frames[..d][d - 1];
    assert t.frames[..d][..d - 1] == t.frames[..d - 1];
  }

  /** A call that is about to be made and not refused. */
  ghost predicate AtCall(U: Unit, s: State) {
    var P := Chunk(U, s.code);
    && s.status == M.Running && s.window + M.WINDOW <= |s.regs|
    && M.Has(P, s.ip, 4) && P.code[s.ip] == OP_CALL_DEF && P.code[s.ip + 2] > 0
    && |s.frames| != MAX_CALL_DEPTH
    && match Reg(s, P.code[s.ip + 1])
       case Callable(h) =>
         && h < |s.objects| && s.objects[h].func < |U.funcs|
         && !ArityError(U.funcs[s.objects[h].func], P.code[s.ip + 3])
       case _ => false
  }

  /** Where the arguments start. */
  ghost function Base(U: Unit, s: State): nat
    requires AtCall(U, s)
  {
    s.window + Chunk(U, s.code).code[s.ip + 2]
  }

  /** The handle that is called. */
  ghost function Called(U: Unit, s: State): (h: nat)
    requires AtCall(U, s)
    ensures h < |s.objects|
  {
    Reg(s, Chunk(U, s.code).code[s.ip + 1]).h
  }

  /** What a callee has as its closure: itself, when it is a closure object. */
  ghost function OwnClosure(U: Unit, s: State): Option<nat>
    requires AtCall(U, s)
  {
    match s.objects[Called(U, s)]
    case Closure(_, _) => Some(Called(U, s))
    case UserFunc(_) => None
  }

  lemma CallEnters(U: Unit, s: State)
    requires AtCall(U, s)
    ensures var s1 := Step(U, s);
            && s1.frames == s.frames + [Frame(s.code, s.closure, s.window, s.ip + 4)]
            && s1.window == Base(U, s) && s1.closure == OwnClosure(U, s)
            && s1.regs == s.regs && s1.cells == s.cells && s1.objects == s.objects
            && s1.status == M.Running && Shared(U, s) == {}
  {
    hide M.Step;
  }

  /** The call ends with step `n`: then for the first time its frame is gone. */
  ghost predicate EndsAt(U: Unit, s: State, n: nat) {
    n > 0 && (forall i | 0 < i < n :: |After(U, s, i).frames| > |s.frames|) && |After(U, s, n).frames| <= |s.frames|
  }

  lemma {:induction false} StaysWithin(U: Unit, s: State, n: nat)
    requires AtCall(U, s) && n > 0
    requires forall i | 0 < i <= n :: |After(U, s, i).frames| > |s.frames|
    ensures Within(After(U, s, 1), After(U, s, n), Touched(U, s, n))
    decreases n
  {
    hide Step, Shared, Within, AtCall;
    CallEnters(U, s);
    assert After(U, s, 0) == s && After(U, s, 1) == Step(U, s);
    if n == 1 {
      FirstWithin(U, s);
      assert Touched(U, s, 1) == Touched(U, s, 0) + Shared(U, After(U, s, 0)) == {};
    } else {
      StaysWithin(U, s, n - 1);
      assert After(U, s, n) == Step(U, After(U, s, n - 1)) && |After(U, s, n).frames| > |s.frames|;
      assert Touched(U, s, n) == Touched(U, s, n - 1) + Shared(U, After(U, s, n - 1));
      WithinStep(U, After(U, s, 1), After(U, s, n - 1), Touched(U, s, n - 1));
    }
  }

  lemma FirstWithin(U: Unit, s: State)
    requires AtCall(U, s)
    ensures Within(Step(U, s), Step(U, s), {})
  {
    hide Step;
    CallEnters(U, s);
  }

  /** Calls are transparent, whatever the callee and everything it calls in turn does:
      when the call is over, the caller goes on behind it with its own chunk, closure
      and window; the returned value is in the register before the arguments; and the
      registers below have changed only where a global or a captured variable was assigned. */
  lemma CallTransparent(U: Unit, s: State, n: nat)
    requires AtCall(U, s) && EndsAt(U, s, n)
    ensures n >= 2
    ensures var t, u := After(U, s, n - 1), After(U, s, n);
            && u.frames == s.frames && u.code == s.code && u.closure == s.closure && u.window == s.window
            && u.ip == s.ip + 4 && u.status == M.Running
            && SameBelow(s.regs, u.regs, Base(U, s) - 1, Touched(U, s, n - 1))
            && At(U, t, OP_RETURN) && t.window == Base(U, s) && t.window + Operand(U, t) < |t.regs|
            && u.regs[Base(U, s) - 1] == Reg(t, Operand(U, t))
  {
    hide Step, Shared, Within, AtCall, At, Touched, Operand, Base;
    CallEnters(U, s);
    assert After(U, s, 0) == s && After(U, s, 1) == Step(U, s);
    if n >= 2 {
      StaysWithin(U, s, n - 1);
      assert After(U, s, n) == Step(U, After(U, s, n - 1));
      WithinHome(U, After(U, s, 1), After(U, s, n - 1), Touched(U, s, n - 1));
    }
  }

  /** At the depth limit the call is dropped: an invalid value takes the place of the
      result, and the caller goes on. */
  lemma DepthLimit(U: Unit, s: State)
    requires |s.frames| == MAX_CALL_DEPTH && AtCall(U, s.(frames := [])) && s.window + M.WINDOW <= |s.regs|
    ensures var u := Step(U, s);
            && u.frames == s.frames && u.window == s.window && u.code == s.code && u.closure == s.closure
            && u.ip == s.ip + 4 && u.status == M.Running
            && u.regs == s.regs[Base(U, s.(frames := [])) - 1 := Invalid]
  {
    hide M.Step;
  }

  /** The three arity tests together. */
  lemma ArityExact(f: Function, argCount: u8)
    ensures !ArityError(f, argCount) <==> f.arityMin <= argCount && (f.variadic || argCount <= f.arityMax)
  {
  }

  /* Default arguments. */

  ghost function Missing(U: Unit, f: nat): nat
    requires f < |U.funcs|
  {
    Low(U.funcs[f].arityMax - U.funcs[f].arityMin)
  }

  ghost function LevelClosure(s: State, k: nat): Option<nat>
    requires k <= |s.frames|
  {
    if k < |s.frames| then s.frames[k].closure else s.closure
  }

  /** Code that does not return from its own function is back in its frame, with its
      window and closure, whenever all calls it made have ended. */
  lemma {:induction false} HomeAgain(U: Unit, u: State, n: nat)
    requires forall i | 0 <= i <= n :: |After(U, u, i).frames| >= |u.frames|
    ensures var v, d := After(U, u, n), |u.frames|;
            v.frames[..d] == u.frames && Level(v, d) == u.window && LevelClosure(v, d) == u.closure
    decreases n
  {
    hide Step;
    if n > 0 {
      HomeAgain(U, u, n - 1);
      var t, d := After(U, u, n - 1), |u.frames|;
      StepMoves(U, t);
      var t' := After(U, u, n);
      if |t'.frames| < |t.frames| {
        assert t'.frames[..d] == t.frames[..d];
      } else if |t'.frames| > |t.frames| {
        assert t'.frames[..d] == t'.frames[..|t.frames|][..d];
      }
    }
  }

  /** From `u`, the chunk of default `k` runs for `n` steps up to its OP_HALT, without
      returning from the function that is being called; the parameters before its own
      are the same then. */
  ghost predicate RunsDefault(U: Unit, u: State, f: nat, k: nat, n: nat)
    requires f < |U.funcs|
  {
    var v, own := After(U, u, n), U.funcs[f].arityMin as nat + k;
    && u.code == v.code == DefaultOf(f, k) && u.ip == 0
    && (forall i | 0 <= i <= n :: |After(U, u, i).frames| >= |u.frames|) && |v.frames| == |u.frames|
    && v.status == M.Running && v.window + M.WINDOW <= |v.regs| && own < M.WINDOW
    && u.window + M.WINDOW <= |u.regs| && M.Has(Chunk(U, v.code), v.ip, 1) && Chunk(U, v.code).code[v.ip] == OP_HALT
    && u.regs[u.window..u.window + own] == v.regs[u.window..u.window + own]
  }

  /** All defaults from `k` on, one after the other; `ns` are their lengths. */
  ghost predicate RunsDefaults(U: Unit, u: State, f: nat, k: nat, ns: seq<nat>)
    requires f < |U.funcs|
    decreases ns
  {
    if k >= Missing(U, f) then ns == []
    else
      ns != [] && RunsDefault(U, u, f, k, ns[0]) && RunsDefaults(U, After(U, u, ns[0] + 1), f, k + 1, ns[1..])
  }

  /** What each default chunk computed for its parameter. */
  ghost function Delivered(U: Unit, u: State, f: nat, k: nat, ns: seq<nat>): (vs: seq<Value>)
    requires f < |U.funcs| && RunsDefaults(U, u, f, k, ns)
    ensures |vs| == |ns|
    decreases ns
  {
    if ns == [] then []
    else
      [Reg(After(U, u, ns[0]), U.funcs[f].arityMin as nat + k)] +
      Delivered(U, After(U, u, ns[0] + 1), f, k + 1, ns[1..])
  }

  ghost function Steps(ns: seq<nat>): nat {
    if ns == [] then 0 else ns[0] + 1 + Steps(ns[1..])
  }

  /** The parameters from `from` on hold `vs`. */
  ghost predicate Holds(s: State, from: nat, vs: seq<Value>) {
    s.window + from + |vs| <= |s.regs| && s.regs[s.window + from..s.window + from + |vs|] == vs
  }

  ghost predicate AtBody(s: State, e: State, f: nat) {
    e.code == BodyOf(f) && e.ip == 0 && e.window == s.window && e.closure == s.closure && e.frames == s.frames
  }

  lemma {:induction false} DefaultsInOrder(U: Unit, u: State, f: nat, k: nat, ns: seq<nat>)
    requires f < |U.funcs| && RunsDefaults(U, u, f, k, ns) && u.code == Prepared(U, f, k) && u.ip == 0
    requires u.window + M.WINDOW <= |u.regs| && U.funcs[f].arityMin as nat + k <= M.WINDOW
    ensures var e, own := After(U, u, Steps(ns)), U.funcs[f].arityMin as nat + k;
            && AtBody(u, e, f) && Holds(e, own, Delivered(U, u, f, k, ns))
            && Holds(e, 0, u.regs[u.window..u.window + own])
    decreases ns
  {
    hide After, Delivered, RunsDefaults, RunsDefault, Holds;
    if ns == [] {
      NoDefault(U, u, f, k);
    } else {
      var own := U.funcs[f].arityMin as nat + k;
      NextDefault(U, u, f, k, ns);
      var v, w, rest := After(U, u, ns[0]), After(U, u, ns[0] + 1), ns[1..];
      DefaultsInOrder(U, w, f, k + 1, rest);
      AfterPlus(U, u, ns[0] + 1, Steps(rest));
      var e, vs := After(U, u, Steps(ns)), Delivered(U, w, f, k + 1, rest);
      var kept := w.regs[w.window..w.window + own + 1];
      assert kept[own] == Reg(v, own);
      assert kept[..own] == w.regs[w.window..w.window + own];
      FirstHeld(e, kept, own);
      JoinHeld(e, own, Reg(v, own), vs);
    }
  }

  lemma NoDefault(U: Unit, u: State, f: nat, k: nat)
    requires f < |U.funcs| && RunsDefaults(U, u, f, k, []) && u.code == Prepared(U, f, k) && u.ip == 0
    requires u.window + U.funcs[f].arityMin as nat + k <= |u.regs|
    ensures After(U, u, 0) == u && u.code == BodyOf(f)
    ensures var own := U.funcs[f].arityMin as nat + k;
            Holds(u, own, Delivered(U, u, f, k, [])) && Holds(u, 0, u.regs[u.window..u.window + own])
  {
    hide Step;
  }

  lemma NextDefault(U: Unit, u: State, f: nat, k: nat, ns: seq<nat>)
    requires f < |U.funcs| && RunsDefaults(U, u, f, k, ns) && ns != []
    ensures var v, w, own := After(U, u, ns[0]), After(U, u, ns[0] + 1), U.funcs[f].arityMin as nat + k;
            && RunsDefaults(U, w, f, k + 1, ns[1..])
            && w.code == Prepared(U, f, k + 1) && w.ip == 0
            && w.window == v.window == u.window && w.closure == u.closure && w.frames == u.frames && w.regs == v.regs
            && w.window + M.WINDOW <= |w.regs| && own < M.WINDOW
            && w.regs[w.window..w.window + own] == u.regs[u.window..u.window + own]
            && Delivered(U, u, f, k, ns) == [Reg(v, own)] + Delivered(U, w, f, k + 1, ns[1..])
  {
    hide Step, Chunk, After;
    var v := After(U, u, ns[0]);
    HomeAgain(U, u, ns[0]);
    assert v.frames[..|u.frames|] == v.frames;
    HaltNext(U, v, f, k);
    AfterNext(U, u, ns[0]);
  }

  lemma AfterNext(U: Unit, u: State, n: nat)
    ensures After(U, u, n + 1) == Step(U, After(U, u, n))
  {
  }

  lemma HaltNext(U: Unit, v: State, f: nat, k: nat)
    requires f < |U.funcs| && v.code == DefaultOf(f, k) && v.status == M.Running && v.window + M.WINDOW <= |v.regs|
    requires M.Has(Chunk(U, v.code), v.ip, 1) && Chunk(U, v.code).code[v.ip] == OP_HALT
    ensures Step(U, v) == v.(code := Prepared(U, f, k + 1), ip := 0)
  {
  }

  lemma FirstHeld(e: State, vs: seq<Value>, n: nat)
    requires Holds(e, 0, vs) && n < |vs|
    ensures Holds(e, 0, vs[..n]) && Holds(e, n, [vs[n]])
  {
    assert e.regs[e.window..e.window + n] == e.regs[e.window..e.window + |vs|][..n];
    assert e.regs[e.window + n] == e.regs[e.window..e.window + |vs|][n];
  }

  lemma JoinHeld(e: State, from: nat, v: Value, vs: seq<Value>)
    requires Holds(e, from, [v]) && Holds(e, from + 1, vs)
    ensures Holds(e, from, [v] + vs)
  {
    var i := e.window + from;
    assert e.regs[i..i + 1 + |vs|] == e.regs[i..i + 1] + e.regs[i + 1..i + 1 + |vs|];
  }

  /** The callee of a call. */
  ghost function Target(U: Unit, s: State): (f: nat)
    requires AtCall(U, s)
    ensures f < |U.funcs|
  {
    s.objects[Reg(s, Chunk(U, s.code).code[s.ip + 1]).h].func
  }

  ghost function ArgCount(U: Unit, s: State): u8
    requires AtCall(U, s)
  {
    Chunk(U, s.code).code[s.ip + 3]
  }

  /** The first parameter without an argument, among those with a default. */
  ghost function FirstMissing(U: Unit, s: State): nat
    requires AtCall(U, s)
  {
    Low(ArgCount(U, s) - U.funcs[Target(U, s)].arityMin)
  }

  /** When the body starts, the arguments given are in the first registers, and every
      parameter that got none holds its default, evaluated in the order of declaration
      with the parameters before it in place. */
  lemma ParametersAtEntry(U: Unit, s: State, ns: seq<nat>)
    requires AtCall(U, s) && Base(U, s) + M.WINDOW <= |s.regs|
    requires var f := U.funcs[Target(U, s)]; f.arityMin <= f.arityMax
    requires RunsDefaults(U, Step(U, s), Target(U, s), FirstMissing(U, s), ns)
    ensures var f, count, e := Target(U, s), ArgCount(U, s) as nat, After(U, s, 1 + Steps(ns));
            && |ns| == (if count < U.funcs[f].arityMax then U.funcs[f].arityMax as nat - count else 0)
            && e.code == BodyOf(f) && e.ip == 0 && e.window == Base(U, s) && e.closure == OwnClosure(U, s)
            && e.frames == s.frames + [Frame(s.code, s.closure, s.window, s.ip + 4)]
            && Holds(e, 0, s.regs[Base(U, s)..Base(U, s) + count])
            && Holds(e, count, Delivered(U, Step(U, s), f, FirstMissing(U, s), ns))
  {
    hide Step, Holds, AtCall, Chunk, After, Steps, Delivered, RunsDefaults, Base, OwnClosure, Target, ArgCount, FirstMissing, Missing, Prepared;
    var f, k, u := Target(U, s), FirstMissing(U, s), Step(U, s);
    CallEnters(U, s);
    EntersPrepared(U, s);
    MissingParameters(U, s);
    AfterOne(U, s);
    AfterPlus(U, s, 1, Steps(ns));
    DefaultsInOrder(U, u, f, k, ns);
    HowMany(U, u, f, k, ns);
  }

  lemma MissingParameters(U: Unit, s: State)
    requires AtCall(U, s) && U.funcs[Target(U, s)].arityMin <= U.funcs[Target(U, s)].arityMax
    requires U.funcs[Target(U, s)].arityMin <= ArgCount(U, s)
    ensures var f := U.funcs[Target(U, s)];
            && f.arityMin as nat + FirstMissing(U, s) == ArgCount(U, s) as nat
            && Missing(U, Target(U, s)) == (f.arityMax - f.arityMin) as nat
  {
    hide AtCall, Target, ArgCount;
  }

  lemma AfterOne(U: Unit, s: State)
    ensures After(U, s, 1) == Step(U, s)
  {
    assert After(U, s, 0) == s;
  }

  lemma EntersPrepared(U: Unit, s: State)
    requires AtCall(U, s)
    ensures var f := Target(U, s);
            f < |U.funcs| && U.funcs[f].arityMin <= ArgCount(U, s)
            && Step(U, s).code == Prepared(U, f, FirstMissing(U, s)) && Step(U, s).ip == 0
  {
    hide M.Step;
  }

  lemma {:induction false} HowMany(U: Unit, u: State, f: nat, k: nat, ns: seq<nat>)
    requires f < |U.funcs| && RunsDefaults(U, u, f, k, ns)
    ensures |ns| == if k < Missing(U, f) then Missing(U, f) - k else 0
    decreases ns
  {
    hide After, RunsDefault;
    if ns != [] {
      HowMany(U, After(U, u, ns[0] + 1), f, k + 1, ns[1..]);
    }
  }

  /* One instruction at a time. */

  ghost predicate Ready(s: State) {
    s.status == M.Running && s.window + M.WINDOW <= |s.regs|
  }

  /** The code at `ip` goes on with `bytes`. */
  ghost predicate Next(U: Unit, s: State, bytes: seq<u8>) {
    var P := Chunk(U, s.code);
    M.Has(P, s.ip, |bytes|) && forall i | 0 <= i < |bytes| :: P.code[s.ip + i] == bytes[i]
  }

  lemma DoTwo(U: Unit, s: State, op: u8, a: u8)
    requires Ready(s) && Next(U, s, [op, a]) && HasTwo(op)
    ensures Step(U, s) == StepTwo(s.(ip := s.ip + 2), op, a)
  {
    hide StepTwo, M.Step;
    var P := Chunk(U, s.code);
    assert P.code[s.ip + 0] == [op, a][0] && P.code[s.ip + 1] == [op, a][1];
  }

  lemma DoThree(U: Unit, s: State, op: u8, a: u8, b: u8)
    requires Ready(s) && Next(U, s, [op, a, b]) && HasThree(op)
    ensures Step(U, s) == StepThree(s.(ip := s.ip + 3), op, a, b)
  {
    hide StepThree, M.Step;
    var P := Chunk(U, s.code);
    assert P.code[s.ip + 0] == [op, a, b][0] && P.code[s.ip + 1] == [op, a, b][1] && P.code[s.ip + 2] == [op, a, b][2];
  }

  lemma DoCall(U: Unit, s: State, location: u8, start: u8, argCount: u8)
    requires Ready(s) && Next(U, s, [OP_CALL_DEF, location, start, argCount])
    ensures Step(U, s) == Call(U, s.(ip := s.ip + 4), location, start, argCount)
  {
    hide Call, M.Step;
    var P, bytes := Chunk(U, s.code), [OP_CALL_DEF, location, start, argCount];
    assert P.code[s.ip + 0] == bytes[0] && P.code[s.ip + 1] == bytes[1];
    assert P.code[s.ip + 2] == bytes[2] && P.code[s.ip + 3] == bytes[3];
  }

  /** What a call instruction comes to: a call exactly when a function is called with as
      many arguments as it takes and there is room for a frame; otherwise nothing changes
      but for the error, or for the dropped result at the depth limit. */
  lemma CallOutcome(U: Unit, s: State, location: u8, start: u8, argCount: u8, h: nat)
    requires Ready(s) && Next(U, s, [OP_CALL_DEF, location, start, argCount]) && start > 0
    requires Reg(s, location) == Callable(h) ==> h < |s.objects| && s.objects[h].func < |U.funcs|
    ensures var s', v := Step(U, s), Reg(s, location);
            && (!v.Callable? ==> s'.status == M.Failed(NotCallable) && s'.frames == s.frames && s'.regs == s.regs)
            && (v == Callable(h) ==>
                  var f := U.funcs[s.objects[h].func];
                  var fits := f.arityMin <= argCount && (f.variadic || argCount <= f.arityMax);
                  && (AtCall(U, s) <==> |s.frames| != MAX_CALL_DEPTH && fits)
                  && (|s.frames| != MAX_CALL_DEPTH && !fits ==>
                        s'.status == M.Failed(ArityMismatch) && s'.frames == s.frames && s'.regs == s.regs))
  {
    hide M.Step;
    DoCall(U, s, location, start, argCount);
    var P, bytes := Chunk(U, s.code), [OP_CALL_DEF, location, start, argCount];
    assert P.code[s.ip + 0] == bytes[0] && P.code[s.ip + 1] == bytes[1];
    assert P.code[s.ip + 2] == bytes[2] && P.code[s.ip + 3] == bytes[3];
  }

  lemma DoExit(U: Unit, s: State)
    requires Ready(s) && Next(U, s, [OP_EXIT_SCOPE])
    ensures Step(U, s) == ExitScope(s.(ip := s.ip + 1))
  {
    hide M.Step;
    assert Chunk(U, s.code).code[s.ip + 0] == [OP_EXIT_SCOPE][0];
  }

  /** Code is read in pieces. */
  lemma NextPart(U: Unit, s: State, t: State, bytes: seq<u8>, i: nat, j: nat)
    requires Next(U, s, bytes) && i <= j <= |bytes| && t.code == s.code && t.ip == s.ip + i
    ensures Next(U, t, bytes[i..j])
  {
    var P := Chunk(U, s.code);
    forall k | 0 <= k < j - i ensures P.code[t.ip + k] == bytes[i..j][k] {
      assert P.code[s.ip + (i + k)] == bytes[i + k];
    }
  }

  lemma Whole(U: Unit, s: State)
    requires s.ip == 0
    ensures Next(U, s, Chunk(U, s.code).code)
  {
  }

  /* Variable argument lists. The number of arguments is kept in one place for all calls. */

  /** When all parameters were given, the list holds the surplus arguments in order. */
  lemma VariadicSurplus(U: Unit, s: State)
    requires AtCall(U, s) && Base(U, s) + M.WINDOW <= |s.regs|
    requires var f := U.funcs[Target(U, s)]; f.variadic && f.arityMin <= f.arityMax <= ArgCount(U, s)
    requires Next(U, Step(U, s), [OP_VAR_ARGS, U.funcs[Target(U, s)].arityMax])
    ensures var f, count, u := U.funcs[Target(U, s)], ArgCount(U, s) as nat, After(U, s, 2);
            u.window == Base(U, s) && Reg(u, f.arityMax) == List(s.regs[Base(U, s) + f.arityMax as nat..Base(U, s) + count])
  {
    hide Step, AtCall, Next;
    CallEnters(U, s);
    EntersPrepared(U, s);
    CallSetsArgs(U, s);
    AfterOne(U, s);
    AfterNext(U, s, 1);
    DoTwo(U, Step(U, s), OP_VAR_ARGS, U.funcs[Target(U, s)].arityMax);
  }

  lemma CallSetsArgs(U: Unit, s: State)
    requires AtCall(U, s)
    ensures Step(U, s).args == ArgCount(U, s) as nat
  {
    hide M.Step;
  }

  /** Only calls set the number of arguments. */
  lemma {:induction false} ArgsKept(U: Unit, u: State, n: nat)
    requires forall i | 0 <= i < n :: !At(U, After(U, u, i), OP_CALL_DEF)
    ensures After(U, u, n).args == u.args
    decreases n
  {
    hide Step, At;
    if n > 0 {
      ArgsKept(U, u, n - 1);
      StepArgs(U, After(U, u, n - 1));
    }
  }

  lemma StepArgs(U: Unit, s: State)
    requires !At(U, s, OP_CALL_DEF)
    ensures Step(U, s).args == s.args
  {
    hide M.Step, CloseFrom;
  }

  ghost predicate Calls1(U: Unit, s: State) {
    Ready(s) && M.Has(Chunk(U, s.code), s.ip, 4) && Chunk(U, s.code).code[s.ip] == OP_CALL_DEF
  }

  /** The argument count of the last call instruction among the first `n` steps, made by
      whatever function. */
  ghost function LastCount(U: Unit, s: State, n: nat): nat {
    if n == 0 then s.args
    else
      var t := After(U, s, n - 1);
      if Calls1(U, t) then Chunk(U, t.code).code[t.ip + 3] as nat else LastCount(U, s, n - 1)
  }

  lemma StepCounts(U: Unit, t: State)
    ensures Step(U, t).args == if Calls1(U, t) then Chunk(U, t.code).code[t.ip + 3] as nat else t.args
    ensures Calls1(U, t) ==> Step(U, t).args <= 0xff
  {
    hide M.Step, CloseFrom;
  }

  lemma {:induction false} ArgsLast(U: Unit, s: State, n: nat)
    ensures After(U, s, n).args == LastCount(U, s, n)
    ensures n > 0 && Calls1(U, s) ==> LastCount(U, s, n) <= 0xff
    decreases n
  {
    hide Step, Calls1;
    assert After(U, s, 0) == s;
    if n > 0 {
      ArgsLast(U, s, n - 1);
      StepCounts(U, After(U, s, n - 1));
    }
  }

  lemma CallIsCall(U: Unit, s: State)
    requires AtCall(U, s)
    ensures Calls1(U, s) && LastCount(U, s, 1) == ArgCount(U, s) as nat
  {
    assert After(U, s, 0) == s;
  }

  /** The list when it is collected, at any step after the call, usually once the
      defaults have run (see ParametersAtEntry): it is empty if and only if the last call
      made since, that call included, had at most as many arguments as there are other
      parameters. When arguments are missing, it should always be empty. */
  lemma VariadicAfterDefaults(U: Unit, s: State, m: nat, max: u8)
    requires AtCall(U, s) && m > 0
    requires Ready(After(U, s, m)) && Next(U, After(U, s, m), [OP_VAR_ARGS, max])
    ensures var e, u := After(U, s, m), After(U, s, m + 1);
            u.window == e.window && (Reg(u, max) == List([]) <==> LastCount(U, s, m) <= max as nat)
  {
    hide Step, Next, AtCall, After, LastCount;
    CallIsCall(U, s);
    ArgsLast(U, s, m);
    AfterNext(U, s, m);
    var e := After(U, s, m);
    DoTwo(U, e, OP_VAR_ARGS, max);
    if e.args > max as nat {
      assert |e.regs[e.window + max..e.window + e.args]| > 0;
    }
  }

  /** `func g(a, b) {}`: _func_, the empty block, and the return at the end of the body. */
  const G_BODY: seq<u8> :=
    [OP_LOAD_REG, 2, OP_BYTE_OPER, 0, OP_ENTER_SCOPE, 3, OP_EXIT_SCOPE, OP_VOID, 0, OP_RETURN, 0]

  /** `func f(x = g(1, 2), rest...) {}`, its default with `g` in global register `g`. */
  const F_BODY: seq<u8> :=
    [OP_VAR_ARGS, 1, OP_LOAD_REG, 2, OP_BYTE_OPER, 0, OP_ENTER_SCOPE, 3, OP_EXIT_SCOPE, OP_VOID, 0, OP_RETURN, 0]

  function DefaultCode(g: u8): seq<u8> {
    [OP_GET_GLOBAL, 0, g, OP_LOAD_REG, 1, OP_ONE, OP_LOAD_REG, 2, OP_TWO, OP_CALL_DEF, 0, 1, 2, OP_HALT]
  }

  /** The two functions; `gName` and `fName` stand for the strings of their names. */
  ghost predicate Declares(U: Unit, g: u8, gName: Value, fName: Value) {
    U.funcs == [Function(M.Program(G_BODY, [gName]), 2, 2, false, []),
                Function(M.Program(F_BODY, [fName]), 0, 1, true, [M.Program(DefaultCode(g), [])])]
  }

  /** A script calls `f` without arguments, with the callee in register `r`: the default
      value is computed by a call with two arguments, and one of their registers, which
      the return has moved from, ends up in the argument list. */
  lemma StaleArgCount(U: Unit, s: State, g: u8, f: u8, r: u8, gName: Value, fName: Value)
    requires Declares(U, g, gName, fName) && f < r && g < r < 255
    requires Ready(s) && s.code == Script && s.window == 0 && s.frames == [] && |s.regs| >= 3 * M.WINDOW
    requires s.regs[g] == Callable(0) && s.regs[f] == Callable(1)
    requires |s.objects| >= 2 && s.objects[0] == UserFunc(0) && s.objects[1] == UserFunc(1)
    requires Next(U, s, [OP_GET_GLOBAL, r, f, OP_CALL_DEF, r, r + 1, 0])
    ensures var e := After(U, s, 13);
            e.code == BodyOf(1) && e.window == r as nat + 1 && e.status == M.Running && Reg(e, 1) == List([Invalid])
  {
    hide Step, After, Next, CloseFrom;
    var s2 := StaleCall(U, s, g, f, r, gName, fName);
    var s6 := StaleDefault(U, s2, g, gName, fName);
    var s11 := EmptyBody(U, s6, g, gName, fName);
    AfterPlus(U, s, 2, 4);
    AfterPlus(U, s, 6, 5);
    assert DefaultCode(g)[13] == OP_HALT;
    LastSteps(U, s11, g, gName, fName);
    AfterPlus(U, s, 11, 2);
  }

  lemma DoLoad(U: Unit, s: State, a: u8, v: Value, size: nat)
    requires Ready(s) && Next(U, s, [OP_LOAD_REG, a]) && M.LoadOper(Chunk(U, s.code), s.ip + 2) == M.Oper(v, size)
    ensures Step(U, s) == s.(ip := s.ip + 2 + size, regs := s.regs[s.window + a := v])
  {
    hide M.LoadOper;
    var P, regs := Chunk(U, s.code), s.regs[s.window..s.window + M.WINDOW];
    assert P.code[s.ip + 0] == [OP_LOAD_REG, a][0] && P.code[s.ip + 1] == [OP_LOAD_REG, a][1];
    assert s.regs == s.regs[..s.window] + regs + s.regs[s.window + M.WINDOW..];
    assert s.regs[s.window + a := v] == s.regs[..s.window] + regs[a := v] + s.regs[s.window + M.WINDOW..];
  }

  lemma Piece(U: Unit, s: State, code: seq<u8>, i: nat, j: nat)
    requires Chunk(U, s.code).code == code && s.ip == i <= j <= |code|
    ensures Next(U, s, code[i..j])
  {
  }

  lemma StaleCall(U: Unit, s: State, g: u8, f: u8, r: u8, gName: Value, fName: Value) returns (s2: State)
    requires Declares(U, g, gName, fName) && f < r && g < r < 255
    requires Ready(s) && s.code == Script && s.window == 0 && s.frames == [] && |s.regs| >= 3 * M.WINDOW
    requires s.regs[g] == Callable(0) && s.regs[f] == Callable(1)
    requires |s.objects| >= 2 && s.objects[0] == UserFunc(0) && s.objects[1] == UserFunc(1)
    requires Next(U, s, [OP_GET_GLOBAL, r, f, OP_CALL_DEF, r, r + 1, 0])
    ensures s2 == After(U, s, 2)
    ensures s2.code == DefaultOf(1, 0) && s2.ip == 0 && s2.status == M.Running && s2.window == r as nat + 1
    ensures |s2.regs| >= 3 * M.WINDOW && s2.regs[g] == Callable(0) && |s2.frames| == 1 && s2.objects == s.objects
  {
    hide Step, Next;
    var code := [OP_GET_GLOBAL, r, f, OP_CALL_DEF, r, r + 1, 0];
    assert code[0..3] == [OP_GET_GLOBAL, r, f] && code[3..7] == [OP_CALL_DEF, r, r + 1, 0];
    NextPart(U, s, s, code, 0, 3);
    DoThree(U, s, OP_GET_GLOBAL, r, f);
    var s1 := Step(U, s);
    NextPart(U, s, s1, code, 3, 7);
    DoCall(U, s1, r, r + 1, 0);
    s2 := Step(U, s1);
    AfterOne(U, s);
    AfterNext(U, s, 1);
  }

  lemma StaleDefault(U: Unit, s: State, g: u8, gName: Value, fName: Value) returns (s4: State)
    requires Declares(U, g, gName, fName)
    requires s.code == DefaultOf(1, 0) && s.ip == 0 && s.status == M.Running && g as nat < s.window <= M.WINDOW
    requires |s.regs| >= 3 * M.WINDOW && s.regs[g] == Callable(0) && |s.frames| == 1
    requires |s.objects| >= 2 && s.objects[0] == UserFunc(0)
    ensures s4 == After(U, s, 4)
    ensures s4.code == BodyOf(0) && s4.ip == 0 && s4.window == s.window + 1 && s4.args == 2 && s4.status == M.Running
    ensures s4.frames == s.frames + [Frame(DefaultOf(1, 0), s.closure, s.window, 13)] && |s4.regs| == |s.regs|
  {
    hide Step, Next;
    var code := DefaultCode(g);
    assert code[0..3] == [OP_GET_GLOBAL, 0, g] && code[3..5] == [OP_LOAD_REG, 1] && code[6..8] == [OP_LOAD_REG, 2];
    assert code[9..13] == [OP_CALL_DEF, 0, 1, 2];
    Piece(U, s, code, 0, 3);
    DoThree(U, s, OP_GET_GLOBAL, 0, g);
    var s1 := Step(U, s);
    Piece(U, s1, code, 3, 5);
    DoLoad(U, s1, 1, Int(1), 1);
    var s2 := Step(U, s1);
    Piece(U, s2, code, 6, 8);
    DoLoad(U, s2, 2, Int(2), 1);
    var s3 := Step(U, s2);
    Piece(U, s3, code, 9, 13);
    DoCall(U, s3, 0, 1, 2);
    s4 := Step(U, s3);
    FourSteps(U, s);
  }

  lemma FourSteps(U: Unit, s: State)
    ensures After(U, s, 4) == Step(U, Step(U, Step(U, Step(U, s))))
  {
    hide Step;
    AfterOne(U, s);
    AfterNext(U, s, 1);
    AfterNext(U, s, 2);
    AfterNext(U, s, 3);
  }

  /** `g` runs through its empty body and returns. */
  lemma EmptyBody(U: Unit, s: State, g: u8, gName: Value, fName: Value) returns (u: State)
    requires Declares(U, g, gName, fName) && Ready(s) && s.code == BodyOf(0) && s.ip == 0
    requires s.frames != [] && 0 < s.window
    ensures u == After(U, s, 5)
    ensures Restored(s.frames[|s.frames| - 1], u) && u.status == M.Running && u.args == s.args
    ensures |u.regs| == |s.regs| && u.regs[s.window] == Invalid
  {
    hide Step, Next, CloseFrom;
    var code := G_BODY;
    assert code[0..2] == [OP_LOAD_REG, 2] && code[4..6] == [OP_ENTER_SCOPE, 3] && code[6..7] == [OP_EXIT_SCOPE];
    assert code[7..9] == [OP_VOID, 0] && code[9..11] == [OP_RETURN, 0];
    Piece(U, s, code, 0, 2);
    DoLoad(U, s, 2, gName, 2);
    var s1 := Step(U, s);
    Piece(U, s1, code, 4, 6);
    DoTwo(U, s1, OP_ENTER_SCOPE, 3);
    var s2 := Step(U, s1);
    Piece(U, s2, code, 6, 7);
    DoExit(U, s2);
    var s3 := Step(U, s2);
    Piece(U, s3, code, 7, 9);
    DoTwo(U, s3, OP_VOID, 0);
    var s4 := Step(U, s3);
    Piece(U, s4, code, 9, 11);
    DoTwo(U, s4, OP_RETURN, 0);
    u := Step(U, s4);
    FourSteps(U, s);
    AfterNext(U, s, 4);
  }

  /** The default is done; OP_VAR_ARGS finds the count of the other call. */
  lemma LastSteps(U: Unit, s: State, g: u8, gName: Value, fName: Value)
    requires Declares(U, g, gName, fName) && s.code == DefaultOf(1, 0) && s.ip == 13 && Ready(s)
    requires s.args == 2 && s.regs[s.window + 1] == Invalid
    ensures var e := After(U, s, 2);
            e.code == BodyOf(1) && e.window == s.window && e.status == M.Running && Reg(e, 1) == List([Invalid])
  {
    hide Step, Next;
    HaltNext(U, s, 1, 0);
    var s1 := Step(U, s);
    assert F_BODY[0..2] == [OP_VAR_ARGS, 1];
    Piece(U, s1, F_BODY, 0, 2);
    DoTwo(U, s1, OP_VAR_ARGS, 1);
    assert s1.regs[s.window + 1..s.window + 2] == [Invalid];
    AfterOne(U, s);
    AfterNext(U, s, 1);
  }

  /* Captured variables when their function returns. */

  /** A return closes the cells of the callee with the last values of their variables,
      except for the variable in the very register that is returned: that register has
      been moved from. Cells of callers are left open. */
  lemma ReturnCloses(s: State, slot: u8, c: nat)
    requires s.frames != [] && 0 < s.window && s.window + M.WINDOW <= |s.regs|
    requires c < |s.cells| && s.cells[c].Open? && s.cells[c].loc < |s.regs| && s.cells[c].loc != s.window - 1
    ensures |Return(s, slot).cells| == |s.cells|
    ensures var loc, cell := s.cells[c].loc, Return(s, slot).cells[c];
            cell == if loc < s.window then Open(loc)
                    else if loc == s.window + slot as nat then Closed(Invalid) else Closed(s.regs[loc])
  {
  }

  /** Without a return statement a body ends in OP_VOID 0 and OP_RETURN 0. A captured
      variable then survives if and only if it does not live in register 0, which is
      the first parameter's. */
  lemma EndOfBody(U: Unit, s: State, c: nat)
    requires Ready(s) && s.frames != [] && 0 < s.window && Next(U, s, [OP_VOID, 0, OP_RETURN, 0])
    requires c < |s.cells| && s.cells[c].Open? && s.window <= s.cells[c].loc < |s.regs|
    requires s.regs[s.cells[c].loc] != Invalid
    ensures |After(U, s, 2).cells| == |s.cells|
    ensures After(U, s, 2).cells[c] == Closed(s.regs[s.cells[c].loc]) <==> s.cells[c].loc != s.window
  {
    hide Step, Next, Return, CloseFrom;
    var code: seq<u8> := [OP_VOID, 0, OP_RETURN, 0];
    NextPart(U, s, s, code, 0, 2);
    assert code[0..2] == [OP_VOID, 0] && code[2..4] == [OP_RETURN, 0];
    DoTwo(U, s, OP_VOID, 0);
    var s1 := s.(ip := s.ip + 2, regs := s.regs[s.window := Void]);
    NextPart(U, s, s1, code, 2, 4);
    DoTwo(U, s1, OP_RETURN, 0);
    ReturnCloses(s1.(ip := s1.ip + 2), 0, c);
    AfterOne(U, s);
    AfterNext(U, s, 1);
  }

  /* Scopes across calls. */

  ghost predicate Enters1(U: Unit, s: State) {
    Ready(s) && M.Has(Chunk(U, s.code), s.ip, 2) && Chunk(U, s.code).code[s.ip] == OP_ENTER_SCOPE
  }

  ghost predicate Exits1(U: Unit, s: State) {
    Ready(s) && M.Has(Chunk(U, s.code), s.ip, 1) && Chunk(U, s.code).code[s.ip] == OP_EXIT_SCOPE && s.scopes != []
  }

  /** How many scopes the first `n` steps enter. */
  ghost function Entered(U: Unit, s: State, n: nat): nat {
    if n == 0 then 0 else Entered(U, s, n - 1) + if Enters1(U, After(U, s, n - 1)) then 1 else 0
  }

  ghost function Left(U: Unit, s: State, n: nat): nat {
    if n == 0 then 0 else Left(U, s, n - 1) + if Exits1(U, After(U, s, n - 1)) then 1 else 0
  }

  /** No scope is left that was not entered in these steps. */
  ghost predicate Nested(U: Unit, s: State, n: nat) {
    forall i | 0 <= i <= n :: Left(U, s, i) <= Entered(U, s, i)
  }

  lemma StepScopes(U: Unit, s: State)
    ensures var s' := Step(U, s);
            && (Enters1(U, s) ==> s'.scopes == s.scopes + [s.window + Operand(U, s)])
            && (Exits1(U, s) ==> s'.scopes == s.scopes[..|s.scopes| - 1])
            && (!Enters1(U, s) && !Exits1(U, s) ==> s'.scopes == s.scopes)
  {
    hide M.Step, CloseFrom, Return, VarArgs, MakeClosure, Call, StepThree;
    var P := Chunk(U, s.code);
    if s.status == M.Running && s.window + M.WINDOW <= |s.regs| && M.Has(P, s.ip, 1) {
      var op := P.code[s.ip];
      if HasTwo(op) {
        if M.Has(P, s.ip, 2) {
          TwoScopes(s.(ip := s.ip + 2), op, P.code[s.ip + 1]);
        }
      } else if HasThree(op) {
        if M.Has(P, s.ip, 3) {
          ThreeScopes(s.(ip := s.ip + 3), op, P.code[s.ip + 1], P.code[s.ip + 2]);
        }
      } else if op == OP_CALL_DEF {
        if M.Has(P, s.ip, 4) {
          CallScopes(U, s.(ip := s.ip + 4), P.code[s.ip + 1], P.code[s.ip + 2], P.code[s.ip + 3]);
        }
      }
    }
  }

  lemma TwoScopes(s: State, op: u8, a: u8)
    requires s.window + M.WINDOW <= |s.regs| && HasTwo(op)
    ensures StepTwo(s, op, a).scopes == if op == OP_ENTER_SCOPE then s.scopes + [s.window + a] else s.scopes
  {
    hide CloseFrom;
  }

  lemma ThreeScopes(s: State, op: u8, a: u8, b: u8)
    requires s.window + M.WINDOW <= |s.regs| && HasThree(op)
    ensures StepThree(s, op, a, b).scopes == s.scopes
  {
  }

  lemma CallScopes(U: Unit, s: State, location: u8, start: u8, argCount: u8)
    requires s.window + M.WINDOW <= |s.regs|
    ensures Call(U, s, location, start, argCount).scopes == s.scopes
  {
  }

  lemma {:induction false} ScopeCount(U: Unit, s: State, n: nat)
    ensures |After(U, s, n).scopes| == |s.scopes| + Entered(U, s, n) - Left(U, s, n)
    decreases n
  {
    hide Step, Enters1, Exits1;
    if n > 0 {
      ScopeCount(U, s, n - 1);
      var t := After(U, s, n - 1);
      StepScopes(U, t);
      NotBoth(U, t);
    }
  }

  lemma NotBoth(U: Unit, t: State)
    ensures !(Enters1(U, t) && Exits1(U, t)) && (Exits1(U, t) ==> |t.scopes| > 0)
  {
  }

  /** The lowest height of the stack of scopes so far. */
  ghost function Lowest(U: Unit, s: State, n: nat): (low: nat)
    ensures low <= |After(U, s, n).scopes| && low <= |s.scopes|
    decreases n
  {
    if n == 0 then |s.scopes|
    else
      var low, height := Lowest(U, s, n - 1), |After(U, s, n).scopes|;
      if height < low then height else low
  }

  lemma {:induction false} LowestNested(U: Unit, s: State, n: nat)
    ensures Lowest(U, s, n) == |s.scopes| <==> Nested(U, s, n)
    decreases n
  {
    hide After;
    ScopeCount(U, s, n);
    if n > 0 {
      LowestNested(U, s, n - 1);
      assert Nested(U, s, n) ==> Left(U, s, n) <= Entered(U, s, n);
    }
  }

  /** What is below the lowest point is the caller's, everything above the callee's. */
  ghost predicate Stacked(U: Unit, s: State, n: nat)
    requires AtCall(U, s)
  {
    var low, scopes := Lowest(U, s, n), After(U, s, n).scopes;
    scopes[..low] == s.scopes[..low] && forall j | low <= j < |scopes| :: scopes[j] >= Base(U, s)
  }

  lemma {:induction false} CalleeScopes(U: Unit, s: State, n: nat)
    requires AtCall(U, s) && n > 0 && (forall i | 0 < i < n :: |After(U, s, i).frames| > |s.frames|)
    ensures Stacked(U, s, n)
    decreases n
  {
    hide Step, AtCall, Within, Touched, Base, Exits1;
    if n == 1 {
      AfterOne(U, s);
      CallCells(U, s);
      assert Lowest(U, s, 0) == |s.scopes| && Lowest(U, s, 1) == |s.scopes|;
    } else {
      CalleeScopes(U, s, n - 1);
      StaysWithin(U, s, n - 1);
      var t := After(U, s, n - 1);
      CallEnters(U, s);
      AfterOne(U, s);
      WithinWindow(After(U, s, 1), t, Touched(U, s, n - 1));
      AfterNext(U, s, n - 1);
      StepScopes(U, t);
      NotBoth(U, t);
      KeepsStacked(U, s, n, if Enters1(U, t) then t.window + Operand(U, t) else 0);
    }
  }

  lemma KeepsStacked(U: Unit, s: State, n: nat, x: nat)
    requires AtCall(U, s) && n > 1 && Stacked(U, s, n - 1)
    requires var t, t' := After(U, s, n - 1).scopes, After(U, s, n).scopes;
             t' == t || (|t| > 0 && t' == t[..|t| - 1]) || (x >= Base(U, s) && t' == t + [x])
    ensures Stacked(U, s, n)
  {
    hide After, AtCall, Base;
    var t, t', low, low' := After(U, s, n - 1).scopes, After(U, s, n).scopes, Lowest(U, s, n - 1), Lowest(U, s, n);
    assert low' <= low && low' == (if |t'| < low then |t'| else low);
    assert t[..low'] == t[..low][..low'] && s.scopes[..low'] == s.scopes[..low][..low'];
    assert t'[..low'] == t[..low'];
  }

  lemma WithinWindow(s: State, t: State, touched: set<nat>)
    requires Within(s, t, touched)
    ensures t.window >= s.window
  {
    assert Level(t, |t.frames|) == t.window;
  }

  /** After a call the caller's scopes are as before if and only if the callee left
      exactly the scopes it entered: none that it had not entered, and at the end as
      many as it did. The limits of the caller's own scopes are below the arguments. */
  lemma ScopesBalanced(U: Unit, s: State, n: nat)
    requires AtCall(U, s) && EndsAt(U, s, n) && forall x | x in s.scopes :: x < Base(U, s)
    ensures After(U, s, n).scopes == s.scopes <==> Nested(U, s, n) && Entered(U, s, n) == Left(U, s, n)
  {
    hide After, AtCall, Base;
    CalleeScopes(U, s, n);
    LowestNested(U, s, n);
    ScopeCount(U, s, n);
    var low, scopes := Lowest(U, s, n), After(U, s, n).scopes;
    if Nested(U, s, n) && Entered(U, s, n) == Left(U, s, n) {
      assert scopes == scopes[..low] && s.scopes == s.scopes[..low];
    } else if low < |scopes| && low < |s.scopes| {
      assert scopes[low] >= Base(U, s) && s.scopes[low] in s.scopes;
    }
  }

  /** The first block exit of the caller after a call, wherever it is in the code behind
      the call: `w` is any state of the caller that stands at it, with the scopes as they
      were when the callee returned (see ScopesKept), the callee having left no scopes but
      its own. The captured variables of the caller's block are closed if and only if the
      callee left all scopes it entered, so not after a return from inside a block. */
  lemma NextExit(U: Unit, s: State, n: nat, w: State)
    requires AtCall(U, s) && EndsAt(U, s, n) && Nested(U, s, n)
    requires s.scopes != [] && forall x | x in s.scopes :: x < Base(U, s)
    requires w.scopes == After(U, s, n).scopes && Ready(w) && Next(U, w, [OP_EXIT_SCOPE])
    ensures var v, own := Step(U, w), s.scopes[|s.scopes| - 1];
            && |v.cells| == |w.cells|
            && (Entered(U, s, n) == Left(U, s, n) ==>
                  v.scopes == s.scopes[..|s.scopes| - 1] && v.cells == CloseFrom(w.cells, w.regs, own))
            && (Entered(U, s, n) > Left(U, s, n) ==> |v.scopes| >= |s.scopes| && v.scopes[..|s.scopes|] == s.scopes)
            && forall c | 0 <= c < |w.cells| && w.cells[c].Open? && own <= w.cells[c].loc < Base(U, s) && w.cells[c].loc < |w.regs| ::
                 v.cells[c] == (if Entered(U, s, n) == Left(U, s, n) then Closed(w.regs[w.cells[c].loc]) else w.cells[c])
  {
    hide After, AtCall, Base, Next, Step;
    CalleeScopes(U, s, n);
    LowestNested(U, s, n);
    ScopeCount(U, s, n);
    DoExit(U, w);
    assert s.scopes[..|s.scopes|] == s.scopes;
    assert Left(U, s, n) <= Entered(U, s, n);
    if Entered(U, s, n) == Left(U, s, n) {
      assert w.scopes == s.scopes;
    } else {
      assert w.scopes[..|s.scopes|] == s.scopes;
      assert w.scopes[|w.scopes| - 1] >= Base(U, s);
    }
  }

  /** Code that leaves exactly the scopes it enters keeps those there were. */
  lemma {:induction false} ScopesKept(U: Unit, u: State, m: nat)
    requires Nested(U, u, m) && Entered(U, u, m) == Left(U, u, m)
    ensures After(U, u, m).scopes == u.scopes
  {
    hide After;
    BelowLowest(U, u, m);
    LowestNested(U, u, m);
    ScopeCount(U, u, m);
    assert After(U, u, m).scopes == After(U, u, m).scopes[..|u.scopes|] && u.scopes == u.scopes[..|u.scopes|];
  }

  lemma {:induction false} BelowLowest(U: Unit, u: State, m: nat)
    ensures var low := Lowest(U, u, m); After(U, u, m).scopes[..low] == u.scopes[..low]
    decreases m
  {
    hide Step, Exits1;
    if m > 0 {
      BelowLowest(U, u, m - 1);
      var t, t' := After(U, u, m - 1), After(U, u, m);
      StepScopes(U, t);
      NotBoth(U, t);
      var low, low' := Lowest(U, u, m - 1), Lowest(U, u, m);
      assert t.scopes[..low'] == t.scopes[..low][..low'] && u.scopes[..low'] == u.scopes[..low][..low'];
      assert t'.scopes[..low'] == t.scopes[..low'];
    }
  }

  /** `func h(...) { return }` with `k` parameters: _func_, the block of the body, the
      return from inside it, and the end of the body, which is not reached. */
  function ReturnBody(k: u8): seq<u8>
    requires k < 255
  {
    [OP_LOAD_REG, k, OP_BYTE_OPER, 0, OP_ENTER_SCOPE, k + 1, OP_VOID, k + 1, OP_RETURN, k + 1,
     OP_EXIT_SCOPE, OP_VOID, 0, OP_RETURN, 0]
  }

  /** A return from inside a block leaves the scope of that block behind. When the call
      was the last statement of a block of the caller, the cells of that block stay open. */
  lemma ScopeLeftBehind(U: Unit, s: State, c: nat, k: u8, name: Value)
    requires AtCall(U, s) && Base(U, s) + M.WINDOW <= |s.regs| && k < 255
    requires U.funcs[Target(U, s)] == Function(M.Program(ReturnBody(k), [name]), k, k, false, [])
    requires Next(U, s.(ip := s.ip + 4), [OP_EXIT_SCOPE])
    requires s.scopes != [] && c < |s.cells| && s.cells[c].Open?
    requires s.scopes[|s.scopes| - 1] <= s.cells[c].loc < Base(U, s) - 1
    ensures var u := After(U, s, 6);
            u.code == s.code && u.ip == s.ip + 5 && u.window == s.window && u.scopes == s.scopes
            && |u.cells| == |s.cells| && u.cells[c] == Open(s.cells[c].loc)
  {
    hide Step, Next, AtCall, Base, Target;
    CallEnters(U, s);
    CallCells(U, s);
    EntersPrepared(U, s);
    var s1 := Step(U, s);
    var s5 := EarlyReturn(U, s1, Target(U, s), c, k, name);
    NextSame(U, s.(ip := s.ip + 4), s5, [OP_EXIT_SCOPE]);
    DoExit(U, s5);
    ExitLeaves(s5.(ip := s5.ip + 1), c);
    AfterOne(U, s);
    AfterPlus(U, s, 1, 4);
    AfterNext(U, s, 5);
  }

  lemma EarlyReturn(U: Unit, s1: State, f: nat, c: nat, k: u8, name: Value) returns (s5: State)
    requires k < 255 && f < |U.funcs| && U.funcs[f].body == M.Program(ReturnBody(k), [name])
    requires s1.code == BodyOf(f) && s1.ip == 0 && Ready(s1) && s1.frames != [] && 0 < s1.window
    requires c < |s1.cells| && s1.cells[c].Open? && s1.cells[c].loc < s1.window - 1
    ensures s5 == After(U, s1, 4) && Restored(s1.frames[|s1.frames| - 1], s5) && s5.status == M.Running
    ensures |s5.regs| == |s1.regs| && s5.scopes == s1.scopes + [s1.window + k as nat + 1]
    ensures |s5.cells| == |s1.cells| && s5.cells[c] == s1.cells[c]
  {
    hide Step, Next, Return, CloseFrom;
    var code := ReturnBody(k);
    assert code[0..2] == [OP_LOAD_REG, k] && code[4..6] == [OP_ENTER_SCOPE, k + 1];
    assert code[6..8] == [OP_VOID, k + 1] && code[8..10] == [OP_RETURN, k + 1];
    Piece(U, s1, code, 0, 2);
    DoLoad(U, s1, k, name, 2);
    var s2 := Step(U, s1);
    Piece(U, s2, code, 4, 6);
    DoTwo(U, s2, OP_ENTER_SCOPE, k + 1);
    var s3 := Step(U, s2);
    Piece(U, s3, code, 6, 8);
    DoTwo(U, s3, OP_VOID, k + 1);
    var s4 := Step(U, s3);
    Piece(U, s4, code, 8, 10);
    DoTwo(U, s4, OP_RETURN, k + 1);
    s5 := Step(U, s4);
    ReturnCloses(s4.(ip := s4.ip + 2), k + 1, c);
    ReturnBack(s4.(ip := s4.ip + 2), k + 1);
    FourSteps(U, s1);
  }

  lemma CallCells(U: Unit, s: State)
    requires AtCall(U, s)
    ensures Step(U, s).cells == s.cells && Step(U, s).scopes == s.scopes && s.window + M.WINDOW <= |s.regs|
  {
    hide M.Step;
  }

  lemma NextSame(U: Unit, s: State, t: State, bytes: seq<u8>)
    requires Next(U, s, bytes) && t.code == s.code && t.ip == s.ip
    ensures Next(U, t, bytes)
  {
  }

  lemma ReturnBack(s: State, slot: u8)
    requires s.frames != [] && 0 < s.window && s.window + M.WINDOW <= |s.regs|
    ensures var u := Return(s, slot); Restored(s.frames[|s.frames| - 1], u) && u.scopes == s.scopes && u.status == s.status
  {
  }

  lemma ExitLeaves(s: State, c: nat)
    requires s.scopes != [] && c < |s.cells| && s.cells[c].Open? && s.cells[c].loc < s.scopes[|s.scopes| - 1]
    ensures var u := ExitScope(s); |u.cells| == |s.cells| && u.cells[c] == s.cells[c] && u.scopes == s.scopes[..|s.scopes| - 1]
  {
  }

  /* The interpreter works on one register file and one set of fields. */

  class CallVM {
    const unit: Unit
    const globalRegisters: array<Value>
    var currentCode: Code
    var ip: nat
    var currentClosure: Option<nat>
    var registers: nat  // where the window starts
    var args: nat
    var scopeStarts: seq<nat>
    var frames: seq<Frame>
    var objects: seq<Object>
    var cells: seq<Cell>
    var status: M.Status

    ghost function View(): State
      reads this, globalRegisters
    {
      State(currentCode, ip, currentClosure, registers, args, globalRegisters[..], scopeStarts, frames, objects, cells, status)
    }

    constructor (unit: Unit, size: nat, objects: seq<Object>)
      ensures this.unit == unit && fresh(globalRegisters)
      ensures View() == State(Script, 0, None, 0, 0, seq(size, _ => Invalid), [], [], objects, [], M.Running)
    {
      this.unit := unit;
      globalRegisters := new Value[size](_ => Invalid);
      currentCode, ip, currentClosure, registers, args := Script, 0, None, 0, 0;
      scopeStarts, frames, cells, status := [], [], [], M.Running;
      this.objects := objects;
      new;
      assert globalRegisters[..] == seq(size, _ => Invalid);
    }

    method CheckFuncArgs(f: Function, argCount: u8) returns (ok: bool)
      ensures ok == (f.arityMin <= argCount && (f.variadic || argCount <= f.arityMax))
    {
      if !f.variadic && f.arityMin == f.arityMax && argCount != f.arityMin {
        return false;
      }
      if argCount < f.arityMin {
        return false;
      }
      if !f.variadic && argCount > f.arityMax {
        return false;
      }
      ok := true;
    }

    /** Goes on with the next default argument, or with the body. */
    method RunPrepared(f: nat, withDefault: nat)
      requires f < |unit.funcs|
      modifies this`currentCode, this`ip
      ensures View() == old(View()).(code := Prepared(unit, f, withDefault), ip := 0)
    {
      var funcDefaultArgs := Low(unit.funcs[f].arityMax - unit.funcs[f].arityMin);
      currentCode := if withDefault < funcDefaultArgs then DefaultOf(f, withDefault) else BodyOf(f);
      ip := 0;
    }

    method CallUserFunc(h: nat, start: nat, argCount: u8)
      requires h < |objects| && objects[h].func < |unit.funcs| && start > 0
      requires registers + M.WINDOW <= globalRegisters.Length && start < M.WINDOW
      modifies this, globalRegisters
      ensures var s := old(View());
              View() == if |s.frames| == MAX_CALL_DEPTH then SetReg(s, start - 1, Invalid)
                        else if ArityError(unit.funcs[s.objects[h].func], argCount) then s.(status := M.Failed(ArityMismatch))
                        else Enter(unit, s, h, start, argCount)
      ensures var f := unit.funcs[objects[h].func];
              |old(frames)| < MAX_CALL_DEPTH && f.arityMin <= argCount && (f.variadic || argCount <= f.arityMax) ==>
                && registers == old(registers) + start
                && currentClosure == (match objects[h] case Closure(_, _) => Some(h) case UserFunc(_) => None)
                && frames == old(frames) + [Frame(old(currentCode), old(currentClosure), old(registers), old(ip))]
                && globalRegisters[..] == old(globalRegisters[..]) && ip == 0
    {
      if |frames| == MAX_CALL_DEPTH {
        globalRegisters[registers + start - 1] := Invalid;
        return;
      }
      var func := objects[h].func;
      var ok := CheckFuncArgs(unit.funcs[func], argCount);
      if !ok {
        status := M.Failed(ArityMismatch);
        return;
      }
      frames := frames + [Frame(currentCode, currentClosure, registers, ip)];
      currentClosure := if objects[h].Closure? then Some(h) else None;
      registers := registers + start;
      RunPrepared(func, Low(argCount - unit.funcs[func].arityMin));
    }

    method CallDef(location: u8, start: u8, argCount: u8)
      requires registers + M.WINDOW <= globalRegisters.Length
      modifies this, globalRegisters
      ensures View() == Call(unit, old(View()), location, start, argCount)
    {
      args := argCount;
      match globalRegisters[registers + location]
      case Callable(h) =>
        if start == 0 || h >= |objects| || objects[h].func >= |unit.funcs| {
          status := M.Stuck;
        } else {
          CallUserFunc(h, start, argCount);
        }
      case _ => status := M.Failed(NotCallable);
    }

    /** exitScope. */
    method CloseCells(limit: nat)
      modifies this`cells
      ensures cells == CloseFrom(old(cells), globalRegisters[..], limit)
    {
      ghost var before := cells;
      for c := 0 to |cells|
        invariant |cells| == |before|
        invariant cells == CloseFrom(before, globalRegisters[..], limit)[..c] + before[c..]
      {
        match cells[c]
        case Open(loc) =>
          if limit <= loc < globalRegisters.Length {
            cells := cells[c := Closed(globalRegisters[loc])];
          }
        case Closed(_) =>
      }
    }

    method RestoreData()
      requires frames != []
      modifies this
      ensures View() == Restore(old(View()))
    {
      var frame := frames[|frames| - 1];
      currentCode, currentClosure, registers, ip := frame.code, frame.closure, frame.window, frame.ip;
      frames := frames[..|frames| - 1];
    }

    method ReturnValue(slot: u8)
      requires registers + M.WINDOW <= globalRegisters.Length
      modifies this, globalRegisters
      ensures View() == Return(old(View()), slot)
    {
      if frames == [] || registers == 0 {
        status := M.Stuck;
        return;
      }
      globalRegisters[registers - 1] := globalRegisters[registers + slot];
      globalRegisters[registers + slot] := Invalid;
      CloseCells(registers);
      RestoreData();
    }

    /** OP_VAR_ARGS. */
    method CollectArgs(start: u8)
      requires registers + M.WINDOW <= globalRegisters.Length && args <= M.WINDOW
      modifies globalRegisters
      ensures View() == VarArgs(old(View()), start)
    {
      var list: seq<Value> := [];
      var i: nat := start;
      while i < args
        invariant start as nat <= i && (i <= args || i == start as nat)
        invariant list == globalRegisters[registers + start..registers + i]
        invariant globalRegisters[..] == old(globalRegisters[..])
      {
        list := list + [globalRegisters[registers + i]];
        i := i + 1;
      }
      globalRegisters[registers + start] := List(list);
    }
  }
}
