/** Closures under calls (src/vm.cpp: callUserFunc, getCell, the capturing instructions):
    which closure a function runs with, and what its instructions on cells and on global
    variables read and write. */
module CallClosures {
  import opened Words
  import opened Opcodes
  import opened Values
  import opened Syntax
  import opened Calls
  import I = Instructions
  import M = Machine

  /* Values behind cells. */

  /** An open cell is at a register. */
  predicate Live(s: State, c: nat) {
    c < |s.cells| && (s.cells[c].Open? ==> s.cells[c].loc < |s.regs|)
  }

  /** The value that all closures sharing the cell see. */
  function CellNow(s: State, c: nat): Value
    requires Live(s, c)
  {
    match s.cells[c]
    case Open(loc) => s.regs[loc]
    case Closed(v) => v
  }

  /** Two cells with one variable behind them. */
  predicate Shares(s: State, c: nat, d: nat) {
    c == d || (c < |s.cells| && d < |s.cells| && s.cells[c].Open? && s.cells[c] == s.cells[d])
  }

  /** Cell `i` of the closure that runs is `c`. */
  predicate RunsWithCell(s: State, i: nat, c: nat) {
    && s.closure.Some? && s.closure.value < |s.objects|
    && var o := s.objects[s.closure.value];
       o.Closure? && i < |o.cells| && o.cells[i] == c
  }

  /** GET_CELL reads what is behind the cell, and changes nothing else. */
  lemma GetCellLaw(U: Unit, s: State, dest: u8, i: u8, c: nat)
    requires Ready(s) && Next(U, s, [OP_GET_CELL, dest, i]) && RunsWithCell(s, i, c) && Live(s, c)
    ensures Step(U, s) == s.(ip := s.ip + 3, regs := s.regs[s.window + dest := CellNow(s, c)])
  {
    DoThree(U, s, OP_GET_CELL, dest, i);
  }

  /** SET_CELL changes what is behind the cell, for all cells that share it, and nothing
      behind any other. */
  lemma SetCellLaw(U: Unit, s: State, i: u8, src: u8, c: nat)
    requires Ready(s) && Next(U, s, [OP_SET_CELL, i, src]) && RunsWithCell(s, i, c) && Live(s, c)
    ensures var s' := Step(U, s);
            && |s'.cells| == |s.cells| && s'.objects == s.objects && s'.closure == s.closure && s'.status == M.Running
            && (forall d: nat | Live(s, d) ::
                  Live(s', d) && CellNow(s', d) == if Shares(s, c, d) then Reg(s, src) else CellNow(s, d))
            && (forall r: nat | r < |s.regs| :: s'.regs[r] == if s.cells[c] == Open(r) then Reg(s, src) else s.regs[r])
  {
    DoThree(U, s, OP_SET_CELL, i, src);
  }

  /** Global variables are the registers of the script's window, from everywhere. */
  lemma GlobalLaws(U: Unit, s: State, a: u8, b: u8)
    requires Ready(s)
    ensures Next(U, s, [OP_GET_GLOBAL, a, b]) ==>
              Step(U, s) == s.(ip := s.ip + 3, regs := s.regs[s.window + a := s.regs[b]])
    ensures Next(U, s, [OP_SET_GLOBAL, a, b]) ==>
              Step(U, s) == s.(ip := s.ip + 3, regs := s.regs[a := s.regs[s.window + b]])
  {
    if Next(U, s, [OP_GET_GLOBAL, a, b]) { DoThree(U, s, OP_GET_GLOBAL, a, b); }
    if Next(U, s, [OP_SET_GLOBAL, a, b]) { DoThree(U, s, OP_SET_GLOBAL, a, b); }
  }

  /** What one function assigns to a global variable another one reads. */
  lemma GlobalBack(U: Unit, s: State, g: u8, b: u8, t: State, a: u8)
    requires Ready(s) && Next(U, s, [OP_SET_GLOBAL, g, b])
    requires Ready(t) && Next(U, t, [OP_GET_GLOBAL, a, g]) && |t.regs| == |s.regs| && t.regs[g] == Step(U, s).regs[g]
    ensures Step(U, t).window == t.window && Step(U, t).regs[t.window + a] == s.regs[s.window + b]
  {
    GlobalLaws(U, s, g, b);
    GlobalLaws(U, t, a, g);
  }

  /* Making closures. */

  /** CLOSURE makes a new closure without cells out of a function. */
  lemma ClosureLaw(U: Unit, s: State, slot: u8, h: nat)
    requires Ready(s) && Next(U, s, [OP_CLOSURE, slot])
    requires Reg(s, slot) == Callable(h) && h < |s.objects| && s.objects[h].UserFunc?
    ensures Step(U, s) == s.(ip := s.ip + 2, objects := s.objects + [Closure(s.objects[h].func, [])],
                             regs := s.regs[s.window + slot := Callable(|s.objects|)])
  {
    DoTwo(U, s, OP_CLOSURE, slot);
  }

  /** The closure at `h` has got one more cell, `c`, and the cells there were are the same. */
  predicate Captured(s: State, s': State, h: nat, c: nat)
    requires h < |s.objects| && s.objects[h].Closure?
  {
    && s'.objects == s.objects[h := Closure(s.objects[h].func, s.objects[h].cells + [c])]
    && s.cells <= s'.cells && |s'.cells| <= |s.cells| + 1
    && s'.regs == s.regs && s'.closure == s.closure && s'.window == s.window && s'.frames == s.frames
    && s'.status == M.Running
  }

  /** CAPTURE_LOCAL and CAPTURE_GLOBAL add a cell that is open at the variable's register. */
  lemma CaptureLaw(U: Unit, s: State, slot: u8, i: u8, h: nat) returns (c: nat)
    requires Ready(s) && Reg(s, slot) == Callable(h) && h < |s.objects| && s.objects[h].Closure?
    requires Next(U, s, [OP_CAPTURE_LOCAL, slot, i]) || Next(U, s, [OP_CAPTURE_GLOBAL, slot, i])
    ensures var s' := Step(U, s);
            && Captured(s, s', h, c) && c < |s'.cells|
            && (Next(U, s, [OP_CAPTURE_LOCAL, slot, i]) ==> s'.cells[c] == Open(s.window + i))
            && (Next(U, s, [OP_CAPTURE_GLOBAL, slot, i]) ==> s'.cells[c] == Open(i))
  {
    hide Step, FindCell, Next;
    var loc: nat := i;
    FirstByte(U, s, [OP_CAPTURE_LOCAL, slot, i]);
    FirstByte(U, s, [OP_CAPTURE_GLOBAL, slot, i]);
    if Next(U, s, [OP_CAPTURE_LOCAL, slot, i]) {
      loc := s.window + i;
      DoThree(U, s, OP_CAPTURE_LOCAL, slot, i);
    } else {
      DoThree(U, s, OP_CAPTURE_GLOBAL, slot, i);
    }
    c := FindCell(s.cells, loc, |s.cells|);
  }

  /** A variable that is captured already gets no second cell. */
  lemma CaptureShares(U: Unit, s: State, slot: u8, i: u8, h: nat, d: nat)
    requires Ready(s) && Reg(s, slot) == Callable(h) && h < |s.objects| && s.objects[h].Closure? && d < |s.cells|
    ensures Next(U, s, [OP_CAPTURE_LOCAL, slot, i]) && s.cells[d] == Open(s.window + i) ==> Step(U, s).cells == s.cells
    ensures Next(U, s, [OP_CAPTURE_GLOBAL, slot, i]) && s.cells[d] == Open(i) ==> Step(U, s).cells == s.cells
  {
    hide Step, Next;
    if Next(U, s, [OP_CAPTURE_LOCAL, slot, i]) && s.cells[d] == Open(s.window + i) {
      DoThree(U, s, OP_CAPTURE_LOCAL, slot, i);
      FindsOpen(s.cells, s.window + i, |s.cells|, d);
    }
    if Next(U, s, [OP_CAPTURE_GLOBAL, slot, i]) && s.cells[d] == Open(i) {
      DoThree(U, s, OP_CAPTURE_GLOBAL, slot, i);
      FindsOpen(s.cells, i, |s.cells|, d);
    }
  }

  lemma {:induction false} FindsOpen(cells: seq<Cell>, loc: nat, n: nat, d: nat)
    requires d < n <= |cells| && cells[d] == Open(loc)
    ensures FindCell(cells, loc, n) < |cells|
  {
    if cells[n - 1] != Open(loc) { FindsOpen(cells, loc, n - 1, d); }
  }

  lemma FirstByte(U: Unit, s: State, bytes: seq<u8>)
    requires bytes != []
    ensures Next(U, s, bytes) ==> M.Has(Chunk(U, s.code), s.ip, 1) && Chunk(U, s.code).code[s.ip] == bytes[0]
  {
    assert Next(U, s, bytes) ==> Chunk(U, s.code).code[s.ip + 0] == bytes[0];
  }

  /** CAPTURE_CELL adds a cell of the closure that runs. */
  lemma CaptureCellLaw(U: Unit, s: State, slot: u8, i: u8, h: nat, c: nat)
    requires Ready(s) && Reg(s, slot) == Callable(h) && h < |s.objects| && s.objects[h].Closure?
    requires Next(U, s, [OP_CAPTURE_CELL, slot, i]) && RunsWithCell(s, i, c) && Live(s, c)
    ensures Captured(s, Step(U, s), h, c) && Step(U, s).cells == s.cells
  {
    hide Step;
    DoThree(U, s, OP_CAPTURE_CELL, slot, i);
  }

  /* Whole calls. */

  /** In everything up to step `m` the call is still on. */
  ghost predicate Inside(U: Unit, s: State, m: nat) {
    m > 0 && forall i | 0 < i <= m :: |After(U, s, i).frames| > |s.frames|
  }

  /** The callee runs with its own closure and window from its entry on, again after
      every call it makes, and while its frame waits for one. */
  lemma RunsWithOwn(U: Unit, s: State, m: nat)
    requires AtCall(U, s) && Inside(U, s, m)
    ensures var t, d := After(U, s, m), |s.frames| + 1;
            && t.frames[..d] == s.frames + [Frame(s.code, s.closure, s.window, s.ip + 4)]
            && Level(t, d) == Base(U, s) && LevelClosure(t, d) == OwnClosure(U, s)
            && (|t.frames| == d ==> t.window == Base(U, s) && t.closure == OwnClosure(U, s))
  {
    hide Step, AtCall, Base, OwnClosure;
    CallEnters(U, s);
    AfterOne(U, s);
    var u := After(U, s, 1);
    forall i | 0 <= i <= m - 1 ensures |After(U, u, i).frames| >= |u.frames| {
      AfterPlus(U, s, 1, i);
      assert |After(U, s, 1 + i).frames| > |s.frames|;
    }
    AfterPlus(U, s, 1, m - 1);
    HomeAgain(U, u, m - 1);
  }

  /** Nothing that exists is lost: objects stay what they are, and closures only get more
      cells behind those they have. */
  predicate Older(s: State, t: State) {
    && |s.objects| <= |t.objects| && |s.cells| <= |t.cells|
    && forall h | 0 <= h < |s.objects| :: OlderObject(s.objects[h], t.objects[h])
  }

  predicate OlderObject(o: Object, p: Object) {
    match o
    case UserFunc(_) => p == o
    case Closure(f, cells) => p.Closure? && p.func == f && cells <= p.cells
  }

  lemma StepOlder(U: Unit, s: State)
    ensures Older(s, Step(U, s))
  {
    hide M.Step, FindCell, CloseFrom, StepThree, Call;
    var P := Chunk(U, s.code);
    if s.status == M.Running && s.window + M.WINDOW <= |s.regs| && M.Has(P, s.ip, 1) {
      var op := P.code[s.ip];
      if HasThree(op) && M.Has(P, s.ip, 3) {
        ThreeOlder(s.(ip := s.ip + 3), op, P.code[s.ip + 1], P.code[s.ip + 2]);
      } else if op == OP_CALL_DEF && M.Has(P, s.ip, 4) {
        CallOlder(U, s.(ip := s.ip + 4), P.code[s.ip + 1], P.code[s.ip + 2], P.code[s.ip + 3]);
      }
    }
  }

  lemma ThreeOlder(s: State, op: u8, a: u8, b: u8)
    requires s.window + M.WINDOW <= |s.regs|
    ensures Older(s, StepThree(s, op, a, b))
  {
    hide FindCell;
  }

  lemma CallOlder(U: Unit, s: State, location: u8, start: u8, argCount: u8)
    requires s.window + M.WINDOW <= |s.regs|
    ensures Older(s, Call(U, s, location, start, argCount))
  {
  }

  lemma {:induction false} AfterOlder(U: Unit, s: State, n: nat)
    ensures Older(s, After(U, s, n))
    decreases n
  {
    hide Step;
    if n > 0 {
      AfterOlder(U, s, n - 1);
      StepOlder(U, After(U, s, n - 1));
    }
  }

  /** The closure that was called has cell `c` at `i`. */
  ghost predicate CallsWithCell(U: Unit, s: State, i: nat, c: nat)
    requires AtCall(U, s)
  {
    var o := s.objects[Called(U, s)];
    o.Closure? && i < |o.cells| && o.cells[i] == c
  }

  lemma OwnCell(U: Unit, s: State, m: nat, i: nat, c: nat)
    requires AtCall(U, s) && Inside(U, s, m) && |After(U, s, m).frames| == |s.frames| + 1 && CallsWithCell(U, s, i, c)
    ensures RunsWithCell(After(U, s, m), i, c)
  {
    hide Step, AtCall, Called;
    RunsWithOwn(U, s, m);
    AfterOlder(U, s, m);
    var t, h := After(U, s, m), Called(U, s);
    assert OlderObject(s.objects[h], t.objects[h]);
    assert s.objects[h].cells <= t.objects[h].cells;
  }

  /** Whenever the callee itself executes GET_CELL `i`, it gets what is behind cell `i` of
      the closure that was called. */
  lemma BodyReads(U: Unit, s: State, m: nat, dest: u8, i: u8, c: nat)
    requires AtCall(U, s) && Inside(U, s, m) && |After(U, s, m).frames| == |s.frames| + 1 && CallsWithCell(U, s, i, c)
    requires var t := After(U, s, m); Ready(t) && Next(U, t, [OP_GET_CELL, dest, i]) && Live(t, c)
    ensures var t, u := After(U, s, m), After(U, s, m + 1);
            t.window == Base(U, s) && u == t.(ip := t.ip + 3, regs := t.regs[t.window + dest := CellNow(t, c)])
  {
    hide Step, AtCall, Called, Base, CallsWithCell, Next, Live;
    OwnCell(U, s, m, i, c);
    RunsWithOwn(U, s, m);
    GetCellLaw(U, After(U, s, m), dest, i, c);
    assert After(U, s, m + 1) == Step(U, After(U, s, m));
  }

  /** Whenever it executes SET_CELL `i`, everybody who shares the cell sees the value. */
  lemma BodyWrites(U: Unit, s: State, m: nat, i: u8, src: u8, c: nat)
    requires AtCall(U, s) && Inside(U, s, m) && |After(U, s, m).frames| == |s.frames| + 1 && CallsWithCell(U, s, i, c)
    requires var t := After(U, s, m); Ready(t) && Next(U, t, [OP_SET_CELL, i, src]) && Live(t, c)
    ensures var t, u := After(U, s, m), After(U, s, m + 1);
            && t.window == Base(U, s)
            && forall d: nat | Live(t, d) ::
                 Live(u, d) && CellNow(u, d) == if Shares(t, c, d) then Reg(t, src) else CellNow(t, d)
  {
    hide Step, AtCall, Called, Base, CallsWithCell, Next, Live;
    OwnCell(U, s, m, i, c);
    RunsWithOwn(U, s, m);
    SetCellLaw(U, After(U, s, m), i, src, c);
    assert After(U, s, m + 1) == Step(U, After(U, s, m));
  }

  /* Lengths. */

  /** The instructions of functions, cells and globals read as many operands as the
      disassembler prints. */
  lemma CallOperands(op: u8)
    ensures HasTwo(op) ==> I.Enabled(op) && 1 + I.VmOperands(op) == 2
    ensures HasThree(op) ==> I.Enabled(op) && 1 + I.VmOperands(op) == 3
    ensures I.Enabled(OP_CALL_DEF) && 1 + I.VmOperands(OP_CALL_DEF) == 4
    ensures I.Enabled(OP_EXIT_SCOPE) && I.Enabled(OP_HALT) && I.VmOperands(OP_EXIT_SCOPE) == I.VmOperands(OP_HALT) == 0
  {
  }
}
