/** Closures at run time (src/vm.cpp: OP_CLOSURE, OP_CAPTURE_*): following the
    address that lexical addressing gave through the cells of the closures leads
    to the box of the variable that the name means. */
module Closures {
  import opened Words
  import opened Syntax
  import opened Values
  import opened Source
  import opened Resolve
  import C = Cells

  /** `regs[d][r]` is the box of register `r` in the activation of the function at
      depth `d` that the closures in between were made in. */
  type Windows = seq<seq<nat>>

  function BoxAt(regs: Windows, l: Location): nat {
    if l.Location? && l.depth < |regs| && l.reg < |regs[l.depth]| then regs[l.depth][l.reg] else 0
  }

  /** The box that OP_CAPTURE_LOCAL, _GLOBAL or _CELL finds, executed by the
      function at depth `|frames| - 1`; also what OP_GET_LOCAL, _GLOBAL and _CELL read. */
  function Reach(frames: seq<Frame>, regs: Windows, slot: nat, varType: VarType): nat
    decreases |frames|, 0
  {
    if frames == [] then 0
    else
      match varType
      case Local => BoxAt(regs, Location(|frames| - 1, slot))
      case Global => BoxAt(regs, Location(0, slot))
      case Cell => if slot < |Last(frames).captures| then ClosureCell(frames, regs, slot) else 0
  }

  /** Cell `i` of the closure for the innermost function, made by the enclosing one. */
  function ClosureCell(frames: seq<Frame>, regs: Windows, i: nat): nat
    requires frames != [] && i < |Last(frames).captures|
    decreases |frames| - 1, 1
  {
    var c := Last(frames).captures[i];
    Reach(Outer(frames), regs, c.slot, c.varType)
  }

  lemma {:induction false} ReachDenotes(frames: seq<Frame>, regs: Windows, slot: nat, varType: VarType)
    requires Denotes(frames, slot, varType) != Nowhere
    ensures Reach(frames, regs, slot, varType) == BoxAt(regs, Denotes(frames, slot, varType))
    decreases |frames|
  {
    if varType.Cell? {
      var c := Last(frames).captures[slot];
      ReachDenotes(Outer(frames), regs, c.slot, c.varType);
    }
  }

  /** An address resolved at any point of compiling a function leads, once all
      functions are compiled, to the variable found by searching the enclosing scopes by
      name. `final` may have more captures and other variables in scope. */
  lemma AddressingAgrees(frames: seq<Frame>, name: string, inModule: bool, final: seq<Frame>, regs: Windows)
    requires Consistent(frames) && Naive(frames, name) != Nowhere
    requires MoreCaptures(ResolveName(frames, name, inModule).0, final)
    ensures var info := ResolveName(frames, name, inModule).1;
            info.Found? && Reach(final, regs, info.slot, info.varType) == BoxAt(regs, Naive(frames, name))
  {
    ResolveSound(frames, name, inModule);
    var (frames', info) := ResolveName(frames, name, inModule);
    GrownDenotes(frames', final, info.slot, info.varType);
    ReachDenotes(final, regs, info.slot, info.varType);
  }

  /* Running functions. */

  /** An activation of the innermost function: `cells`, those of its closure, share the
      boxes of the variables its captures stand for. */
  ghost predicate Wired(box: map<C.Cell, nat>, frames: seq<Frame>, regs: Windows, cells: seq<C.Cell>) {
    && frames != [] && |cells| == |Last(frames).captures|
    && forall i | 0 <= i < |cells| :: cells[i] in box && box[cells[i]] == ClosureCell(frames, regs, i)
  }

  /** In the running activation, whose window is at `window`, the address is usable: the
      scope of a variable addressed by its register has not been left. */
  ghost predicate Placed(env: seq<nat>, frames: seq<Frame>, regs: Windows, window: nat, slot: nat, varType: VarType) {
    match varType
    case Local => frames != [] && InPlace(env, regs, window, Location(|frames| - 1, slot))
    case Global => frames != [] && InPlace(env, regs, 0, Location(0, slot))
    case Cell => frames != [] && slot < |Last(frames).captures|
  }

  ghost predicate InPlace(env: seq<nat>, regs: Windows, window: nat, l: Location) {
    && l.Location? && l.depth < |regs| && l.reg < |regs[l.depth]|
    && window + l.reg < |env| && env[window + l.reg] == regs[l.depth][l.reg]
  }

  /** Cells stand for their variables for good, so activations stay wired. */
  lemma WiredLater(a: map<C.Cell, nat>, b: map<C.Cell, nat>, frames: seq<Frame>, regs: Windows, cells: seq<C.Cell>)
    requires Wired(a, frames, regs, cells) && C.KeptBoxes(a, b)
    ensures Wired(b, frames, regs, cells)
  {
  }

  /** The register an address names in this activation. */
  function Register(window: nat, slot: nat, varType: VarType): nat {
    if varType.Local? then window + slot else slot
  }

  method CaptureOne(store: C.CellStore, c: Capture, window: nat, current: seq<C.Cell>,
                    ghost frames: seq<Frame>, ghost regs: Windows)
    returns (cell: C.Cell)
    requires store.Valid() && Wired(store.box, frames, regs, current)
    requires Placed(store.shared.env, frames, regs, window, c.slot, c.varType)
    modifies store`activeCells, store`box
    ensures store.Valid() && C.KeptBoxes(old(store.box), store.box)
    ensures cell in store.box && store.box[cell] == Reach(frames, regs, c.slot, c.varType)
  {
    hide C.Linked, C.Increasing;
    store.SameSize();
    if c.varType.Cell? {
      cell := current[c.slot];
    } else {
      cell := store.CaptureValue(Register(window, c.slot, c.varType));
    }
  }

  /** OP_CLOSURE and the capture instructions behind it, executed in an activation of the
      enclosing function: activations of the new closure are wired. */
  method MakeClosure(store: C.CellStore, captures: seq<Capture>, window: nat, current: seq<C.Cell>,
                     ghost frames: seq<Frame>, ghost regs: Windows)
    returns (cells: seq<C.Cell>)
    requires |frames| > 1 && Last(frames).captures == captures
    requires store.Valid() && Wired(store.box, Outer(frames), regs, current)
    requires forall c | c in captures :: Placed(store.shared.env, Outer(frames), regs, window, c.slot, c.varType)
    modifies store`activeCells, store`box
    ensures store.Valid() && C.KeptBoxes(old(store.box), store.box)
    ensures Wired(store.box, frames, regs, cells)
  {
    hide C.Linked, C.Increasing, Placed, Reach;
    cells := [];
    ghost var box0 := store.box;
    for i := 0 to |captures|
      invariant store.Valid() && |cells| == i && C.KeptBoxes(box0, store.box)
      invariant forall j | 0 <= j < i :: cells[j] in store.box && store.box[cells[j]] == ClosureCell(frames, regs, j)
    {
      assert captures[i] in captures;
      WiredLater(box0, store.box, Outer(frames), regs, current);
      var cell := CaptureOne(store, captures[i], window, current, Outer(frames), regs);
      cells := cells + [cell];
    }
  }

  /** OP_GET_LOCAL, OP_GET_GLOBAL and OP_GET_CELL. */
  method GetVariable(store: C.CellStore, slot: nat, varType: VarType, window: nat, current: seq<C.Cell>,
                     ghost frames: seq<Frame>, ghost regs: Windows)
    returns (v: Value)
    requires store.Valid() && Wired(store.box, frames, regs, current)
    requires Placed(store.shared.env, frames, regs, window, slot, varType)
    ensures v == C.Content(store.shared, Reach(frames, regs, slot, varType))
  {
    hide C.Linked, C.Increasing;
    store.SameSize();
    if varType.Cell? {
      v := store.GetCell(current[slot]);
    } else {
      v := store.GetRegister(Register(window, slot, varType));
    }
  }

  /** OP_SET_LOCAL, OP_SET_GLOBAL and OP_SET_CELL. */
  method SetVariable(store: C.CellStore, slot: nat, varType: VarType, v: Value, window: nat, current: seq<C.Cell>,
                     ghost frames: seq<Frame>, ghost regs: Windows)
    requires store.Valid() && Wired(store.box, frames, regs, current)
    requires Placed(store.shared.env, frames, regs, window, slot, varType)
    modifies store`shared, store.registers, store.box.Keys
    ensures store.Valid() && store.shared == C.Put(old(store.shared), Reach(frames, regs, slot, varType), v)
    ensures store.box == old(store.box)
  {
    hide C.Linked, C.Increasing;
    store.SameSize();
    if varType.Cell? {
      store.SetCell(current[slot], v);
    } else {
      store.SetRegister(Register(window, slot, varType), v);
    }
  }

  /** A name, resolved somewhere in the function, is used by its activation after any
      code has run in between: reading it gives the content of the variable that naive
      search found, even if the scope of that variable has been left since the closure
      was made. A variable addressed by its register is still in scope. */
  method UseLater(store: C.CellStore, ops: seq<C.Op>, info: VarInfo, window: nat, current: seq<C.Cell>,
                  ghost frames: seq<Frame>, ghost name: string, ghost inModule: bool,
                  ghost final: seq<Frame>, ghost regs: Windows)
    returns (v: Value)
    requires Consistent(frames) && Naive(frames, name) != Nowhere
    requires info == ResolveName(frames, name, inModule).1
    requires MoreCaptures(ResolveName(frames, name, inModule).0, final)
    requires store.Valid() && Wired(store.box, final, regs, current)
    requires info.Found? ==> Placed(store.shared.env, final, regs, window, info.slot, info.varType)
    requires info.Found? && !info.varType.Cell? ==>
               forall op | op in ops && op.ExitScope? :: Register(window, info.slot, info.varType) < op.limit
    modifies store, store.registers, store.box.Keys
    ensures store.Valid() && store.shared == C.AfterBoxes(old(store.shared), [], ops)
    ensures v == C.Content(store.shared, BoxAt(regs, Naive(frames, name)))
  {
    hide C.Linked, C.Increasing, Consistent, Naive, MoreCaptures, ResolveName, Reach;
    AddressingAgrees(frames, name, inModule, final, regs);
    ghost var b, box := store.shared, store.box;
    var _ := store.Run(ops);
    WiredLater(box, store.box, final, regs, current);
    if !info.varType.Cell? {
      C.StaysPut(b, [], ops, Register(window, info.slot, info.varType));
    }
    v := GetVariable(store, info.slot, info.varType, window, current, final, regs);
  }
}
