/** Captured variables (src/vm.cpp: captureValue, closeCells; src/object.cpp: Cell).
    A cell points at the register of its variable while the variable's scope is
    open and owns the value afterwards. Closures cannot tell the difference: cells
    behave as boxes shared between a variable and everyone who captured it. */
module Cells {
  import opened Words
  import opened Syntax
  import opened Values

  /* The simple view: every variable is a box, and scopes hand out new ones. */

  /** `env[r]` is the box of the variable that lives in register `r`. */
  datatype Boxes = Boxes(env: seq<nat>, vals: seq<Value>)

  ghost predicate BoxesOk(b: Boxes) {
    && (forall r | 0 <= r < |b.env| :: b.env[r] < |b.vals|)
    && (forall r, s | 0 <= r < |b.env| && 0 <= s < |b.env| && b.env[r] == b.env[s] :: r == s)
  }

  ghost function Content(b: Boxes, box: nat): Value {
    if box < |b.vals| then b.vals[box] else Invalid
  }

  ghost function Put(b: Boxes, box: nat, v: Value): Boxes {
    if box < |b.vals| then b.(vals := b.vals[box := v]) else b
  }

  /** Registers from `limit` on are free for other variables; the boxes stay. */
  ghost function Leave(b: Boxes, limit: nat): (b': Boxes)
    requires limit <= |b.env|
    ensures |b'.env| == |b.env|
  {
    Boxes(seq(|b.env|, r requires 0 <= r < |b.env| => if r < limit then b.env[r] else |b.vals| + r - limit),
          b.vals + seq(|b.env| - limit, i requires 0 <= i < |b.env| - limit => Content(b, b.env[limit + i])))
  }

  lemma LeaveOk(b: Boxes, limit: nat)
    requires BoxesOk(b) && limit <= |b.env|
    ensures BoxesOk(Leave(b, limit))
    ensures forall r | 0 <= r < |b.env| :: Content(Leave(b, limit), Leave(b, limit).env[r]) == Content(b, b.env[r])
    ensures forall box | 0 <= box < |b.vals| :: Content(Leave(b, limit), box) == Content(b, box)
    ensures forall r | 0 <= r < |b.env| && Leave(b, limit).env[r] < |b.vals| :: r < limit && Leave(b, limit).env[r] == b.env[r]
  {
  }

  /** What running code does with variables; `h` numbers the captures so far. */
  datatype Op =
    | Load(r: nat)
    | Assign(r: nat, v: Value)
    | Capture(r: nat)
    | LoadCell(h: nat)
    | AssignCell(h: nat, v: Value)
    | ExitScope(limit: nat)

  ghost function StepBoxes(b: Boxes, held: seq<nat>, op: Op): (b': Boxes)
    ensures |b'.env| == |b.env|
  {
    match op
    case Assign(r, v) => if r < |b.env| then Put(b, b.env[r], v) else b
    case AssignCell(h, v) => if h < |held| then Put(b, held[h], v) else b
    case ExitScope(limit) => if limit <= |b.env| then Leave(b, limit) else b
    case _ => b
  }

  ghost function Hold(b: Boxes, held: seq<nat>, op: Op): seq<nat> {
    if op.Capture? && op.r < |b.env| then held + [b.env[op.r]] else held
  }

  ghost function Seen(b: Boxes, held: seq<nat>, op: Op): seq<Value> {
    if op.Load? && op.r < |b.env| then [Content(b, b.env[op.r])]
    else if op.LoadCell? && op.h < |held| then [Content(b, held[op.h])]
    else []
  }

  /** All values a run loads, when variables are boxes. */
  ghost function RunBoxes(b: Boxes, held: seq<nat>, ops: seq<Op>): seq<Value>
    decreases ops
  {
    if ops == [] then []
    else Seen(b, held, ops[0]) + RunBoxes(StepBoxes(b, held, ops[0]), Hold(b, held, ops[0]), ops[1..])
  }

  /** The variables after a run. */
  ghost function AfterBoxes(b: Boxes, held: seq<nat>, ops: seq<Op>): (b': Boxes)
    ensures |b'.env| == |b.env|
    decreases ops
  {
    if ops == [] then b else AfterBoxes(StepBoxes(b, held, ops[0]), Hold(b, held, ops[0]), ops[1..])
  }

  /** A register keeps its variable until a scope at or below it is left. */
  lemma {:induction false} StaysPut(b: Boxes, held: seq<nat>, ops: seq<Op>, r: nat)
    requires r < |b.env| && forall op | op in ops && op.ExitScope? :: r < op.limit
    ensures AfterBoxes(b, held, ops).env[r] == b.env[r]
    decreases ops
  {
    if ops != [] {
      assert ops[0] in ops;
      StaysPut(StepBoxes(b, held, ops[0]), Hold(b, held, ops[0]), ops[1..], r);
    }
  }

  class Cell {
    var open: bool  // `location` still points at a register
    var slot: nat   // which one
    var obj: Value  // the cell's own object

    constructor (slot: nat)
      ensures open && this.slot == slot
    {
      open, this.slot, obj := true, slot, Invalid;
    }

    /** The cell takes over the value its location holds. */
    method Close(value: Value)
      modifies this
      ensures State() == Closed(value)
    {
      obj := value;
      open := false;
    }

    ghost function State(): CellState
      reads this
    {
      if open then Open(slot) else Closed(obj)
    }
  }

  datatype CellState = Open(slot: nat) | Closed(obj: Value)

  type View = map<Cell, CellState>

  /* The link between the two views. */

  /** `box` maps every cell ever made to its box: an open cell shares the box of
      the variable in its register, a closed one has a box no register uses. */
  ghost predicate Linked(S: Boxes, regs: seq<Value>, view: View, box: map<Cell, nat>) {
    && BoxesOk(S) && |S.env| == |regs| && box.Keys == view.Keys
    && (forall r | 0 <= r < |regs| :: regs[r] == Content(S, S.env[r]))
    && (forall c | c in view :: box[c] < |S.vals| && CellLinked(S, view[c], box[c]))
    && (forall c, d | c in view && d in view && box[c] == box[d] :: c == d)
  }

  ghost predicate CellLinked(S: Boxes, state: CellState, b: nat) {
    match state
    case Open(slot) => slot < |S.env| && b == S.env[slot]
    case Closed(obj) => obj == Content(S, b) && b !in S.env
  }

  lemma LinkSet(S: Boxes, regs: seq<Value>, view: View, box: map<Cell, nat>, r: nat, v: Value)
    requires Linked(S, regs, view, box) && r < |regs|
    ensures Linked(Put(S, S.env[r], v), regs[r := v], view, box)
  {
  }

  lemma LinkSetClosed(S: Boxes, regs: seq<Value>, view: View, box: map<Cell, nat>, c: Cell, v: Value)
    requires Linked(S, regs, view, box) && c in view && view[c].Closed?
    ensures Linked(Put(S, box[c], v), regs, view[c := Closed(v)], box)
  {
    hide Put, Content;
    var view' := view[c := Closed(v)];
    var S' := Put(S, box[c], v);
    assert CellLinked(S, view[c], box[c]);
    PutFacts(S, box[c], v);
    forall d | d in view' ensures d in view && CellLinked(S', view'[d], box[d]) {
      if d != c { assert box[d] != box[c] && CellLinked(S, view[d], box[d]); }
    }
  }

  lemma PutFacts(S: Boxes, b: nat, v: Value)
    requires b < |S.vals|
    ensures var S' := Put(S, b, v);
            S'.env == S.env && |S'.vals| == |S.vals| && Content(S', b) == v
            && (forall k: nat | k != b :: Content(S', k) == Content(S, k))
  {
  }

  lemma LinkNew(S: Boxes, regs: seq<Value>, view: View, box: map<Cell, nat>, c: Cell, slot: nat)
    requires Linked(S, regs, view, box) && c !in view && slot < |regs|
    requires forall d | d in view :: view[d] != Open(slot)
    ensures Linked(S, regs, view[c := Open(slot)], box[c := S.env[slot]])
  {
    var view', box' := view[c := Open(slot)], box[c := S.env[slot]];
    forall d | d in view' ensures d == c || (d in view && box'[d] != box'[c]) {
      if d != c && view[d].Open? { assert view[d].slot != slot; }
    }
  }

  ghost function CloseState(state: CellState, regs: seq<Value>, limit: nat): CellState {
    if state.Open? && limit <= state.slot < |regs| then Closed(regs[state.slot]) else state
  }

  ghost function CloseView(view: View, regs: seq<Value>, limit: nat): View {
    map c | c in view :: CloseState(view[c], regs, limit)
  }

  lemma LinkLeave(S: Boxes, regs: seq<Value>, view: View, box: map<Cell, nat>, limit: nat)
    requires Linked(S, regs, view, box) && limit <= |regs|
    ensures Linked(Leave(S, limit), regs, CloseView(view, regs, limit), box)
  {
    LeaveOk(S, limit);
    var S', view' := Leave(S, limit), CloseView(view, regs, limit);
    forall c | c in view' ensures c in view && CellLinked(S', view'[c], box[c]) {
      assert c in view;
      forall r | 0 <= r < |S'.env| && view'[c].Closed? ensures S'.env[r] != box[c] {
        if r < limit && view[c].Open? { assert S.env[r] != S.env[view[c].slot]; }
      }
    }
  }

  ghost predicate Increasing(s: seq<nat>) {
    forall i, j | 0 <= i < j < |s| :: s[i] < s[j]
  }

  lemma IncreasingInsert(s: seq<nat>, pos: nat, x: nat)
    requires Increasing(s) && pos <= |s|
    requires (forall i | 0 <= i < pos :: s[i] < x) && forall i | pos <= i < |s| :: s[i] > x
    ensures Increasing(s[..pos] + [x] + s[pos..])
  {
  }

  lemma InsertMembers<T>(s: seq<T>, pos: nat, x: T)
    requires pos <= |s|
    ensures forall c :: c in s[..pos] + [x] + s[pos..] <==> c in s || c == x
  {
    assert s == s[..pos] + s[pos..];
  }

  ghost function Slots(cells: seq<Cell>): (s: seq<nat>)
    reads cells
    ensures |s| == |cells|
  {
    seq(|cells|, i requires 0 <= i < |cells| reads cells => cells[i].slot)
  }

  lemma SlotsAre(cells: seq<Cell>)
    ensures forall i | 0 <= i < |cells| :: Slots(cells)[i] == cells[i].slot
  {
  }

  lemma OpenCloses(slot: nat, regs: seq<Value>, limit: nat)
    requires slot < |regs|
    ensures CloseState(Open(slot), regs, limit) == if slot >= limit then Closed(regs[slot]) else Open(slot)
  {
  }

  lemma ClosedStays(state: CellState, regs: seq<Value>, limit: nat)
    requires state.Closed?
    ensures CloseState(state, regs, limit) == state
  {
  }

  /* The store. */

  class CellStore {
    const registers: array<Value>
    var activeCells: seq<Cell>

    ghost var shared: Boxes
    ghost var box: map<Cell, nat>

    ghost function Cells(): View
      reads `box, box.Keys
    {
      map c | c in box :: c.State()
    }

    /** Sorted by location, so that there is one cell for each at most; and all
        the open cells there are. */
    ghost predicate Sorted()
      reads `activeCells, `box, box.Keys, activeCells
    {
      && Increasing(Slots(activeCells))
      && (forall c | c in activeCells :: c in box && c.open)
      && (forall c | c in box && c.open :: c in activeCells)
    }

    ghost predicate Valid()
      reads this, registers, box.Keys, activeCells
    {
      Sorted() && Linked(shared, registers[..], Cells(), box)
    }

    constructor (size: nat)
      ensures Valid() && fresh(registers) && registers.Length == size && activeCells == [] && box == map[]
    {
      registers := new Value[size](_ => Invalid);
      activeCells := [];
      box := map[];
      shared := Boxes(seq(size, r => r), seq(size, _ => Invalid));
    }

    /* Variables by register. */

    method GetRegister(r: nat) returns (v: Value)
      requires Valid() && r < registers.Length
      ensures v == Content(shared, shared.env[r])
    {
      v := registers[r];
    }

    method SetRegister(r: nat, v: Value)
      requires Valid() && r < registers.Length
      modifies registers, `shared
      ensures Valid() && shared == Put(old(shared), old(shared).env[r], v)
    {
      LinkSet(shared, registers[..], Cells(), box, r, v);
      ghost var b := shared.env[r];
      hide Linked;
      registers[r] := v;
      shared := Put(shared, b, v);
      assert registers[..] == old(registers[..])[r := v];
    }

    /* Variables by cell. */

    method GetCell(c: Cell) returns (v: Value)
      requires Valid() && c in box
      ensures v == Content(shared, box[c])
    {
      assert c in Cells();
      v := if c.open then registers[c.slot] else c.obj;
    }

    method SetCell(c: Cell, v: Value)
      requires Valid() && c in box
      modifies registers, c`obj, `shared
      ensures Valid() && shared == Put(old(shared), box[c], v)
    {
      if c.open { SetRegister(c.slot, v); } else { SetClosed(c, v); }
    }

    method SetClosed(c: Cell, v: Value)
      requires Valid() && c in box && !c.open
      modifies c`obj, `shared
      ensures Valid() && shared == Put(old(shared), box[c], v)
    {
      ghost var view := Cells();
      assert view[c] == Closed(c.obj);
      LinkSetClosed(shared, registers[..], view, box, c, v);
      hide Linked;
      c.obj := v;
      shared := Put(shared, box[c], v);
      assert Cells() == view[c := Closed(v)];
    }

    /* Capturing. */

    /** The cell of a variable: the one it has, or else a new one. */
    method CaptureValue(slot: nat) returns (c: Cell)
      requires Valid() && slot < registers.Length
      modifies `activeCells, `box
      ensures Valid() && c in box && c.open && c.slot == slot && box[c] == shared.env[slot]
      ensures (exists d :: d in old(box) && d.open && d.slot == slot) <==> c in old(box)
      ensures c in old(box) ==> box == old(box) && activeCells == old(activeCells)
      ensures c !in old(box) ==> fresh(c) && box == old(box)[c := shared.env[slot]]
    {
      ghost var slots := Slots(activeCells);
      var i := |activeCells|;
      while i > 0
        invariant 0 <= i <= |slots|
        invariant forall j | i <= j < |slots| :: slots[j] > slot
      {
        var cell := activeCells[i - 1];
        assert cell.slot == slots[i - 1];
        if cell.slot < slot { break; }
        if cell.slot == slot {
          assert cell in Cells();
          return cell;
        }
        i := i - 1;
      }
      forall d | d in box && d.open ensures d.slot != slot {
        var j :| 0 <= j < |activeCells| && activeCells[j] == d;
        assert slots[j] == d.slot;
      }
      c := new Cell(slot);
      var pos := LowerBound(slot);
      Insert(c, pos);
    }

    /** std::lower_bound over the sorted cells. */
    method LowerBound(slot: nat) returns (pos: nat)
      requires Valid()
      ensures pos <= |activeCells|
      ensures forall i | 0 <= i < pos :: Slots(activeCells)[i] < slot
      ensures forall i | pos <= i < |activeCells| :: Slots(activeCells)[i] >= slot
    {
      ghost var slots := Slots(activeCells);
      var low: nat, count: nat := 0, |activeCells|;
      while count > 0
        invariant low + count <= |activeCells|
        invariant forall i | 0 <= i < low :: slots[i] < slot
        invariant forall i | low + count <= i < |slots| :: slots[i] >= slot
      {
        var step := count / 2;
        assert activeCells[low + step].slot == slots[low + step];
        if activeCells[low + step].slot < slot {
          low, count := low + step + 1, count - (step + 1);
        } else {
          count := step;
        }
      }
      pos := low;
    }

    method Insert(c: Cell, pos: nat)
      requires Valid() && c !in box && c.open && c.slot < registers.Length && pos <= |activeCells|
      requires forall i | 0 <= i < pos :: Slots(activeCells)[i] < c.slot
      requires forall i | pos <= i < |activeCells| :: Slots(activeCells)[i] >= c.slot
      requires forall d | d in box && d.open :: d.slot != c.slot
      modifies `activeCells, `box
      ensures Valid() && box == old(box)[c := shared.env[c.slot]]
      ensures activeCells == old(activeCells[..pos]) + [c] + old(activeCells[pos..])
    {
      ghost var view, before, slots := Cells(), activeCells, Slots(activeCells);
      LinkNew(shared, registers[..], view, box, c, c.slot);
      ghost var b := shared.env[c.slot];
      hide Linked, Increasing;
      forall i | pos <= i < |slots| ensures slots[i] > c.slot { assert before[i] in before; }
      IncreasingInsert(slots, pos, c.slot);
      InsertMembers(before, pos, c);
      activeCells := activeCells[..pos] + [c] + activeCells[pos..];
      box := box[c := b];
      assert Slots(activeCells) == slots[..pos] + [c.slot] + slots[pos..];
      assert Cells() == view[c := Open(c.slot)];
    }

    /* Closing. */

    lemma ActiveInRange()
      requires Valid()
      ensures forall c | c in activeCells :: c in box && c.slot < registers.Length
    {
      forall c | c in activeCells ensures c in box && c.slot < registers.Length { assert c in Cells(); }
    }

    /** The variables from `limit` on leave their registers: every cell at or above
        it takes over the value of its register. */
    method CloseCells(limit: nat)
      requires Valid() && limit <= registers.Length
      modifies `activeCells, `shared, activeCells
      ensures Valid() && shared == Leave(old(shared), limit) && box == old(box)
      ensures Cells() == CloseView(old(Cells()), registers[..], limit)
    {
      hide Linked, Increasing, Leave, Sorted, CloseView;
      LinkLeave(shared, registers[..], Cells(), box, limit);
      ActiveInRange();
      CloseAbove(limit);
      shared := Leave(shared, limit);
    }

    method CloseAbove(limit: nat)
      requires Sorted() && forall c | c in activeCells :: c.slot < registers.Length
      modifies `activeCells, activeCells
      ensures Sorted() && Cells() == CloseView(old(Cells()), registers[..], limit)
    {
      hide Increasing, Slots, CloseState;
      ghost var cells, slots, view := activeCells, Slots(activeCells), Cells();
      assert forall i | 0 <= i < |cells| :: slots[i] == cells[i].slot by {
        SlotsAre(cells);
      }
      PopCells(limit);
      ghost var n := |activeCells|;
      assert Slots(activeCells) == slots[..n] by {
        SlotsAre(activeCells);
      }
      IncreasingTake(slots, n);
      forall c | c in box
        ensures c.State() == CloseState(view[c], registers[..], limit) && (c.open ==> c in activeCells)
      {
        if c in cells {
          var i :| 0 <= i < |cells| && cells[i] == c;
          assert slots[i] == old(c.slot) && view[c] == Open(slots[i]);
          OpenCloses(slots[i], registers[..], limit);
          if i < n {
            BelowLast(slots, i, n - 1);
            assert activeCells[i] == c;
          }
        } else {
          ClosedStays(view[c], registers[..], limit);
        }
      }
    }

    method PopCells(limit: nat)
      requires Increasing(Slots(activeCells))
      requires forall c | c in activeCells :: c.open && c.slot < registers.Length
      modifies `activeCells, activeCells
      ensures var cells, slots, n := old(activeCells), old(Slots(activeCells)), |activeCells|;
              && n <= |cells| && activeCells == cells[..n] && (n > 0 ==> slots[n - 1] < limit)
              && (forall i | 0 <= i < n :: cells[i].State() == Open(slots[i]))
              && (forall i | n <= i < |cells| :: slots[i] >= limit && cells[i].State() == Closed(registers[slots[i]]))
    {
      ghost var cells, slots := activeCells, Slots(activeCells);
      hide Increasing;
      while |activeCells| > 0
        invariant |activeCells| <= |cells| && activeCells == cells[..|activeCells|]
        invariant forall i | 0 <= i < |cells| ::
                    cells[i].State() == if i < |activeCells| then Open(slots[i]) else Closed(registers[slots[i]])
        invariant forall i | |activeCells| <= i < |cells| :: slots[i] >= limit
      {
        ghost var last := |activeCells| - 1;
        var cell := activeCells[|activeCells| - 1];
        assert cell == cells[last] && cell.State() == Open(slots[last]);
        if cell.slot < limit { break; }
        assert slots[last] < registers.Length;
        forall i | 0 <= i < |cells| && i != last ensures cells[i] != cell {
          IncreasingDistinct(slots, i, last);
          assert slots[i] == old(cells[i].slot);
        }
        cell.Close(registers[cell.slot]);
        activeCells := activeCells[..|activeCells| - 1];
      }
    }

    /* Whole runs. */

    lemma SameSize()
      requires Valid()
      ensures |shared.env| == registers.Length
    {
    }

    ghost function Boxed(handles: seq<Cell>): seq<nat>
      reads `box
    {
      BoxesOf(box, handles)
    }

    /** Whatever code does, it sees what it would see if variables were boxes that
        closures share. */
    method Run(ops: seq<Op>) returns (out: seq<Value>)
      requires Valid()
      modifies this, registers, box.Keys
      ensures Valid() && out == RunBoxes(old(shared), [], ops) && shared == AfterBoxes(old(shared), [], ops)
      ensures KeptBoxes(old(box), box)
    {
      hide Linked, Sorted, BoxesOk, Leave;
      var handles: seq<Cell> := [];
      out := [];
      ghost var b0, cells0, box0 := shared, box.Keys, box;
      SameSize();
      assert ops[0..] == ops;
      for i := 0 to |ops|
        invariant Valid() && |shared.env| == registers.Length
        invariant forall c | c in box :: c in cells0 || fresh(c)
        invariant forall c | c in handles :: c in box
        invariant out + RunBoxes(shared, Boxed(handles), ops[i..]) == RunBoxes(b0, [], ops)
        invariant AfterBoxes(shared, Boxed(handles), ops[i..]) == AfterBoxes(b0, [], ops)
        invariant KeptBoxes(box0, box)
      {
        ghost var b, held := shared, Boxed(handles);
        assert ops[i..][0] == ops[i] && ops[i..][1..] == ops[i + 1..];
        ghost var before := out;
        out, handles := RunOp(ops[i], out, handles);
        Later(before, Seen(b, held, ops[i]), RunBoxes(shared, Boxed(handles), ops[i + 1..]));
      }
      assert ops[|ops|..] == [] && out + [] == out;
    }

    method RunOp(op: Op, before: seq<Value>, handles0: seq<Cell>) returns (out: seq<Value>, handles: seq<Cell>)
      requires Valid() && |shared.env| == registers.Length && forall c | c in handles0 :: c in box
      modifies this, registers, box.Keys
      ensures Valid() && |shared.env| == registers.Length && forall c | c in handles :: c in box
      ensures (forall c | c in box :: c in old(box) || fresh(c)) && KeptBoxes(old(box), box)
      ensures var b, held := old(shared), old(Boxed(handles0));
              && shared == StepBoxes(b, held, op) && Boxed(handles) == Hold(b, held, op)
              && out == before + Seen(b, held, op)
    {
      hide Linked, Sorted, BoxesOk, Leave;
      out, handles := before, handles0;
      match op {
        case Load(r) =>
          if r < registers.Length {
            var v := GetRegister(r);
            out := out + [v];
          }
        case Assign(r, v) => if r < registers.Length { SetRegister(r, v); }
        case Capture(r) =>
          if r < registers.Length {
            var c := CaptureValue(r);
            handles := handles + [c];
          }
        case LoadCell(h) =>
          if h < |handles| {
            var v := GetCell(handles[h]);
            out := out + [v];
          }
        case AssignCell(h, v) => if h < |handles| { SetCell(handles[h], v); }
        case ExitScope(limit) =>
          if limit <= registers.Length {
            ActiveInRange();
            CloseCells(limit);
          }
      }
    }
  }

  /** No cell ever changes the variable it stands for. */
  ghost predicate KeptBoxes(a: map<Cell, nat>, b: map<Cell, nat>) {
    forall c | c in a :: c in b && b[c] == a[c]
  }

  ghost function BoxesOf(box: map<Cell, nat>, handles: seq<Cell>): (held: seq<nat>)
    ensures |held| == |handles|
  {
    seq(|handles|, i requires 0 <= i < |handles| => if handles[i] in box then box[handles[i]] else 0)
  }

  lemma Later(a: seq<Value>, b: seq<Value>, c: seq<Value>)
    ensures a + (b + c) == (a + b) + c
  {
  }

  lemma IncreasingDistinct(s: seq<nat>, i: nat, j: nat)
    requires Increasing(s) && i < |s| && j < |s| && i != j
    ensures s[i] != s[j]
  {
  }

  lemma IncreasingTake(s: seq<nat>, n: nat)
    requires Increasing(s) && n <= |s|
    ensures Increasing(s[..n])
  {
  }

  lemma BelowLast(s: seq<nat>, i: nat, j: nat)
    requires Increasing(s) && i <= j < |s|
    ensures s[i] <= s[j]
  {
  }
}
