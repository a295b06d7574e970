/** The VM dispatch loop as a step function: it decodes the bytes at `ip` and
    changes the register window. `VirtualMachine` refines it in place. */
module Machine {
  import opened Words
  import opened Opcodes
  import opened Values

  datatype Program = Program(code: seq<u8>, pool: seq<Value>)

  /** `Stuck` covers what the source leaves undefined: reading past the chunk,
      an unknown opcode, OP_EXT_LIST on something that is no list. */
  datatype Status = Running | Halted | Failed(error: Error) | Stuck

  datatype State = State(ip: nat, regs: seq<Value>, scopes: seq<u8>, status: Status)

  const WINDOW := 0x100

  /* Decoding. */

  /** `n` bytes are left at `ip`. */
  predicate Has(P: Program, ip: nat, n: nat) {
    ip + n <= |P.code|
  }

  function ReadShort(P: Program, i: nat): nat
    requires Has(P, i, 2)
  {
    var high: int := P.code[i];
    high * 0x100 + P.code[i + 1]
  }

  function ReadLong(P: Program, i: nat): nat
    requires Has(P, i, 4)
  {
    ReadShort(P, i) * 0x1_0000 + ReadShort(P, i + 2)
  }

  datatype Oper = Oper(value: Value, size: nat) | NoOper

  function PoolOper(P: Program, index: nat, size: nat): Oper {
    if index < |P.pool| then Oper(P.pool[index], size) else NoOper
  }

  /** The operand of OP_LOAD_REG at `i`, and how many bytes it takes. */
  function LoadOper(P: Program, i: nat): Oper {
    if !Has(P, i, 1) then NoOper
    else
      var op := P.code[i];
      if op <= OP_TWO then Oper(Int(op - 2), 1)
      else if op == OP_TRUE then Oper(Bool(true), 1)
      else if op == OP_FALSE then Oper(Bool(false), 1)
      else if op == OP_NULL then Oper(Null, 1)
      else if op == OP_BYTE_OPER && Has(P, i, 2) then PoolOper(P, P.code[i + 1], 2)
      else if op == OP_SHORT_OPER && Has(P, i, 3) then PoolOper(P, ReadShort(P, i + 1), 3)
      else if op == OP_LONG_OPER && Has(P, i, 5) then PoolOper(P, ReadLong(P, i + 1), 5)
      else NoOper
  }

  /* Operators. */

  function ArithOper(op: u8, a: Value, b: Value): Result {
    if !a.Int? || !b.Int? then Err(BadOperands)
    else if op == OP_ADD then Ok(Int(Wrap64(a.i + b.i)))
    else if op == OP_SUB then Ok(Int(Wrap64(a.i - b.i)))
    else if op == OP_MULT then Ok(Int(Wrap64(a.i * b.i)))
    else if b.i == 0 then Err(ModulusWithZero)
    else Ok(Int(Wrap64(TruncMod(a.i, b.i))))
  }

  function CompareOper(op: u8, a: Value, b: Value): Result {
    if (op == OP_GT || op == OP_LT) && (!a.Int? || !b.Int?) then Err(BadOperands)
    else if op == OP_EQUAL then Ok(Bool(Equal(a, b)))
    else if op == OP_GT then Ok(Bool(AsDouble(a.i) > AsDouble(b.i)))
    else if op == OP_LT then Ok(Bool(AsDouble(a.i) < AsDouble(b.i)))
    else if b.List? then Ok(Bool(Contains(b.items, a)))
    else Err(NotIterable)
  }

  function BitOper(op: u8, a: Value, b: Value): Result {
    if !a.Int? || !b.Int? then Err(BadOperands)
    else if op == OP_AND then Ok(Int(Wrap64(BitAnd(ToUnsigned(a.i), ToUnsigned(b.i)))))
    else if op == OP_OR then Ok(Int(Wrap64(BitOr(ToUnsigned(a.i), ToUnsigned(b.i)))))
    else if op == OP_XOR then Ok(Int(Wrap64(BitXor(ToUnsigned(a.i), ToUnsigned(b.i)))))
    else if ToUnsigned(b.i) >= 64 then Err(HitShiftMax)
    else if op == OP_SHIFT_L then Ok(Int(ShiftLeft(a.i, b.i)))
    else Ok(Int(ShiftRight(a.i, b.i)))
  }

  function UnaryOper(op: u8, v: Value): Result {
    if op == OP_NOT then Ok(Bool(!Truthy(v)))
    else if !v.Int? then Err(BadOperand)
    else if op == OP_INCR then Ok(Int(Wrap64(v.i + 1)))
    else if op == OP_DECR then Ok(Int(Wrap64(v.i + -1)))
    else if op == OP_NEG then Ok(Int(Wrap64(v.i * -1)))
    else Ok(Int(FromUnsigned(TWO64 - 1 - ToUnsigned(v.i))))
  }

  predicate IsArith(op: u8) {
    op == OP_ADD || op == OP_SUB || op == OP_MULT || op == OP_MOD
  }

  predicate IsCompare(op: u8) {
    op == OP_EQUAL || op == OP_GT || op == OP_LT || op == OP_IN
  }

  predicate IsBit(op: u8) {
    op == OP_AND || op == OP_OR || op == OP_XOR || op == OP_SHIFT_R || op == OP_SHIFT_L
  }

  predicate IsUnary(op: u8) {
    op == OP_NEG || op == OP_INCR || op == OP_DECR || op == OP_NOT || op == OP_COMP
  }

  predicate IsCopy(op: u8) {
    op == OP_GET_GLOBAL || op == OP_SET_GLOBAL || op == OP_GET_LOCAL || op == OP_SET_LOCAL
  }

  predicate IsBinary(op: u8) {
    IsArith(op) || IsCompare(op) || IsBit(op)
  }

  function BinaryOper(op: u8, a: Value, b: Value): Result
    requires IsBinary(op)
  {
    if IsArith(op) then ArithOper(op, a, b)
    else if IsCompare(op) then CompareOper(op, a, b)
    else BitOper(op, a, b)
  }

  /* Executing one instruction. */

  function Store(m: State, dest: u8, r: Result, ip: nat): State
    requires |m.regs| >= WINDOW
  {
    match r
    case Ok(v) => m.(ip := ip, regs := m.regs[dest := v])
    case Err(x) => m.(ip := ip, status := Failed(x))
  }

  function Move(regs: seq<Value>, dest: u8, src: u8): seq<Value>
    requires |regs| >= WINDOW
  {
    if dest == src then regs else regs[dest := regs[src]][src := Invalid]
  }

  function Step(P: Program, m: State): (m': State)
    ensures |m'.regs| == |m.regs|
  {
    if m.status != Running || |m.regs| < WINDOW then m
    else if !Has(P, m.ip, 1) then m.(status := Stuck)
    else
      var op := P.code[m.ip];
      if op == OP_HALT then m.(ip := m.ip + 1, status := Halted)
      else if op == OP_EXIT_SCOPE then
        if m.scopes == [] then m.(status := Stuck)
        else m.(ip := m.ip + 1, scopes := m.scopes[..|m.scopes| - 1])
      else if !Has(P, m.ip, 2) then m.(status := Stuck)
      else
        var a := P.code[m.ip + 1];
        if op == OP_LOAD_REG then
          match LoadOper(P, m.ip + 2)
          case NoOper => m.(status := Stuck)
          case Oper(v, size) => m.(ip := m.ip + 2 + size, regs := m.regs[a := v])
        else if IsUnary(op) then Store(m, a, UnaryOper(op, m.regs[a]), m.ip + 2)
        else if op == OP_LIST then m.(ip := m.ip + 2, regs := m.regs[a := List([])])
        else if op == OP_ENTER_SCOPE then m.(ip := m.ip + 2, scopes := m.scopes + [a])
        else if !Has(P, m.ip, 3) then m.(status := Stuck)
        else Step3(P, m, op, a, P.code[m.ip + 2])
  }

  /** Instructions of three bytes and more. */
  function Step3(P: Program, m: State, op: u8, a: u8, b: u8): (m': State)
    requires |m.regs| >= WINDOW && Has(P, m.ip, 3)
    ensures |m'.regs| == |m.regs|
  {
    if IsCopy(op) then m.(ip := m.ip + 3, regs := m.regs[a := m.regs[b]])
    else if op == OP_MOVE_REG then m.(ip := m.ip + 3, regs := Move(m.regs, a, b))
    else if IsBinary(op) then Store(m, a, BinaryOper(op, m.regs[a], m.regs[b]), m.ip + 3)
    else if op == OP_VAR || op == OP_FIX then m.(ip := m.ip + 3)  // mutability flags only
    else if op == OP_JUMP then m.(ip := m.ip + 3 + ReadShort(P, m.ip + 1))
    else if op == OP_LOOP then
      if ReadShort(P, m.ip + 1) <= m.ip + 3 then m.(ip := m.ip + 3 - ReadShort(P, m.ip + 1))
      else m.(status := Stuck)
    else if !Has(P, m.ip, 4) then m.(status := Stuck)
    else
      var c := P.code[m.ip + 3];
      if op == OP_JUMP_TRUE then
        m.(ip := m.ip + 4 + if Truthy(m.regs[a]) then ReadShort(P, m.ip + 2) else 0)
      else if op == OP_JUMP_FALSE then
        m.(ip := m.ip + 4 + if Truthy(m.regs[a]) then 0 else ReadShort(P, m.ip + 2))
      else if op == OP_GET_INDEX then Store(m, a, GetIndex(m.regs[b], m.regs[c]), m.ip + 4)
      else if op == OP_EXT_LIST then
        if m.regs[a].List? && b + c <= WINDOW
        then m.(ip := m.ip + 4, regs := m.regs[a := List(m.regs[a].items + m.regs[b..b + c])])
        else m.(status := Stuck)
      else m.(status := Stuck)
  }

  /* Runs. */

  /** Consecutive states of a run. */
  ghost predicate Trace(P: Program, t: seq<State>) {
    t != [] && forall i {:trigger Step(P, t[i])} | 0 <= i < |t| - 1 :: t[i + 1] == Step(P, t[i])
  }

  ghost predicate TraceFromTo(P: Program, t: seq<State>, m: State, m': State) {
    Trace(P, t) && t[0] == m && t[|t| - 1] == m'
  }

  /** The run from `m` passes through `m'`. */
  ghost predicate Reaches(P: Program, m: State, m': State) {
    exists t :: TraceFromTo(P, t, m, m')
  }

  lemma ReachesSelf(P: Program, m: State)
    ensures Reaches(P, m, m)
  {
    assert TraceFromTo(P, [m], m, m);
  }

  lemma TraceJoin(P: Program, t: seq<State>, u: seq<State>)
    requires Trace(P, t) && Trace(P, u) && t[|t| - 1] == u[0]
    ensures TraceFromTo(P, t + u[1..], t[0], u[|u| - 1])
  {
    var w := t + u[1..];
    forall i | 0 <= i < |w| - 1 ensures w[i + 1] == Step(P, w[i]) {
      if i < |t| - 1 {
        assert t[i + 1] == Step(P, t[i]);
      } else {
        var j := i - (|t| - 1);
        assert w[i] == u[j];
        assert u[j + 1] == Step(P, u[j]);
      }
    }
  }

  lemma ReachesTrans(P: Program, a: State, b: State, c: State)
    requires Reaches(P, a, b) && Reaches(P, b, c)
    ensures Reaches(P, a, c)
  {
    var t :| TraceFromTo(P, t, a, b);
    var u :| TraceFromTo(P, u, b, c);
    TraceJoin(P, t, u);
    assert TraceFromTo(P, t + u[1..], a, c);
  }

  lemma ReachesStep(P: Program, m: State)
    ensures Reaches(P, m, Step(P, m))
  {
    assert TraceFromTo(P, [m, Step(P, m)], m, Step(P, m));
  }

  /** The machine is still running after more than `n` states. */
  ghost predicate Busy(P: Program, m: State, n: nat) {
    exists t: seq<State> :: Trace(P, t) && t[0] == m && |t| > n && t[|t| - 1].status == Running
  }

  lemma BusyNow(P: Program, m: State)
    requires m.status == Running
    ensures Busy(P, m, 0)
  {
    assert Trace(P, [m]) && [m][0] == m;
  }

  lemma BusyLater(P: Program, a: State, b: State, n: nat)
    requires Reaches(P, a, b) && Busy(P, b, n)
    ensures Busy(P, a, n)
  {
    hide Step;
    var t :| TraceFromTo(P, t, a, b);
    var u: seq<State> :| Trace(P, u) && u[0] == b && |u| > n && u[|u| - 1].status == Running;
    TraceJoin(P, t, u);
    var w := t + u[1..];
    assert Trace(P, w) && w[0] == a && |w| > n && w[|w| - 1].status == Running;
  }

  lemma BusyStep(P: Program, m: State, n: nat)
    requires Busy(P, Step(P, m), n)
    ensures Busy(P, m, n + 1)
  {
    hide Step;
    var u: seq<State> :| Trace(P, u) && u[0] == Step(P, m) && |u| > n && u[|u| - 1].status == Running;
    var t := [m, Step(P, m)];
    TraceJoin(P, t, u);
    var w := t + u[1..];
    assert Trace(P, w) && w[0] == m && |w| > n + 1 && w[|w| - 1].status == Running;
  }
}
