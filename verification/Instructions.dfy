/** Where instructions begin and end. The virtual machine (src/vm.cpp) and the
    disassembler (src/disasm.cpp) each know how many operands every opcode has; a chunk
    is well formed when it is made of whole instructions and every jump lands on one. */
module Instructions {
  import opened Words
  import opened Opcodes

  type Bytes = seq<u8>

  /* How many operand bytes are read, by the cases of executeOp. */

  function VmOperands(op: u8): nat {
    if op == OP_JUMP || op == OP_LOOP then 2
    else if op == OP_JUMP_TRUE || op == OP_JUMP_FALSE then 1 + 2
    else if op == OP_MOVE_REG then 2
    else if op == OP_DEF_START then 1
    else if OP_GET_GLOBAL <= op <= OP_SET_LOCAL then 2
    else if op == OP_GET_INDEX || op == OP_SET_INDEX then 3
    else if op == OP_LIST || op == OP_TABLE then 1
    else if op == OP_EXT_LIST || op == OP_EXT_TABLE then 3
    else if op == OP_RANGE then 3
    else if op == OP_FORMAT_STR then 2
    else if op == OP_FIELD || op == OP_METHOD then 3
    else if op == OP_INSTANCE || op == OP_FINISH_FIELDS then 1
    else if OP_INIT_FIELD <= op <= OP_SET_FIELD then 3
    else if op == OP_MODULE then 2
    else if op == OP_GET_ENTRY then 3
    else if op == OP_MAKE_ITER then 2
    else if op == OP_UPDATE_ITER then 2 + 2
    else if OP_ADD <= op <= OP_MOD then 1 + 1
    else if OP_EQUAL <= op <= OP_IN then 1 + 1
    else if op == OP_AND || op == OP_OR || op == OP_XOR || op == OP_SHIFT_L || op == OP_SHIFT_R then 1 + 1
    else if op == OP_INCR || op == OP_DECR || op == OP_NOT || op == OP_NEG || op == OP_COMP then 1
    else if op == OP_PRINT_VALID then 1
    else if op == OP_CALL_NAT || op == OP_CALL_DEF then 3
    else if op == OP_RETURN || op == OP_VOID || op == OP_VAR_ARGS || op == OP_CLOSURE then 1
    else if op == OP_CAPTURE_GLOBAL || op == OP_CAPTURE_LOCAL || op == OP_CAPTURE_CELL then 2
    else if op == OP_VAR || op == OP_FIX then 2
    else if op == OP_IMMUT || op == OP_MUT || op == OP_COMPUTE then 1
    else if op == OP_UNPACK then 2 + 2
    else if op == OP_VAR_REF then 1 + 2
    else if op == OP_INDEX_REF || op == OP_FIELD_REF then 2
    else if op == OP_ENTER_SCOPE then 1
    else 0
  }

  /** Opcodes the machine has a case for. */
  predicate Enabled(op: u8) {
    OP_ADD <= op <= OP_HALT && !(OP_BYTE_OPER <= op <= OP_LONG_OPER)
  }

  /** Bytes after the operand code of OP_LOAD_REG; none for the immediate values. */
  function OperandSize(oper: u8): nat {
    if oper == OP_BYTE_OPER then 1 else if oper == OP_SHORT_OPER then 2 else if oper == OP_LONG_OPER then 4 else 0
  }

  predicate Loadable(oper: u8) {
    oper <= OP_NULL || OP_BYTE_OPER <= oper <= OP_LONG_OPER
  }

  /** Length of the instruction in front; 0 when it is cut off or unknown. */
  function Length(c: Bytes): nat {
    if c == [] || !Enabled(c[0]) then 0
    else if c[0] == OP_LOAD_REG then
      if |c| < 3 || !Loadable(c[2]) then 0 else Fitting(3 + OperandSize(c[2]), |c|)
    else Fitting(1 + VmOperands(c[0]), |c|)
  }

  function Fitting(n: nat, room: nat): nat {
    if n <= room then n else 0
  }

  lemma LengthFits(c: Bytes)
    ensures Length(c) <= |c|
  {
  }

  lemma LengthLocal(a: Bytes, b: Bytes)
    requires Length(a) > 0
    ensures Length(a + b) == Length(a)
  {
    assert (a + b)[0] == a[0];
    if a[0] == OP_LOAD_REG {
      assert (a + b)[2] == a[2];
    }
  }

  /* Instructions one after the other. */

  predicate Whole(c: Bytes)
    decreases |c|
  {
    c == [] || (Length(c) > 0 && Whole(Rest(c)))
  }

  function Rest(c: Bytes): (r: Bytes)
    requires Length(c) > 0
    ensures |r| == |c| - Length(c)
  {
    LengthFits(c);
    c[Length(c)..]
  }

  /** An instruction starts at `k`, or the code ends there. */
  predicate Boundary(c: Bytes, k: int)
    decreases |c|
  {
    k == 0 || (Length(c) > 0 && k >= Length(c) && Boundary(Rest(c), k - Length(c)))
  }

  function Distance(high: u8, low: u8): nat {
    high as int * 0x100 + low
  }

  /** Where the instruction in front of `c`, being at `at`, may jump to. */
  function Jump(c: Bytes, at: int): set<int>
    requires Length(c) > 0
  {
    LengthFits(c);
    if c[0] == OP_JUMP then {at + 3 + Distance(c[1], c[2])}
    else if c[0] == OP_JUMP_TRUE || c[0] == OP_JUMP_FALSE then {at + 4 + Distance(c[2], c[3])}
    else if c[0] == OP_LOOP then {at + 3 - Distance(c[1], c[2])}
    else if c[0] == OP_UPDATE_ITER then {at + 5 - Distance(c[3], c[4])}
    else if c[0] == OP_MAKE_ITER then {at + 3 + 3}
    else {}
  }

  function Targets(c: Bytes, at: int): set<int>
    decreases |c|
  {
    if Length(c) == 0 then {} else Jump(c, at) + Targets(Rest(c), at + Length(c))
  }

  /** Whole instructions; all jumps land on boundaries, or `y` bytes before the code
      with `y` in `back`, or `d` bytes behind it with `d` in `ahead`. */
  ghost predicate Piece(c: Bytes, back: set<nat>, ahead: set<nat>) {
    Whole(c) && forall x | x in Targets(c, 0) :: Lands(c, back, ahead, x)
  }

  ghost predicate Lands(c: Bytes, back: set<nat>, ahead: set<nat>, x: int) {
    if x < 0 then -x in back else if x <= |c| then Boundary(c, x) else x - |c| in ahead
  }

  /* Putting pieces together. */

  lemma RestJoin(a: Bytes, b: Bytes)
    requires Length(a) > 0
    ensures Length(a + b) == Length(a) && Rest(a + b) == Rest(a) + b
  {
    LengthLocal(a, b);
    LengthFits(a);
  }

  lemma {:induction false} WholeJoin(a: Bytes, b: Bytes)
    requires Whole(a) && Whole(b)
    ensures Whole(a + b)
    decreases |a|
  {
    hide Length;
    if a == [] {
      assert a + b == b;
    } else {
      RestJoin(a, b);
      WholeJoin(Rest(a), b);
    }
  }

  lemma {:induction false} BoundaryFirst(a: Bytes, b: Bytes, k: int)
    requires Boundary(a, k)
    ensures Boundary(a + b, k)
    decreases |a|
  {
    hide Length;
    if k != 0 {
      RestJoin(a, b);
      BoundaryFirst(Rest(a), b, k - Length(a));
    }
  }

  lemma {:induction false} BoundarySecond(a: Bytes, b: Bytes, k: int)
    requires Whole(a) && Boundary(b, k)
    ensures Boundary(a + b, |a| + k)
    decreases |a|
  {
    hide Length;
    if a == [] {
      assert a + b == b;
    } else {
      RestJoin(a, b);
      BoundaryLow(b, k);
      BoundarySecond(Rest(a), b, k);
    }
  }

  lemma {:induction false} BoundaryLow(c: Bytes, k: int)
    requires Boundary(c, k)
    ensures 0 <= k <= |c|
    decreases |c|
  {
    if k != 0 {
      BoundaryLow(Rest(c), k - Length(c));
    }
  }

  lemma {:induction false} BoundaryEnd(c: Bytes)
    requires Whole(c)
    ensures Boundary(c, |c|)
    decreases |c|
  {
    if c != [] {
      BoundaryEnd(Rest(c));
    }
  }

  lemma {:induction false} TargetsJoin(a: Bytes, b: Bytes, at: int)
    requires Whole(a)
    ensures Targets(a + b, at) == Targets(a, at) + Targets(b, at + |a|)
    decreases |a|
  {
    hide Length, Jump;
    if a == [] {
      assert a + b == b;
      NoTargets(at);
    } else {
      RestJoin(a, b);
      TargetsJoin(Rest(a), b, at + Length(a));
      JumpJoin(a, b, at);
    }
  }

  lemma NoTargets(at: int)
    ensures Targets([], at) == {}
  {
  }

  lemma JumpJoin(a: Bytes, b: Bytes, at: int)
    requires Length(a) > 0
    ensures Length(a + b) > 0 && Jump(a + b, at) == Jump(a, at)
  {
    LengthLocal(a, b);
  }

  /** Jumps are relative. */
  lemma {:induction false} TargetsMove(c: Bytes, at: int, n: int, x: int)
    ensures x in Targets(c, at) <==> x + n in Targets(c, at + n)
    decreases |c|
  {
    hide Length, Jump;
    if Length(c) > 0 {
      TargetsMove(Rest(c), at + Length(c), n, x);
      JumpMove(c, at, n, x);
      assert at + Length(c) + n == at + n + Length(c);
    }
  }

  lemma JumpMove(c: Bytes, at: int, n: int, x: int)
    requires Length(c) > 0
    ensures x in Jump(c, at) <==> x + n in Jump(c, at + n)
  {
  }

  /** How the open ends of two neighbours meet. */
  ghost predicate Meets(a: Bytes, ahead: set<nat>, b: Bytes, ahead': set<nat>) {
    forall d | d in ahead :: if d <= |b| then Boundary(b, d) else d - |b| in ahead'
  }

  ghost predicate MeetsBack(a: Bytes, back': set<nat>, b: Bytes, back: set<nat>) {
    forall y | y in back :: if y <= |a| then Boundary(a, |a| - y) else y - |a| in back'
  }

  lemma Join(a: Bytes, back: set<nat>, mid: set<nat>, b: Bytes, back2: set<nat>, ahead: set<nat>)
    requires Piece(a, back, mid) && Piece(b, back2, ahead)
    requires Meets(a, mid, b, ahead) && MeetsBack(a, back, b, back2)
    ensures Piece(a + b, back, ahead)
  {
    hide Whole, Boundary, Targets;
    WholeJoin(a, b);
    TargetsJoin(a, b, 0);
    forall x | x in Targets(a + b, 0) ensures Lands(a + b, back, ahead, x) {
      if x in Targets(a, 0) {
        assert Lands(a, back, mid, x);
        if 0 <= x <= |a| {
          BoundaryFirst(a, b, x);
        } else if |a| < x <= |a| + |b| {
          BoundarySecond(a, b, x - |a|);
        }
      } else {
        TargetsMove(b, 0, |a|, x - |a|);
        assert Lands(b, back2, ahead, x - |a|);
        if 0 <= x < |a| {
          BoundaryFirst(a, b, x);
        } else if |a| <= x <= |a| + |b| {
          BoundarySecond(a, b, x - |a|);
        }
      }
    }
  }

  /** The common case: no jump leaves the two parts. */
  lemma JoinClosed(a: Bytes, b: Bytes)
    requires Piece(a, {}, {}) && Piece(b, {}, {})
    ensures Piece(a + b, {}, {})
  {
    hide Piece;
    Join(a, {}, {}, b, {}, {});
  }

  lemma Widen(c: Bytes, back: set<nat>, ahead: set<nat>, back': set<nat>, ahead': set<nat>)
    requires Piece(c, back, ahead) && back <= back' && ahead <= ahead'
    ensures Piece(c, back', ahead')
  {
    hide Whole, Targets, Boundary;
    forall x | x in Targets(c, 0) ensures Lands(c, back', ahead', x) {
      assert Lands(c, back, ahead, x);
    }
  }
}
