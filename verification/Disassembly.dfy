/** The disassembler (src/disasm.cpp) sweeps over a chunk from its first byte; the
    virtual machine jumps around in it. On the chunks of compiled scripts they agree on
    where instructions are. */
module Disassembly {
  import opened Words
  import opened Opcodes
  import opened Syntax
  import opened Values
  import opened Source
  import opened Codegen
  import opened StmtCode
  import opened Instructions
  import opened WellFormed
  import M = Machine
  import opened ProgramCorrect

  /** Operand bytes by the cases of disassembleOp. */
  function DisOperands(op: u8): nat {
    if OP_ADD <= op <= OP_MOD || op == OP_AND || op == OP_OR || op == OP_XOR || op == OP_SHIFT_R || op == OP_SHIFT_L
       || op == OP_GET_GLOBAL || op == OP_SET_GLOBAL || op == OP_GET_CELL || op == OP_SET_CELL || op == OP_GET_LOCAL
       || op == OP_SET_LOCAL || op == OP_EQUAL || op == OP_GT || op == OP_LT || op == OP_VAR || op == OP_FIX
       || op == OP_IN || op == OP_MOVE_REG || op == OP_MODULE
    then 2
    else if op == OP_JUMP || op == OP_JUMP_TRUE || op == OP_JUMP_FALSE || op == OP_LOOP then
      if op == OP_JUMP_TRUE || op == OP_JUMP_FALSE then 3 else 2
    else if op == OP_MAKE_ITER || op == OP_UPDATE_ITER then if op == OP_UPDATE_ITER then 4 else 2
    else if op == OP_CALL_NAT || op == OP_CALL_DEF then 3
    else if op == OP_GET_INDEX || op == OP_SET_INDEX then 3
    else if op == OP_RANGE then 3
    else if op == OP_CLOSURE || op == OP_NEG || op == OP_NOT || op == OP_INCR || op == OP_DECR || op == OP_COMP
            || op == OP_RETURN || op == OP_VOID || op == OP_IMMUT || op == OP_MUT || op == OP_INSTANCE
            || op == OP_FINISH_FIELDS || op == OP_ENTER_SCOPE || op == OP_VAR_ARGS || op == OP_COMPUTE || op == OP_PRINT_VALID
    then 1
    else if op == OP_LIST || op == OP_EXT_LIST || op == OP_TABLE || op == OP_EXT_TABLE then
      if op == OP_EXT_LIST || op == OP_EXT_TABLE then 3 else 1
    else if op == OP_FIELD || op == OP_METHOD || op == OP_INIT_FIELD || op == OP_GET_FIELD || op == OP_SET_FIELD then 3
    else if op == OP_GET_ENTRY then 3
    else if op == OP_CAPTURE_GLOBAL || op == OP_CAPTURE_LOCAL || op == OP_CAPTURE_CELL then 2
    else if op == OP_UNPACK then 4
    else if op == OP_VAR_REF || op == OP_INDEX_REF || op == OP_FIELD_REF then if op == OP_VAR_REF then 3 else 2
    else if op == OP_FORMAT_STR then 2
    else if op == OP_DEF_START then 1
    else 0
  }

  /** Every opcode takes the same operands in both. OP_LOAD_REG, whose operand says
      itself how long it is, is read apart. */
  lemma SameOperands(op: u8)
    requires Enabled(op) && op != OP_LOAD_REG
    ensures DisOperands(op) == VmOperands(op)
  {
  }

  /** The positions of the instructions of a chunk. */
  function Sweep(c: Bytes, at: nat): seq<nat>
    requires Whole(c)
    decreases |c|
  {
    if c == [] then [] else [at] + Sweep(Rest(c), at + Length(c))
  }

  class Disassembler {
    const block: Bytes
    var ip: nat
    var lines: seq<nat>  // the offsets printed so far

    constructor (block: Bytes)
      ensures this.block == block && ip == 0 && lines == []
    {
      this.block := block;
      ip, lines := 0, [];
    }

    method ReadByte() returns (b: u8)
      requires ip < |block|
      modifies `ip
      ensures b == block[old(ip)] && ip == old(ip) + 1
    {
      b := block[ip];
      ip := ip + 1;
    }

    method ReadBytes(n: nat)
      requires ip + n <= |block|
      modifies `ip
      ensures ip == old(ip) + n
    {
      for i := 0 to n
        invariant ip == old(ip) + i
      {
        var b := ReadByte();
      }
    }

    /** The register, the kind of operand, and as many bytes as that kind has. */
    method LoadOp()
      requires ip + 2 <= |block| && ip + 2 + OperandSize(block[ip + 1]) <= |block|
      modifies `ip
      ensures ip == old(ip) + 2 + OperandSize(block[old(ip) + 1])
    {
      var reg := ReadByte();
      var kind := ReadByte();
      if kind == OP_BYTE_OPER {
        ReadBytes(1);
      } else if kind == OP_SHORT_OPER {
        ReadBytes(2);
      } else if kind == OP_LONG_OPER {
        ReadBytes(4);
      }
    }

    method DisassembleOp()
      requires ip < |block| && Length(block[ip..]) > 0
      modifies this
      ensures ip == old(ip) + Length(block[old(ip)..]) <= |block|
      ensures lines == old(lines) + [old(ip)]
    {
      hide VmOperands, DisOperands;
      lines := lines + [ip];
      LengthFits(block[ip..]);
      var op := ReadByte();
      if op == OP_LOAD_REG {
        assert block[old(ip)..][2] == block[old(ip) + 2];
        LoadOp();
      } else {
        SameOperands(op);
        ReadBytes(DisOperands(op));
      }
    }

    /** Prints every instruction of a well-formed chunk, and stops at its end. */
    method DisassembleCode()
      requires ip == 0 && lines == [] && Whole(block)
      modifies this
      ensures ip == |block| && lines == Sweep(block, 0)
    {
      hide Length;
      assert block[0..] == block;
      while ip < |block|
        invariant ip <= |block| && Whole(block[ip..])
        invariant lines + Sweep(block[ip..], ip) == Sweep(block, 0)
        decreases |block| - ip
      {
        ghost var c, at, done := block[ip..], ip, lines;
        DisassembleOp();
        assert Rest(c) == block[ip..];
        assert Sweep(c, at) == [at] + Sweep(block[ip..], ip);
        assert done + ([at] + Sweep(block[ip..], ip)) == (done + [at]) + Sweep(block[ip..], ip);
      }
      assert block[ip..] == [];
    }
  }

  /** The sweep passes exactly the boundaries before the end. */
  lemma {:induction false} SweepVisits(c: Bytes, at: nat, k: nat)
    requires Whole(c)
    ensures at + k in Sweep(c, at) <==> k < |c| && Boundary(c, k)
    decreases |c|
  {
    hide Length;
    if c != [] {
      LengthFits(c);
      var n := Length(c);
      SweepAfter(Rest(c), at + n);
      if k >= n {
        SweepVisits(Rest(c), at + n, k - n);
      }
    }
  }

  lemma {:induction false} SweepAfter(c: Bytes, at: nat)
    requires Whole(c)
    ensures forall x | x in Sweep(c, at) :: x >= at
    decreases |c|
  {
    hide Length;
    if c != [] {
      SweepAfter(Rest(c), at + Length(c));
    }
  }

  /* The machine. */

  lemma {:induction false} InstructionAt(c: Bytes, at: nat, k: nat, x: int)
    requires Whole(c) && Boundary(c, k) && k < |c|
    ensures Length(c[k..]) > 0 && Boundary(c, k + Length(c[k..]))
    ensures x in Jump(c[k..], at + k) ==> x in Targets(c, at)
    decreases |c|
  {
    hide Length, Jump;
    if k == 0 {
      assert c[0..] == c;
    } else {
      var n := Length(c);
      assert Rest(c)[k - n..] == c[k..] by {
        RestFrom(c, k);
      }
      InstructionAt(Rest(c), at + n, k - n, x);
    }
  }

  lemma RestFrom(c: Bytes, k: nat)
    requires Length(c) > 0 && Length(c) <= k <= |c|
    ensures Rest(c)[k - Length(c)..] == c[k..]
  {
  }

  /** A step goes on to the next instruction or takes the jump of this one. */
  lemma StepAdvances(P: M.Program, m: M.State)
    requires m.status == M.Running && |m.regs| >= M.WINDOW && m.ip < |P.code| && Length(P.code[m.ip..]) > 0
    ensures var m', c := M.Step(P, m), P.code[m.ip..];
            m'.status == M.Running ==> m'.ip == m.ip + Length(c) || m'.ip in Jump(c, m.ip)
  {
    var c := P.code[m.ip..];
    LengthFits(c);
    assert c[0] == P.code[m.ip];
    assert |c| > 2 ==> c[1] == P.code[m.ip + 1] && c[2] == P.code[m.ip + 2];
    assert |c| > 3 ==> c[3] == P.code[m.ip + 3];
  }

  /** In a well-formed chunk the machine never gets into the middle of an instruction. */
  lemma StepOnBoundary(P: M.Program, m: M.State)
    requires Piece(P.code, {}, {}) && Boundary(P.code, m.ip)
    ensures var m' := M.Step(P, m); m'.status == M.Running ==> Boundary(P.code, m'.ip)
  {
    hide M.Step, Length, Jump, Whole, Boundary, Targets;
    var m' := M.Step(P, m);
    StillRunning(P, m);
    if m'.status == M.Running && m' != m {
      InstructionAt(P.code, 0, m.ip, m'.ip);
      StepAdvances(P, m);
      if m'.ip in Jump(P.code[m.ip..], m.ip) {
        assert Lands(P.code, {}, {}, m'.ip);
      }
    }
  }

  lemma StillRunning(P: M.Program, m: M.State)
    ensures M.Step(P, m).status == M.Running ==> m.status == M.Running
    ensures M.Step(P, m).status == M.Running && M.Step(P, m) != m ==> m.ip < |P.code| && |m.regs| >= M.WINDOW
  {
  }

  lemma {:induction false} TraceOnBoundaries(P: M.Program, t: seq<M.State>, i: nat)
    requires Piece(P.code, {}, {}) && M.Trace(P, t) && Boundary(P.code, t[0].ip) && i < |t|
    ensures t[i].status == M.Running ==> Boundary(P.code, t[i].ip)
  {
    hide M.Step, Piece, Boundary;
    if i > 0 {
      TraceOnBoundaries(P, t, i - 1);
      assert t[i - 1 + 1] == M.Step(P, t[i - 1]);
      if t[i].status == M.Running {
        StillRunning(P, t[i - 1]);
        StepOnBoundary(P, t[i - 1]);
      }
    }
  }

  /** The chunk of a script that keeps within the limits is well formed. */
  lemma ScriptWellFormed(ss: seq<Stmt>, st: CState, pool: seq<Value>)
    requires FitsAll(true, ss, st, map[])
    ensures Piece(Script(ss, st, pool).code, {}, {})
  {
    hide Piece, CodeAll;
    ListCodePiece(true, ss, st, map[]);
    assert Dists(map[]) == {};
    Plain1(OP_HALT);
    JoinClosed(CodeAll(true, ss, st, map[]), [OP_HALT]);
  }

  /** Whatever instruction a run of the script is about to execute, the disassembler
      has printed a line for it. */
  lemma RunOnLines(ss: seq<Stmt>, st: CState, pool: seq<Value>, m: M.State, m': M.State)
    requires FitsAll(true, ss, st, map[]) && m.ip == 0
    requires var P := Script(ss, st, pool);
             M.Reaches(P, m, m') && m'.status == M.Running && m'.ip < |P.code|
    ensures var c := Script(ss, st, pool).code; Whole(c) && m'.ip in Sweep(c, 0)
  {
    hide Script, M.Step, Piece;
    var P := Script(ss, st, pool);
    ScriptWellFormed(ss, st, pool);
    var t :| M.TraceFromTo(P, t, m, m');
    TraceOnBoundaries(P, t, |t| - 1);
    WholeOf(P.code, {}, {});
    SweepVisits(P.code, 0, m'.ip);
  }

  /* What is not well formed. */

  /** Register numbers that are opcodes without operands. */
  predicate LoneOpcode(r: u8) {
    r == OP_DEF_END || r == OP_EXIT_SCOPE || r == OP_HALT
  }

  /** `x ~= e` is compiled like the other compound assignments, with two operands for
      OP_COMP, which takes one. The second, the register of the value, is then taken for
      an opcode, and the store that follows is an instruction of its own exactly when
      this opcode exists and takes no operands. */
  lemma ComplementAssignBroken(top: bool, k: int, slot: nat, r: nat)
    ensures Boundary(CompoundRow(OP_COMP, top, k, slot, r), 6) <==> LoneOpcode(Low(r))
  {
    hide Boundary;
    var c := CompoundRow(OP_COMP, top, k, slot, r);
    var store := SetVar(top, k, slot, r + 1) + [OP_MOVE_REG, Low(r), Low(r + 1)];
    assert c == GetVar(top, k, r + 1, slot) + ([OP_COMP, Low(r + 1)] + ([Low(r)] + store));
    assert Rest(c) == [OP_COMP, Low(r + 1)] + ([Low(r)] + store);
    assert Rest(Rest(c)) == [Low(r)] + store;
    NextBoundary(c, 6);
    NextBoundary(Rest(c), 3);
    NextBoundary(Rest(Rest(c)), 1);
    LoneLength([Low(r)] + store);
    if LoneOpcode(Low(r)) {
      NextBoundary(Rest(Rest(Rest(c))), 0);
    }
  }

  lemma NextBoundary(c: Bytes, k: int)
    ensures Boundary(c, k) <==> k == 0 || (Length(c) > 0 && k >= Length(c) && Boundary(Rest(c), k - Length(c)))
  {
  }

  lemma LoneLength(c: Bytes)
    requires c != []
    ensures Length(c) == 1 <==> LoneOpcode(c[0])
  {
  }
}
