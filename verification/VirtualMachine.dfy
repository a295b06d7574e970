/** The virtual machine in place (src/vm.cpp): a dispatch loop that advances `ip`
    over the bytes of a chunk and overwrites the registers of its window. Every
    instruction it executes is one `Machine.Step`. */
module VirtualMachine {
  import opened Words
  import opened Opcodes
  import opened Syntax
  import opened Values
  import opened Source
  import opened StmtCode
  import opened Machine
  import opened ExprCorrect
  import opened ProgramCorrect

  class VirtualMachine {
    const program: Program
    const registers: array<Value>

    var ip: nat
    var scopeStarts: seq<u8>
    var status: Status

    ghost predicate Valid() {
      registers.Length >= WINDOW
    }

    ghost function Now(): (m: State)
      reads this, registers
      ensures |m.regs| == registers.Length
    {
      State(ip, registers[..], scopeStarts, status)
    }

    constructor (program: Program)
      ensures Valid() && fresh(registers) && this.program == program
      ensures ip == 0 && scopeStarts == [] && status == Running
    {
      this.program := program;
      registers := new Value[WINDOW](_ => Invalid);
      ip, scopeStarts, status := 0, [], Running;
    }

    /* Decoding. */

    method ReadByte() returns (b: u8)
      requires Has(program, ip, 1)
      modifies `ip
      ensures b == program.code[old(ip)] && ip == old(ip) + 1
    {
      b := program.code[ip];
      ip := ip + 1;
    }

    method ReadShort() returns (x: nat)
      requires Has(program, ip, 2)
      modifies `ip
      ensures x == Machine.ReadShort(program, old(ip)) && ip == old(ip) + 2
    {
      var high: int := ReadByte();
      var low := ReadByte();
      x := high * 0x100 + low;
    }

    method ReadLong() returns (x: nat)
      requires Has(program, ip, 4)
      modifies `ip
      ensures x == Machine.ReadLong(program, old(ip)) && ip == old(ip) + 4
    {
      var high := ReadShort();
      var low := ReadShort();
      x := high * 0x1_0000 + low;
    }

    method LoadOper() returns (v: Value)
      requires Machine.LoadOper(program, ip).Oper?
      modifies `ip
      ensures ip > old(ip) && Machine.LoadOper(program, old(ip)) == Oper(v, ip - old(ip))
    {
      var oper := ReadByte();
      if oper <= OP_TWO {
        v := Int(oper - 2);
      } else if oper == OP_TRUE {
        v := Bool(true);
      } else if oper == OP_FALSE {
        v := Bool(false);
      } else if oper == OP_NULL {
        v := Null;
      } else if oper == OP_BYTE_OPER {
        var index := ReadByte();
        v := program.pool[index];
      } else if oper == OP_SHORT_OPER {
        var index := ReadShort();
        v := program.pool[index];
      } else {
        var index := ReadLong();
        v := program.pool[index];
      }
    }

    /* Operators. */

    method ArithOper(op: u8, firstOper: u8) returns (r: Result)
      requires Valid() && IsArith(op) && Has(program, ip, 1)
      modifies `ip
      ensures ip == old(ip) + 1
      ensures r == Machine.ArithOper(op, registers[firstOper], registers[program.code[old(ip)]])
    {
      var second := ReadByte();
      var a, b := registers[firstOper], registers[second];
      if !a.Int? || !b.Int? { return Err(BadOperands); }
      var x: int, y: int := a.i, b.i;
      if op == OP_ADD { return Ok(Int(Wrap64(x + y))); }
      if op == OP_SUB { return Ok(Int(Wrap64(x - y))); }
      if op == OP_MULT { return Ok(Int(Wrap64(x * y))); }
      if y == 0 { return Err(ModulusWithZero); }
      return Ok(Int(Wrap64(TruncMod(x, y))));
    }

    method CompareOper(op: u8, firstOper: u8) returns (r: Result)
      requires Valid() && IsCompare(op) && Has(program, ip, 1)
      modifies `ip
      ensures ip == old(ip) + 1
      ensures r == Machine.CompareOper(op, registers[firstOper], registers[program.code[old(ip)]])
    {
      var second := ReadByte();
      var a, b := registers[firstOper], registers[second];
      if (op == OP_GT || op == OP_LT) && (!a.Int? || !b.Int?) { return Err(BadOperands); }
      if op == OP_EQUAL { return Ok(Bool(Equal(a, b))); }
      if op == OP_GT { return Ok(Bool(AsDouble(a.i) > AsDouble(b.i))); }
      if op == OP_LT { return Ok(Bool(AsDouble(a.i) < AsDouble(b.i))); }
      if !b.List? { return Err(NotIterable); }
      for k := 0 to |b.items|
        invariant forall j | 0 <= j < k :: !Equal(a, b.items[j])
      {
        if Equal(a, b.items[k]) { return Ok(Bool(true)); }
      }
      return Ok(Bool(false));
    }

    method BitOper(op: u8, firstOper: u8) returns (r: Result)
      requires Valid() && IsBit(op) && Has(program, ip, 1)
      modifies `ip
      ensures ip == old(ip) + 1
      ensures r == Machine.BitOper(op, registers[firstOper], registers[program.code[old(ip)]])
    {
      var second := ReadByte();
      var a, b := registers[firstOper], registers[second];
      if !a.Int? || !b.Int? { return Err(BadOperands); }
      var x, y := ToUnsigned(a.i), ToUnsigned(b.i);
      if op == OP_AND { return Ok(Int(Wrap64(BitAnd(x, y)))); }
      if op == OP_OR { return Ok(Int(Wrap64(BitOr(x, y)))); }
      if op == OP_XOR { return Ok(Int(Wrap64(BitXor(x, y)))); }
      if y >= 64 { return Err(HitShiftMax); }
      if op == OP_SHIFT_L { return Ok(Int(FromUnsigned((x * Pow2(y)) % TWO64))); }
      return Ok(Int(Wrap64(x / Pow2(y) + if a.i >= 0 then 0 else -TWO63)));
    }

    method UnaryOper(op: u8, oper: u8) returns (r: Result)
      requires Valid() && IsUnary(op)
      ensures r == Machine.UnaryOper(op, registers[oper])
    {
      var v := registers[oper];
      if op == OP_NOT { return Ok(Bool(!Truthy(v))); }
      if !v.Int? { return Err(BadOperand); }
      if op == OP_INCR || op == OP_DECR { return Ok(Int(Wrap64(v.i + if op == OP_INCR then 1 else -1))); }
      if op == OP_NEG { return Ok(Int(Wrap64(v.i * -1))); }
      return Ok(Int(FromUnsigned(TWO64 - 1 - ToUnsigned(v.i))));
    }

    /** A runtime error unwinds to the caller of the dispatch loop. */
    method Store(dest: u8, r: Result)
      requires Valid()
      modifies `status, registers
      ensures r.Ok? ==> registers[..] == old(registers[..])[dest := r.value] && status == old(status)
      ensures r.Err? ==> registers[..] == old(registers[..]) && status == Failed(r.error)
    {
      match r
      case Ok(v) => registers[dest] := v;
      case Err(x) => status := Failed(x);
    }

    /* The dispatch loop. */

    /** One instruction. The source runs only code whose behaviour is defined. */
    method ExecuteOp()
      requires Valid() && status == Running && Step(program, Now()).status != Stuck
      modifies `ip, `scopeStarts, `status, registers
      ensures Now() == Step(program, old(Now()))
    {
      hide Machine.ArithOper, Machine.CompareOper, Machine.BitOper, Machine.UnaryOper, Machine.LoadOper, Machine.ReadShort;
      var op := ReadByte();
      if op == OP_HALT {
        status := Halted;
      } else if op == OP_EXIT_SCOPE {
        scopeStarts := scopeStarts[..|scopeStarts| - 1];
      } else if op == OP_LOAD_REG {
        var dest := ReadByte();
        var v := LoadOper();
        registers[dest] := v;
      } else if IsUnary(op) {
        var oper := ReadByte();
        var r := UnaryOper(op, oper);
        Store(oper, r);
      } else if op == OP_LIST {
        var dest := ReadByte();
        registers[dest] := List([]);
      } else if op == OP_ENTER_SCOPE {
        var start := ReadByte();
        scopeStarts := scopeStarts + [start];
      } else {
        ExecuteOp3(op);
      }
    }

    method ExecuteOp3(op: u8)
      requires Valid() && status == Running && Has(program, ip, 2)
      requires ip > 0 && program.code[ip - 1] == op
      requires Step3(program, Now().(ip := ip - 1), op, program.code[ip], program.code[ip + 1]).status != Stuck
      modifies `ip, `status, registers
      ensures Now() == old(Step3(program, Now().(ip := ip - 1), op, program.code[ip], program.code[ip + 1]))
    {
      hide Machine.ArithOper, Machine.CompareOper, Machine.BitOper, Machine.ReadShort;
      if op == OP_JUMP {
        var jump := ReadShort();
        ip := ip + jump;
      } else if op == OP_LOOP {
        var jump := ReadShort();
        ip := ip - jump;
      } else {
        var first := ReadByte();
        if IsArith(op) {
          var r := ArithOper(op, first);
          Store(first, r);
        } else if IsCompare(op) {
          var r := CompareOper(op, first);
          Store(first, r);
        } else if IsBit(op) {
          var r := BitOper(op, first);
          Store(first, r);
        } else if op == OP_JUMP_TRUE || op == OP_JUMP_FALSE {
          var jump := ReadShort();
          if Truthy(registers[first]) == (op == OP_JUMP_TRUE) { ip := ip + jump; }
        } else {
          var second := ReadByte();
          ExecuteMove(op, first, second);
        }
      }
    }

    /** Instructions that move objects between registers. */
    method ExecuteMove(op: u8, a: u8, b: u8)
      requires Valid() && status == Running
      requires ip >= 3 && Has(program, ip - 3, 3) && program.code[ip - 3] == op
      requires a == program.code[ip - 2] && b == program.code[ip - 1]
      requires !(IsBinary(op) || op == OP_JUMP || op == OP_LOOP || op == OP_JUMP_TRUE || op == OP_JUMP_FALSE)
      requires Step3(program, Now().(ip := ip - 3), op, a, b).status != Stuck
      modifies `ip, `status, registers
      ensures Now() == old(Step3(program, Now().(ip := ip - 3), op, a, b))
    {
      if IsCopy(op) {
        registers[a] := registers[b];
      } else if op == OP_MOVE_REG {
        var moved := registers[b];
        registers[b] := Invalid;
        registers[a] := moved;
      } else if op == OP_GET_INDEX {
        var index := ReadByte();
        Store(a, GetIndex(registers[b], registers[index]));
      } else if op == OP_EXT_LIST {
        var count := ReadByte();
        var items := registers[a].items;
        for i := 0 to count
          invariant items == registers[a].items + registers[..][b..b + i]
        {
          assert registers[..][b..b + i + 1] == registers[..][b..b + i] + [registers[b + i]];
          items := items + [registers[b + i]];
        }
        registers[a] := List(items);
      }
    }

    /** The dispatch loop, cut off after `steps` instructions. */
    method Run(steps: nat) returns (ghost t: seq<State>)
      requires Valid() && Safe(program, Now())
      modifies `ip, `scopeStarts, `status, registers
      ensures TraceFromTo(program, t, old(Now()), Now())
      ensures status == Running ==> |t| == steps + 1
    {
      hide Step;
      t := [Now()];
      ghost var m := Now();
      for i := 0 to steps
        invariant TraceFromTo(program, t, m, Now()) && Safe(program, m)
        invariant status == Running ==> |t| == i + 1
      {
        if status != Running { return; }
        SafeNext(program, t, m, Now());
        ExecuteOp();
        t := Extended(program, t, m);
      }
    }
  }

  /** No reachable state is one the source leaves undefined. */
  ghost predicate Safe(P: Program, m: State) {
    forall m' :: Reaches(P, m, m') ==> m'.status != Stuck
  }

  lemma SafeNext(P: Program, t: seq<State>, m: State, now: State)
    requires Safe(P, m) && TraceFromTo(P, t, m, now)
    ensures Step(P, now).status != Stuck
  {
    assert Reaches(P, m, now);
    ReachesStep(P, now);
    ReachesTrans(P, m, now, Step(P, now));
  }

  ghost function Extended(P: Program, t: seq<State>, m: State): (t': seq<State>)
    requires t != [] && TraceFromTo(P, t, m, t[|t| - 1])
    ensures |t'| == |t| + 1 && TraceFromTo(P, t', m, Step(P, t[|t| - 1]))
  {
    var next := Step(P, t[|t| - 1]);
    assert Trace(P, t + [next]) by {
      hide Step;
      var w := t + [next];
      forall i {:trigger Step(P, w[i])} | 0 <= i < |w| - 1 ensures w[i + 1] == Step(P, w[i]) {
        if i < |t| - 1 { assert t[i + 1] == Step(P, t[i]); }
      }
    }
    t + [next]
  }
}
