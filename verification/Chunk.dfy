/** The chunk under construction (src/bytecode.cpp): bytes are appended, and the
    two bytes of a forward jump are filled in later. */
module Chunk {
  import opened Words
  import opened Opcodes
  import opened Values
  import opened Codegen
  import opened StmtCode

  /** `block` after writing the distance `d` at `offset`; a distance that does
      not fit is not written. */
  function Patch(block: seq<u8>, offset: nat, d: int): (b: seq<u8>)
    ensures |b| == |block|
  {
    if offset + 1 < |block| && 0 <= d <= BYTE_JUMP_MAX
    then block[offset := Low(d / 0x100)][offset + 1 := Low(d)] else block
  }

  lemma PatchHole(pre: seq<u8>, suf: seq<u8>, d: nat)
    ensures Patch(pre + [0, 0] + suf, |pre|, d) == pre + JumpField(d) + suf
  {
  }

  class ByteCode {
    var block: seq<u8>
    var pool: seq<Value>

    constructor ()
      ensures block == [] && pool == []
    {
      block, pool := [], [];
    }

    method Clear()
      modifies this
      ensures block == [] && pool == []
    {
      block, pool := [], [];
    }

    method AddByte(b: u8)
      modifies this`block
      ensures block == old(block) + [b]
    {
      block := block + [b];
    }

    method AddBytes(bytes: seq<u8>)
      modifies this`block
      ensures block == old(block) + bytes
    {
      for i := 0 to |bytes|
        invariant block == old(block) + bytes[..i]
      {
        AddByte(bytes[i]);
      }
    }

    method AddShort(x: nat)
      modifies this`block
      ensures block == old(block) + Short(x)
    {
      AddByte(Low(x / 0x100));
      AddByte(Low(x));
    }

    method AddLong(x: nat)
      modifies this`block
      ensures block == old(block) + Short(x / 0x1_0000) + Short(x)
    {
      AddByte(Low(x / 0x100_0000));
      AddByte(Low(x / 0x1_0000));
      AddByte(Low(x / 0x100));
      AddByte(Low(x));
      assert x / 0x1_0000 / 0x100 == x / 0x100_0000;
    }

    method LoadReg(reg: nat, op: u8)
      modifies this`block
      ensures block == old(block) + [OP_LOAD_REG, Low(reg), op]
    {
      AddBytes([OP_LOAD_REG, Low(reg), op]);
    }

    /** Small integers become immediate operands, everything else a pool entry. */
    method LoadRegConst(constant: Value, reg: nat)
      modifies this
      ensures var small := constant.Int? && Immediate(constant.i);
              && pool == old(pool) + (if small then [] else [constant])
              && block == old(block) + [OP_LOAD_REG, Low(reg)]
                          + if small then [Low(constant.i + 2)] else Operand(|old(pool)|)
    {
      AddBytes([OP_LOAD_REG, Low(reg)]);
      if constant.Int? && Immediate(constant.i) {
        AddByte(Low(constant.i + 2));
        return;
      }
      pool := pool + [constant];
      var size := |pool|;
      if size - 1 < 0x100 {
        AddByte(OP_BYTE_OPER);
        AddByte(Low(size - 1));
      } else if size - 1 < 0x1_0000 {
        AddByte(OP_SHORT_OPER);
        AddShort(size - 1);
      } else {
        AddByte(OP_LONG_OPER);
        AddLong(size - 1);
      }
    }

    /** A jump with a hole for its distance; the result is where the hole is. */
    method AddJump(op: u8, reg: int) returns (offset: nat)
      requires reg >= -1
      modifies this`block
      ensures block == old(block) + (if reg == -1 then [op] else [op, Low(reg)]) + [0, 0]
      ensures offset == |block| - 2
    {
      AddByte(op);
      if reg != -1 { AddByte(Low(reg)); }
      offset := |block|;
      AddByte(0);
      AddByte(0);
    }

    /** The jump with its hole at `offset` lands at the end of the chunk so far. */
    method PatchJump(offset: nat)
      requires offset + 1 < |block|
      modifies this`block
      ensures block == Patch(old(block), offset, |old(block)| - offset - 2)
    {
      var diff := |block| - offset - 2;
      if diff <= BYTE_JUMP_MAX {
        block := block[offset := Low(diff / 0x100)];
        block := block[offset + 1 := Low(diff)];
      }
    }

    method AddLoop(start: nat)
      requires start <= |block|
      modifies this`block
      ensures block == old(block) + LoopCode(|old(block)| - start + 3)
    {
      var diff := |block| - start + 3;
      AddByte(OP_LOOP);
      AddByte(Low(diff / 0x100));
      AddByte(Low(diff));
    }
  }
}
