/** Opcode numbers, in the order of the enumeration in include/opcodes.h. */
module Opcodes {
  import opened Words

  const OP_NEG_TWO: u8 := 0
  const OP_NEG_ONE: u8 := 1
  const OP_ZERO: u8 := 2
  const OP_ONE: u8 := 3
  const OP_TWO: u8 := 4
  const OP_TRUE: u8 := 5
  const OP_FALSE: u8 := 6
  const OP_NULL: u8 := 7

  const OP_ADD: u8 := 8
  const OP_SUB: u8 := 9
  const OP_MULT: u8 := 10
  const OP_DIV: u8 := 11
  const OP_POWER: u8 := 12
  const OP_MOD: u8 := 13
  const OP_NEG: u8 := 14
  const OP_INCR: u8 := 15
  const OP_DECR: u8 := 16

  const OP_EQUAL: u8 := 17
  const OP_GT: u8 := 18
  const OP_LT: u8 := 19
  const OP_IN: u8 := 20

  const OP_NOT: u8 := 21
  const OP_AND: u8 := 22
  const OP_OR: u8 := 23
  const OP_COMP: u8 := 24
  const OP_XOR: u8 := 25
  const OP_SHIFT_R: u8 := 26
  const OP_SHIFT_L: u8 := 27

  const OP_DEF_START: u8 := 28
  const OP_DEF_END: u8 := 29
  const OP_GET_GLOBAL: u8 := 30
  const OP_SET_GLOBAL: u8 := 31
  const OP_GET_CELL: u8 := 32
  const OP_SET_CELL: u8 := 33
  const OP_GET_LOCAL: u8 := 34
  const OP_SET_LOCAL: u8 := 35
  const OP_VAR_REF: u8 := 36
  const OP_INDEX_REF: u8 := 37
  const OP_FIELD_REF: u8 := 38

  const OP_LIST: u8 := 39
  const OP_EXT_LIST: u8 := 40
  const OP_TABLE: u8 := 41
  const OP_EXT_TABLE: u8 := 42
  const OP_RANGE: u8 := 43
  const OP_FORMAT_STR: u8 := 44

  const OP_GET_INDEX: u8 := 45
  const OP_SET_INDEX: u8 := 46

  const OP_CALL_NAT: u8 := 47
  const OP_CALL_DEF: u8 := 48
  const OP_RETURN: u8 := 49
  const OP_VOID: u8 := 50
  const OP_VAR_ARGS: u8 := 51
  const OP_CLOSURE: u8 := 52
  const OP_CAPTURE_GLOBAL: u8 := 53
  const OP_CAPTURE_LOCAL: u8 := 54
  const OP_CAPTURE_CELL: u8 := 55

  const OP_FIELD: u8 := 56
  const OP_METHOD: u8 := 57
  const OP_INSTANCE: u8 := 58
  const OP_FINISH_FIELDS: u8 := 59
  const OP_INIT_FIELD: u8 := 60
  const OP_GET_FIELD: u8 := 61
  const OP_SET_FIELD: u8 := 62

  const OP_MODULE: u8 := 63
  const OP_GET_ENTRY: u8 := 64

  const OP_MAKE_ITER: u8 := 65
  const OP_UPDATE_ITER: u8 := 66

  const OP_JUMP: u8 := 67
  const OP_JUMP_TRUE: u8 := 68
  const OP_JUMP_FALSE: u8 := 69
  const OP_LOOP: u8 := 70

  const OP_VAR: u8 := 71
  const OP_FIX: u8 := 72
  const OP_IMMUT: u8 := 73
  const OP_MUT: u8 := 74

  const OP_COMPUTE: u8 := 75
  const OP_UNPACK: u8 := 76

  const OP_BYTE_OPER: u8 := 77
  const OP_SHORT_OPER: u8 := 78
  const OP_LONG_OPER: u8 := 79

  const OP_ENTER_SCOPE: u8 := 80
  const OP_EXIT_SCOPE: u8 := 81

  const OP_LOAD_REG: u8 := 82
  const OP_MOVE_REG: u8 := 83
  const OP_PRINT_VALID: u8 := 84
  const OP_HALT: u8 := 85
}
