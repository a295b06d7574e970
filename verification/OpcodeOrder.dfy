/** The numbers of `Opcodes` are those of the enumeration in include/opcodes.h. */
module OpcodeOrder {
  import opened Words
  import opened Opcodes

  /* The enumeration, by its sections. */

  const VALUES: seq<u8> := [OP_NEG_TWO, OP_NEG_ONE, OP_ZERO, OP_ONE, OP_TWO, OP_TRUE, OP_FALSE, OP_NULL]
  const ARITHMETIC: seq<u8> := [OP_ADD, OP_SUB, OP_MULT, OP_DIV, OP_POWER, OP_MOD, OP_NEG, OP_INCR, OP_DECR]
  const TESTS: seq<u8> := [OP_EQUAL, OP_GT, OP_LT, OP_IN, OP_NOT]
  const BITS: seq<u8> := [OP_AND, OP_OR, OP_COMP, OP_XOR, OP_SHIFT_R, OP_SHIFT_L]
  const VARIABLES: seq<u8> := [
    OP_DEF_START, OP_DEF_END, OP_GET_GLOBAL, OP_SET_GLOBAL, OP_GET_CELL, OP_SET_CELL, OP_GET_LOCAL,
    OP_SET_LOCAL, OP_VAR_REF, OP_INDEX_REF, OP_FIELD_REF
  ]
  const COLLECTIONS: seq<u8> := [
    OP_LIST, OP_EXT_LIST, OP_TABLE, OP_EXT_TABLE, OP_RANGE, OP_FORMAT_STR, OP_GET_INDEX, OP_SET_INDEX
  ]
  const FUNCTIONS: seq<u8> := [
    OP_CALL_NAT, OP_CALL_DEF, OP_RETURN, OP_VOID, OP_VAR_ARGS, OP_CLOSURE, OP_CAPTURE_GLOBAL,
    OP_CAPTURE_LOCAL, OP_CAPTURE_CELL
  ]
  const TYPES: seq<u8> := [
    OP_FIELD, OP_METHOD, OP_INSTANCE, OP_FINISH_FIELDS, OP_INIT_FIELD, OP_GET_FIELD, OP_SET_FIELD, OP_MODULE,
    OP_GET_ENTRY
  ]
  const CONTROL: seq<u8> := [OP_MAKE_ITER, OP_UPDATE_ITER, OP_JUMP, OP_JUMP_TRUE, OP_JUMP_FALSE, OP_LOOP]
  const DECLARATIONS: seq<u8> := [OP_VAR, OP_FIX, OP_IMMUT, OP_MUT, OP_COMPUTE, OP_UNPACK]
  const OTHERS: seq<u8> := [
    OP_BYTE_OPER, OP_SHORT_OPER, OP_LONG_OPER, OP_ENTER_SCOPE, OP_EXIT_SCOPE, OP_LOAD_REG, OP_MOVE_REG,
    OP_PRINT_VALID, OP_HALT
  ]

  const OPCODES: seq<u8> :=
    VALUES + ARITHMETIC + TESTS + BITS + VARIABLES + COLLECTIONS + FUNCTIONS + TYPES + CONTROL + DECLARATIONS + OTHERS

  /** `s` counts up from `n`. */
  predicate From(s: seq<u8>, n: nat) {
    forall i: nat | i < |s| :: s[i] as int == n + i
  }

  lemma Join(a: seq<u8>, b: seq<u8>)
    requires From(a, 0) && From(b, |a|)
    ensures From(a + b, 0)
  {
  }

  /** Opcodes are numbered from 0, without gaps. */
  lemma Numbering()
    ensures |OPCODES| == 86 && From(OPCODES, 0)
  {
    Join(VALUES, ARITHMETIC);
    var s := VALUES + ARITHMETIC;
    Join(s, TESTS);
    s := s + TESTS;
    Join(s, BITS);
    s := s + BITS;
    Join(s, VARIABLES);
    s := s + VARIABLES;
    Join(s, COLLECTIONS);
    s := s + COLLECTIONS;
    Join(s, FUNCTIONS);
    s := s + FUNCTIONS;
    Join(s, TYPES);
    s := s + TYPES;
    Join(s, CONTROL);
    s := s + CONTROL;
    Join(s, DECLARATIONS);
    s := s + DECLARATIONS;
    Join(s, OTHERS);
    s := s + OTHERS;
  }
}
