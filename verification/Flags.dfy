/** The type byte of an object (include/object.h): five bits of type, and three flags
    that say whether the variable may be reassigned, whether the value has a
    mutability of its own, and which. */
module Flags {

  const FIXED_FLAG: bv8 := 0x80
  const INIT_FLAG: bv8 := 0x40
  const IMMUT_FLAG: bv8 := 0x20
  const TYPE_MASK: bv8 := 0x1f
  const MUT_FLAGS: bv8 := 0x60

  const INT: bv8 := 0
  const INSTANCE: bv8 := 10
  const TEXT: bv8 := 17
  const LIST: bv8 := 20
  const TABLE: bv8 := 21
  const REF: bv8 := 22
  const ITER: bv8 := 23
  const INVALID: bv8 := 25

  /** The flags are the three highest bits, one each, and the type has the other five. */
  lemma FlagBits()
    ensures FIXED_FLAG | INIT_FLAG | IMMUT_FLAG | TYPE_MASK == 0xff && MUT_FLAGS == INIT_FLAG | IMMUT_FLAG
    ensures FIXED_FLAG == INIT_FLAG << 1 && INIT_FLAG == IMMUT_FLAG << 1 && TYPE_MASK == IMMUT_FLAG - 1
  {
  }

  /** A handle: type byte and payload. For lists, tables, references and iterators the
      payload is an address. `view` is history, which the interpreter does not keep and
      nothing below asks for: the handle was taken out of an immutable collection. */
  datatype Object = Object(type_: bv8, as_: int, view: bool)

  function Type(o: Object): bv8 {
    o.type_ & TYPE_MASK
  }

  predicate IsCollection(o: Object) {
    TEXT <= Type(o) <= TABLE
  }

  predicate HasMutState(o: Object) {
    IsCollection(o) || Type(o) == INSTANCE
  }

  predicate IsFixed(o: Object) {
    o.type_ & FIXED_FLAG != 0
  }

  predicate IsInit(o: Object) {
    HasMutState(o) && o.type_ & INIT_FLAG != 0
  }

  predicate IsImmut(o: Object) {
    IsInit(o) && o.type_ & IMMUT_FLAG != 0
  }

  predicate IsMut(o: Object) {
    IsInit(o) && o.type_ & IMMUT_FLAG == 0
  }

  function MakeVar(o: Object): Object {
    o.(type_ := o.type_ & !FIXED_FLAG)
  }

  function MakeFixed(o: Object): Object {
    o.(type_ := o.type_ | FIXED_FLAG)
  }

  function MakeImmut(o: Object): Object {
    o.(type_ := o.type_ | INIT_FLAG | IMMUT_FLAG)
  }

  function MakeMut(o: Object): Object {
    o.(type_ := (o.type_ | INIT_FLAG) & !IMMUT_FLAG)
  }

  function GetMutFlags(o: Object): bv8 {
    o.type_ & (INIT_FLAG | IMMUT_FLAG)
  }

  /** Elements of a collection take its mutability over, but never lose their own
      immutability. */
  function SetMutFlags(o: Object, flags: bv8): Object {
    if IsImmut(o) then o else o.(type_ := (o.type_ & !(INIT_FLAG | IMMUT_FLAG)) | flags)
  }

  /** What assignments do to the handle just stored; `fixed` tells whether the variable
      was fixed before. */
  function Stored(o: Object, fixed: bool): Object {
    if fixed && !IsMut(o) then MakeImmut(o) else if !IsImmut(o) then MakeMut(o) else o
  }

  /** OP_VAR on one register. */
  function DeclaredVar(o: Object): Object {
    var v := MakeVar(o);
    if !IsImmut(v) then MakeMut(v) else v
  }

  /** OP_FIX on one register. */
  function DeclaredFix(o: Object): Object {
    var v := MakeFixed(o);
    if !IsMut(v) then MakeImmut(v) else v
  }

  /* Only the flags move, and immutability stays. */

  predicate SameValue(o: Object, p: Object) {
    Type(o) == Type(p) && o.as_ == p.as_ && o.view == p.view
  }

  /** `p` is `o` with other flags, and not mutable again. */
  predicate Keeps(o: Object, p: Object) {
    SameValue(o, p) && (IsImmut(o) ==> IsImmut(p))
  }

  lemma StoredMeans(o: Object, fixed: bool)
    ensures Keeps(o, Stored(o, fixed))
    ensures HasMutState(o) ==> (IsImmut(Stored(o, fixed)) <==> IsImmut(o) || (fixed && !IsMut(o)))
    ensures HasMutState(o) ==> (IsMut(Stored(o, fixed)) <==> !IsImmut(Stored(o, fixed)))
  {
  }

  lemma DeclaredMeans(o: Object)
    ensures Keeps(o, DeclaredVar(o)) && Keeps(o, DeclaredFix(o))
    ensures !IsFixed(DeclaredVar(o)) && IsFixed(DeclaredFix(o))
    ensures HasMutState(o) ==> (IsImmut(DeclaredVar(o)) <==> IsImmut(o))
    ensures HasMutState(o) ==> (IsImmut(DeclaredFix(o)) <==> !IsMut(o))
  {
  }

  lemma MarkedMeans(o: Object)
    ensures Keeps(o, MakeImmut(o)) && SameValue(o, MakeMut(o))
    ensures HasMutState(o) ==> IsImmut(MakeImmut(o)) && IsMut(MakeMut(o))
    ensures IsImmut(o) ==> GetMutFlags(o) == MUT_FLAGS
    ensures IsImmut(o) ==> HasMutState(o)
  {
  }

  lemma TakenMeans(o: Object, flags: bv8)
    requires flags & MUT_FLAGS == flags
    ensures Keeps(o, SetMutFlags(o, flags))
    ensures HasMutState(o) ==> (IsImmut(SetMutFlags(o, flags)) <==> IsImmut(o) || flags == MUT_FLAGS)
  {
  }

  lemma FlagsFit(o: Object)
    ensures GetMutFlags(o) & MUT_FLAGS == GetMutFlags(o)
    ensures HasMutState(o) ==> (GetMutFlags(o) == MUT_FLAGS <==> IsImmut(o))
  {
  }
}
