/** The types of objects, in the order of TYPE_LIST (include/object.h). The enumeration
    made from it numbers them from 0; cache files and type bytes store these numbers. */
module ObjectTypes {

  datatype ObjType =
    | Int | Dec | Bool | Null | Void
    | CoreType | CoreFunc | CoreMethod
    | Module | UserType | Instance
    | UserFunc | Lambda | Closure | UserMethod
    | BigInt | BigDec
    | Text | String | Range | List | Table
    | Ref | Iter

  const TYPE_LIST: seq<ObjType> := [
    Int, Dec, Bool, Null, Void,
    CoreType, CoreFunc, CoreMethod,
    Module, UserType, Instance,
    UserFunc, Lambda, Closure, UserMethod,
    BigInt, BigDec,
    Text, String, Range, List, Table,
    Ref, Iter
  ]

  /** `n` is the number of type `t`. */
  predicate Numbers(n: int, t: ObjType) {
    0 <= n < |TYPE_LIST| && TYPE_LIST[n] == t
  }

  function Place(t: ObjType): nat {
    match t
    case Int => 0
    case Dec => 1
    case Bool => 2
    case Null => 3
    case Void => 4
    case CoreType => 5
    case CoreFunc => 6
    case CoreMethod => 7
    case Module => 8
    case UserType => 9
    case Instance => 10
    case UserFunc => 11
    case Lambda => 12
    case Closure => 13
    case UserMethod => 14
    case BigInt => 15
    case BigDec => 16
    case Text => 17
    case String => 18
    case Range => 19
    case List => 20
    case Table => 21
    case Ref => 22
    case Iter => 23
  }

  lemma PlaceOf(n: nat)
    requires n < |TYPE_LIST|
    ensures Place(TYPE_LIST[n]) == n
  {
  }

  lemma NumbersOnce(m: int, n: int, t: ObjType)
    requires Numbers(m, t) && Numbers(n, t)
    ensures m == n
  {
    hide Place;
    PlaceOf(m);
    PlaceOf(n);
  }
}
