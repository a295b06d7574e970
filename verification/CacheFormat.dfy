/** The bytecode cache file (src/bytecode.cpp, src/object.cpp): chunks hold a pool
    of constants, function constants hold chunks again, for their body and for
    their default arguments. */
module CacheFormat {
  import opened Words
  import opened Arithmetic
  import opened Syntax

  type Bytes = seq<u8>

  datatype DebugRange = DebugRange(byteStart: u64, byteEnd: u64, sourceStart: u64, sourceEnd: u64)
  type Metadata = seq<DebugRange>

  datatype Chunk = Chunk(code: Bytes, pool: seq<Const>, meta: Metadata)
  datatype Field = Field(name: Bytes, fixed: bool, pub: bool)

  datatype Const =
    | IntConst(i: i64)
    | DecConst(bits: u64)
    | ModuleConst(name: Bytes)
    | TypeConst(name: Bytes, fields: seq<Field>)
    | FuncConst(fname: Option<Bytes>, arityMin: u8, arityMax: u8, variadic: bool, chunk: Chunk, defaults: seq<Chunk>)
    | TextConst(text: Bytes)
    | StringConst(text: Bytes)

  /** How debug information is stored. */
  datatype Mode = Combined | Separate | Stripped

  const INT_TYPE: u8 := 0
  const DEC_TYPE: u8 := 1
  const BOOL_TYPE: u8 := 2
  const NULL_TYPE: u8 := 3
  const MODULE_TYPE: u8 := 8
  const USER_TYPE: u8 := 9
  const USER_FUNC_TYPE: u8 := 11
  const LAMBDA_TYPE: u8 := 12
  const TEXT_TYPE: u8 := 17
  const STRING_TYPE: u8 := 18

  const RANGE_SIZE := 32  // sizeof(DebugRange)

  /* Values, most significant byte first. */

  function BigEndian(n: nat, x: int): (s: Bytes)
    ensures |s| == n
  {
    if n == 0 then [] else BigEndian(n - 1, x / 0x100) + [Low(x)]
  }

  function FromBytes(s: Bytes): nat {
    if s == [] then 0 else FromBytes(s[..|s| - 1]) * 0x100 + s[|s| - 1]
  }

  function Long(x: int): (s: Bytes)
    ensures |s| == 8
  {
    BigEndian(8, x)
  }

  function Flag(b: bool): u8 {
    if b then 1 else 0
  }

  /* What is written. */

  function TypeByte(k: Const): u8 {
    match k
    case IntConst(_) => INT_TYPE
    case DecConst(_) => DEC_TYPE
    case ModuleConst(_) => MODULE_TYPE
    case TypeConst(_, _) => USER_TYPE
    case FuncConst(name, _, _, _, _, _) => if name.Some? then USER_FUNC_TYPE else LAMBDA_TYPE
    case TextConst(_) => TEXT_TYPE
    case StringConst(_) => STRING_TYPE
  }

  function NameBytes(name: Bytes): Bytes {
    [Low(|name|)] + name
  }

  function FieldsBytes(fields: seq<Field>): Bytes {
    if fields == [] then []
    else NameBytes(fields[0].name) + [Flag(fields[0].fixed), Flag(fields[0].pub)] + FieldsBytes(fields[1..])
  }

  function TypeBytes(name: Bytes, fields: seq<Field>): Bytes {
    NameBytes(name) + [Low(|fields|)] + FieldsBytes(fields)
  }

  function StringBytes(text: Bytes): Bytes {
    Long(|text|) + text
  }

  function RangeBytes(r: DebugRange): (s: Bytes)
    ensures |s| == RANGE_SIZE
  {
    Long(r.byteStart) + Long(r.byteEnd) + Long(r.sourceStart) + Long(r.sourceEnd)
  }

  function RangesBytes(m: Metadata): Bytes {
    if m == [] then [] else RangeBytes(m[0]) + RangesBytes(m[1..])
  }

  function MetaBytes(m: Metadata): Bytes {
    Long(|m|) + RangesBytes(m)
  }

  /** Code and pool, behind their sizes. */
  function DataBytes(c: Chunk, combined: bool): Bytes
    decreases c, 0
  {
    Long(|c.code|) + Long(PoolSize(c.pool, combined)) + c.code + PoolBytes(c.pool, combined)
  }

  function ChunkBytes(c: Chunk, combined: bool): Bytes
    decreases c, 1
  {
    DataBytes(c, combined) + if combined then MetaBytes(c.meta) else []
  }

  function PoolBytes(pool: seq<Const>, combined: bool): Bytes
    decreases pool
  {
    if pool == [] then [] else ConstBytes(pool[0], combined) + PoolBytes(pool[1..], combined)
  }

  function ConstBytes(k: Const, combined: bool): Bytes
    decreases k, 1
  {
    [TypeByte(k)] + match k
      case IntConst(i) => Long(ToUnsigned(i))
      case DecConst(bits) => Long(bits)
      case ModuleConst(name) => NameBytes(name)
      case TypeConst(name, fields) => TypeBytes(name, fields)
      case FuncConst(_, _, _, _, _, _) => FuncBytes(k, combined)
      case TextConst(text) => StringBytes(text)
      case StringConst(text) => StringBytes(text)
  }

  function FuncBytes(k: Const, combined: bool): Bytes
    requires k.FuncConst?
    decreases k, 0
  {
    (if k.fname.Some? then NameBytes(k.fname.value) else [0])
    + [k.arityMin, k.arityMax, Flag(k.variadic)]
    + ChunkBytes(k.chunk, combined)
    + ChunksBytes(k.defaults, combined)
  }

  function ChunksBytes(cs: seq<Chunk>, combined: bool): Bytes
    decreases cs
  {
    if cs == [] then [] else ChunkBytes(cs[0], combined) + ChunksBytes(cs[1..], combined)
  }

  /* The sizes, computed without writing anything (countPool, byteSize). */

  function FieldsSize(fields: seq<Field>): nat {
    if fields == [] then 0 else 1 + |fields[0].name| + 2 + FieldsSize(fields[1..])
  }

  function MetaSize(m: Metadata): nat {
    |m| * RANGE_SIZE + 8
  }

  function ChunkSize(c: Chunk, combined: bool): nat {
    16 + |c.code| + PoolSize(c.pool, combined) + if combined then MetaSize(c.meta) else 0
  }

  function PoolSize(pool: seq<Const>, combined: bool): nat
    decreases pool
  {
    if pool == [] then 0 else ConstSize(pool[0], combined) + PoolSize(pool[1..], combined)
  }

  /** The type byte is counted. */
  function ConstSize(k: Const, combined: bool): nat
    decreases k
  {
    match k
    case IntConst(_) => 9
    case DecConst(_) => 9
    case ModuleConst(name) => 2 + |name|
    case TypeConst(name, fields) => 1 + (1 + |name|) + 1 + FieldsSize(fields)
    case FuncConst(name, _, _, _, chunk, defaults) =>
      (if name.Some? then |name.value| else 0) + 5 + ChunkSize(chunk, combined) + ChunksSize(defaults, combined)
    case TextConst(text) => 9 + |text|
    case StringConst(text) => 9 + |text|
  }

  function ChunksSize(cs: seq<Chunk>, combined: bool): nat
    decreases cs
  {
    if cs == [] then 0 else ChunkSize(cs[0], combined) + ChunksSize(cs[1..], combined)
  }

  /* Sizes are exact. */

  lemma {:induction false} FieldsSizeExact(fields: seq<Field>)
    ensures |FieldsBytes(fields)| == FieldsSize(fields)
  {
    if fields != [] { FieldsSizeExact(fields[1..]); }
  }

  lemma {:induction false} RangesSizeExact(m: Metadata)
    ensures |RangesBytes(m)| == |m| * RANGE_SIZE
  {
    if m != [] { RangesSizeExact(m[1..]); }
  }

  lemma {:induction false} ChunkSizeExact(c: Chunk, combined: bool)
    ensures |ChunkBytes(c, combined)| == ChunkSize(c, combined)
    ensures |DataBytes(c, combined)| == 16 + |c.code| + PoolSize(c.pool, combined)
    decreases c
  {
    PoolSizeExact(c.pool, combined);
    RangesSizeExact(c.meta);
  }

  /** countPool is the number of bytes the pool takes in the file. */
  lemma {:induction false} PoolSizeExact(pool: seq<Const>, combined: bool)
    ensures |PoolBytes(pool, combined)| == PoolSize(pool, combined)
    decreases pool
  {
    if pool != [] {
      ConstSizeExact(pool[0], combined);
      PoolSizeExact(pool[1..], combined);
    }
  }

  /** byteSize is the number of bytes emit writes, type byte included. */
  lemma {:induction false} ConstSizeExact(k: Const, combined: bool)
    ensures |ConstBytes(k, combined)| == ConstSize(k, combined)
    decreases k
  {
    match k
    case TypeConst(_, fields) => FieldsSizeExact(fields);
    case FuncConst(_, _, _, _, chunk, defaults) =>
      ChunkSizeExact(chunk, combined);
      ChunksSizeExact(defaults, combined);
    case _ =>
  }

  lemma {:induction false} ChunksSizeExact(cs: seq<Chunk>, combined: bool)
    ensures |ChunksBytes(cs, combined)| == ChunksSize(cs, combined)
    decreases cs
  {
    if cs != [] {
      ChunkSizeExact(cs[0], combined);
      ChunksSizeExact(cs[1..], combined);
    }
  }

  /* What the format can hold. */

  const LIMIT: nat := TWO64

  predicate FieldFits(f: Field) {
    |f.name| <= 255
  }

  /** Lengths fit their length bytes, lambdas have no name and functions a
      non-empty one, every optional parameter has its default. */
  predicate Encodable(c: Chunk)
    decreases c
  {
    |c.code| < TWO63 && |c.meta| < LIMIT && PoolSize(c.pool, true) < LIMIT
    && forall k | k in c.pool :: ConstEncodable(k)
  }

  predicate ConstEncodable(k: Const)
    decreases k
  {
    match k
    case ModuleConst(name) => |name| <= 255
    case TypeConst(name, fields) => |name| <= 255 && |fields| <= 255 && forall f | f in fields :: FieldFits(f)
    case FuncConst(name, arityMin, arityMax, _, chunk, defaults) =>
      && (name.Some? ==> 0 < |name.value| <= 255)
      && |defaults| == Low(arityMax - arityMin)
      && Encodable(chunk) && forall d | d in defaults :: Encodable(d)
    case TextConst(text) => |text| < LIMIT
    case StringConst(text) => |text| < LIMIT
    case _ => true
  }

  /** Without debug information the sizes are smaller. */
  lemma {:induction false} PoolSizeLess(pool: seq<Const>)
    ensures PoolSize(pool, false) <= PoolSize(pool, true)
    decreases pool
  {
    if pool != [] {
      ConstSizeLess(pool[0]);
      PoolSizeLess(pool[1..]);
    }
  }

  lemma {:induction false} ConstSizeLess(k: Const)
    ensures ConstSize(k, false) <= ConstSize(k, true)
    decreases k
  {
    if k.FuncConst? {
      PoolSizeLess(k.chunk.pool);
      ChunksSizeLess(k.defaults);
    }
  }

  lemma {:induction false} ChunksSizeLess(cs: seq<Chunk>)
    ensures ChunksSize(cs, false) <= ChunksSize(cs, true)
    decreases cs
  {
    if cs != [] {
      PoolSizeLess(cs[0].pool);
      ChunksSizeLess(cs[1..]);
    }
  }

  /* Big-endian values. */

  lemma {:induction false} FromBigEndian(n: nat, x: nat)
    requires x < Pow256(n)
    ensures FromBytes(BigEndian(n, x)) == x
  {
    if n > 0 {
      FromBigEndian(n - 1, x / 0x100);
      var s := BigEndian(n, x);
      assert s[..n - 1] == BigEndian(n - 1, x / 0x100);
    }
  }

  lemma LongLimit()
    ensures Pow256(8) == LIMIT
  {
    assert Pow256(2) == 0x1_0000 && Pow256(4) == 0x1_0000_0000 && Pow256(6) == 0x1_0000_0000_0000;
  }

  lemma FromLong(x: nat)
    requires x < LIMIT
    ensures FromBytes(Long(x)) == x
  {
    LongLimit();
    FromBigEndian(8, x);
  }
}
