/** Reading a cache file back (src/bytes.cpp): the reader is a cursor `it` over the
    bytes and an index `k` into the separately stored debug blocks. Reading what
    was written gives the chunk again and stops at its last byte. */
module CacheReading {
  import opened Words
  import opened Syntax
  import opened CacheFormat

  datatype ReadError = EndOfFile | BadType(byte: u8) | NoDebugBlock | BadMagic | BadVersion

  datatype Read<+T> = Got(value: T, it: nat, k: nat) | Failed(error: ReadError)

  /** The bytes, where debug information is, and the blocks of the debug file. */
  datatype Input = Input(bytes: Bytes, mode: Mode, data: seq<Metadata>)

  function Value(I: Input, n: nat, it: nat, k: nat): (r: Read<nat>)
    ensures r.Got? ==> r.it == it + n <= |I.bytes| && r.k == k
  {
    if it + n <= |I.bytes| then Got(FromBytes(I.bytes[it..it + n]), it + n, k) else Failed(EndOfFile)
  }

  function Byte(I: Input, it: nat, k: nat): (r: Read<u8>)
    ensures r.Got? ==> r.it == it + 1 <= |I.bytes| && r.k == k
  {
    if it + 1 <= |I.bytes| then Got(I.bytes[it], it + 1, k) else Failed(EndOfFile)
  }

  function Raw(I: Input, n: nat, it: nat, k: nat): (r: Read<Bytes>)
    ensures r.Got? ==> r.it == it + n <= |I.bytes| && r.k == k && |r.value| == n
  {
    if it + n <= |I.bytes| then Got(I.bytes[it..it + n], it + n, k) else Failed(EndOfFile)
  }

  function Name(I: Input, it: nat, k: nat): (r: Read<Bytes>)
    ensures r.Got? ==> it < r.it <= |I.bytes| && r.k == k
  {
    match Byte(I, it, k)
    case Failed(e) => Failed(e)
    case Got(n, i, _) => Raw(I, n, i, k)
  }

  function Text(I: Input, it: nat, k: nat): (r: Read<Bytes>)
    ensures r.Got? ==> it < r.it <= |I.bytes| && r.k == k
  {
    match Value(I, 8, it, k)
    case Failed(e) => Failed(e)
    case Got(n, i, _) => Raw(I, n, i, k)
  }

  function Fields(I: Input, n: nat, it: nat, k: nat): (r: Read<seq<Field>>)
    ensures r.Got? ==> it <= r.it && r.k == k
    decreases n
  {
    if n == 0 then Got([], it, k)
    else
      match Name(I, it, k)
      case Failed(e) => Failed(e)
      case Got(name, i, _) =>
        match Byte(I, i, k)
        case Failed(e) => Failed(e)
        case Got(fixed, i1, _) =>
          match Byte(I, i1, k)
          case Failed(e) => Failed(e)
          case Got(pub, i2, _) =>
            match Fields(I, n - 1, i2, k)
            case Failed(e) => Failed(e)
            case Got(rest, i3, _) => Got([Field(name, fixed != 0, pub != 0)] + rest, i3, k)
  }

  function UserType(I: Input, it: nat, k: nat): (r: Read<Const>)
    ensures r.Got? ==> it <= r.it && r.k == k
  {
    match Name(I, it, k)
    case Failed(e) => Failed(e)
    case Got(name, i, _) =>
      match Byte(I, i, k)
      case Failed(e) => Failed(e)
      case Got(n, i1, _) =>
        match Fields(I, n, i1, k)
        case Failed(e) => Failed(e)
        case Got(fields, i2, _) => Got(TypeConst(name, fields), i2, k)
  }

  function Ranges(I: Input, n: nat, it: nat, k: nat): (r: Read<Metadata>)
    ensures r.Got? ==> r.it == it + n * RANGE_SIZE && (n > 0 ==> r.it <= |I.bytes|) && r.k == k && |r.value| == n
    decreases n
  {
    if n == 0 then Got([], it, k)
    else if it + RANGE_SIZE > |I.bytes| then Failed(EndOfFile)
    else
      match Ranges(I, n - 1, it + RANGE_SIZE, k)
      case Failed(e) => Failed(e)
      case Got(rest, i, _) => Got([RangeAt(I.bytes, it)] + rest, i, k)
  }

  function RangeAt(B: Bytes, it: nat): DebugRange
    requires it + RANGE_SIZE <= |B|
  {
    DebugRange(U64At(B, it), U64At(B, it + 8), U64At(B, it + 16), U64At(B, it + 24))
  }

  function U64At(B: Bytes, it: nat): u64
    requires it + 8 <= |B|
  {
    FromBytes(B[it..it + 8]) % TWO64
  }

  function MetaBlock(I: Input, it: nat, k: nat): (r: Read<Metadata>)
    ensures r.Got? ==> it < r.it <= |I.bytes| && r.k == k && r.it == it + MetaSize(r.value)
  {
    match Value(I, 8, it, k)
    case Failed(e) => Failed(e)
    case Got(n, i, _) => Ranges(I, n, i, k)
  }

  /** Where the debug information of the chunk just read comes from. */
  function Debug(I: Input, it: nat, k: nat): (r: Read<Metadata>)
    ensures r.Got? ==> it <= r.it
  {
    match I.mode
    case Combined => MetaBlock(I, it, k)
    case Separate => if k < |I.data| then Got(I.data[k], it, k + 1) else Failed(NoDebugBlock)
    case Stripped => Got([], it, k)
  }

  function Left(I: Input, it: nat): nat {
    if it <= |I.bytes| then |I.bytes| - it else 0
  }

  function ReadChunk(I: Input, it: nat, k: nat): (r: Read<Chunk>)
    ensures r.Got? ==> it < r.it
    decreases Left(I, it), 1
  {
    match Value(I, 8, it, k)
    case Failed(e) => Failed(e)
    case Got(codeSize, i, _) =>
      match Value(I, 8, i, k)
      case Failed(e) => Failed(e)
      case Got(poolSize, i1, _) =>
        match Raw(I, codeSize, i1, k)
        case Failed(e) => Failed(e)
        case Got(code, i2, _) =>
          match ReadPool(I, i2 + poolSize, i2, k)
          case Failed(e) => Failed(e)
          case Got(pool, i3, k3) =>
            match Debug(I, i3, k3)
            case Failed(e) => Failed(e)
            case Got(meta, i4, k4) => Got(Chunk(code, pool, meta), i4, k4)
  }

  /** Constants until the cursor reaches `stop`. A type byte of a Boolean or of
      null is skipped together with the byte after it. */
  function ReadPool(I: Input, stop: nat, it: nat, k: nat): (r: Read<seq<Const>>)
    ensures r.Got? ==> it <= r.it
    decreases Left(I, it), 3
  {
    if it >= stop then Got([], it, k)
    else
      match Byte(I, it, k)
      case Failed(e) => Failed(e)
      case Got(t, i, _) =>
        if t == BOOL_TYPE || t == NULL_TYPE then ReadPool(I, stop, i + 1, k)
        else
          match ReadConst(I, t, i, k)
          case Failed(e) => Failed(e)
          case Got(c, i1, k1) =>
            match ReadPool(I, stop, i1, k1)
            case Failed(e) => Failed(e)
            case Got(rest, i2, k2) => Got([c] + rest, i2, k2)
  }

  function ReadConst(I: Input, t: u8, it: nat, k: nat): (r: Read<Const>)
    ensures r.Got? ==> it <= r.it
    decreases Left(I, it), 3
  {
    if t == INT_TYPE then
      match Value(I, 8, it, k)
      case Failed(e) => Failed(e)
      case Got(x, i, _) => Got(IntConst(FromUnsigned(x % TWO64)), i, k)
    else if t == DEC_TYPE then
      match Value(I, 8, it, k)
      case Failed(e) => Failed(e)
      case Got(x, i, _) => Got(DecConst(x % TWO64), i, k)
    else if t == MODULE_TYPE then
      match Name(I, it, k)
      case Failed(e) => Failed(e)
      case Got(name, i, _) => Got(ModuleConst(name), i, k)
    else if t == USER_TYPE then UserType(I, it, k)
    else if t == USER_FUNC_TYPE || t == LAMBDA_TYPE then ReadFunc(I, it, k)
    else if t == TEXT_TYPE then
      match Text(I, it, k)
      case Failed(e) => Failed(e)
      case Got(s, i, _) => Got(TextConst(s), i, k)
    else if t == STRING_TYPE then
      match Text(I, it, k)
      case Failed(e) => Failed(e)
      case Got(s, i, _) => Got(StringConst(s), i, k)
    else Failed(BadType(t))
  }

  function ReadFunc(I: Input, it: nat, k: nat): (r: Read<Const>)
    ensures r.Got? ==> it <= r.it
    decreases Left(I, it), 2
  {
    match Name(I, it, k)
    case Failed(e) => Failed(e)
    case Got(name, i, _) =>
      match Raw(I, 3, i, k)
      case Failed(e) => Failed(e)
      case Got(arity, i1, _) =>
        match ReadChunk(I, i1, k)
        case Failed(e) => Failed(e)
        case Got(chunk, i2, k2) =>
          match ReadChunks(I, Low((arity[1] as int) - arity[0]), i2, k2)
          case Failed(e) => Failed(e)
          case Got(defaults, i3, k3) =>
            Got(FuncConst(if name == [] then None else Some(name), arity[0], arity[1], arity[2] != 0, chunk, defaults), i3, k3)
  }

  function ReadChunks(I: Input, n: nat, it: nat, k: nat): (r: Read<seq<Chunk>>)
    ensures r.Got? ==> it <= r.it
    decreases Left(I, it), 2, n
  {
    if n == 0 then Got([], it, k)
    else
      match ReadChunk(I, it, k)
      case Failed(e) => Failed(e)
      case Got(c, i, k1) =>
        match ReadChunks(I, n - 1, i, k1)
        case Failed(e) => Failed(e)
        case Got(rest, i2, k2) => Got([c] + rest, i2, k2)
  }
}
