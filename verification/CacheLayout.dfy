/** Where each byte of a cache file is: the format as src/bytecode.cpp and the `emit`
    functions of src/object.cpp fix it, said by position. That files are read back is
    not enough, as they are exchanged with other builds of the interpreter. */
module CacheLayout {
  import opened Words
  import opened Arithmetic
  import opened Syntax
  import opened CacheFormat
  import opened CacheReading
  import opened CacheRoundTrip
  import opened CacheFile
  import T = ObjectTypes
  import F = Flags

  /* Numbers. */

  /** The eight bytes at `o` are `x`, most significant first. */
  ghost predicate NumberAt(B: Bytes, o: nat, x: int) {
    o + 8 <= |B| && forall i | o <= i < o + 8 :: B[i] == x / Pow256(o + 7 - i) % 0x100
  }

  lemma {:induction false} BigEndianAt(n: nat, x: int, i: nat)
    requires i < n
    ensures BigEndian(n, x)[i] == x / Pow256(n - 1 - i) % 0x100
  {
    if i < n - 1 {
      BigEndianAt(n - 1, x / 0x100, i);
      DivPow(x, n - 2 - i);
    }
  }

  lemma DivPow(x: int, n: nat)
    ensures x / 0x100 / Pow256(n) == x / Pow256(n + 1)
  {
    var b := Pow256(n);
    var q, r := x / 0x100 / b, x / 0x100 % b;
    assert 0x100 * (b * q) == (0x100 * b) * q;
    assert x == (0x100 * b) * q + (0x100 * r + x % 0x100);
    OneRemainder(x, 0x100 * b, q, 0x100 * r + x % 0x100);
  }

  /** What is written for a number, negative ones included, is what `NumberAt` says. */
  lemma LongLies(B: Bytes, o: nat, x: int)
    ensures NumberAt(B, o, x) <==> At(B, o, Long(x))
  {
    if o + 8 <= |B| {
      forall i | o <= i < o + 8 ensures Long(x)[i - o] == x / Pow256(o + 7 - i) % 0x100 && B[o..o + 8][i - o] == B[i] {
        BigEndianAt(8, x, i - o);
      }
    }
  }

  lemma {:induction false} SameBytes(n: nat, x: int, k: int)
    ensures BigEndian(n, x + k * Pow256(n)) == BigEndian(n, x)
  {
    if n > 0 {
      var h := k * Pow256(n - 1);
      assert k * Pow256(n) == 0x100 * h;
      assert (x + 0x100 * h) / 0x100 == x / 0x100 + h;
      SameBytes(n - 1, x / 0x100, k);
    }
  }

  lemma TwosComplement(i: i64)
    ensures Long(ToUnsigned(i)) == Long(i)
  {
    LongLimit();
    if i < 0 { SameBytes(8, i, 1); }
  }

  /* Types. */

  /** The type of the object in the pool. */
  function KindOf(k: Const): T.ObjType {
    match k
    case IntConst(_) => T.Int
    case DecConst(_) => T.Dec
    case ModuleConst(_) => T.Module
    case TypeConst(_, _) => T.UserType
    case FuncConst(name, _, _, _, _, _) => if name.Some? then T.UserFunc else T.Lambda
    case TextConst(_) => T.Text
    case StringConst(_) => T.String
  }

  ghost predicate KindAt(B: Bytes, o: nat, t: T.ObjType) {
    o < |B| && T.Numbers(B[o], t)
  }

  /** The type bytes of handles and those of cache files number the same list. */
  lemma FlagsNumber()
    ensures T.Numbers(F.INT as int, T.Int) && T.Numbers(F.INSTANCE as int, T.Instance)
    ensures T.Numbers(F.TEXT as int, T.Text) && T.Numbers(F.LIST as int, T.List)
    ensures T.Numbers(F.TABLE as int, T.Table) && T.Numbers(F.REF as int, T.Ref)
    ensures T.Numbers(F.ITER as int, T.Iter)
    ensures F.INVALID as int == |T.TYPE_LIST| + 1 <= F.TYPE_MASK as int
  {
  }

  /* The format. Each predicate says that an entity lies at `o` and ends before `end`. */

  /** A length byte and as many bytes. */
  ghost predicate NameAt(B: Bytes, o: nat, name: Bytes, end: nat) {
    end == o + 1 + |name| <= |B| && B[o] == |name| % 0x100 && B[o + 1..end] == name
  }

  ghost predicate TextAt(B: Bytes, o: nat, text: Bytes, end: nat) {
    NumberAt(B, o, |text|) && end == o + 8 + |text| <= |B| && B[o + 8..end] == text
  }

  ghost predicate FlagAt(B: Bytes, o: nat, b: bool) {
    o < |B| && B[o] == if b then 1 else 0
  }

  /** Name, fixed, public. */
  ghost predicate FieldsAt(B: Bytes, o: nat, fields: seq<Field>, end: nat)
    decreases fields
  {
    if fields == [] then o == end <= |B|
    else
      var f := fields[0];
      var i := o + 1 + |f.name|;
      NameAt(B, o, f.name, i) && FlagAt(B, i, f.fixed) && FlagAt(B, i + 1, f.pub) && FieldsAt(B, i + 2, fields[1..], end)
  }

  ghost predicate NumbersAt(B: Bytes, o: nat, xs: seq<u64>, end: nat)
    decreases xs
  {
    if xs == [] then o == end <= |B| else NumberAt(B, o, xs[0]) && NumbersAt(B, o + 8, xs[1..], end)
  }

  ghost predicate RangesAt(B: Bytes, o: nat, m: Metadata, end: nat)
    decreases m
  {
    if m == [] then o == end <= |B|
    else
      && NumberAt(B, o, m[0].byteStart) && NumberAt(B, o + 8, m[0].byteEnd)
      && NumberAt(B, o + 16, m[0].sourceStart) && NumberAt(B, o + 24, m[0].sourceEnd)
      && RangesAt(B, o + 32, m[1..], end)
  }

  /** A block of debug information. */
  ghost predicate MetaAt(B: Bytes, o: nat, m: Metadata, end: nat) {
    NumberAt(B, o, |m|) && RangesAt(B, o + 8, m, end)
  }

  /** Size of the code, size of the pool in bytes, code, pool; then debug information
      if it is `combined` with the code. */
  ghost predicate ChunkAt(B: Bytes, o: nat, c: Chunk, combined: bool, end: nat)
    decreases c
  {
    var i := o + 16 + |c.code|;
    && NumberAt(B, o, |c.code|)
    && i <= |B| && B[o + 16..i] == c.code
    && exists mid: nat ::
         && PoolAt(B, i, c.pool, combined, mid) && NumberAt(B, o + 8, mid - i)
         && if combined then MetaAt(B, mid, c.meta, end) else mid == end
  }

  ghost predicate PoolAt(B: Bytes, o: nat, pool: seq<Const>, combined: bool, end: nat)
    decreases pool
  {
    if pool == [] then o == end <= |B|
    else exists mid: nat :: ConstAt(B, o, pool[0], combined, mid) && PoolAt(B, mid, pool[1..], combined, end)
  }

  /** The number of its type, and what objects of the type consist of. */
  ghost predicate ConstAt(B: Bytes, o: nat, k: Const, combined: bool, end: nat)
    decreases k, 1
  {
    o < |B| && T.Numbers(B[o], KindOf(k)) &&
    match k
    case IntConst(i) => NumberAt(B, o + 1, i) && end == o + 9
    case DecConst(bits) => NumberAt(B, o + 1, bits) && end == o + 9
    case ModuleConst(name) => NameAt(B, o + 1, name, end)
    case TypeConst(name, fields) => TypeAt(B, o + 1, name, fields, end)
    case FuncConst(_, _, _, _, _, _) => FuncAt(B, o + 1, k, combined, end)
    case TextConst(text) => TextAt(B, o + 1, text, end)
    case StringConst(text) => TextAt(B, o + 1, text, end)
  }

  ghost predicate TypeAt(B: Bytes, o: nat, name: Bytes, fields: seq<Field>, end: nat) {
    var i := o + 1 + |name|;
    NameAt(B, o, name, i) && i < |B| && B[i] == |fields| % 0x100 && FieldsAt(B, i + 1, fields, end)
  }

  /** Name, least and greatest number of arguments, whether it is variadic, the body,
      then the chunks of the default arguments. */
  ghost predicate FuncAt(B: Bytes, o: nat, k: Const, combined: bool, end: nat)
    requires k.FuncConst?
    decreases k, 0
  {
    var i := o + 1 + |FuncName(k)|;
    && NameAt(B, o, FuncName(k), i)
    && i + 2 < |B| && B[i] == k.arityMin && B[i + 1] == k.arityMax && FlagAt(B, i + 2, k.variadic)
    && exists mid: nat :: ChunkAt(B, i + 3, k.chunk, combined, mid) && ChunksAt(B, mid, k.defaults, combined, end)
  }

  ghost predicate ChunksAt(B: Bytes, o: nat, cs: seq<Chunk>, combined: bool, end: nat)
    decreases cs
  {
    if cs == [] then o == end <= |B|
    else exists mid: nat :: ChunkAt(B, o, cs[0], combined, mid) && ChunksAt(B, mid, cs[1..], combined, end)
  }

  /** Lambdas have an empty name. */
  function FuncName(k: Const): Bytes
    requires k.FuncConst?
  {
    if k.fname.Some? then k.fname.value else []
  }

  /** "choice", the version 0.0.1, how debug information is stored, the file's name; then
      the line markers if they are here; then the script. */
  ghost predicate FileAt(B: Bytes, f: CacheFile) {
    var i := 11 + |f.fileName|;
    && i <= |B| && B[..6] == [0x63, 0x68, 0x6f, 0x69, 0x63, 0x65] && B[6] == 0 && B[7] == 0 && B[8] == 1
    && B[9] == (match f.mode case Combined => 0 case Separate => 1 case Stripped => 2)
    && NameAt(B, 10, f.fileName, i)
    && if f.mode.Combined?
       then NumberAt(B, i, |f.markers|) && NumbersAt(B, i + 8, f.markers, i + 8 + 8 * |f.markers|)
            && ChunkAt(B, i + 8 + 8 * |f.markers|, f.script, true, |B|)
       else ChunkAt(B, i, f.script, false, |B|)
  }

  /** The debug file: empty unless debug information is separate. */
  ghost predicate DebugAt(B: Bytes, f: CacheFile) {
    var i := 8 + 8 * |f.markers|;
    if f.mode.Separate?
    then NumberAt(B, 0, |f.markers|) && NumbersAt(B, 8, f.markers, i) && BlocksAt(B, i, f.script, |B|)
    else B == []
  }

  /** The blocks of a chunk: those of the functions in its pool, then its own. */
  ghost predicate BlocksAt(B: Bytes, o: nat, c: Chunk, end: nat)
    decreases c
  {
    exists mid: nat :: PoolBlocksAt(B, o, c.pool, mid) && MetaAt(B, mid, c.meta, end)
  }

  ghost predicate PoolBlocksAt(B: Bytes, o: nat, pool: seq<Const>, end: nat)
    decreases pool
  {
    if pool == [] then o == end <= |B|
    else exists mid: nat :: ConstBlocksAt(B, o, pool[0], mid) && PoolBlocksAt(B, mid, pool[1..], end)
  }

  /** The body, then the default arguments. */
  ghost predicate ConstBlocksAt(B: Bytes, o: nat, k: Const, end: nat)
    decreases k
  {
    if !k.FuncConst? then o == end <= |B|
    else exists mid: nat :: BlocksAt(B, o, k.chunk, mid) && ChunksBlocksAt(B, mid, k.defaults, end)
  }

  ghost predicate ChunksBlocksAt(B: Bytes, o: nat, cs: seq<Chunk>, end: nat)
    decreases cs
  {
    if cs == [] then o == end <= |B|
    else exists mid: nat :: BlocksAt(B, o, cs[0], mid) && ChunksBlocksAt(B, mid, cs[1..], end)
  }

  /* The bytes written are these. */

  /** `s` lies at `o` and ends before `end`. */
  ghost predicate Lies(B: Bytes, o: nat, s: Bytes, end: nat) {
    end == o + |s| && At(B, o, s)
  }

  lemma LiesJoin(B: Bytes, o: nat, a: Bytes, b: Bytes, end: nat)
    ensures Lies(B, o, a + b, end) <==> Lies(B, o, a, o + |a|) && Lies(B, o + |a|, b, end)
  {
    if Lies(B, o, a + b, end) {
      AtSplit(B, o, a, b);
    }
    if Lies(B, o, a, o + |a|) && Lies(B, o + |a|, b, end) {
      assert B[o..end] == B[o..o + |a|] + B[o + |a|..end];
    }
  }

  lemma ByteLies(B: Bytes, o: nat, b: u8)
    ensures Lies(B, o, [b], o + 1) <==> o < |B| && B[o] == b
  {
    if o < |B| { assert B[o..o + 1] == [B[o]]; }
  }

  lemma NumberLies(B: Bytes, o: nat, x: int)
    ensures NumberAt(B, o, x) <==> Lies(B, o, Long(x), o + 8)
  {
    LongLies(B, o, x);
  }

  lemma EmptyLies(B: Bytes, o: nat, end: nat)
    ensures Lies(B, o, [], end) <==> o == end <= |B|
  {
  }

  lemma NameLies(B: Bytes, o: nat, name: Bytes, end: nat)
    ensures NameAt(B, o, name, end) <==> Lies(B, o, NameBytes(name), end)
  {
    LiesJoin(B, o, [Low(|name|)], name, end);
    ByteLies(B, o, Low(|name|));
  }

  lemma TextLies(B: Bytes, o: nat, text: Bytes, end: nat)
    ensures TextAt(B, o, text, end) <==> Lies(B, o, StringBytes(text), end)
  {
    hide Long, NumberAt;
    LiesJoin(B, o, Long(|text|), text, end);
    NumberLies(B, o, |text|);
  }

  lemma {:induction false} FieldsLie(B: Bytes, o: nat, fields: seq<Field>, end: nat)
    ensures FieldsAt(B, o, fields, end) <==> Lies(B, o, FieldsBytes(fields), end)
    decreases fields
  {
    hide Lies, NameAt;
    if fields == [] {
      EmptyLies(B, o, end);
    } else {
      var f := fields[0];
      var i, flags := o + 1 + |f.name|, [Flag(f.fixed), Flag(f.pub)];
      LiesJoin(B, o, NameBytes(f.name) + flags, FieldsBytes(fields[1..]), end);
      LiesJoin(B, o, NameBytes(f.name), flags, i + 2);
      assert [Flag(f.fixed)] + [Flag(f.pub)] == flags;
      LiesJoin(B, i, [Flag(f.fixed)], [Flag(f.pub)], i + 2);
      NameLies(B, o, f.name, i);
      ByteLies(B, i, Flag(f.fixed));
      ByteLies(B, i + 1, Flag(f.pub));
      FieldsLie(B, i + 2, fields[1..], end);
    }
  }

  lemma {:induction false} NumbersLie(B: Bytes, o: nat, xs: seq<u64>, end: nat)
    ensures NumbersAt(B, o, xs, end) <==> Lies(B, o, LongsBytes(xs), end)
    decreases xs
  {
    hide Lies, Long, NumberAt;
    if xs == [] {
      EmptyLies(B, o, end);
    } else {
      LiesJoin(B, o, Long(xs[0]), LongsBytes(xs[1..]), end);
      NumberLies(B, o, xs[0]);
      NumbersLie(B, o + 8, xs[1..], end);
    }
  }

  lemma RangeLies(B: Bytes, o: nat, r: DebugRange)
    ensures NumberAt(B, o, r.byteStart) && NumberAt(B, o + 8, r.byteEnd)
            && NumberAt(B, o + 16, r.sourceStart) && NumberAt(B, o + 24, r.sourceEnd)
       <==> Lies(B, o, RangeBytes(r), o + 32)
  {
    hide Lies, Long, NumberAt;
    var a, b, c, d := Long(r.byteStart), Long(r.byteEnd), Long(r.sourceStart), Long(r.sourceEnd);
    LiesJoin(B, o, a + b + c, d, o + 32);
    LiesJoin(B, o, a + b, c, o + 24);
    LiesJoin(B, o, a, b, o + 16);
    NumberLies(B, o, r.byteStart);
    NumberLies(B, o + 8, r.byteEnd);
    NumberLies(B, o + 16, r.sourceStart);
    NumberLies(B, o + 24, r.sourceEnd);
  }

  lemma {:induction false} RangesLie(B: Bytes, o: nat, m: Metadata, end: nat)
    ensures RangesAt(B, o, m, end) <==> Lies(B, o, RangesBytes(m), end)
    decreases m
  {
    hide Lies, NumberAt, RangeBytes;
    if m == [] {
      EmptyLies(B, o, end);
    } else {
      LiesJoin(B, o, RangeBytes(m[0]), RangesBytes(m[1..]), end);
      RangeLies(B, o, m[0]);
      RangesLie(B, o + 32, m[1..], end);
    }
  }

  lemma MetaLies(B: Bytes, o: nat, m: Metadata, end: nat)
    ensures MetaAt(B, o, m, end) <==> Lies(B, o, MetaBytes(m), end)
  {
    hide Lies, Long, NumberAt, RangesAt, RangesBytes;
    LiesJoin(B, o, Long(|m|), RangesBytes(m), end);
    NumberLies(B, o, |m|);
    RangesLie(B, o + 8, m, end);
  }

  lemma {:induction false} ChunkLies(B: Bytes, o: nat, c: Chunk, combined: bool, end: nat)
    ensures ChunkAt(B, o, c, combined, end) <==> Lies(B, o, ChunkBytes(c, combined), end)
    decreases c, 0
  {
    hide Lies, NumberAt, PoolAt, PoolBytes, MetaAt, MetaBytes, ChunkBytes, ChunkAt;
    var pool, i := PoolBytes(c.pool, combined), o + 16 + |c.code|;
    var mid := i + |pool|;
    ChunkParts(B, o, c, combined, end);
    PoolLies(B, i, c.pool, combined, mid);
    if ChunkAt(B, o, c, combined, end) {
      var m := PoolOf(B, o, c, combined, end);
      PoolLies(B, i, c.pool, combined, m);
      LiesEnd(B, i, pool, m);
    }
    if Lies(B, o, ChunkBytes(c, combined), end) { ChunkOf(B, o, c, combined, mid, end); }
  }

  lemma ChunkParts(B: Bytes, o: nat, c: Chunk, combined: bool, end: nat)
    ensures var pool, i := PoolBytes(c.pool, combined), o + 16 + |c.code|;
            Lies(B, o, ChunkBytes(c, combined), end) <==>
              && NumberAt(B, o, |c.code|) && NumberAt(B, o + 8, |pool|)
              && i <= |B| && B[o + 16..i] == c.code && Lies(B, i, pool, i + |pool|)
              && if combined then MetaAt(B, i + |pool|, c.meta, end) else i + |pool| == end
  {
    hide Lies, Long, NumberAt, PoolBytes, MetaAt, MetaBytes;
    var sizes := Long(|c.code|) + Long(PoolSize(c.pool, combined));
    var pool, meta := PoolBytes(c.pool, combined), if combined then MetaBytes(c.meta) else [];
    var i := o + 16 + |c.code|;
    var mid := i + |pool|;
    PoolSizeExact(c.pool, combined);
    LiesJoin(B, o, sizes + c.code + pool, meta, end);
    LiesJoin(B, o, sizes + c.code, pool, mid);
    LiesJoin(B, o, sizes, c.code, i);
    LiesJoin(B, o, Long(|c.code|), Long(|pool|), o + 16);
    NumberLies(B, o, |c.code|);
    NumberLies(B, o + 8, |pool|);
    CodeLies(B, o + 16, c.code);
    MetaLies(B, mid, c.meta, end);
    EmptyLies(B, mid, end);
    LiesEnd(B, i, pool, mid);
  }

  lemma CodeLies(B: Bytes, o: nat, code: Bytes)
    ensures Lies(B, o, code, o + |code|) <==> o + |code| <= |B| && B[o..o + |code|] == code
  {
  }

  lemma LiesEnd(B: Bytes, o: nat, s: Bytes, end: nat)
    ensures Lies(B, o, s, end) ==> end == o + |s| <= |B|
  {
  }

  lemma ChunkOf(B: Bytes, o: nat, c: Chunk, combined: bool, mid: nat, end: nat)
    requires NumberAt(B, o, |c.code|)
    requires var i := o + 16 + |c.code|;
             && i <= |B| && B[o + 16..i] == c.code
             && PoolAt(B, i, c.pool, combined, mid) && NumberAt(B, o + 8, mid - i)
             && if combined then MetaAt(B, mid, c.meta, end) else mid == end
    ensures ChunkAt(B, o, c, combined, end)
  {
  }

  lemma PoolOf(B: Bytes, o: nat, c: Chunk, combined: bool, end: nat) returns (mid: nat)
    requires ChunkAt(B, o, c, combined, end)
    ensures NumberAt(B, o, |c.code|)
    ensures var i := o + 16 + |c.code|;
            && i <= |B| && B[o + 16..i] == c.code
            && PoolAt(B, i, c.pool, combined, mid) && NumberAt(B, o + 8, mid - i)
            && if combined then MetaAt(B, mid, c.meta, end) else mid == end
  {
    var i := o + 16 + |c.code|;
    mid :| PoolAt(B, i, c.pool, combined, mid) && NumberAt(B, o + 8, mid - i)
           && if combined then MetaAt(B, mid, c.meta, end) else mid == end;
  }

  lemma {:induction false} PoolLies(B: Bytes, o: nat, pool: seq<Const>, combined: bool, end: nat)
    ensures PoolAt(B, o, pool, combined, end) <==> Lies(B, o, PoolBytes(pool, combined), end)
    decreases pool, 0
  {
    hide Lies, ConstAt, ConstBytes;
    if pool == [] {
      EmptyLies(B, o, end);
    } else {
      var first, rest := ConstBytes(pool[0], combined), PoolBytes(pool[1..], combined);
      var mid := o + |first|;
      LiesJoin(B, o, first, rest, end);
      PoolLies(B, mid, pool[1..], combined, end);
      forall m: nat ensures ConstAt(B, o, pool[0], combined, m) <==> m == mid && Lies(B, o, first, mid) {
        ConstLies(B, o, pool[0], combined, m);
        LiesEnd(B, o, first, m);
      }
    }
  }

  lemma {:induction false} ChunksLie(B: Bytes, o: nat, cs: seq<Chunk>, combined: bool, end: nat)
    ensures ChunksAt(B, o, cs, combined, end) <==> Lies(B, o, ChunksBytes(cs, combined), end)
    decreases cs, 0
  {
    hide Lies, ChunkAt, ChunkBytes;
    if cs == [] {
      EmptyLies(B, o, end);
    } else {
      var first, rest := ChunkBytes(cs[0], combined), ChunksBytes(cs[1..], combined);
      var mid := o + |first|;
      LiesJoin(B, o, first, rest, end);
      ChunksLie(B, mid, cs[1..], combined, end);
      forall m: nat ensures ChunkAt(B, o, cs[0], combined, m) <==> m == mid && Lies(B, o, first, mid) {
        ChunkLies(B, o, cs[0], combined, m);
        LiesEnd(B, o, first, m);
      }
    }
  }

  /** The type byte of a constant is the number of its type, and no other byte is. */
  lemma TypeByteExact(k: Const, b: u8)
    ensures T.Numbers(b, KindOf(k)) <==> b == TypeByte(k)
  {
    assert T.Numbers(TypeByte(k), KindOf(k));
    if T.Numbers(b, KindOf(k)) { T.NumbersOnce(b, TypeByte(k), KindOf(k)); }
  }

  lemma {:induction false} ConstLies(B: Bytes, o: nat, k: Const, combined: bool, end: nat)
    ensures ConstAt(B, o, k, combined, end) <==> Lies(B, o, ConstBytes(k, combined), end)
    decreases k, 1
  {
    hide Lies, Long, NumberAt, NameAt, NameBytes, TextAt, StringBytes, TypeAt, TypeBytes, FuncAt, TypeByte, KindOf,
      FuncBytes, T.Numbers;
    var body := ConstBytes(k, combined)[1..];
    assert ConstBytes(k, combined) == [TypeByte(k)] + body;
    LiesJoin(B, o, [TypeByte(k)], body, end);
    ByteLies(B, o, TypeByte(k));
    if o < |B| { TypeByteExact(k, B[o]); }
    match k
    case IntConst(i) =>
      TwosComplement(i);
      NumberLies(B, o + 1, i);
      LiesEnd(B, o + 1, body, end);
    case DecConst(bits) =>
      NumberLies(B, o + 1, bits);
      LiesEnd(B, o + 1, body, end);
    case ModuleConst(name) => NameLies(B, o + 1, name, end);
    case TypeConst(_, _) => TypeLies(B, o + 1, k, end);
    case FuncConst(_, _, _, _, _, _) => FuncLies(B, o + 1, k, combined, end);
    case TextConst(text) => TextLies(B, o + 1, text, end);
    case StringConst(text) => TextLies(B, o + 1, text, end);
  }

  lemma TypeLies(B: Bytes, o: nat, k: Const, end: nat)
    requires k.TypeConst?
    ensures TypeAt(B, o, k.name, k.fields, end) <==> Lies(B, o, TypeBytes(k.name, k.fields), end)
  {
    hide Lies, NameAt, FieldsAt, FieldsBytes;
    var name, count, i := NameBytes(k.name), [Low(|k.fields|)], o + 1 + |k.name|;
    LiesJoin(B, o, name + count, FieldsBytes(k.fields), end);
    LiesJoin(B, o, name, count, i + 1);
    NameLies(B, o, k.name, i);
    ByteLies(B, i, Low(|k.fields|));
    FieldsLie(B, i + 1, k.fields, end);
  }

  lemma {:induction false} FuncLies(B: Bytes, o: nat, k: Const, combined: bool, end: nat)
    requires k.FuncConst?
    ensures FuncAt(B, o, k, combined, end) <==> Lies(B, o, FuncBytes(k, combined), end)
    decreases k, 0
  {
    hide Lies, NameAt, NameBytes, ChunkAt, ChunkBytes, ChunksAt, ChunksBytes;
    var name, head := FuncName(k), [k.arityMin, k.arityMax, Flag(k.variadic)];
    var chunk, rest := ChunkBytes(k.chunk, combined), ChunksBytes(k.defaults, combined);
    var i := o + 1 + |name|;
    var mid := i + 3 + |chunk|;
    NameOf(k);
    LiesJoin(B, o, NameBytes(name) + head + chunk, rest, end);
    LiesJoin(B, o, NameBytes(name) + head, chunk, mid);
    LiesJoin(B, o, NameBytes(name), head, i + 3);
    NameLies(B, o, name, i);
    HeadLies(B, i, k.arityMin, k.arityMax, Flag(k.variadic));
    ChunksLie(B, mid, k.defaults, combined, end);
    var p := i + 3;
    forall m: nat ensures ChunkAt(B, p, k.chunk, combined, m) <==> m == mid && Lies(B, p, chunk, mid) {
      ChunkLies(B, p, k.chunk, combined, m);
      LiesEnd(B, p, chunk, m);
    }
  }

  lemma NameOf(k: Const)
    requires k.FuncConst?
    ensures NameBytes(FuncName(k)) == if k.fname.Some? then NameBytes(k.fname.value) else [0]
    ensures |NameBytes(FuncName(k))| == 1 + |FuncName(k)|
  {
  }

  lemma HeadLies(B: Bytes, i: nat, a: u8, b: u8, c: u8)
    ensures Lies(B, i, [a, b, c], i + 3) <==> i + 2 < |B| && B[i] == a && B[i + 1] == b && B[i + 2] == c
  {
    if i + 2 < |B| { assert B[i..i + 3] == [B[i], B[i + 1], B[i + 2]]; }
  }

  /* Whole files. */

  lemma MarkersLie(B: Bytes, o: nat, markers: seq<u64>, end: nat)
    ensures NumberAt(B, o, |markers|) && NumbersAt(B, o + 8, markers, end) <==> Lies(B, o, MarkersBytes(markers), end)
  {
    hide Lies, Long, NumberAt, NumbersAt, LongsBytes;
    LiesJoin(B, o, Long(|markers|), LongsBytes(markers), end);
    NumberLies(B, o, |markers|);
    NumbersLie(B, o + 8, markers, end);
  }

  /** A file is the cache file of `f` exactly when it is laid out like this. */
  lemma FileLayout(B: Bytes, f: CacheFile)
    ensures FileAt(B, f) <==> B == CacheBytes(f)
  {
    hide Lies, NameAt, NameBytes, NumberAt, NumbersAt, MarkersBytes, ChunkAt, ChunkBytes;
    var i, n := 11 + |f.fileName|, 8 + 8 * |f.markers|;
    var head, name, chunk := FixedHead(f.mode), NameBytes(f.fileName), ChunkBytes(f.script, f.mode.Combined?);
    var markers := if f.mode.Combined? then MarkersBytes(f.markers) else [];
    assert |MarkersBytes(f.markers)| == n && |name| == i - 10 by { MarkersSize(f.markers); NameLength(f.fileName); }
    assert CacheBytes(f) == head + name + markers + chunk by { Header(f); }
    WholeLies(B, CacheBytes(f));
    LiesJoin(B, 0, head + name + markers, chunk, |B|);
    LiesJoin(B, 0, head + name, markers, i + |markers|);
    LiesJoin(B, 0, head, name, i);
    HeadLiesAt(B, f.mode);
    NameLies(B, 10, f.fileName, i);
    EmptyLies(B, i, i);
    MarkersLie(B, i, f.markers, i + n);
    ChunkLies(B, i + |markers|, f.script, f.mode.Combined?, |B|);
    LiesEnd(B, 10, name, i);
  }

  function FixedHead(mode: Mode): Bytes {
    MAGIC + [VERSION_MAJOR, VERSION_MINOR, VERSION_PATCH] + [ModeByte(mode)]
  }

  lemma Header(f: CacheFile)
    ensures HeaderBytes(f) == FixedHead(f.mode) + NameBytes(f.fileName)
  {
  }

  lemma HeadLiesAt(B: Bytes, mode: Mode)
    ensures Lies(B, 0, FixedHead(mode), 10) <==>
              && |B| >= 10 && B[..6] == [0x63, 0x68, 0x6f, 0x69, 0x63, 0x65] && B[6] == 0 && B[7] == 0 && B[8] == 1
              && B[9] == (match mode case Combined => 0 case Separate => 1 case Stripped => 2)
  {
    if |B| >= 10 { assert B[0..10] == B[..6] + [B[6], B[7], B[8], B[9]]; }
  }

  lemma WholeLies(B: Bytes, s: Bytes)
    ensures Lies(B, 0, s, |B|) <==> B == s
  {
    assert B[0..|B|] == B;
  }

  lemma NameLength(name: Bytes)
    ensures |NameBytes(name)| == 1 + |name|
  {
  }

  lemma {:induction false} MarkersSize(markers: seq<u64>)
    ensures |MarkersBytes(markers)| == 8 + 8 * |markers|
    decreases markers
  {
    if markers != [] { MarkersSize(markers[1..]); }
  }

  /* The debug file. */

  lemma {:induction false} BlocksJoin(a: seq<Metadata>, b: seq<Metadata>)
    ensures BlocksBytes(a + b) == BlocksBytes(a) + BlocksBytes(b)
    decreases a
  {
    hide MetaBytes;
    if a == [] {
      assert a + b == b;
    } else {
      assert (a + b)[1..] == a[1..] + b;
      BlocksJoin(a[1..], b);
      var m, s, t := MetaBytes(a[0]), BlocksBytes(a[1..]), BlocksBytes(b);
      assert m + (s + t) == (m + s) + t;
    }
  }

  lemma OneBlock(m: Metadata)
    ensures BlocksBytes([m]) == MetaBytes(m)
  {
    assert [m][1..] == [];
    assert MetaBytes(m) + [] == MetaBytes(m);
  }

  lemma {:induction false} BlocksLie(B: Bytes, o: nat, c: Chunk, end: nat)
    ensures BlocksAt(B, o, c, end) <==> Lies(B, o, BlocksBytes(Blocks(c)), end)
    decreases c, 0
  {
    hide Lies, MetaAt, MetaBytes, BlocksBytes, PoolBlocks, PoolBlocksAt;
    var first := BlocksBytes(PoolBlocks(c.pool));
    var mid := o + |first|;
    BlocksJoin(PoolBlocks(c.pool), [c.meta]);
    OneBlock(c.meta);
    LiesJoin(B, o, first, MetaBytes(c.meta), end);
    MetaLies(B, mid, c.meta, end);
    forall m: nat ensures PoolBlocksAt(B, o, c.pool, m) <==> m == mid && Lies(B, o, first, mid) {
      PoolBlocksLie(B, o, c.pool, m);
      LiesEnd(B, o, first, m);
    }
  }

  lemma {:induction false} PoolBlocksLie(B: Bytes, o: nat, pool: seq<Const>, end: nat)
    ensures PoolBlocksAt(B, o, pool, end) <==> Lies(B, o, BlocksBytes(PoolBlocks(pool)), end)
    decreases pool, 0
  {
    hide Lies, ConstBlocks, ConstBlocksAt, BlocksBytes;
    if pool == [] {
      NoBlocks();
      EmptyLies(B, o, end);
    } else {
      var first, rest := BlocksBytes(ConstBlocks(pool[0])), BlocksBytes(PoolBlocks(pool[1..]));
      var mid := o + |first|;
      BlocksJoin(ConstBlocks(pool[0]), PoolBlocks(pool[1..]));
      LiesJoin(B, o, first, rest, end);
      PoolBlocksLie(B, mid, pool[1..], end);
      forall m: nat ensures ConstBlocksAt(B, o, pool[0], m) <==> m == mid && Lies(B, o, first, mid) {
        ConstBlocksLie(B, o, pool[0], m);
        LiesEnd(B, o, first, m);
      }
    }
  }

  lemma NoBlocks()
    ensures BlocksBytes([]) == []
  {
  }

  lemma {:induction false} ConstBlocksLie(B: Bytes, o: nat, k: Const, end: nat)
    ensures ConstBlocksAt(B, o, k, end) <==> Lies(B, o, BlocksBytes(ConstBlocks(k)), end)
    decreases k, 1
  {
    hide Lies, Blocks, BlocksAt, ChunksBlocks, ChunksBlocksAt, BlocksBytes;
    if !k.FuncConst? {
      NoBlocks();
      EmptyLies(B, o, end);
    } else {
      var first, rest := BlocksBytes(Blocks(k.chunk)), BlocksBytes(ChunksBlocks(k.defaults));
      var mid := o + |first|;
      BlocksJoin(Blocks(k.chunk), ChunksBlocks(k.defaults));
      LiesJoin(B, o, first, rest, end);
      ChunksBlocksLie(B, mid, k.defaults, end);
      forall m: nat ensures BlocksAt(B, o, k.chunk, m) <==> m == mid && Lies(B, o, first, mid) {
        BlocksLie(B, o, k.chunk, m);
        LiesEnd(B, o, first, m);
      }
    }
  }

  lemma {:induction false} ChunksBlocksLie(B: Bytes, o: nat, cs: seq<Chunk>, end: nat)
    ensures ChunksBlocksAt(B, o, cs, end) <==> Lies(B, o, BlocksBytes(ChunksBlocks(cs)), end)
    decreases cs, 0
  {
    hide Lies, Blocks, BlocksAt, BlocksBytes;
    if cs == [] {
      NoBlocks();
      EmptyLies(B, o, end);
    } else {
      var first, rest := BlocksBytes(Blocks(cs[0])), BlocksBytes(ChunksBlocks(cs[1..]));
      var mid := o + |first|;
      BlocksJoin(Blocks(cs[0]), ChunksBlocks(cs[1..]));
      LiesJoin(B, o, first, rest, end);
      ChunksBlocksLie(B, mid, cs[1..], end);
      forall m: nat ensures BlocksAt(B, o, cs[0], m) <==> m == mid && Lies(B, o, first, mid) {
        BlocksLie(B, o, cs[0], m);
        LiesEnd(B, o, first, m);
      }
    }
  }

  lemma DebugLayout(B: Bytes, f: CacheFile)
    ensures DebugAt(B, f) <==> B == DebugBytes(f)
  {
    hide Lies, NumberAt, NumbersAt, MarkersBytes, BlocksAt, BlocksBytes, Blocks;
    if f.mode.Separate? {
      var i := 8 + 8 * |f.markers|;
      MarkersSize(f.markers);
      WholeLies(B, DebugBytes(f));
      LiesJoin(B, 0, MarkersBytes(f.markers), BlocksBytes(Blocks(f.script)), |B|);
      MarkersLie(B, 0, f.markers, i);
      BlocksLie(B, i, f.script, |B|);
    }
  }

  /* Reading by type. */

  /** The types of constants. */
  const STORED: set<T.ObjType> := {T.Int, T.Dec, T.Module, T.UserType, T.UserFunc, T.Lambda, T.Text, T.String}

  /** A type byte decides what is read, except that functions are told from lambdas by
      their name; all other types are refused. */
  lemma ReadsKind(I: Input, t: u8, it: nat, k: nat)
    ensures var r := ReadConst(I, t, it, k);
            r.Got? ==> exists kind ::
              T.Numbers(t, kind) && (kind == KindOf(r.value) || {kind, KindOf(r.value)} == {T.UserFunc, T.Lambda})
    ensures (exists kind :: T.Numbers(t, kind) && kind in STORED) || ReadConst(I, t, it, k) == Failed(BadType(t))
  {
    hide Value, Name, Text, UserType, ReadFunc;
    assert T.Numbers(INT_TYPE, T.Int) && T.Numbers(DEC_TYPE, T.Dec);
    assert T.Numbers(MODULE_TYPE, T.Module) && T.Numbers(USER_TYPE, T.UserType);
    assert T.Numbers(USER_FUNC_TYPE, T.UserFunc) && T.Numbers(LAMBDA_TYPE, T.Lambda);
    assert T.Numbers(TEXT_TYPE, T.Text) && T.Numbers(STRING_TYPE, T.String);
    ReadsFunction(I, it, k);
    ReadsType(I, it, k);
  }

  lemma ReadsFunction(I: Input, it: nat, k: nat)
    ensures ReadFunc(I, it, k).Got? ==> ReadFunc(I, it, k).value.FuncConst?
  {
  }

  lemma ReadsType(I: Input, it: nat, k: nat)
    ensures UserType(I, it, k).Got? ==> UserType(I, it, k).value.TypeConst?
  {
  }

  /** Booleans and null are skipped, with the byte behind them. */
  lemma SkipsKind(I: Input, stop: nat, it: nat, k: nat)
    requires it < stop && it < |I.bytes|
    requires T.Numbers(I.bytes[it], T.Bool) || T.Numbers(I.bytes[it], T.Null)
    ensures ReadPool(I, stop, it, k) == ReadPool(I, stop, it + 2, k)
  {
    assert T.Numbers(BOOL_TYPE, T.Bool) && T.Numbers(NULL_TYPE, T.Null);
    if T.Numbers(I.bytes[it], T.Bool) {
      T.NumbersOnce(I.bytes[it], BOOL_TYPE, T.Bool);
    } else {
      T.NumbersOnce(I.bytes[it], NULL_TYPE, T.Null);
    }
  }
}
