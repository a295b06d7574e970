/** Reading back what was written, in every debug mode. */
module CacheRoundTrip {
  import opened Words
  import opened Syntax
  import opened CacheFormat
  import opened CacheReading

  ghost predicate At(B: Bytes, it: nat, s: Bytes) {
    it + |s| <= |B| && B[it..it + |s|] == s
  }

  lemma AtSplit(B: Bytes, it: nat, a: Bytes, b: Bytes)
    requires At(B, it, a + b)
    ensures At(B, it, a) && At(B, it + |a|, b)
  {
    var s := B[it..it + |a + b|];
    assert s[..|a|] == a && s[|a|..] == b;
    assert B[it..it + |a|] == s[..|a|];
    assert B[it + |a|..it + |a| + |b|] == s[|a|..];
  }

  /* Debug blocks. */

  /** The blocks of the debug file, in the order encodeMetadata writes them: those
      of the function constants in the pool first, then the chunk's own. */
  function Blocks(c: Chunk): seq<Metadata>
    decreases c
  {
    PoolBlocks(c.pool) + [c.meta]
  }

  function PoolBlocks(pool: seq<Const>): seq<Metadata>
    decreases pool
  {
    if pool == [] then [] else ConstBlocks(pool[0]) + PoolBlocks(pool[1..])
  }

  /** Only function constants carry blocks: the body, then the default arguments. */
  function ConstBlocks(k: Const): seq<Metadata>
    decreases k
  {
    if k.FuncConst? then Blocks(k.chunk) + ChunksBlocks(k.defaults) else []
  }

  function ChunksBlocks(cs: seq<Chunk>): seq<Metadata>
    decreases cs
  {
    if cs == [] then [] else Blocks(cs[0]) + ChunksBlocks(cs[1..])
  }

  /** The chunk without any debug information. */
  function Bare(c: Chunk): Chunk
    decreases c
  {
    Chunk(c.code, BarePool(c.pool), [])
  }

  function BarePool(pool: seq<Const>): seq<Const>
    decreases pool
  {
    if pool == [] then [] else [BareConst(pool[0])] + BarePool(pool[1..])
  }

  function BareConst(k: Const): Const
    decreases k
  {
    if k.FuncConst? then k.(chunk := Bare(k.chunk), defaults := BareChunks(k.defaults)) else k
  }

  function BareChunks(cs: seq<Chunk>): seq<Chunk>
    decreases cs
  {
    if cs == [] then [] else [Bare(cs[0])] + BareChunks(cs[1..])
  }

  /** The next blocks of the debug file are `blocks`, if there is one. */
  ghost predicate Next(I: Input, k: nat, blocks: seq<Metadata>) {
    I.mode.Separate? ==> k + |blocks| <= |I.data| && I.data[k..k + |blocks|] == blocks
  }

  function Past(I: Input, k: nat, blocks: seq<Metadata>): nat {
    if I.mode.Separate? then k + |blocks| else k
  }

  lemma NextSplit(I: Input, k: nat, a: seq<Metadata>, b: seq<Metadata>)
    requires Next(I, k, a + b)
    ensures Next(I, k, a) && Next(I, Past(I, k, a), b) && Past(I, k, a + b) == Past(I, Past(I, k, a), b)
  {
    if I.mode.Separate? {
      var s := I.data[k..k + |a + b|];
      assert s[..|a|] == a && s[|a|..] == b;
      assert I.data[k..k + |a|] == s[..|a|];
      assert I.data[k + |a|..k + |a| + |b|] == s[|a|..];
    }
  }

  /* Plain values. */

  lemma LongBack(I: Input, x: nat, it: nat, k: nat)
    requires x < LIMIT && At(I.bytes, it, Long(x))
    ensures Value(I, 8, it, k) == Got(x, it + 8, k)
  {
    FromLong(x);
  }

  lemma NameBack(I: Input, name: Bytes, it: nat, k: nat)
    requires |name| <= 255 && At(I.bytes, it, NameBytes(name))
    ensures Name(I, it, k) == Got(name, it + 1 + |name|, k)
  {
    AtSplit(I.bytes, it, [Low(|name|)], name);
  }

  lemma TextBack(I: Input, text: Bytes, it: nat, k: nat)
    requires |text| < LIMIT && At(I.bytes, it, StringBytes(text))
    ensures Text(I, it, k) == Got(text, it + |StringBytes(text)|, k)
  {
    AtSplit(I.bytes, it, Long(|text|), text);
    LongBack(I, |text|, it, k);
  }

  lemma NameSize(name: Bytes)
    ensures |NameBytes(name)| == 1 + |name|
  {
  }

  lemma {:induction false} FieldsBack(I: Input, fields: seq<Field>, it: nat, k: nat)
    requires (forall f | f in fields :: FieldFits(f)) && At(I.bytes, it, FieldsBytes(fields))
    ensures Fields(I, |fields|, it, k) == Got(fields, it + |FieldsBytes(fields)|, k)
    decreases fields
  {
    hide At, NameBytes, Name, Byte, Flag, FieldsBytes;
    if fields == [] {
      NoFields();
    } else {
      var f, rest := fields[0], fields[1..];
      var i := it + 1 + |f.name|;
      FieldParts(I.bytes, fields, it);
      assert f in fields;
      NameBack(I, f.name, it, k);
      ByteBack(I, Flag(f.fixed), i, k);
      ByteBack(I, Flag(f.pub), i + 1, k);
      FlagBack(f.fixed);
      FlagBack(f.pub);
      FieldsBack(I, rest, i + 2, k);
      assert [f] + rest == fields;
    }
  }

  lemma NoFields()
    ensures FieldsBytes([]) == []
  {
  }

  lemma FieldParts(B: Bytes, fields: seq<Field>, it: nat)
    requires fields != [] && At(B, it, FieldsBytes(fields))
    ensures var f, i := fields[0], it + 1 + |fields[0].name|;
            && At(B, it, NameBytes(f.name)) && At(B, i, [Flag(f.fixed)]) && At(B, i + 1, [Flag(f.pub)])
            && At(B, i + 2, FieldsBytes(fields[1..]))
            && |FieldsBytes(fields)| == |f.name| + 3 + |FieldsBytes(fields[1..])|
  {
    hide At, NameBytes;
    var f, rest := fields[0], fields[1..];
    var name, flags := NameBytes(f.name), [Flag(f.fixed), Flag(f.pub)];
    NameSize(f.name);
    AtSplit(B, it, name + flags, FieldsBytes(rest));
    AtSplit(B, it, name, flags);
    assert [Flag(f.fixed)] + [Flag(f.pub)] == flags;
    AtSplit(B, it + |name|, [Flag(f.fixed)], [Flag(f.pub)]);
  }

  lemma UserTypeBack(I: Input, name: Bytes, fields: seq<Field>, it: nat, k: nat)
    requires ConstEncodable(TypeConst(name, fields)) && At(I.bytes, it, TypeBytes(name, fields))
    ensures UserType(I, it, k) == Got(TypeConst(name, fields), it + |TypeBytes(name, fields)|, k)
  {
    hide At, NameBytes, FieldsBytes, Name, Byte, Fields;
    AtSplit(I.bytes, it, NameBytes(name) + [Low(|fields|)], FieldsBytes(fields));
    AtSplit(I.bytes, it, NameBytes(name), [Low(|fields|)]);
    NameBack(I, name, it, k);
    NameSize(name);
    ByteBack(I, Low(|fields|), it + 1 + |name|, k);
    FieldsBack(I, fields, it + |name| + 2, k);
  }

  lemma RangeBack(B: Bytes, r: DebugRange, it: nat)
    requires At(B, it, RangeBytes(r))
    ensures RangeAt(B, it) == r
  {
    hide At, Long, U64At;
    var a, b, c, d := Long(r.byteStart), Long(r.byteEnd), Long(r.sourceStart), Long(r.sourceEnd);
    AtSplit(B, it, a + b + c, d);
    AtSplit(B, it, a + b, c);
    AtSplit(B, it, a, b);
    U64Back(B, r.byteStart, it);
    U64Back(B, r.byteEnd, it + 8);
    U64Back(B, r.sourceStart, it + 16);
    U64Back(B, r.sourceEnd, it + 24);
  }

  lemma U64Back(B: Bytes, x: u64, it: nat)
    requires At(B, it, Long(x))
    ensures it + 8 <= |B| && U64At(B, it) == x
  {
    FromLong(x);
  }

  lemma {:induction false} RangesBack(I: Input, m: Metadata, it: nat, k: nat)
    requires At(I.bytes, it, RangesBytes(m))
    ensures Ranges(I, |m|, it, k) == Got(m, it + |m| * RANGE_SIZE, k)
    decreases m
  {
    if m != [] {
      AtSplit(I.bytes, it, RangeBytes(m[0]), RangesBytes(m[1..]));
      RangeBack(I.bytes, m[0], it);
      RangesBack(I, m[1..], it + RANGE_SIZE, k);
      assert [m[0]] + m[1..] == m;
    }
  }

  lemma MetaBlockBack(I: Input, m: Metadata, it: nat, k: nat)
    requires |m| < LIMIT && At(I.bytes, it, MetaBytes(m))
    ensures MetaBlock(I, it, k) == Got(m, it + |MetaBytes(m)|, k)
  {
    AtSplit(I.bytes, it, Long(|m|), RangesBytes(m));
    LongBack(I, |m|, it, k);
    RangesBack(I, m, it + 8, k);
    RangesSizeExact(m);
  }

  /* Chunks. */

  function Kept(I: Input, c: Chunk): Chunk {
    if I.mode.Stripped? then Bare(c) else c
  }

  function KeptConst(I: Input, k: Const): Const {
    if I.mode.Stripped? then BareConst(k) else k
  }

  function KeptPool(I: Input, pool: seq<Const>): seq<Const> {
    if I.mode.Stripped? then BarePool(pool) else pool
  }

  function KeptChunks(I: Input, cs: seq<Chunk>): seq<Chunk> {
    if I.mode.Stripped? then BareChunks(cs) else cs
  }

  /** Wherever the bytes of a chunk stand, and whatever follows them, reading there
      gives the chunk and stops behind it; with separate debug information it also
      draws exactly the chunk's own blocks. */
  lemma {:induction false} ChunkBack(I: Input, c: Chunk, it: nat, k: nat)
    requires Encodable(c) && At(I.bytes, it, ChunkBytes(c, I.mode.Combined?)) && Next(I, k, Blocks(c))
    ensures ReadChunk(I, it, k) == Got(Kept(I, c), it + |ChunkBytes(c, I.mode.Combined?)|, Past(I, k, Blocks(c)))
    decreases c
  {
    hide At, Long, PoolBytes, MetaBytes, Next, PoolSize, ReadPool, BarePool, Value, Raw, Debug, PoolBlocks;
    var combined := I.mode.Combined?;
    var meta := if combined then MetaBytes(c.meta) else [];
    var n, p := Long(|c.code|), Long(PoolSize(c.pool, combined));
    var pool := PoolBytes(c.pool, combined);
    AtSplit(I.bytes, it, n + p + c.code + pool, meta);
    AtSplit(I.bytes, it, n + p + c.code, pool);
    AtSplit(I.bytes, it, n + p, c.code);
    AtSplit(I.bytes, it, n, p);
    PoolSizeLess(c.pool);
    LongBack(I, |c.code|, it, k);
    LongBack(I, PoolSize(c.pool, combined), it + 8, k);
    RawBack(I, c.code, it + 16, k);
    NextSplit(I, k, PoolBlocks(c.pool), [c.meta]);
    PoolBack(I, c.pool, it + 16 + |c.code|, k);
    PoolSizeExact(c.pool, combined);
    DebugBack(I, c.meta, it + 16 + |c.code| + |pool|, Past(I, k, PoolBlocks(c.pool)), meta);
  }

  lemma RawBack(I: Input, s: Bytes, it: nat, k: nat)
    requires At(I.bytes, it, s)
    ensures Raw(I, |s|, it, k) == Got(s, it + |s|, k)
  {
  }

  lemma DebugBack(I: Input, m: Metadata, it: nat, k: nat, s: Bytes)
    requires |m| < LIMIT && s == (if I.mode.Combined? then MetaBytes(m) else []) && At(I.bytes, it, s)
    requires Next(I, k, [m])
    ensures Debug(I, it, k) == Got(if I.mode.Stripped? then [] else m, it + |s|, Past(I, k, [m]))
  {
    match I.mode
    case Combined => MetaBlockBack(I, m, it, k);
    case Separate => assert I.data[k] == I.data[k..k + 1][0];
    case Stripped =>
  }

  lemma NothingPast(I: Input, k: nat)
    ensures Past(I, k, []) == k
  {
  }

  lemma TypeByteReal(c: Const)
    ensures TypeByte(c) != BOOL_TYPE && TypeByte(c) != NULL_TYPE
  {
  }

  lemma {:induction false} PoolBack(I: Input, pool: seq<Const>, it: nat, k: nat)
    requires (forall c | c in pool :: ConstEncodable(c)) && At(I.bytes, it, PoolBytes(pool, I.mode.Combined?))
    requires Next(I, k, PoolBlocks(pool))
    ensures ReadPool(I, it + PoolSize(pool, I.mode.Combined?), it, k)
         == Got(KeptPool(I, pool), it + PoolSize(pool, I.mode.Combined?), Past(I, k, PoolBlocks(pool)))
    decreases pool
  {
    hide At, Next, ConstBytes, ConstSize, ConstEncodable, ReadConst, BareConst, TypeByte, ConstBlocks, Past, Byte;
    if pool == [] {
      NothingPast(I, k);
    } else {
      var combined := I.mode.Combined?;
      var c, rest := pool[0], pool[1..];
      var stop := it + PoolSize(pool, combined);
      AtSplit(I.bytes, it, ConstBytes(c, combined), PoolBytes(rest, combined));
      NextSplit(I, k, ConstBlocks(c), PoolBlocks(rest));
      ConstBack(I, c, it, k);
      ConstSizeExact(c, combined);
      PoolBack(I, rest, it + ConstSize(c, combined), Past(I, k, ConstBlocks(c)));
      TypeByteReal(c);
      assert [c] + rest == pool;
    }
  }

  lemma {:induction false} ConstBack(I: Input, c: Const, it: nat, k: nat)
    requires ConstEncodable(c) && At(I.bytes, it, ConstBytes(c, I.mode.Combined?)) && Next(I, k, ConstBlocks(c))
    ensures Byte(I, it, k) == Got(TypeByte(c), it + 1, k)
    ensures ReadConst(I, TypeByte(c), it + 1, k)
         == Got(KeptConst(I, c), it + |ConstBytes(c, I.mode.Combined?)|, Past(I, k, ConstBlocks(c)))
    ensures |ConstBytes(c, I.mode.Combined?)| > 0
    decreases c, 1
  {
    hide At, Next, Long, FuncBytes, ReadFunc, TypeBytes, StringBytes, Value, Raw, Byte, Name, Text, UserType, FieldsBytes;
    var combined := I.mode.Combined?;
    assert ConstBytes(c, combined) == [TypeByte(c)] + ConstBytes(c, combined)[1..];
    AtSplit(I.bytes, it, [TypeByte(c)], ConstBytes(c, combined)[1..]);
    ByteBack(I, TypeByte(c), it, k);
    match c
    case IntConst(i) => LongBack(I, ToUnsigned(i), it + 1, k);
    case DecConst(bits) => LongBack(I, bits, it + 1, k);
    case ModuleConst(name) => NameBack(I, name, it + 1, k);
    case TypeConst(name, fields) => UserTypeBack(I, name, fields, it + 1, k);
    case FuncConst(_, _, _, _, _, _) => FuncBack(I, c, it + 1, k);
    case TextConst(text) => TextBack(I, text, it + 1, k);
    case StringConst(text) => TextBack(I, text, it + 1, k);
  }

  lemma ByteBack(I: Input, b: u8, it: nat, k: nat)
    requires At(I.bytes, it, [b])
    ensures Byte(I, it, k) == Got(b, it + 1, k)
  {
    assert I.bytes[it] == I.bytes[it..it + 1][0];
  }

  lemma NoName()
    ensures NameBytes([]) == [0]
  {
  }

  lemma {:induction false} FuncBack(I: Input, c: Const, it: nat, k: nat)
    requires c.FuncConst? && ConstEncodable(c)
    requires At(I.bytes, it, FuncBytes(c, I.mode.Combined?)) && Next(I, k, ConstBlocks(c))
    ensures ReadFunc(I, it, k) == Got(KeptConst(I, c), it + |FuncBytes(c, I.mode.Combined?)|, Past(I, k, ConstBlocks(c)))
    decreases c, 0
  {
    hide At, Next, ChunkBytes, ChunksBytes, ReadChunk, ReadChunks, Blocks, ChunksBlocks, Encodable, Bare, BareChunks, Name,
      Raw, NameBytes, Low, Flag;
    var combined := I.mode.Combined?;
    var name := if c.fname.Some? then c.fname.value else [];
    var chunk, defaults := ChunkBytes(c.chunk, combined), ChunksBytes(c.defaults, combined);
    FuncParts(I, c, it, name);
    NameBack(I, name, it, k);
    RawBack(I, [c.arityMin, c.arityMax, Flag(c.variadic)], it + 1 + |name|, k);
    NextSplit(I, k, Blocks(c.chunk), ChunksBlocks(c.defaults));
    ChunkBack(I, c.chunk, it + 4 + |name|, k);
    ChunksBack(I, c.defaults, it + 4 + |name| + |chunk|, Past(I, k, Blocks(c.chunk)));
    FlagBack(c.variadic);
  }

  lemma FlagBack(b: bool)
    ensures Flag(b) != 0 <==> b
  {
  }

  lemma FuncParts(I: Input, c: Const, it: nat, name: Bytes)
    requires c.FuncConst? && name == (if c.fname.Some? then c.fname.value else [])
    requires At(I.bytes, it, FuncBytes(c, I.mode.Combined?))
    ensures var combined, i := I.mode.Combined?, it + 1 + |name|;
            && At(I.bytes, it, NameBytes(name)) && At(I.bytes, i, [c.arityMin, c.arityMax, Flag(c.variadic)])
            && At(I.bytes, i + 3, ChunkBytes(c.chunk, combined))
            && At(I.bytes, i + 3 + |ChunkBytes(c.chunk, combined)|, ChunksBytes(c.defaults, combined))
            && |FuncBytes(c, combined)| == 4 + |name| + |ChunkBytes(c.chunk, combined)| + |ChunksBytes(c.defaults, combined)|
  {
    hide At, ChunkBytes, ChunksBytes, NameBytes;
    var combined := I.mode.Combined?;
    var arity := [c.arityMin, c.arityMax, Flag(c.variadic)];
    var chunk, defaults := ChunkBytes(c.chunk, combined), ChunksBytes(c.defaults, combined);
    NoName();
    NameSize(name);
    AtSplit(I.bytes, it, NameBytes(name) + arity + chunk, defaults);
    AtSplit(I.bytes, it, NameBytes(name) + arity, chunk);
    AtSplit(I.bytes, it, NameBytes(name), arity);
  }

  lemma {:induction false} ChunksBack(I: Input, cs: seq<Chunk>, it: nat, k: nat)
    requires (forall c | c in cs :: Encodable(c)) && At(I.bytes, it, ChunksBytes(cs, I.mode.Combined?))
    requires Next(I, k, ChunksBlocks(cs))
    ensures ReadChunks(I, |cs|, it, k)
         == Got(KeptChunks(I, cs), it + |ChunksBytes(cs, I.mode.Combined?)|, Past(I, k, ChunksBlocks(cs)))
    decreases cs
  {
    hide At, Next, ChunkBytes, ReadChunk, Blocks, Encodable, Bare;
    if cs != [] {
      var combined := I.mode.Combined?;
      AtSplit(I.bytes, it, ChunkBytes(cs[0], combined), ChunksBytes(cs[1..], combined));
      NextSplit(I, k, Blocks(cs[0]), ChunksBlocks(cs[1..]));
      ChunkBack(I, cs[0], it, k);
      ChunksBack(I, cs[1..], it + |ChunkBytes(cs[0], combined)|, Past(I, k, Blocks(cs[0])));
      assert [cs[0]] + cs[1..] == cs;
    }
  }
}
