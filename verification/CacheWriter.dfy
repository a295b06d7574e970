/** The writing half of the cache in place: values are encoded into a byte buffer
    and streams are appended to, object by object. */
module CacheWriter {
  import opened Words
  import opened Arithmetic
  import opened Syntax
  import opened CacheFormat
  import opened CacheReading
  import opened CacheRoundTrip
  import opened CacheFile
  import opened CacheLayout

  /* One value (include/bytes.h). */

  method EncodeMemValue(mem: array<u8>, value: u64)
    modifies mem
    ensures mem[..] == BigEndian(mem.Length, value)
  {
    var size := mem.Length;
    for i := 0 to size
      invariant forall j | 0 <= j < i :: mem[j] == BigEndian(size, value)[j]
    {
      BigEndianAt(size, value, i);
      mem[i] := Low(value / Pow256(size - 1 - i));
    }
  }

  class Stream {
    var bytes: Bytes

    constructor ()
      ensures bytes == []
    {
      bytes := [];
    }

    method Put(b: u8)
      modifies this
      ensures bytes == old(bytes) + [b]
    {
      bytes := bytes + [b];
    }

    method Write(s: Bytes)
      modifies this
      ensures bytes == old(bytes) + s
    {
      bytes := bytes + s;
    }

    method EncodeValue(x: u64)
      modifies this
      ensures bytes == old(bytes) + Long(x)
    {
      var buffer := new u8[8];
      EncodeMemValue(buffer, x);
      bytes := bytes + buffer[..];
    }
  }

  /* Sizes, counted in loops (countPool, byteSize). */

  method CountFields(fields: seq<Field>) returns (size: nat)
    ensures size == FieldsSize(fields)
  {
    size := 0;
    for i := 0 to |fields|
      invariant size + FieldsSize(fields[i..]) == FieldsSize(fields)
    {
      assert fields[i..][1..] == fields[i + 1..];
      size := size + 1 + |fields[i].name|;
      size := size + 2;
    }
  }

  method CountPool(pool: seq<Const>, combined: bool) returns (count: nat)
    ensures count == PoolSize(pool, combined)
    decreases pool
  {
    count := 0;
    for i := 0 to |pool|
      invariant count + PoolSize(pool[i..], combined) == PoolSize(pool, combined)
    {
      assert pool[i..][0] == pool[i] && pool[i..][1..] == pool[i + 1..];
      var size := ByteSize(pool[i], combined);
      count := count + size;
    }
  }

  method ChunkDataSize(c: Chunk, combined: bool) returns (size: nat)
    ensures size == 16 + |c.code| + PoolSize(c.pool, combined)
    decreases c, 0
  {
    var count := CountPool(c.pool, combined);
    size := 2 * 8 + |c.code| + count;
  }

  method ByteSize(k: Const, combined: bool) returns (size: nat)
    ensures size == ConstSize(k, combined)
    decreases k, 1
  {
    match k
    case IntConst(_) => size := 1 + 8;
    case DecConst(_) => size := 1 + 8;
    case ModuleConst(name) => size := 2 + |name|;
    case TypeConst(name, fields) =>
      size := CountFields(fields);
      size := 1 + (1 + |name|) + 1 + size;
    case FuncConst(_, _, _, _, _, _) => size := FuncSize(k, combined);
    case TextConst(text) => size := 1 + 8 + |text|;
    case StringConst(text) => size := 1 + 8 + |text|;
  }

  /** Data of the body and the defaults first, then their debug information. */
  method FuncSize(k: Const, combined: bool) returns (size: nat)
    requires k.FuncConst?
    ensures size == ConstSize(k, combined)
    decreases k, 0
  {
    size := if k.fname.Some? then |k.fname.value| else 0;
    size := size + 5;
    var data := ChunkDataSize(k.chunk, combined);
    size := size + data;
    var ds := k.defaults;
    ghost var meta := if combined then MetaSize(k.chunk.meta) else 0;
    ghost var head := size;
    for i := 0 to |ds|
      invariant size + ChunksSize(ds[i..], combined) - (if combined then MetasSize(ds[i..]) else 0)
             == head + ChunksSize(ds, combined) - (if combined then MetasSize(ds) else 0)
    {
      assert ds[i..][0] == ds[i] && ds[i..][1..] == ds[i + 1..];
      data := ChunkDataSize(ds[i], combined);
      size := size + data;
    }
    assert ds[|ds|..] == [];
    if combined {
      size := size + MetaSize(k.chunk.meta);
      head := size;
      for i := 0 to |ds|
        invariant size + MetasSize(ds[i..]) == head + MetasSize(ds)
      {
        assert ds[i..][0] == ds[i] && ds[i..][1..] == ds[i + 1..];
        size := size + MetaSize(ds[i].meta);
      }
    }
  }

  function MetasSize(cs: seq<Chunk>): nat {
    if cs == [] then 0 else MetaSize(cs[0].meta) + MetasSize(cs[1..])
  }

  /* Writing. */

  method EmitName(os: Stream, name: Bytes)
    modifies os
    ensures os.bytes == old(os.bytes) + NameBytes(name)
  {
    os.Put(Low(|name|));
    os.Write(name);
  }

  method EmitType(os: Stream, name: Bytes, fields: seq<Field>)
    modifies os
    ensures os.bytes == old(os.bytes) + TypeBytes(name, fields)
  {
    hide NameBytes;
    EmitName(os, name);
    os.Put(Low(|fields|));
    ghost var head := os.bytes;
    for i := 0 to |fields|
      invariant os.bytes + FieldsBytes(fields[i..]) == head + FieldsBytes(fields)
    {
      ghost var before := os.bytes;
      assert fields[i..][0] == fields[i] && fields[i..][1..] == fields[i + 1..];
      EmitName(os, fields[i].name);
      os.Put(Flag(fields[i].fixed));
      os.Put(Flag(fields[i].pub));
      var flags := [Flag(fields[i].fixed), Flag(fields[i].pub)];
      assert os.bytes == before + (NameBytes(fields[i].name) + flags);
      Reassociate(before, NameBytes(fields[i].name) + flags, FieldsBytes(fields[i + 1..]));
    }
    assert fields[|fields|..] == [] && os.bytes + [] == os.bytes;
    Reassociate(old(os.bytes), NameBytes(name) + [Low(|fields|)], FieldsBytes(fields));
    assert head == old(os.bytes) + (NameBytes(name) + [Low(|fields|)]);
  }

  lemma Reassociate(a: Bytes, b: Bytes, c: Bytes)
    ensures a + b + c == a + (b + c)
  {
  }

  method EmitRanges(os: Stream, meta: Metadata)
    requires |meta| < LIMIT
    modifies os
    ensures os.bytes == old(os.bytes) + MetaBytes(meta)
  {
    hide Long;
    os.EncodeValue(|meta|);
    ghost var head := os.bytes;
    for i := 0 to |meta|
      invariant os.bytes + RangesBytes(meta[i..]) == head + RangesBytes(meta)
    {
      ghost var before := os.bytes;
      assert meta[i..][0] == meta[i] && meta[i..][1..] == meta[i + 1..];
      var range := meta[i];
      os.EncodeValue(range.byteStart);
      os.EncodeValue(range.byteEnd);
      os.EncodeValue(range.sourceStart);
      os.EncodeValue(range.sourceEnd);
      assert os.bytes == before + RangeBytes(range);
      Reassociate(before, RangeBytes(range), RangesBytes(meta[i + 1..]));
    }
    assert meta[|meta|..] == [] && os.bytes + [] == os.bytes;
    Reassociate(old(os.bytes), Long(|meta|), RangesBytes(meta));
  }

  method EncodeData(os: Stream, c: Chunk, mode: Mode)
    requires Encodable(c)
    modifies os
    ensures os.bytes == old(os.bytes) + DataBytes(c, mode.Combined?)
    decreases c, 1
  {
    hide ConstBytes, Long;
    var codeSize := |c.code|;
    os.EncodeValue(codeSize);
    var poolSize := CountPool(c.pool, mode.Combined?);
    PoolSizeLess(c.pool);
    os.EncodeValue(poolSize);
    if codeSize > TWO63 - 1 { return; }
    os.Write(c.code);
    ghost var head := os.bytes;
    for i := 0 to |c.pool|
      invariant os.bytes + PoolBytes(c.pool[i..], mode.Combined?) == head + PoolBytes(c.pool, mode.Combined?)
    {
      ghost var before := os.bytes;
      assert c.pool[i..][0] == c.pool[i] && c.pool[i..][1..] == c.pool[i + 1..];
      assert c.pool[i] in c.pool;
      Emit(os, c.pool[i], mode);
      Reassociate(before, ConstBytes(c.pool[i], mode.Combined?), PoolBytes(c.pool[i + 1..], mode.Combined?));
    }
    assert c.pool[|c.pool|..] == [] && os.bytes + [] == os.bytes;
    var sizes := Long(codeSize) + Long(poolSize) + c.code;
    assert head == old(os.bytes) + sizes;
    Reassociate(old(os.bytes), sizes, PoolBytes(c.pool, mode.Combined?));
  }

  method Emit(os: Stream, k: Const, mode: Mode)
    requires ConstEncodable(k)
    modifies os
    ensures os.bytes == old(os.bytes) + ConstBytes(k, mode.Combined?)
    decreases k, 1
  {
    hide Long, NameBytes, TypeBytes, FuncBytes;
    os.Put(TypeByte(k));
    ghost var before := os.bytes;
    match k {
      case IntConst(i) => os.EncodeValue(ToUnsigned(i));
      case DecConst(bits) => os.EncodeValue(bits);
      case ModuleConst(name) => EmitName(os, name);
      case TypeConst(name, fields) => EmitType(os, name, fields);
      case FuncConst(_, _, _, _, _, _) => EmitFunc(os, k, mode);
      case TextConst(text) => EmitString(os, text);
      case StringConst(text) => EmitString(os, text);
    }
    assert os.bytes == old(os.bytes) + ([TypeByte(k)] + os.bytes[|before|..]);
  }

  method EmitString(os: Stream, text: Bytes)
    requires |text| < LIMIT
    modifies os
    ensures os.bytes == old(os.bytes) + StringBytes(text)
  {
    os.EncodeValue(|text|);
    os.Write(text);
  }

  method EmitFunc(os: Stream, k: Const, mode: Mode)
    requires k.FuncConst? && ConstEncodable(k)
    modifies os
    ensures os.bytes == old(os.bytes) + FuncBytes(k, mode.Combined?)
    decreases k, 0
  {
    hide ChunkBytes, NameBytes, Encodable;
    if k.fname.Some? { EmitName(os, k.fname.value); } else { os.Put(0); }
    os.Put(k.arityMin);
    os.Put(k.arityMax);
    os.Put(Flag(k.variadic));
    ghost var head := os.bytes;
    var name := if k.fname.Some? then NameBytes(k.fname.value) else [0];
    assert head == old(os.bytes) + (name + [k.arityMin, k.arityMax, Flag(k.variadic)]);
    EmitChunk(os, k.chunk, mode);
    ghost var body := os.bytes;
    var ds := k.defaults;
    for i := 0 to |ds|
      invariant os.bytes + ChunksBytes(ds[i..], mode.Combined?) == body + ChunksBytes(ds, mode.Combined?)
    {
      ghost var before := os.bytes;
      assert ds[i..][0] == ds[i] && ds[i..][1..] == ds[i + 1..];
      EmitChunk(os, ds[i], mode);
      Reassociate(before, ChunkBytes(ds[i], mode.Combined?), ChunksBytes(ds[i + 1..], mode.Combined?));
    }
    assert ds[|ds|..] == [];
    FuncTogether(old(os.bytes), name + [k.arityMin, k.arityMax, Flag(k.variadic)], ChunkBytes(k.chunk, mode.Combined?),
                 ChunksBytes(ds, mode.Combined?));
  }

  lemma FuncTogether(a: Bytes, b: Bytes, c: Bytes, d: Bytes)
    ensures a + b + c + d == a + (b + c + d) && forall s: Bytes {:trigger s + []} :: s + [] == s
  {
  }

  /** A chunk inside a function: combined debug information follows its data. */
  method EmitChunk(os: Stream, c: Chunk, mode: Mode)
    requires Encodable(c)
    modifies os
    ensures os.bytes == old(os.bytes) + ChunkBytes(c, mode.Combined?)
    decreases c, 2
  {
    hide DataBytes, MetaBytes;
    EncodeData(os, c, mode);
    if mode.Combined? { EncodeMetadata(os, c, mode); }
    ChunkTogether(old(os.bytes), DataBytes(c, mode.Combined?), if mode.Combined? then MetaBytes(c.meta) else []);
  }

  lemma ChunkTogether(a: Bytes, b: Bytes, c: Bytes)
    ensures a + b + c == a + (b + c) && (c == [] ==> a + b == a + (b + c))
  {
  }

  /* Debug information. With separate debug information all blocks of a chunk are
     stored back to back, those of its function constants first. */

  method EncodeMetadata(os: Stream, c: Chunk, mode: Mode)
    requires Encodable(c)
    modifies os
    ensures os.bytes == old(os.bytes) + if mode.Separate? then BlocksBytes(Blocks(c)) else MetaBytes(c.meta)
    decreases c, 1
  {
    hide MetaBytes, ConstBlocks;
    if mode.Separate? {
      ghost var head := os.bytes;
      for i := 0 to |c.pool|
        invariant os.bytes + BlocksBytes(PoolBlocks(c.pool[i..])) == head + BlocksBytes(PoolBlocks(c.pool))
      {
        ghost var before := os.bytes;
        assert c.pool[i..][0] == c.pool[i] && c.pool[i..][1..] == c.pool[i + 1..];
        assert c.pool[i] in c.pool;
        EmitMetadata(os, c.pool[i], mode);
        BlocksJoin(ConstBlocks(c.pool[i]), PoolBlocks(c.pool[i + 1..]));
        Reassociate(before, BlocksBytes(ConstBlocks(c.pool[i])), BlocksBytes(PoolBlocks(c.pool[i + 1..])));
      }
      assert c.pool[|c.pool|..] == [];
      BlocksJoin(PoolBlocks(c.pool), [c.meta]);
      OneBlock(c.meta);
      Reassociate(head, BlocksBytes(PoolBlocks(c.pool)), MetaBytes(c.meta));
      assert os.bytes + [] == os.bytes;
    }
    EmitRanges(os, c.meta);
  }

  /** Only function constants have blocks of their own. */
  method EmitMetadata(os: Stream, k: Const, mode: Mode)
    requires ConstEncodable(k) && mode.Separate?
    modifies os
    ensures os.bytes == old(os.bytes) + BlocksBytes(ConstBlocks(k))
    decreases k
  {
    hide Blocks, Encodable, MetaBytes;
    if !k.FuncConst? {
      assert os.bytes + [] == os.bytes;
      return;
    }
    EncodeMetadata(os, k.chunk, mode);
    ghost var head := os.bytes;
    var ds := k.defaults;
    for i := 0 to |ds|
      invariant os.bytes + BlocksBytes(ChunksBlocks(ds[i..])) == head + BlocksBytes(ChunksBlocks(ds))
    {
      ghost var before := os.bytes;
      assert ds[i..][0] == ds[i] && ds[i..][1..] == ds[i + 1..];
      EncodeMetadata(os, ds[i], mode);
      BlocksJoin(Blocks(ds[i]), ChunksBlocks(ds[i + 1..]));
      Reassociate(before, BlocksBytes(Blocks(ds[i])), BlocksBytes(ChunksBlocks(ds[i + 1..])));
    }
    assert ds[|ds|..] == [];
    assert os.bytes + [] == os.bytes;
    BlocksJoin(Blocks(k.chunk), ChunksBlocks(ds));
    Reassociate(old(os.bytes), BlocksBytes(Blocks(k.chunk)), BlocksBytes(ChunksBlocks(ds)));
  }

  /* Whole files. */

  method EncodeMarkers(os: Stream, markers: seq<u64>)
    requires |markers| < LIMIT
    modifies os
    ensures os.bytes == old(os.bytes) + MarkersBytes(markers)
  {
    hide Long;
    os.EncodeValue(|markers|);
    ghost var head := os.bytes;
    for i := 0 to |markers|
      invariant os.bytes + LongsBytes(markers[i..]) == head + LongsBytes(markers)
    {
      ghost var before := os.bytes;
      assert markers[i..][0] == markers[i] && markers[i..][1..] == markers[i + 1..];
      os.EncodeValue(markers[i]);
      Reassociate(before, Long(markers[i]), LongsBytes(markers[i + 1..]));
    }
    assert markers[|markers|..] == [] && os.bytes + [] == os.bytes;
    Reassociate(old(os.bytes), Long(|markers|), LongsBytes(markers));
  }

  /** optionCacheBytecode: the cache file, and the debug file if it is separate. */
  method WriteCache(f: CacheFile) returns (cache: Bytes, debug: Bytes)
    requires FileEncodable(f)
    ensures cache == CacheBytes(f) && debug == DebugBytes(f)
    ensures FileAt(cache, f) && DebugAt(debug, f)
  {
    hide FileAt, DebugAt, DataBytes, MetaBytes, MarkersBytes, BlocksBytes, Blocks, Encodable, NameBytes;
    var cacheFile := new Stream();
    var debugFile := new Stream();
    cacheFile.Write(MAGIC);
    cacheFile.Put(VERSION_MAJOR);
    cacheFile.Put(VERSION_MINOR);
    cacheFile.Put(VERSION_PATCH);
    cacheFile.Put(ModeByte(f.mode));
    EmitName(cacheFile, f.fileName);
    assert cacheFile.bytes == HeaderBytes(f);
    if f.mode.Combined? {
      EncodeMarkers(cacheFile, f.markers);
    } else if f.mode.Separate? {
      EncodeMarkers(debugFile, f.markers);
    }
    ghost var head := cacheFile.bytes;
    EncodeData(cacheFile, f.script, f.mode);
    if f.mode.Combined? {
      EncodeMetadata(cacheFile, f.script, f.mode);
    } else if f.mode.Separate? {
      EncodeMetadata(debugFile, f.script, f.mode);
    }
    cache, debug := cacheFile.bytes, debugFile.bytes;
    ChunkTogether(head, DataBytes(f.script, f.mode.Combined?), if f.mode.Combined? then MetaBytes(f.script.meta) else []);
    assert HeaderBytes(f) + [] == HeaderBytes(f);
    FileLayout(cache, f);
    DebugLayout(debug, f);
  }
}
