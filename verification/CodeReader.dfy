/** The reading half in place: a cursor over the bytes of the cache file, moved by
    every reader, and the next unused block of the debug file. The source ends
    the process where these methods give None. */
module CodeReader {
  import opened Words
  import opened Syntax
  import opened Arithmetic
  import opened CacheFormat
  import opened CacheReading
  import opened CacheRoundTrip
  import opened CacheFile
  import opened CacheLayout
  import W = CacheWriter

  ghost predicate Reads<T(!new)>(r: Option<T>, spec: Read<T>, it: nat, k: nat) {
    match r
    case Some(v) => spec == Got(v, it, k)
    case None => spec.Failed?
  }

  lemma {:induction false} FromBytesBound(s: Bytes)
    ensures FromBytes(s) < Pow256(|s|)
  {
    if s != [] { FromBytesBound(s[..|s| - 1]); }
  }

  lemma {:induction false} Pow256Mono(a: nat, b: nat)
    requires a <= b
    ensures Pow256(a) <= Pow256(b)
    decreases b - a
  {
    if a < b { Pow256Mono(a + 1, b); }
  }

  /** readMemValue: the accumulator is a 64-bit word. */
  method ReadMemValue(mem: Bytes) returns (value: u64)
    requires |mem| <= 8
    ensures value == FromBytes(mem)
  {
    value := 0;
    for i := 0 to |mem|
      invariant value == FromBytes(mem[..i])
    {
      assert mem[..i + 1][..i] == mem[..i];
      FromBytesBound(mem[..i + 1]);
      Pow256Mono(i + 1, 8);
      LongLimit();
      var shifted: int := value * 0x100 + mem[i];
      value := shifted % TWO64;
    }
    assert mem[..|mem|] == mem;
  }

  class CodeReader {
    const cacheBytes: Bytes
    var debugInfoExists: bool
    var debugInfoCombined: bool
    var data: seq<Metadata>
    var dataIndex: nat
    var it: nat

    constructor (cached: Bytes)
      ensures cacheBytes == cached && it == 0 && dataIndex == 0 && data == [] && !debugInfoExists && !debugInfoCombined
    {
      cacheBytes := cached;
      debugInfoExists, debugInfoCombined, data, dataIndex, it := false, false, [], 0, 0;
    }

    ghost function Now(): Input
      reads `debugInfoExists, `debugInfoCombined, `data
    {
      Input(cacheBytes, if debugInfoCombined then Combined else if debugInfoExists then Separate else Stripped, data)
    }

    /* Bytes. */

    method ReadBytes(n: nat) returns (r: Option<Bytes>)
      modifies `it
      ensures Reads(r, Raw(Now(), n, old(it), dataIndex), it, dataIndex)
    {
      if it + n > |cacheBytes| { return None; }
      r := Some(cacheBytes[it..it + n]);
      it := it + n;
    }

    method ReadByte() returns (r: Option<u8>)
      modifies `it
      ensures Reads(r, Byte(Now(), old(it), dataIndex), it, dataIndex)
    {
      if it + 1 > |cacheBytes| { return None; }
      r := Some(cacheBytes[it]);
      it := it + 1;
    }

    method ReadU64() returns (r: Option<u64>)
      modifies `it
      ensures match r
              case Some(v) => Value(Now(), 8, old(it), dataIndex) == Got(v, it, dataIndex)
              case None => Value(Now(), 8, old(it), dataIndex).Failed?
    {
      if it + 8 > |cacheBytes| { return None; }
      var value := ReadMemValue(cacheBytes[it..it + 8]);
      it := it + 8;
      r := Some(value);
    }

    method ReadName() returns (r: Option<Bytes>)
      modifies `it
      ensures Reads(r, Name(Now(), old(it), dataIndex), it, dataIndex)
    {
      var nameLen := ReadByte();
      if nameLen.None? { return None; }
      r := ReadBytes(nameLen.value);
    }

    method ReconstructText() returns (r: Option<Bytes>)
      modifies `it
      ensures Reads(r, Text(Now(), old(it), dataIndex), it, dataIndex)
    {
      var length := ReadU64();
      if length.None? { return None; }
      r := ReadBytes(length.value);
    }

    /* Types. */

    method ReconstructType() returns (r: Option<Const>)
      modifies `it
      ensures Reads(r, UserType(Now(), old(it), dataIndex), it, dataIndex)
    {
      hide Name, Byte;
      var name := ReadName();
      if name.None? { return None; }
      var fieldCount := ReadByte();
      if fieldCount.None? { return None; }
      var fields: seq<Field> := [];
      ghost var I, start := Now(), it;
      PrefixStart(fields);
      for i := 0 to fieldCount.value
        invariant |fields| == i && Now() == I
        invariant FieldsLeft(I, fieldCount.value, start, dataIndex, fields, it)
      {
        var fieldName := ReadName();
        if fieldName.None? { return None; }
        var fixed := ReadByte();
        if fixed.None? { return None; }
        var pub := ReadByte();
        if pub.None? { return None; }
        var field := Field(fieldName.value, fixed.value != 0, pub.value != 0);
        PrefixStep(fields, field);
        fields := fields + [field];
      }
      PrefixStart(fields);
      r := Some(TypeConst(name.value, fields));
    }

    /* Debug information. */

    method ReadDebugRange() returns (r: Option<DebugRange>)
      modifies `it
      ensures match r
              case Some(range) =>
                it == old(it) + RANGE_SIZE <= |cacheBytes| && RangeAt(cacheBytes, old(it)) == range
              case None => old(it) + RANGE_SIZE > |cacheBytes|
    {
      hide RangeAt;
      ghost var I, at := Now(), it;
      var byteStart := ReadU64();
      if byteStart.None? { return None; }
      var byteEnd := ReadU64();
      if byteEnd.None? { return None; }
      var sourceStart := ReadU64();
      if sourceStart.None? { return None; }
      var sourceEnd := ReadU64();
      if sourceEnd.None? { return None; }
      var range := DebugRange(byteStart.value, byteEnd.value, sourceStart.value, sourceEnd.value);
      RangeRead(I, at, dataIndex, range);
      r := Some(range);
    }

    method ReadMetadataBlock() returns (r: Option<Metadata>)
      modifies `it
      ensures Reads(r, MetaBlock(Now(), old(it), dataIndex), it, dataIndex)
    {
      hide RangeAt;
      var size := ReadU64();
      if size.None? { return None; }
      var metadata: Metadata := [];
      ghost var I, start := Now(), it;
      PrefixStart(metadata);
      for i := 0 to size.value
        invariant |metadata| == i && Now() == I
        invariant RangesLeft(I, size.value, start, dataIndex, metadata, it)
      {
        var range := ReadDebugRange();
        if range.None? { return None; }
        PrefixStep(metadata, range.value);
        metadata := metadata + [range.value];
      }
      PrefixStart(metadata);
      r := Some(metadata);
    }

    /** The debug information of the chunk whose code and pool were just read. */
    method FindMetadata() returns (r: Option<Metadata>)
      modifies `it, `dataIndex
      ensures Reads(r, Debug(Now(), old(it), old(dataIndex)), it, dataIndex)
    {
      hide MetaBlock;
      if debugInfoCombined {
        r := ReadMetadataBlock();
      } else if debugInfoExists {
        if dataIndex >= |data| { return None; }
        r := Some(data[dataIndex]);
        dataIndex := dataIndex + 1;
      } else {
        r := Some([]);
      }
    }

    /* Chunks, pools and functions. */

    method ReconstructByteCode() returns (r: Option<Chunk>)
      modifies `it, `dataIndex
      ensures Reads(r, ReadChunk(Now(), old(it), old(dataIndex)), it, dataIndex)
      decreases Left(Now(), it), 1
    {
      hide ReadPool, Debug;
      var codeSize := ReadU64();
      if codeSize.None? { return None; }
      var poolSize := ReadU64();
      if poolSize.None? { return None; }
      var code := ReadBytes(codeSize.value);
      if code.None? { return None; }
      var pool := ReconstructPool(poolSize.value);
      if pool.None? { return None; }
      var metadata := FindMetadata();
      if metadata.None? { return None; }
      r := Some(Chunk(code.value, pool.value, metadata.value));
    }

    method ReconstructPool(poolByteSize: nat) returns (r: Option<seq<Const>>)
      modifies `it, `dataIndex
      ensures Reads(r, ReadPool(Now(), old(it) + poolByteSize, old(it), old(dataIndex)), it, dataIndex)
      decreases Left(Now(), it), 3
    {
      hide ReadConst;
      var pool: seq<Const> := [];
      var stop := it + poolByteSize;
      ghost var I, start, k := Now(), it, dataIndex;
      PrefixStart(pool);
      while it < stop
        invariant Now() == I && it >= start
        invariant PoolLeft(I, stop, start, k, pool, it, dataIndex)
        decreases Left(I, it)
      {
        var t := ReadByte();
        if t.None? { return None; }
        if t.value == BOOL_TYPE || t.value == NULL_TYPE {
          it := it + 1;
        } else {
          var c := ReconstructConst(t.value);
          if c.None? { return None; }
          PrefixStep(pool, c.value);
          pool := pool + [c.value];
        }
      }
      PrefixStart(pool);
      r := Some(pool);
    }

    method ReconstructConst(t: u8) returns (r: Option<Const>)
      modifies `it, `dataIndex
      ensures Reads(r, ReadConst(Now(), t, old(it), old(dataIndex)), it, dataIndex)
      decreases Left(Now(), it), 3
    {
      hide Name, UserType, ReadFunc, Text;
      if t == INT_TYPE || t == DEC_TYPE {
        var x := ReadU64();
        if x.None? { return None; }
        r := Some(if t == INT_TYPE then IntConst(FromUnsigned(x.value)) else DecConst(x.value));
      } else if t == MODULE_TYPE {
        var name := ReadName();
        if name.None? { return None; }
        r := Some(ModuleConst(name.value));
      } else if t == USER_TYPE {
        r := ReconstructType();
      } else if t == USER_FUNC_TYPE || t == LAMBDA_TYPE {
        r := ReconstructFunc();
      } else if t == TEXT_TYPE || t == STRING_TYPE {
        var text := ReconstructText();
        if text.None? { return None; }
        r := Some(if t == TEXT_TYPE then TextConst(text.value) else StringConst(text.value));
      } else {
        return None;
      }
    }

    method ReconstructFunc() returns (r: Option<Const>)
      modifies `it, `dataIndex
      ensures Reads(r, ReadFunc(Now(), old(it), old(dataIndex)), it, dataIndex)
      decreases Left(Now(), it), 2
    {
      hide Name, ReadChunk, Value, FromBytes, Low;
      var name := ReadName();
      if name.None? { return None; }
      var arity := ReadBytes(3);
      if arity.None? { return None; }
      var arityMin, arityMax, variadic := arity.value[0], arity.value[1], arity.value[2];
      var chunk := ReconstructByteCode();
      if chunk.None? { return None; }
      var defaultCount := Low((arityMax as int) - arityMin);
      var defaults: seq<Chunk> := [];
      ghost var I, start, k := Now(), it, dataIndex;
      PrefixStart(defaults);
      for i := 0 to defaultCount
        invariant |defaults| == i && Now() == I && it >= start
        invariant ChunksLeft(I, defaultCount, start, k, defaults, it, dataIndex)
      {
        var arg := ReconstructByteCode();
        if arg.None? { return None; }
        PrefixStep(defaults, arg.value);
        defaults := defaults + [arg.value];
      }
      PrefixStart(defaults);
      r := Some(FuncConst(if name.value == [] then None else Some(name.value), arityMin, arityMax, variadic != 0,
                          chunk.value, defaults));
    }
  }

  /* Whole files (src/options.cpp). */

  method ReadLineMarkers(reader: CodeReader) returns (r: Option<seq<u64>>)
    modifies reader`it
    ensures match r
            case Some(v) => Markers(reader.Now(), old(reader.it)) == Got(v, reader.it, 0)
            case None => Markers(reader.Now(), old(reader.it)).Failed?
  {
    hide Longs, FromBytes;
    var numMarkers := reader.ReadU64();
    if numMarkers.None? { return None; }
    var markers: seq<u64> := [];
    ghost var I, start := reader.Now(), reader.it;
    PrefixStart(markers);
    LongsNext(I, numMarkers.value, start);
    for i := 0 to numMarkers.value
      invariant |markers| == i && reader.Now() == I
      invariant Longs(I, numMarkers.value, start) == match Longs(I, numMarkers.value - i, reader.it)
                  case Got(rest, j, _) => Got(markers + rest, j, 0)
                  case Failed(e) => Failed(e)
    {
      LongsNext(I, numMarkers.value - i, reader.it);
      var marker := reader.ReadU64();
      if marker.None? { return None; }
      PrefixStep(markers, marker.value);
      markers := markers + [marker.value];
    }
    LongsNext(I, 0, reader.it);
    PrefixStart(markers);
    r := Some(markers);
  }

  lemma LongsNext(I: Input, n: nat, it: nat)
    ensures Longs(I, n, it) ==
              if n == 0 then Got([], it, 0)
              else
                match Value(I, 8, it, 0)
                case Failed(e) => Failed(e)
                case Got(x, i, _) =>
                  match Longs(I, n - 1, i)
                  case Failed(e) => Failed(e)
                  case Got(rest, j, _) => Got([x % TWO64] + rest, j, 0)
  {
  }

  /** All blocks of the debug file. */
  method ReadMetadata(reader: CodeReader) returns (r: Option<seq<Metadata>>)
    requires reader.dataIndex == 0
    modifies reader`it
    ensures match r
            case Some(v) => MetaBlocks(reader.Now(), old(reader.it)) == Got(v, reader.it, 0)
            case None => MetaBlocks(reader.Now(), old(reader.it)).Failed?
  {
    hide MetaBlock;
    var blocks: seq<Metadata> := [];
    ghost var I, start := reader.Now(), reader.it;
    PrefixStart(blocks);
    while reader.it < |reader.cacheBytes|
      invariant reader.Now() == I
      invariant MetaBlocks(I, start) == match MetaBlocks(I, reader.it)
                  case Got(rest, j, _) => Got(blocks + rest, j, 0)
                  case Failed(e) => Failed(e)
      decreases Left(I, reader.it)
    {
      var block := reader.ReadMetadataBlock();
      if block.None? { return None; }
      PrefixStep(blocks, block.value);
      blocks := blocks + [block.value];
    }
    PrefixStart(blocks);
    r := Some(blocks);
  }

  /** readCache: an empty list of blocks stands for combined debug information. */
  method ReadCache(reader: CodeReader, stripped: bool, metadata: seq<Metadata>) returns (r: Option<Chunk>)
    requires reader.dataIndex == 0
    modifies reader
    ensures var I := Input(reader.cacheBytes, if stripped then Stripped else if metadata == [] then Combined else Separate,
                           if stripped then old(reader.data) else metadata);
            Reads(r, ReadChunk(I, old(reader.it), 0), reader.it, reader.dataIndex)
  {
    reader.debugInfoExists := !stripped;
    reader.debugInfoCombined := !stripped && metadata == [];
    if !stripped { reader.data := metadata; }
    r := reader.ReconstructByteCode();
  }

  /** What is laid out as a cache file of `f` is restored to `f`. */
  method RestoreCache(cache: Bytes, debug: Bytes) returns (r: Option<CacheFile>)
    ensures match r
            case Some(f) => ReadFile(cache, debug).Got? && ReadFile(cache, debug).value == f
            case None => ReadFile(cache, debug).Failed?
    ensures forall f | FileEncodable(f) && FileAt(cache, f) && DebugAt(debug, f) :: r == Some(KeptFile(f))
  {
    r := ReadCacheFile(cache, debug);
    hide ReadFile, CacheBytes, DebugBytes, FileEncodable, FileAt, DebugAt, KeptFile;
    forall f | FileEncodable(f) && FileAt(cache, f) && DebugAt(debug, f) ensures r == Some(KeptFile(f)) {
      FileLayout(cache, f);
      DebugLayout(debug, f);
      FileBack(f);
    }
  }

  method ReadCacheFile(cache: Bytes, debug: Bytes) returns (r: Option<CacheFile>)
    ensures match r
            case Some(f) => ReadFile(cache, debug).Got? && ReadFile(cache, debug).value == f
            case None => ReadFile(cache, debug).Failed?
  {
    hide Name, ReadChunk, Markers, MetaBlocks;
    var reader := new CodeReader(cache);
    var magic := reader.ReadBytes(6);
    if magic.None? || magic.value != MAGIC { return None; }
    var version := reader.ReadBytes(3);
    if version.None? || version.value[0] != VERSION_MAJOR { return None; }
    var state := reader.ReadByte();
    if state.None? { return None; }
    var mode := ModeOf(state.value);
    var fileName := reader.ReadName();
    if fileName.None? { return None; }
    var markers, blocks: seq<Metadata> := Some([]), [];
    if mode.Separate? {
      var debugReader := new CodeReader(debug);
      debugReader.debugInfoCombined := true;
      markers := ReadLineMarkers(debugReader);
      if markers.None? { return None; }
      var read := ReadMetadata(debugReader);
      if read.None? { return None; }
      blocks := read.value;
    } else if mode.Combined? {
      SameMarkers(Input(cache, Stripped, []), Input(cache, Combined, []), reader.it);
      markers := ReadLineMarkers(reader);
      if markers.None? { return None; }
    }
    var script := ReadCache(reader, mode.Stripped?, blocks);
    if script.None? { return None; }
    r := Some(CacheFile(mode, fileName.value, markers.value, script.value));
  }

  /** Line markers do not depend on the debug mode. */
  lemma SameMarkers(I: Input, J: Input, it: nat)
    requires I.bytes == J.bytes
    ensures Markers(I, it) == Markers(J, it)
  {
    if it + 8 <= |I.bytes| { SameLongs(I, J, FromBytes(I.bytes[it..it + 8]), it + 8); }
  }

  lemma {:induction false} SameLongs(I: Input, J: Input, n: nat, it: nat)
    requires I.bytes == J.bytes
    ensures Longs(I, n, it) == Longs(J, n, it)
    decreases n
  {
    if n > 0 { SameLongs(I, J, n - 1, it + 8); }
  }

  /** What was written is restored. */
  method SaveAndRestore(f: CacheFile) returns (r: Option<CacheFile>)
    requires FileEncodable(f)
    ensures r == Some(KeptFile(f))
  {
    hide ReadFile, CacheBytes, DebugBytes, FileEncodable;
    var cache, debug := W.WriteCache(f);
    FileBack(f);
    r := RestoreCache(cache, debug);
  }

  /* The inspector's way over functions. */

  class BinaryInspector {
    const cacheBytes: Bytes
    const combined: bool
    var it: nat

    constructor (cached: Bytes, combined: bool)
      ensures cacheBytes == cached && this.combined == combined && it == 0
    {
      cacheBytes := cached;
      this.combined := combined;
      it := 0;
    }

    ghost function Now(): Input {
      Input(cacheBytes, Stripped, [])
    }

    method ReadU64() returns (r: Option<u64>)
      modifies `it
      ensures match r
              case Some(v) => Value(Now(), 8, old(it), 0) == Got(v, it, 0)
              case None => Value(Now(), 8, old(it), 0).Failed?
    {
      if it + 8 > |cacheBytes| { return None; }
      var value := ReadMemValue(cacheBytes[it..it + 8]);
      it := it + 8;
      r := Some(value);
    }

    method SkipByteCode() returns (ok: bool)
      modifies `it
      ensures if ok then SkipChunk(Now(), old(it), combined) == Got((), it, 0)
              else SkipChunk(Now(), old(it), combined).Failed?
    {
      var codeSize := ReadU64();
      if codeSize.None? { return false; }
      var poolSize := ReadU64();
      if poolSize.None? { return false; }
      it := it + codeSize.value + poolSize.value;
      if it > |cacheBytes| { return false; }
      if combined {
        var metadataBlockCount := ReadU64();
        if metadataBlockCount.None? { return false; }
        it := it + metadataBlockCount.value * RANGE_SIZE;
        if it > |cacheBytes| { return false; }
      }
      ok := true;
    }

    /** The name of a function, and skipFuncData. */
    method SkipFunction() returns (ok: bool)
      modifies `it
      ensures if ok then SkipFunc(Now(), old(it), combined) == Got((), it, 0)
              else SkipFunc(Now(), old(it), combined).Failed?
    {
      hide SkipChunk;
      if it + 1 > |cacheBytes| { return false; }
      var nameLen := cacheBytes[it];
      it := it + 1;
      if it + nameLen > |cacheBytes| { return false; }
      it := it + nameLen;
      if it + 3 > |cacheBytes| { return false; }
      var arityMin, arityMax := cacheBytes[it], cacheBytes[it + 1];
      it := it + 3;
      ok := SkipByteCode();
      if !ok { return; }
      var defaultArgs := Low((arityMax as int) - arityMin);
      ghost var start := it;
      for i := 0 to defaultArgs
        invariant SkipChunks(Now(), defaultArgs, start, combined) == SkipChunks(Now(), defaultArgs - i, it, combined)
      {
        ok := SkipByteCode();
        if !ok { return; }
      }
      ok := true;
    }
  }

  lemma PrefixStart<T>(xs: seq<T>)
    ensures xs + [] == xs && forall rest: seq<T> {:trigger [] + rest} :: [] + rest == rest
  {
  }

  lemma PrefixStep<T>(xs: seq<T>, x: T)
    ensures forall rest: seq<T> {:trigger [x] + rest} :: xs + ([x] + rest) == (xs + [x]) + rest
  {
  }

  /* What the loops have read, and what is left to read. */

  ghost predicate FieldsLeft(I: Input, n: nat, start: nat, k: nat, fields: seq<Field>, it: nat) {
    |fields| <= n &&
    Fields(I, n, start, k) == match Fields(I, n - |fields|, it, k)
      case Got(rest, i, _) => Got(fields + rest, i, k)
      case Failed(e) => Failed(e)
  }

  ghost predicate RangesLeft(I: Input, n: nat, start: nat, k: nat, m: Metadata, it: nat) {
    |m| <= n &&
    Ranges(I, n, start, k) == match Ranges(I, n - |m|, it, k)
      case Got(rest, i, _) => Got(m + rest, i, k)
      case Failed(e) => Failed(e)
  }

  ghost predicate PoolLeft(I: Input, stop: nat, start: nat, k: nat, pool: seq<Const>, it: nat, k': nat) {
    ReadPool(I, stop, start, k) == match ReadPool(I, stop, it, k')
      case Got(rest, i, j) => Got(pool + rest, i, j)
      case Failed(e) => Failed(e)
  }

  ghost predicate ChunksLeft(I: Input, n: nat, start: nat, k: nat, cs: seq<Chunk>, it: nat, k': nat) {
    |cs| <= n &&
    ReadChunks(I, n, start, k) == match ReadChunks(I, n - |cs|, it, k')
      case Got(rest, i, j) => Got(cs + rest, i, j)
      case Failed(e) => Failed(e)
  }

  lemma RangeRead(I: Input, it: nat, k: nat, r: DebugRange)
    requires it + RANGE_SIZE <= |I.bytes|
    requires Value(I, 8, it, k) == Got(r.byteStart, it + 8, k)
    requires Value(I, 8, it + 8, k) == Got(r.byteEnd, it + 16, k)
    requires Value(I, 8, it + 16, k) == Got(r.sourceStart, it + 24, k)
    requires Value(I, 8, it + 24, k) == Got(r.sourceEnd, it + 32, k)
    ensures RangeAt(I.bytes, it) == r
  {
  }
}
