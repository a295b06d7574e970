/** Whole cache files: headers, line markers, the script's chunk and, when debug
    information is separate, the debug file whose blocks are drawn one by one. */
module CacheFile {
  import opened Words
  import opened Syntax
  import opened CacheFormat
  import opened CacheReading
  import opened CacheRoundTrip

  datatype CacheFile = CacheFile(mode: Mode, fileName: Bytes, markers: seq<u64>, script: Chunk)

  const MAGIC: Bytes := [99, 104, 111, 105, 99, 101]  // "choice"
  const VERSION_MAJOR: u8 := 0
  const VERSION_MINOR: u8 := 0
  const VERSION_PATCH: u8 := 1

  /* Writing. */

  function ModeByte(mode: Mode): u8 {
    match mode
    case Combined => 0
    case Separate => 1
    case Stripped => 2
  }

  function LongsBytes(xs: seq<u64>): Bytes {
    if xs == [] then [] else Long(xs[0]) + LongsBytes(xs[1..])
  }

  function MarkersBytes(markers: seq<u64>): Bytes {
    Long(|markers|) + LongsBytes(markers)
  }

  function HeaderBytes(f: CacheFile): Bytes {
    MAGIC + [VERSION_MAJOR, VERSION_MINOR, VERSION_PATCH] + [ModeByte(f.mode)] + NameBytes(f.fileName)
  }

  function CacheBytes(f: CacheFile): Bytes {
    HeaderBytes(f) + (if f.mode.Combined? then MarkersBytes(f.markers) else []) + ChunkBytes(f.script, f.mode.Combined?)
  }

  function BlocksBytes(blocks: seq<Metadata>): Bytes {
    if blocks == [] then [] else MetaBytes(blocks[0]) + BlocksBytes(blocks[1..])
  }

  /** The separate debug file. */
  function DebugBytes(f: CacheFile): Bytes {
    if f.mode.Separate? then MarkersBytes(f.markers) + BlocksBytes(Blocks(f.script)) else []
  }

  /* Reading. */

  /** Only the value of Separate and of Stripped is ever tested. */
  function ModeOf(b: u8): Mode {
    if b == 2 then Stripped else if b == 1 then Separate else Combined
  }

  function Longs(I: Input, n: nat, it: nat): (r: Read<seq<u64>>)
    ensures r.Got? ==> it <= r.it
  {
    if n == 0 then Got([], it, 0)
    else
      match Value(I, 8, it, 0)
      case Failed(e) => Failed(e)
      case Got(x, i, _) =>
        match Longs(I, n - 1, i)
        case Failed(e) => Failed(e)
        case Got(rest, i1, _) => Got([x % TWO64] + rest, i1, 0)
  }

  function Markers(I: Input, it: nat): (r: Read<seq<u64>>)
    ensures r.Got? ==> it <= r.it
  {
    match Value(I, 8, it, 0)
    case Failed(e) => Failed(e)
    case Got(n, i, _) => Longs(I, n, i)
  }

  function MetaBlocks(I: Input, it: nat): Read<seq<Metadata>>
    decreases Left(I, it)
  {
    if it >= |I.bytes| then Got([], it, 0)
    else
      match MetaBlock(I, it, 0)
      case Failed(e) => Failed(e)
      case Got(m, i, _) =>
        match MetaBlocks(I, i)
        case Failed(e) => Failed(e)
        case Got(rest, i1, _) => Got([m] + rest, i1, 0)
  }

  function ReadFile(bytes: Bytes, debug: Bytes): Read<CacheFile> {
    var I := Input(bytes, Stripped, []);
    match Raw(I, 6, 0, 0)
    case Failed(e) => Failed(e)
    case Got(magic, i, _) =>
      if magic != MAGIC then Failed(BadMagic)
      else
        match Raw(I, 3, i, 0)
        case Failed(e) => Failed(e)
        case Got(version, i1, _) =>
          if version[0] != VERSION_MAJOR then Failed(BadVersion)
          else
            match Byte(I, i1, 0)
            case Failed(e) => Failed(e)
            case Got(mode, i2, _) =>
              match Name(I, i2, 0)
              case Failed(e) => Failed(e)
              case Got(name, i3, _) => ReadBody(bytes, debug, ModeOf(mode), name, i3)
  }

  function ReadBody(bytes: Bytes, debug: Bytes, mode: Mode, name: Bytes, it: nat): Read<CacheFile> {
    match mode
    case Stripped => Finish(Input(bytes, Stripped, []), mode, name, [], it)
    case Combined =>
      (match Markers(Input(bytes, Combined, []), it)
       case Failed(e) => Failed(e)
       case Got(markers, i, _) => Finish(Input(bytes, Combined, []), mode, name, markers, i))
    case Separate =>
      var D := Input(debug, Combined, []);
      match Markers(D, 0)
      case Failed(e) => Failed(e)
      case Got(markers, i, _) =>
        match MetaBlocks(D, i)
        case Failed(e) => Failed(e)
        case Got(blocks, _, _) =>
          // The reader takes an empty list of blocks for combined information.
          Finish(Input(bytes, if blocks == [] then Combined else Separate, blocks), mode, name, markers, it)
  }

  function Finish(I: Input, mode: Mode, name: Bytes, markers: seq<u64>, it: nat): Read<CacheFile> {
    match ReadChunk(I, it, 0)
    case Failed(e) => Failed(e)
    case Got(script, i, k) => Got(CacheFile(mode, name, markers, script), i, k)
  }

  /* Round trip. */

  lemma {:induction false} LongsBack(I: Input, xs: seq<u64>, it: nat)
    requires At(I.bytes, it, LongsBytes(xs))
    ensures Longs(I, |xs|, it) == Got(xs, it + |LongsBytes(xs)|, 0)
    decreases xs
  {
    hide At, Value, Long;
    if xs != [] {
      AtSplit(I.bytes, it, Long(xs[0]), LongsBytes(xs[1..]));
      LongBack(I, xs[0], it, 0);
      LongsBack(I, xs[1..], it + 8);
      assert [xs[0]] + xs[1..] == xs;
    }
  }

  lemma MarkersBack(I: Input, markers: seq<u64>, it: nat)
    requires |markers| < LIMIT && At(I.bytes, it, MarkersBytes(markers))
    ensures Markers(I, it) == Got(markers, it + |MarkersBytes(markers)|, 0)
  {
    AtSplit(I.bytes, it, Long(|markers|), LongsBytes(markers));
    LongBack(I, |markers|, it, 0);
    LongsBack(I, markers, it + 8);
  }

  /** The debug file up to its end gives back its blocks in order. */
  lemma {:induction false} BlocksBack(I: Input, blocks: seq<Metadata>, it: nat)
    requires (forall m | m in blocks :: |m| < LIMIT) && it + |BlocksBytes(blocks)| == |I.bytes|
    requires At(I.bytes, it, BlocksBytes(blocks))
    ensures MetaBlocks(I, it) == Got(blocks, |I.bytes|, 0)
    decreases blocks
  {
    hide At, MetaBlock, MetaBytes;
    if blocks != [] {
      AtSplit(I.bytes, it, MetaBytes(blocks[0]), BlocksBytes(blocks[1..]));
      MetaParts(blocks[0]);
      MetaBlockBack(I, blocks[0], it, 0);
      BlocksBack(I, blocks[1..], it + |MetaBytes(blocks[0])|);
      assert [blocks[0]] + blocks[1..] == blocks;
    }
  }

  lemma {:induction false} BlocksFit(c: Chunk)
    requires Encodable(c)
    ensures forall m | m in Blocks(c) :: |m| < LIMIT
    decreases c
  {
    PoolBlocksFit(c.pool);
  }

  lemma {:induction false} PoolBlocksFit(pool: seq<Const>)
    requires forall k | k in pool :: ConstEncodable(k)
    ensures forall m | m in PoolBlocks(pool) :: |m| < LIMIT
    decreases pool
  {
    if pool != [] {
      assert ConstEncodable(pool[0]);
      if pool[0].FuncConst? {
        BlocksFit(pool[0].chunk);
        ChunksBlocksFit(pool[0].defaults);
      }
      PoolBlocksFit(pool[1..]);
    }
  }

  lemma {:induction false} ChunksBlocksFit(cs: seq<Chunk>)
    requires forall c | c in cs :: Encodable(c)
    ensures forall m | m in ChunksBlocks(cs) :: |m| < LIMIT
    decreases cs
  {
    if cs != [] {
      BlocksFit(cs[0]);
      ChunksBlocksFit(cs[1..]);
    }
  }

  predicate FileEncodable(f: CacheFile) {
    |f.fileName| <= 255 && |f.markers| < LIMIT && Encodable(f.script)
  }

  /** What a reader can know: without debug information neither line markers nor
      metadata. */
  function KeptFile(f: CacheFile): CacheFile {
    if f.mode.Stripped? then f.(markers := [], script := Bare(f.script)) else f
  }

  /** Reading a written file gives it back, to the last byte, and with separate
      debug information uses every block of the debug file exactly once. */
  lemma FileBack(f: CacheFile)
    requires FileEncodable(f)
    ensures ReadFile(CacheBytes(f), DebugBytes(f))
         == Got(KeptFile(f), |CacheBytes(f)|, if f.mode.Separate? then |Blocks(f.script)| else 0)
  {
    hide ChunkBytes, MarkersBytes, NameBytes, At, Name, ReadBody;
    var B := CacheBytes(f);
    var I := Input(B, Stripped, []);
    var markers := if f.mode.Combined? then MarkersBytes(f.markers) else [];
    var chunk := ChunkBytes(f.script, f.mode.Combined?);
    var version, mode := [VERSION_MAJOR, VERSION_MINOR, VERSION_PATCH], [ModeByte(f.mode)];
    Everything(B);
    AtSplit(B, 0, HeaderBytes(f) + markers, chunk);
    AtSplit(B, 0, HeaderBytes(f), markers);
    AtSplit(B, 0, MAGIC + version + mode, NameBytes(f.fileName));
    AtSplit(B, 0, MAGIC + version, mode);
    AtSplit(B, 0, MAGIC, version);
    RawBack(I, MAGIC, 0, 0);
    RawBack(I, version, 6, 0);
    ByteBack(I, ModeByte(f.mode), 9, 0);
    NameBack(I, f.fileName, 10, 0);
    NameSize(f.fileName);
    BodyBack(f, |HeaderBytes(f)|);
  }

  lemma Everything(B: Bytes)
    ensures At(B, 0, B)
  {
  }

  lemma BodyBack(f: CacheFile, it: nat)
    requires FileEncodable(f)
    requires At(CacheBytes(f), it, if f.mode.Combined? then MarkersBytes(f.markers) else [])
    requires At(CacheBytes(f), it + (if f.mode.Combined? then |MarkersBytes(f.markers)| else 0),
                ChunkBytes(f.script, f.mode.Combined?))
    requires it == |HeaderBytes(f)|
    ensures ReadBody(CacheBytes(f), DebugBytes(f), f.mode, f.fileName, it)
         == Got(KeptFile(f), |CacheBytes(f)|, if f.mode.Separate? then |Blocks(f.script)| else 0)
  {
    hide ChunkBytes, MarkersBytes, At, ReadChunk, HeaderBytes, Blocks, Encodable, Bare, BlocksBytes;
    var B := CacheBytes(f);
    match f.mode
    case Stripped => ChunkBack(Input(B, Stripped, []), f.script, it, 0);
    case Combined =>
      var I := Input(B, Combined, []);
      MarkersBack(I, f.markers, it);
      ChunkBack(I, f.script, it + |MarkersBytes(f.markers)|, 0);
    case Separate =>
      var D := Input(DebugBytes(f), Combined, []);
      var blocks := Blocks(f.script);
      Everything(D.bytes);
      AtSplit(D.bytes, 0, MarkersBytes(f.markers), BlocksBytes(blocks));
      MarkersBack(D, f.markers, 0);
      BlocksFit(f.script);
      BlocksBack(D, blocks, |MarkersBytes(f.markers)|);
      HasBlock(f.script);
      ChunkBack(Input(B, Separate, blocks), f.script, it, 0);
  }

  lemma HasBlock(c: Chunk)
    ensures Blocks(c) != [] && forall b: seq<Metadata> {:trigger b[0..|b|]} :: b[0..|b|] == b
  {
  }

  /* No two chunks share their bytes. */

  lemma SameBytesSameChunk(c: Chunk, d: Chunk)
    requires Encodable(c) && Encodable(d) && ChunkBytes(c, true) == ChunkBytes(d, true)
    ensures c == d
  {
    hide ChunkBytes, ReadChunk;
    var I := Input(ChunkBytes(c, true), Combined, []);
    ChunkBack(I, c, 0, 0);
    ChunkBack(I, d, 0, 0);
  }

  /* The inspector skips over functions without reading them (skipByteCode,
     skipFuncData). */

  function SkipChunk(I: Input, it: nat, combined: bool): Read<()> {
    match Value(I, 8, it, 0)
    case Failed(e) => Failed(e)
    case Got(codeSize, i, _) =>
      match Value(I, 8, i, 0)
      case Failed(e) => Failed(e)
      case Got(poolSize, i1, _) =>
        var i2 := i1 + codeSize + poolSize;
        if i2 > |I.bytes| then Failed(EndOfFile)
        else if !combined then Got((), i2, 0)
        else
          match Value(I, 8, i2, 0)
          case Failed(e) => Failed(e)
          case Got(n, i3, _) =>
            if i3 + n * RANGE_SIZE > |I.bytes| then Failed(EndOfFile) else Got((), i3 + n * RANGE_SIZE, 0)
  }

  function SkipChunks(I: Input, n: nat, it: nat, combined: bool): Read<()>
    decreases n
  {
    if n == 0 then Got((), it, 0)
    else
      match SkipChunk(I, it, combined)
      case Failed(e) => Failed(e)
      case Got(_, i, _) => SkipChunks(I, n - 1, i, combined)
  }

  function SkipFunc(I: Input, it: nat, combined: bool): Read<()> {
    match Name(I, it, 0)
    case Failed(e) => Failed(e)
    case Got(_, i, _) =>
      match Raw(I, 3, i, 0)
      case Failed(e) => Failed(e)
      case Got(arity, i1, _) =>
        match SkipChunk(I, i1, combined)
        case Failed(e) => Failed(e)
        case Got(_, i2, _) => SkipChunks(I, Low((arity[1] as int) - arity[0]), i2, combined)
  }

  lemma SkipsChunk(I: Input, c: Chunk, it: nat, combined: bool)
    requires Encodable(c) && At(I.bytes, it, ChunkBytes(c, combined))
    ensures SkipChunk(I, it, combined) == Got((), it + |ChunkBytes(c, combined)|, 0)
  {
    hide At, Long, PoolBytes, MetaBytes, PoolSize, Value;
    var meta := if combined then MetaBytes(c.meta) else [];
    var n, p := Long(|c.code|), Long(PoolSize(c.pool, combined));
    var pool := PoolBytes(c.pool, combined);
    AtSplit(I.bytes, it, n + p + c.code + pool, meta);
    AtSplit(I.bytes, it, n + p + c.code, pool);
    AtSplit(I.bytes, it, n + p, c.code);
    AtSplit(I.bytes, it, n, p);
    PoolSizeLess(c.pool);
    PoolSizeExact(c.pool, combined);
    LongBack(I, |c.code|, it, 0);
    LongBack(I, PoolSize(c.pool, combined), it + 8, 0);
    AtEnd(I.bytes, it, ChunkBytes(c, combined));
    AtEnd(I.bytes, it, n + p + c.code + pool);
    if combined {
      MetaParts(c.meta);
      AtSplit(I.bytes, it + 16 + |c.code| + |pool|, Long(|c.meta|), RangesBytes(c.meta));
      LongBack(I, |c.meta|, it + 16 + |c.code| + |pool|, 0);
      MetaParts(c.meta);
    }
  }

  lemma AtEnd(B: Bytes, it: nat, s: Bytes)
    requires At(B, it, s)
    ensures it + |s| <= |B|
  {
  }

  lemma MetaParts(m: Metadata)
    ensures MetaBytes(m) == Long(|m|) + RangesBytes(m) && |MetaBytes(m)| == 8 + |m| * RANGE_SIZE
  {
    RangesSizeExact(m);
  }

  lemma {:induction false} SkipsChunks(I: Input, cs: seq<Chunk>, it: nat, combined: bool)
    requires (forall c | c in cs :: Encodable(c)) && At(I.bytes, it, ChunksBytes(cs, combined))
    ensures SkipChunks(I, |cs|, it, combined) == Got((), it + |ChunksBytes(cs, combined)|, 0)
    decreases cs
  {
    hide At, ChunkBytes, Encodable, SkipChunk;
    if cs != [] {
      AtSplit(I.bytes, it, ChunkBytes(cs[0], combined), ChunksBytes(cs[1..], combined));
      SkipsChunk(I, cs[0], it, combined);
      SkipsChunks(I, cs[1..], it + |ChunkBytes(cs[0], combined)|, combined);
    }
  }

  lemma SkipsFunc(I: Input, c: Const, it: nat, combined: bool)
    requires c.FuncConst? && ConstEncodable(c) && At(I.bytes, it, FuncBytes(c, combined))
    ensures SkipFunc(I, it, combined) == Got((), it + |FuncBytes(c, combined)|, 0)
  {
    hide At, ChunkBytes, ChunksBytes, SkipChunk, SkipChunks, Encodable, Name, Raw, NameBytes;
    var name := if c.fname.Some? then c.fname.value else [];
    var arity := [c.arityMin, c.arityMax, Flag(c.variadic)];
    var chunk, defaults := ChunkBytes(c.chunk, combined), ChunksBytes(c.defaults, combined);
    NoName();
    NameSize(name);
    AtSplit(I.bytes, it, NameBytes(name) + arity + chunk, defaults);
    AtSplit(I.bytes, it, NameBytes(name) + arity, chunk);
    AtSplit(I.bytes, it, NameBytes(name), arity);
    NameBack(I, name, it, 0);
    RawBack(I, arity, it + 1 + |name|, 0);
    SkipsChunk(I, c.chunk, it + 4 + |name|, combined);
    SkipsChunks(I, c.defaults, it + 4 + |name| + |chunk|, combined);
  }

  /** Skipping a function moves the cursor exactly as far as reading it. */
  lemma SkipAsFarAsRead(I: Input, c: Const, it: nat, k: nat)
    requires c.FuncConst? && ConstEncodable(c)
    requires At(I.bytes, it, FuncBytes(c, I.mode.Combined?)) && Next(I, k, ConstBlocks(c))
    ensures SkipFunc(I, it, I.mode.Combined?).Got? && ReadFunc(I, it, k).Got?
    ensures SkipFunc(I, it, I.mode.Combined?).it == ReadFunc(I, it, k).it
  {
    hide At, ReadFunc, SkipFunc, FuncBytes, ConstEncodable, Next;
    FuncBack(I, c, it, k);
    SkipsFunc(I, c, it, I.mode.Combined?);
  }
}
