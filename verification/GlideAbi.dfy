/** The Glide 2.43 calls as both ends of the command FIFO see them: function numbers, argument counts,
    the payload the guest wrapper pushes, the payload size the host works out on its own, and what the
    API itself reads through its pointer arguments. */
module GlideAbi {

  /** A 32-bit word of the shared area or of guest memory. */
  type Word = nat

  // Layout of the shared area, in 32-bit words (qemu-0/hw/3dfx/g2xfuncs.h).
  const FIRST_FIFO := 24
  const MAX_FIFO := 0x10000
  const GRSHM_WORDS := 0xC0000
  const MAX_DATA := (0x300000 - 4 * MAX_FIFO - 64 * 1024) / 4
  const FIRST_DATA := 2
  const OUT_PAGE := (0x300000 - 0x1000) / 4
  /** The data words between the data counter and the output page. */
  const DATA_ROOM := OUT_PAGE - MAX_FIFO

  // Function numbers of the calls that carry data.
  const GR_AA_DRAW_LINE := 0x01
  const GR_AA_DRAW_POINT := 0x02
  const GR_AA_DRAW_POLYGON := 0x03
  const GR_AA_DRAW_POLYGON_VERTEX_LIST := 0x04
  const GR_AA_DRAW_TRIANGLE := 0x05
  const GR_BUFFER_SWAP := 0x0D
  const GR_BUFFER_NUM_PENDING := 0x0C
  const GR_DRAW_LINE := 0x1D
  const GR_DRAW_PLANAR_POLYGON := 0x1E
  const GR_DRAW_PLANAR_POLYGON_VERTEX_LIST := 0x1F
  const GR_DRAW_POINT := 0x20
  const GR_DRAW_POLYGON := 0x21
  const GR_DRAW_POLYGON_VERTEX_LIST := 0x22
  const GR_DRAW_TRIANGLE := 0x23
  const GR_FOG_TABLE := 0x27
  const GR_LFB_LOCK := 0x32
  const GR_LFB_READ_REGION := 0x33
  const GR_LFB_WRITE_REGION := 0x37
  const GR_SST_PERF_STATS := 0x40
  const GR_SST_QUERY_BOARDS := 0x41
  const GR_SST_QUERY_HARDWARE := 0x42
  const GR_TEX_DOWNLOAD_MIP_MAP := 0x52
  const GR_TEX_DOWNLOAD_MIP_MAP_LEVEL := 0x53
  const GR_TEX_DOWNLOAD_MIP_MAP_LEVEL_PARTIAL := 0x54
  const GR_TEX_DOWNLOAD_TABLE := 0x55
  const GR_TEX_DOWNLOAD_TABLE_PARTIAL := 0x56
  const GR_TEX_SOURCE := 0x5F
  const GR_TEX_TEXTURE_MEM_REQUIRED := 0x60
  const GR_TRI_STATS := 0x61
  const GU_3DF_GET_INFO := 0x62
  const GU_3DF_LOAD := 0x63
  const GU_AA_DRAW_TRIANGLE_WITH_CLIP := 0x64
  const GU_DRAW_POLYGON_VERTEX_LIST_WITH_CLIP := 0x67
  const GU_DRAW_TRIANGLE_WITH_CLIP := 0x68
  const GU_TEX_DOWNLOAD_MIP_MAP := 0x7B
  const GU_TEX_DOWNLOAD_MIP_MAP_LEVEL := 0x7C

  const SIZE_VERTEX := 60
  const SIZE_TEXINFO := 20
  const SIZE_PERFSTATS := 20
  const SIZE_LFBINFO := 20
  const SIZE_HWCONFIG := 148
  const SIZE_NCCTABLE := 112
  const SIZE_PALETTE := 1024
  const SIZE_3DF_NAME := 64
  const FOG_ENTRIES := 64
  const TEXTABLE_PALETTE := 2
  const VERTEX_WORDS := 15

  /** How many function numbers the 2.43 API has. */
  const FUNCTIONS := 0x82
  type Function = f: int | 0 <= f < FUNCTIONS

  /** One guest call: the function number, its argument words as the wrapper stores them (a texture size the
      host answered a moment earlier is the last of them), and the guest memory at the time of the call,
      read a word at a byte address. */
  datatype Call = Call(f: Function, args: seq<Word>, mem: int -> Word)

  /** What reaches the API: function, arguments, and the words behind each pointer it follows. */
  datatype Exec = Exec(f: int, args: seq<Word>, data: seq<seq<Word>>)

  // The two rounding rules of the shared headers.

  function Words(cb: nat): nat {
    if cb % 4 != 0 then cb / 4 + 1 else cb / 4
  }

  function EvenUp(n: nat): nat {
    if n % 2 == 1 then n + 1 else n
  }

  function Aligned(x: nat): nat {
    if x % 8 != 0 then (x / 8 + 1) * 8 else x
  }

  lemma WordsOfEights(q: nat, r: nat)
    requires r < 8
    ensures Words(8 * q + r) == 2 * q + Words(r)
  {
  }

  lemma AlignedEights(q: nat, r: nat)
    requires r < 8
    ensures Aligned(8 * q + r) == 8 * q + Aligned(r)
  {
  }

  /** The guest rounds a chunk to words and then to an even count; the host rounds bytes to eight. */
  lemma AlignedIsEvenWords(cb: nat)
    ensures Words(Aligned(cb)) == EvenUp(Words(cb)) == Aligned(cb) / 4
    ensures Aligned(cb) % 8 == 0
  {
    var q, r := cb / 8, cb % 8;
    assert cb == 8 * q + r;
    hide Aligned, Words;
    WordsOfEights(q, r);
    AlignedEights(q, r);
    RestIsEvenWords(r);
    WordsOfEights(if r == 0 then q else q + 1, 0);
  }

  lemma RestIsEvenWords(r: nat)
    requires r < 8
    ensures Aligned(r) == (if r == 0 then 0 else 8) && EvenUp(Words(r)) == (if r == 0 then 0 else 2) && Words(0) == 0
  {
  }

  lemma WordsOfSum(x: nat, n: nat)
    requires x % 8 == 0
    ensures Words(x + 64 * n) == Words(x) + 16 * n && (x + 64 * n) % 8 == 0
  {
    hide Words;
    var q := x / 8;
    assert x == 8 * q && x + 64 * n == 8 * (q + 8 * n);
    WordsOfEights(q, 0);
    WordsOfEights(q + 8 * n, 0);
  }

  // Argument counts.

  const NOT_QUEUED := -1

  /** The count each queueing wrapper passes to FIFO_GRFUNC; the other wrappers trap. */
  function QueuedArgs(f: int): int {
    if f == 0x1B then 0
    else if f in {0x02, 0x08, 0x09, 0x0A, 0x0F, 0x10, 0x15, 0x16, 0x17, 0x18, 0x19, 0x1A, 0x1C, 0x20, 0x25, 0x26,
      0x27, 0x28, 0x30, 0x31, 0x38, 0x65, 0x66, 0x81} then 1
    else if f in {0x01, 0x04, 0x13, 0x1D, 0x1F, 0x22, 0x2F, 0x50, 0x58, 0x5E, 0x67, 0x79} then 2
    else if f in {0x03, 0x0B, 0x1E, 0x21, 0x23, 0x4E, 0x55, 0x57, 0x5B, 0x64, 0x68} then 3
    else if f in {0x06, 0x11, 0x14, 0x51, 0x5F, 0x7B, 0x7C} then 4
    else if f in {0x07, 0x12, 0x52, 0x56} then 5
    else if f == 0x05 then 6
    else if f == 0x4F then 7
    else if f == 0x53 then 9
    else if f == 0x54 then 11
    else NOT_QUEUED
  }

  predicate Queueable(f: int) {
    QueuedArgs(f) != NOT_QUEUED
  }

  /** The argument words the trapping wrappers with a payload store. */
  function TrappedArgs(f: int): int {
    if f == GR_LFB_WRITE_REGION then 8
    else if f == GR_LFB_LOCK then 6
    else if f in {GR_TEX_TEXTURE_MEM_REQUIRED, GR_TRI_STATS, GU_3DF_GET_INFO, GU_3DF_LOAD} then 2
    else if f in {GR_SST_PERF_STATS, GR_SST_QUERY_BOARDS, GR_SST_QUERY_HARDWARE} then 1
    else NOT_QUEUED
  }

  /** The decimal number behind the '@' of each symbol in the host's function table. */
  function SymbolArgBytes(f: int): nat
    requires 0 <= f < FUNCTIONS
  {
    if f in {0x0C, 0x1B, 0x2B, 0x2E, 0x39, 0x3D, 0x3E, 0x43, 0x44, 0x45, 0x47, 0x48, 0x4A, 0x4B, 0x71, 0x75,
      0x76, 0x7A, 0x80} then 0
    else if f in {0x01, 0x04, 0x13, 0x1D, 0x1F, 0x22, 0x2F, 0x34, 0x36, 0x49, 0x50, 0x58, 0x5C, 0x5E, 0x60, 0x61,
      0x62, 0x63, 0x67, 0x6C, 0x6D, 0x73, 0x79} then 8
    else if f in {0x03, 0x0B, 0x1E, 0x21, 0x23, 0x3B, 0x4E, 0x55, 0x57, 0x5B, 0x64, 0x68, 0x6E, 0x70, 0x7B, 0x7C} then 12
    else if f in {0x06, 0x11, 0x14, 0x4D, 0x51, 0x52, 0x5F, 0x69} then 16
    else if f in {0x07, 0x12, 0x3A, 0x56, 0x5D} then 20
    else if f in {0x05, 0x32} then 24
    else if f in {0x33, 0x4C, 0x4F} then 28
    else if f in {0x37, 0x53} then 32
    else if f == 0x54 then 40
    else if f == 0x78 then 48
    else if f == 0x77 then 60
    else if f == 0x00 then 64
    else 4
  }

  predicate TakesSizeArgument(f: int) {
    || f == GR_TEX_DOWNLOAD_MIP_MAP
    || f == GR_TEX_DOWNLOAD_MIP_MAP_LEVEL
    || f == GR_TEX_DOWNLOAD_MIP_MAP_LEVEL_PARTIAL
    || f == GU_TEX_DOWNLOAD_MIP_MAP
    || f == GU_TEX_DOWNLOAD_MIP_MAP_LEVEL
  }

  /** GRFEnumArgsCnt: the host's own idea of how many argument words follow a queued number. */
  function HostArgCount(f: int): nat
    requires 0 <= f < FUNCTIONS
  {
    SymbolArgBytes(f) / 4 + if TakesSizeArgument(f) then 1 else 0
  }

  /** The two argument tables agree on every call that can be queued. */
  lemma ArgCountsAgree(f: int)
    requires Queueable(f)
    ensures 0 <= f < FUNCTIONS && HostArgCount(f) == QueuedArgs(f) <= 11
  {
  }

  // Payload kinds.

  /** How a call's payload is laid out. Each end sorts the function numbers into these on its own:
      the guest by how the wrapper is written, the host by the case labels of processArgs. */
  datatype Kind =
    | OneVertex | TwoVertices | ThreeVertices | Polygon | VertexList
    | FogTable | TexSource | TexMipMap | TexMipMapLevel | TexMipMapPartial | TexTable | TexTablePartial
    | TexMemRequired | GuMipMap | GuMipMapLevel
    | LfbLock | LfbWrite | PerfStats | HwConfig | TriStats | File3df
    | NoPayload

  function GuestKind(f: int): Kind {
    if f == GR_AA_DRAW_LINE then TwoVertices
    else if f == GR_AA_DRAW_POINT then OneVertex
    else if f == GR_AA_DRAW_POLYGON then Polygon
    else if f == GR_AA_DRAW_POLYGON_VERTEX_LIST then VertexList
    else if f == GR_AA_DRAW_TRIANGLE then ThreeVertices
    else if f == GR_DRAW_LINE then TwoVertices
    else if f == GR_DRAW_PLANAR_POLYGON then Polygon
    else if f == GR_DRAW_PLANAR_POLYGON_VERTEX_LIST then VertexList
    else if f == GR_DRAW_POINT then OneVertex
    else if f == GR_DRAW_POLYGON then Polygon
    else if f == GR_DRAW_POLYGON_VERTEX_LIST then VertexList
    else if f == GR_DRAW_TRIANGLE then ThreeVertices
    else if f == GR_FOG_TABLE then FogTable
    else if f == GR_LFB_LOCK then LfbLock
    else if f == GR_LFB_WRITE_REGION then LfbWrite
    else if f == GR_SST_PERF_STATS then PerfStats
    else if f == GR_SST_QUERY_BOARDS then HwConfig
    else if f == GR_SST_QUERY_HARDWARE then HwConfig
    else if f == GR_TEX_DOWNLOAD_MIP_MAP then TexMipMap
    else if f == GR_TEX_DOWNLOAD_MIP_MAP_LEVEL then TexMipMapLevel
    else if f == GR_TEX_DOWNLOAD_MIP_MAP_LEVEL_PARTIAL then TexMipMapPartial
    else if f == GR_TEX_DOWNLOAD_TABLE then TexTable
    else if f == GR_TEX_DOWNLOAD_TABLE_PARTIAL then TexTablePartial
    else if f == GR_TEX_SOURCE then TexSource
    else if f == GR_TEX_TEXTURE_MEM_REQUIRED then TexMemRequired
    else if f == GR_TRI_STATS then TriStats
    else if f == GU_3DF_GET_INFO then File3df
    else if f == GU_3DF_LOAD then File3df
    else if f == GU_AA_DRAW_TRIANGLE_WITH_CLIP then ThreeVertices
    else if f == GU_DRAW_POLYGON_VERTEX_LIST_WITH_CLIP then VertexList
    else if f == GU_DRAW_TRIANGLE_WITH_CLIP then ThreeVertices
    else if f == GU_TEX_DOWNLOAD_MIP_MAP then GuMipMap
    else if f == GU_TEX_DOWNLOAD_MIP_MAP_LEVEL then GuMipMapLevel
    else NoPayload
  }

  function HostKind(f: int): Kind {
    if f in {GR_DRAW_LINE, GR_AA_DRAW_LINE} then TwoVertices
    else if f in {GR_DRAW_TRIANGLE, GR_AA_DRAW_TRIANGLE, GU_DRAW_TRIANGLE_WITH_CLIP, GU_AA_DRAW_TRIANGLE_WITH_CLIP} then
      ThreeVertices
    else if f in {GR_DRAW_POINT, GR_AA_DRAW_POINT} then OneVertex
    else if f == GR_SST_PERF_STATS then PerfStats
    else if f in {GR_SST_QUERY_BOARDS, GR_SST_QUERY_HARDWARE} then HwConfig
    else if f == GR_TRI_STATS then TriStats
    else if f in {GR_TEX_SOURCE, GR_TEX_DOWNLOAD_MIP_MAP} then
      if f == GR_TEX_DOWNLOAD_MIP_MAP then TexMipMap else TexSource
    else if f in {GR_TEX_DOWNLOAD_MIP_MAP_LEVEL, GR_TEX_DOWNLOAD_MIP_MAP_LEVEL_PARTIAL} then
      if f == GR_TEX_DOWNLOAD_MIP_MAP_LEVEL then TexMipMapLevel else TexMipMapPartial
    else if f == GR_TEX_DOWNLOAD_TABLE then TexTable
    else if f == GR_TEX_DOWNLOAD_TABLE_PARTIAL then TexTablePartial
    else if f == GR_TEX_TEXTURE_MEM_REQUIRED then TexMemRequired
    else if f == GR_LFB_LOCK then LfbLock
    else if f == GR_LFB_WRITE_REGION then LfbWrite
    else if f == GR_FOG_TABLE then FogTable
    else if f in {GU_3DF_GET_INFO, GU_3DF_LOAD} then File3df
    else if f == GU_TEX_DOWNLOAD_MIP_MAP then GuMipMap
    else if f == GU_TEX_DOWNLOAD_MIP_MAP_LEVEL then GuMipMapLevel
    else if f in {GR_DRAW_POLYGON, GR_AA_DRAW_POLYGON, GR_DRAW_PLANAR_POLYGON} then Polygon
    else if f in {GR_DRAW_POLYGON_VERTEX_LIST, GR_AA_DRAW_POLYGON_VERTEX_LIST,
                  GR_DRAW_PLANAR_POLYGON_VERTEX_LIST, GU_DRAW_POLYGON_VERTEX_LIST_WITH_CLIP} then VertexList
    else NoPayload
  }

  /** Both ends sort every 2.43 function number the same way. */
  lemma KindsAgree(f: Function)
    ensures GuestKind(f) == HostKind(f)
  {
  }

  // Payloads.

  /** The host addresses arguments through a pointer, whatever their number. */
  function Arg(args: seq<Word>, k: nat): Word {
    if k < |args| then args[k] else 0
  }

  /** The words the guest copies for a block of cb bytes at a guest address. */
  function Load(mem: int -> Word, addr: int, cb: nat): (s: seq<Word>)
    ensures |s| == Words(cb)
    ensures forall k | 0 <= k < |s| :: s[k] == mem(addr + 4 * k)
  {
    seq(Words(cb), k => mem(addr + 4 * k))
  }

  /** The vertices of an indexed polygon, gathered one by one. */
  function Gather(mem: int -> Word, indices: seq<Word>, vlist: int): (vs: seq<seq<Word>>)
    ensures |vs| == |indices|
    ensures forall i | 0 <= i < |vs| :: vs[i] == Load(mem, vlist + SIZE_VERTEX * indices[i], SIZE_VERTEX)
  {
    seq(|indices|, i requires 0 <= i < |indices| => Load(mem, vlist + SIZE_VERTEX * indices[i], SIZE_VERTEX))
  }

  predicate ArgsFit(f: int, args: seq<Word>) {
    && (Queueable(f) ==> |args| == QueuedArgs(f))
    && (TrappedArgs(f) != NOT_QUEUED ==> |args| == TrappedArgs(f))
    && |args| <= 16
  }

  /** The host's byte offset of the end of vertex x stays within a signed 32-bit number. */
  predicate IndexFits(x: Word) {
    (x + 1) * SIZE_VERTEX < 0x8000_0000
  }

  lemma LargestIndex(x: Word)
    ensures IndexFits(x) <==> x <= 35_791_393
  {
  }

  /** What the API demands of a call: polygon indices are not negative, nor too large for that offset. */
  predicate IndicesInRange(c: Call) {
    GuestKind(c.f) == Polygon ==> forall i | 0 <= i < Arg(c.args, 0) :: IndexFits(c.mem(Arg(c.args, 1) + 4 * i))
  }

  /** The one call whose payload rule breaks down: a texture level of a handle the wrapper does not know. */
  predicate BlindLevel(c: Call) {
    GuestKind(c.f) == GuMipMapLevel && Arg(c.args, 3) == 0
  }

  predicate Legal(c: Call) {
    ArgsFit(c.f, c.args) && IndicesInRange(c) && !BlindLevel(c)
  }

  /** The fifoAddData calls of each guest wrapper, in order. */
  function GuestChunks(c: Call): seq<seq<Word>> {
    var a := c.args;
    match GuestKind(c.f)
    case OneVertex => [Load(c.mem, Arg(a, 0), SIZE_VERTEX)]
    case TwoVertices => [Load(c.mem, Arg(a, 0), SIZE_VERTEX), Load(c.mem, Arg(a, 1), SIZE_VERTEX)]
    case ThreeVertices =>
      [Load(c.mem, Arg(a, 0), SIZE_VERTEX), Load(c.mem, Arg(a, 1), SIZE_VERTEX), Load(c.mem, Arg(a, 2), SIZE_VERTEX)]
    case Polygon =>
      var ilist := Load(c.mem, Arg(a, 1), Arg(a, 0) * 4);
      [ilist] + Gather(c.mem, ilist, Arg(a, 2))
    case VertexList => [Load(c.mem, Arg(a, 1), Arg(a, 0) * SIZE_VERTEX)]
    case FogTable => [[FOG_ENTRIES], Load(c.mem, Arg(a, 0), FOG_ENTRIES)]
    case TexMipMap => [Load(c.mem, Arg(a, 3), SIZE_TEXINFO), Load(c.mem, c.mem(Arg(a, 3) + 16), Arg(a, 4))]
    case TexMipMapLevel => [Load(c.mem, Arg(a, 7), Arg(a, 8))]
    case TexMipMapPartial => [Load(c.mem, Arg(a, 7), Arg(a, 10))]
    case TexTable => [Load(c.mem, Arg(a, 2), if Arg(a, 1) == TEXTABLE_PALETTE then SIZE_PALETTE else SIZE_NCCTABLE)]
    case TexTablePartial =>
      [Load(c.mem, Arg(a, 2), if Arg(a, 1) == TEXTABLE_PALETTE then (Arg(a, 4) + 1) * 4 else SIZE_NCCTABLE)]
    case TexSource => [Load(c.mem, Arg(a, 3), SIZE_TEXINFO)]
    case TexMemRequired => [Load(c.mem, Arg(a, 1), SIZE_TEXINFO)]
    case GuMipMap =>
      (if Arg(a, 3) != 0 then [Load(c.mem, Arg(a, 1), Arg(a, 3))] else [])
      + (if Arg(a, 2) != 0 then [Load(c.mem, Arg(a, 2), SIZE_NCCTABLE)] else [])
    case GuMipMapLevel =>
      if Arg(a, 3) != 0 then [Load(c.mem, c.mem(Arg(a, 2)), Arg(a, 3)), [0, 0]] else []
    case LfbLock => [Load(c.mem, Arg(a, 5), SIZE_LFBINFO)]
    case LfbWrite => [Load(c.mem, Arg(a, 7), Arg(a, 5) * Arg(a, 6))]
    case PerfStats => [Load(c.mem, Arg(a, 0), SIZE_PERFSTATS)]
    case HwConfig => [Load(c.mem, Arg(a, 0), SIZE_HWCONFIG)]
    case TriStats => [Load(c.mem, Arg(a, 0), 4), Load(c.mem, Arg(a, 1), 4)]
    case File3df => [Load(c.mem, Arg(a, 0), SIZE_3DF_NAME)]
    case NoPayload => []
  }

  /** What the API reads from guest memory when it is called there directly, by its own documentation of each pointer:
      the reference both ends have to meet. */
  function NativeData(c: Call): seq<seq<Word>> {
    var (a, m) := (c.args, c.mem);
    match GuestKind(c.f)
    case OneVertex => [Load(m, Arg(a, 0), 60)]
    case TwoVertices => [Load(m, Arg(a, 0), 60), Load(m, Arg(a, 1), 60)]
    case ThreeVertices => [Load(m, Arg(a, 0), 60), Load(m, Arg(a, 1), 60), Load(m, Arg(a, 2), 60)]
    case Polygon => [Load(m, Arg(a, 1), 4 * Arg(a, 0))] + NativeVertices(m, Arg(a, 0), Arg(a, 1), Arg(a, 2))
    case VertexList => [Load(m, Arg(a, 1), 60 * Arg(a, 0))]
    case FogTable => [Load(m, Arg(a, 0), 64)]
    case TexMipMap => [Load(m, Arg(a, 3), 16), Load(m, m(Arg(a, 3) + 16), Arg(a, 4))]
    case TexMipMapLevel => [Load(m, Arg(a, 7), Arg(a, 8))]
    case TexMipMapPartial => [Load(m, Arg(a, 7), Arg(a, 10))]
    case TexTable => [Load(m, Arg(a, 2), if Arg(a, 1) == TEXTABLE_PALETTE then 1024 else 112)]
    case TexTablePartial => [Load(m, Arg(a, 2), if Arg(a, 1) == TEXTABLE_PALETTE then 4 * (Arg(a, 4) + 1) else 112)]
    case TexSource => [Load(m, Arg(a, 3), 16)]
    case TexMemRequired => [Load(m, Arg(a, 1), 16)]
    case GuMipMap =>
      if Arg(a, 3) != 0 && Arg(a, 2) != 0 then [Load(m, Arg(a, 1), Arg(a, 3)), Load(m, Arg(a, 2), 112)]
      else if Arg(a, 3) != 0 then [Load(m, Arg(a, 1), Arg(a, 3))]
      else if Arg(a, 2) != 0 then [Load(m, Arg(a, 2), 112)]
      else []
    case GuMipMapLevel => if Arg(a, 3) != 0 then [Load(m, m(Arg(a, 2)), Arg(a, 3))] else []
    case LfbLock => []
    case LfbWrite => [Load(m, Arg(a, 7), Arg(a, 5) * Arg(a, 6))]
    case PerfStats => [Load(m, Arg(a, 0), 20)]
    case HwConfig => [Load(m, Arg(a, 0), 148)]
    case TriStats => [Load(m, Arg(a, 0), 4), Load(m, Arg(a, 1), 4)]
    case File3df => [Load(m, Arg(a, 0), 64)]
    case NoPayload => []
  }

  /** The vertices of an indexed polygon as the API finds them: through the index list, in the guest's own list. */
  function NativeVertices(mem: int -> Word, n: nat, ilist: int, vlist: int): (vs: seq<seq<Word>>)
    ensures |vs| == n
    ensures forall i | 0 <= i < n :: vs[i] == Load(mem, vlist + 60 * mem(ilist + 4 * i), 60)
  {
    seq(n, i => Load(mem, vlist + 60 * mem(ilist + 4 * i), 60))
  }

  /** These words are the cb bytes at a guest address, rounded up to whole words. */
  predicate Block(d: seq<Word>, mem: int -> Word, addr: int, cb: nat) {
    cb <= 4 * |d| < cb + 4 && forall k | 0 <= k < |d| :: d[k] == mem(addr + 4 * k)
  }

  lemma LoadIsBlock(mem: int -> Word, addr: int, cb: nat)
    ensures Block(Load(mem, addr, cb), mem, addr, cb)
  {
  }

  /** What the drawing calls read, function number by function number: single vertices of 60 bytes, a list of them, or an
      index list and the vertices it names. */
  lemma DrawsByNumber(c: Call)
    requires ArgsFit(c.f, c.args)
    ensures c.f in {0x02, 0x20} ==>
              |c.args| == 1 && |NativeData(c)| == 1 && Block(NativeData(c)[0], c.mem, c.args[0], 60)
    ensures c.f in {0x01, 0x1D} ==>
              && |c.args| == 2 && |NativeData(c)| == 2
              && Block(NativeData(c)[0], c.mem, c.args[0], 60) && Block(NativeData(c)[1], c.mem, c.args[1], 60)
    ensures c.f in {0x05, 0x23, 0x64, 0x68} ==>
              && |c.args| == (if c.f == 0x05 then 6 else 3) && |NativeData(c)| == 3
              && forall k | 0 <= k < 3 :: Block(NativeData(c)[k], c.mem, c.args[k], 60)
    ensures c.f in {0x04, 0x1F, 0x22, 0x67} ==>
              |c.args| == 2 && |NativeData(c)| == 1 && Block(NativeData(c)[0], c.mem, c.args[1], 60 * c.args[0])
    ensures c.f in {0x03, 0x1E, 0x21} ==>
              && |c.args| == 3 && |NativeData(c)| == 1 + c.args[0]
              && Block(NativeData(c)[0], c.mem, c.args[1], 4 * c.args[0])
              && forall i | 1 <= i <= c.args[0] ::
                   Block(NativeData(c)[i], c.mem, c.args[2] + 60 * c.mem(c.args[1] + 4 * (i - 1)), 60)
  {
    hide Block, Load;
    forall addr: int, cb: nat
      ensures Block(Load(c.mem, addr, cb), c.mem, addr, cb)
    {
      LoadIsBlock(c.mem, addr, cb);
    }
  }

  /** What the texture calls read, and the fog table. */
  lemma TexturesByNumber(c: Call)
    requires ArgsFit(c.f, c.args)
    ensures c.f == 0x27 ==> |c.args| == 1 && |NativeData(c)| == 1 && Block(NativeData(c)[0], c.mem, c.args[0], 64)
    ensures c.f == 0x52 ==>
              && |c.args| == 5 && |NativeData(c)| == 2 && Block(NativeData(c)[0], c.mem, c.args[3], 16)
              && Block(NativeData(c)[1], c.mem, c.mem(c.args[3] + 16), c.args[4])
    ensures c.f == 0x53 ==> |c.args| == 9 && |NativeData(c)| == 1 && Block(NativeData(c)[0], c.mem, c.args[7], c.args[8])
    ensures c.f == 0x54 ==> |c.args| == 11 && |NativeData(c)| == 1 && Block(NativeData(c)[0], c.mem, c.args[7], c.args[10])
    ensures c.f == 0x55 ==>
              && |c.args| == 3 && |NativeData(c)| == 1
              && Block(NativeData(c)[0], c.mem, c.args[2], if c.args[1] == 2 then 1024 else 112)
    ensures c.f == 0x56 ==>
              && |c.args| == 5 && |NativeData(c)| == 1
              && Block(NativeData(c)[0], c.mem, c.args[2], if c.args[1] == 2 then 4 * c.args[4] + 4 else 112)
    ensures c.f == 0x5F ==> |c.args| == 4 && |NativeData(c)| == 1 && Block(NativeData(c)[0], c.mem, c.args[3], 16)
    ensures c.f == 0x60 ==> |c.args| == 2 && |NativeData(c)| == 1 && Block(NativeData(c)[0], c.mem, c.args[1], 16)
    ensures c.f == 0x7B ==>
              && |c.args| == 4
              && |NativeData(c)| == (if c.args[3] != 0 then 1 else 0) + (if c.args[2] != 0 then 1 else 0)
              && (c.args[3] != 0 ==> Block(NativeData(c)[0], c.mem, c.args[1], c.args[3]))
              && (c.args[2] != 0 ==> Block(NativeData(c)[if c.args[3] != 0 then 1 else 0], c.mem, c.args[2], 112))
    ensures c.f == 0x7C ==>
              && |c.args| == 4 && |NativeData(c)| == (if c.args[3] != 0 then 1 else 0)
              && (c.args[3] != 0 ==> Block(NativeData(c)[0], c.mem, c.mem(c.args[2]), c.args[3]))
  {
    hide Block, Load;
    forall addr: int, cb: nat
      ensures Block(Load(c.mem, addr, cb), c.mem, addr, cb)
    {
      LoadIsBlock(c.mem, addr, cb);
    }
  }

  /** What the calls read that always trap, and that nothing else reads any data. */
  lemma OthersByNumber(c: Call)
    requires ArgsFit(c.f, c.args)
    ensures c.f == 0x37 ==>
              |c.args| == 8 && |NativeData(c)| == 1 && Block(NativeData(c)[0], c.mem, c.args[7], c.args[5] * c.args[6])
    ensures c.f == 0x40 ==> |c.args| == 1 && |NativeData(c)| == 1 && Block(NativeData(c)[0], c.mem, c.args[0], 20)
    ensures c.f in {0x41, 0x42} ==> |c.args| == 1 && |NativeData(c)| == 1 && Block(NativeData(c)[0], c.mem, c.args[0], 148)
    ensures c.f == 0x61 ==>
              && |c.args| == 2 && |NativeData(c)| == 2
              && Block(NativeData(c)[0], c.mem, c.args[0], 4) && Block(NativeData(c)[1], c.mem, c.args[1], 4)
    ensures c.f in {0x62, 0x63} ==> |c.args| == 2 && |NativeData(c)| == 1 && Block(NativeData(c)[0], c.mem, c.args[0], 64)
    ensures c.f !in {0x01, 0x02, 0x03, 0x04, 0x05, 0x1D, 0x1E, 0x1F, 0x20, 0x21, 0x22, 0x23, 0x27, 0x37, 0x40, 0x41, 0x42,
                     0x52, 0x53, 0x54, 0x55, 0x56, 0x5F, 0x60, 0x61, 0x62, 0x63, 0x64, 0x67, 0x68, 0x7B, 0x7C} ==>
              NativeData(c) == []
  {
    hide Block, Load;
    forall addr: int, cb: nat
      ensures Block(Load(c.mem, addr, cb), c.mem, addr, cb)
    {
      LoadIsBlock(c.mem, addr, cb);
    }
  }

  /** Of the calls with data exactly those wait in the queue whose answer the guest does not read: locks, regions of the
      frame buffer, statistics, hardware queries, texture sizes and texture files trap. */
  lemma DataIsQueued(f: Function)
    requires GuestKind(f) != NoPayload
    ensures Queueable(f) <==> f !in {0x32, 0x37, 0x40, 0x41, 0x42, 0x60, 0x61, 0x62, 0x63}
  {
  }

  function Native(c: Call): Exec {
    Exec(c.f, c.args, NativeData(c))
  }

  /** The words the wrapper's chunks occupy, each padded to an even count. */
  function Total(chunks: seq<seq<Word>>): (n: nat)
    ensures n % 2 == 0
  {
    if chunks == [] then 0 else EvenUp(|chunks[0]|) + Total(chunks[1..])
  }

  function PayloadWords(c: Call): nat {
    Total(GuestChunks(c))
  }

  /** The host's payload size in bytes, from the number, the argument words and the first payload word alone. */
  function HostPayloadBytes(f: int, a: seq<Word>, first: Word): nat {
    match HostKind(f)
    case OneVertex => Aligned(SIZE_VERTEX)
    case TwoVertices => 2 * Aligned(SIZE_VERTEX)
    case ThreeVertices => 3 * Aligned(SIZE_VERTEX)
    case Polygon => Aligned(Arg(a, 0) * 4) + Arg(a, 0) * Aligned(SIZE_VERTEX)
    case VertexList => Aligned(Arg(a, 0) * SIZE_VERTEX)
    case FogTable => Aligned(4) + Aligned(first)
    case TexSource => Aligned(SIZE_TEXINFO)
    case TexMipMap => Aligned(SIZE_TEXINFO) + Aligned(Arg(a, 4))
    case TexMipMapLevel => Aligned(Arg(a, 8))
    case TexMipMapPartial => Aligned(Arg(a, 10))
    case TexTable => if Arg(a, 1) == TEXTABLE_PALETTE then SIZE_PALETTE else SIZE_NCCTABLE
    case TexTablePartial => if Arg(a, 1) == TEXTABLE_PALETTE then Aligned((Arg(a, 4) + 1) * 4) else SIZE_NCCTABLE
    case TexMemRequired => Aligned(SIZE_TEXINFO)
    case GuMipMap =>
      (if Arg(a, 3) != 0 then Aligned(Arg(a, 3)) else 0) + (if Arg(a, 2) != 0 then SIZE_NCCTABLE else 0)
    case GuMipMapLevel => if Arg(a, 3) != 0 then Aligned(Arg(a, 3)) + Aligned(1) else 0
    case LfbLock => Aligned(SIZE_LFBINFO)
    case LfbWrite => Aligned(Arg(a, 5) * Arg(a, 6))
    case PerfStats => Aligned(SIZE_PERFSTATS)
    case HwConfig => Aligned(SIZE_HWCONFIG)
    case TriStats => 2 * Aligned(4)
    case File3df => SIZE_3DF_NAME
    case NoPayload => 0
  }

  lemma {:induction false} TotalOfVertices(vs: seq<seq<Word>>)
    requires forall i | 0 <= i < |vs| :: |vs[i]| == VERTEX_WORDS
    ensures Total(vs) == 16 * |vs|
  {
    if vs != [] {
      TotalOfVertices(vs[1..]);
    }
  }

  lemma TotalOfFew(chunks: seq<seq<Word>>)
    requires |chunks| <= 3
    ensures Total(chunks) ==
            (if |chunks| > 0 then EvenUp(|chunks[0]|) else 0)
            + (if |chunks| > 1 then EvenUp(|chunks[1]|) else 0)
            + (if |chunks| > 2 then EvenUp(|chunks[2]|) else 0)
  {
    if |chunks| >= 2 {
      assert chunks[1..][0] == chunks[1];
      if |chunks| == 3 {
        assert chunks[1..][1..] == [chunks[2]];
      } else {
        assert chunks[1..] == [chunks[1]];
      }
    }
  }

  predicate SizesAgree(chunks: seq<seq<Word>>, bytes: nat) {
    Words(bytes) == Total(chunks) && bytes % 8 == 0
  }

  lemma WordsOfInts(n: nat)
    ensures Words(4 * n) == n
  {
  }

  lemma PolygonSizesAgree(ilist: seq<Word>, vs: seq<seq<Word>>, bytes: nat)
    requires |ilist| == |vs| && bytes == Aligned(4 * |vs|) + 64 * |vs|
    requires forall i | 0 <= i < |vs| :: |vs[i]| == VERTEX_WORDS
    ensures SizesAgree([ilist] + vs, bytes)
  {
    assert ([ilist] + vs)[1..] == vs;
    TotalOfVertices(vs);
    AlignedIsEvenWords(4 * |vs|);
    WordsOfSum(Aligned(4 * |vs|), |vs|);
    WordsOfInts(|vs|);
    hide Aligned, Words;
  }

  lemma OneBlockSizesAgree(chunks: seq<seq<Word>>, bytes: nat, cb: nat)
    requires |chunks| == 1 && |chunks[0]| == Words(cb) && bytes == Aligned(cb)
    ensures SizesAgree(chunks, bytes)
  {
    AlignedIsEvenWords(cb);
    TotalOfFew(chunks);
  }

  lemma WordsOfBlocks(x: nat, y: nat)
    requires x % 8 == 0 && y % 8 == 0
    ensures Words(x + y) == x / 4 + y / 4 && (x + y) % 8 == 0
  {
    var (p, q) := (x / 8, y / 8);
    assert x == 4 * (2 * p) && y == 4 * (2 * q) && x + y == 4 * (2 * p + 2 * q) == 8 * (p + q);
    WordsOfInts(2 * p + 2 * q);
    hide Words;
  }

  lemma TwoBlockSizesAgree(chunks: seq<seq<Word>>, bytes: nat, cb: nat, cb': nat)
    requires |chunks| == 2 && |chunks[0]| == Words(cb) && |chunks[1]| == Words(cb')
    requires bytes == Aligned(cb) + Aligned(cb')
    ensures SizesAgree(chunks, bytes)
  {
    hide Words, Aligned, EvenUp, Total;
    AlignedIsEvenWords(cb);
    AlignedIsEvenWords(cb');
    WordsOfBlocks(Aligned(cb), Aligned(cb'));
    TotalOfFew(chunks);
  }

  lemma IndexedSizesAgree(c: Call, first: Word)
    requires GuestKind(c.f) == HostKind(c.f) == Polygon
    ensures SizesAgree(GuestChunks(c), HostPayloadBytes(c.f, c.args, first))
  {
    hide SizesAgree;
    var a, n, bytes := c.args, Arg(c.args, 0), HostPayloadBytes(c.f, c.args, first);
    var ilist := Load(c.mem, Arg(a, 1), n * 4);
    var vs := Gather(c.mem, ilist, Arg(a, 2));
    assert bytes == Aligned(4 * n) + 64 * n;
    assert GuestChunks(c) == [ilist] + vs;
    hide GuestChunks, HostPayloadBytes, GuestKind, HostKind, Aligned, Words, Arg;
    WordsOfInts(n);
    PolygonSizesAgree(ilist, vs, bytes);
  }

  lemma DrawSizesAgree(c: Call, first: Word)
    requires GuestKind(c.f) == HostKind(c.f)
    requires var k := GuestKind(c.f); k.OneVertex? || k.TwoVertices? || k.ThreeVertices? || k.Polygon? || k.VertexList?
    ensures SizesAgree(GuestChunks(c), HostPayloadBytes(c.f, c.args, first))
  {
    var a, chunks, bytes := c.args, GuestChunks(c), HostPayloadBytes(c.f, c.args, first);
    match GuestKind(c.f)
    case OneVertex => OneBlockSizesAgree(chunks, bytes, SIZE_VERTEX);
    case TwoVertices => TwoBlockSizesAgree(chunks, bytes, SIZE_VERTEX, SIZE_VERTEX);
    case ThreeVertices => TotalOfFew(chunks);
    case Polygon => IndexedSizesAgree(c, first);
    case VertexList => OneBlockSizesAgree(chunks, bytes, Arg(a, 0) * SIZE_VERTEX);
  }

  predicate IsTextureBlock(k: Kind) {
    k.TexMipMapLevel? || k.TexMipMapPartial? || k.TexTable? || k.TexTablePartial? || k.TexSource? || k.TexMemRequired?
  }

  lemma TextureBlockSizesAgree(c: Call, first: Word)
    requires GuestKind(c.f) == HostKind(c.f) && IsTextureBlock(GuestKind(c.f))
    ensures SizesAgree(GuestChunks(c), HostPayloadBytes(c.f, c.args, first))
  {
    var a, chunks, bytes := c.args, GuestChunks(c), HostPayloadBytes(c.f, c.args, first);
    match GuestKind(c.f)
    case TexMipMapLevel => OneBlockSizesAgree(chunks, bytes, Arg(a, 8));
    case TexMipMapPartial => OneBlockSizesAgree(chunks, bytes, Arg(a, 10));
    case TexTable => OneBlockSizesAgree(chunks, bytes, if Arg(a, 1) == TEXTABLE_PALETTE then SIZE_PALETTE else SIZE_NCCTABLE);
    case TexTablePartial =>
      OneBlockSizesAgree(chunks, bytes, if Arg(a, 1) == TEXTABLE_PALETTE then (Arg(a, 4) + 1) * 4 else SIZE_NCCTABLE);
    case TexSource => OneBlockSizesAgree(chunks, bytes, SIZE_TEXINFO);
    case TexMemRequired => OneBlockSizesAgree(chunks, bytes, SIZE_TEXINFO);
  }

  predicate IsCompound(k: Kind) {
    k.FogTable? || k.TexMipMap? || k.GuMipMap? || k.GuMipMapLevel? || k.TriStats?
  }

  lemma CompoundSizesAgree(c: Call, first: Word)
    requires GuestKind(c.f) == HostKind(c.f) && IsCompound(GuestKind(c.f))
    requires GuestKind(c.f) == FogTable ==> first == FOG_ENTRIES
    ensures SizesAgree(GuestChunks(c), HostPayloadBytes(c.f, c.args, first))
  {
    var a, chunks, bytes := c.args, GuestChunks(c), HostPayloadBytes(c.f, c.args, first);
    match GuestKind(c.f)
    case FogTable => TwoBlockSizesAgree(chunks, bytes, 4, FOG_ENTRIES);
    case TexMipMap => TwoBlockSizesAgree(chunks, bytes, SIZE_TEXINFO, Arg(a, 4));
    case GuMipMap =>
      if Arg(a, 3) != 0 && Arg(a, 2) != 0 {
        TwoBlockSizesAgree(chunks, bytes, Arg(a, 3), SIZE_NCCTABLE);
      } else if Arg(a, 3) != 0 {
        OneBlockSizesAgree(chunks, bytes, Arg(a, 3));
      } else if Arg(a, 2) != 0 {
        OneBlockSizesAgree(chunks, bytes, SIZE_NCCTABLE);
      }
    case GuMipMapLevel =>
      if Arg(a, 3) != 0 {
        TwoBlockSizesAgree(chunks, bytes, Arg(a, 3), 8);
      }
    case TriStats => TwoBlockSizesAgree(chunks, bytes, 4, 4);
  }

  /** The two separately written size rules agree: the host's bytes, rounded to words, are exactly the words
      the guest wrapper pushed, for every call with every argument. */
  lemma SizeRulesAgree(c: Call, first: Word)
    requires GuestKind(c.f) == FogTable ==> first == FOG_ENTRIES
    ensures Words(HostPayloadBytes(c.f, c.args, first)) == PayloadWords(c)
    ensures HostPayloadBytes(c.f, c.args, first) % 8 == 0
  {
    KindsAgree(c.f);
    var a, chunks, bytes := c.args, GuestChunks(c), HostPayloadBytes(c.f, c.args, first);
    assert SizesAgree(chunks, bytes) by {
      match GuestKind(c.f) {
        case LfbLock => OneBlockSizesAgree(chunks, bytes, SIZE_LFBINFO);
        case LfbWrite => OneBlockSizesAgree(chunks, bytes, Arg(a, 5) * Arg(a, 6));
        case PerfStats => OneBlockSizesAgree(chunks, bytes, SIZE_PERFSTATS);
        case HwConfig => OneBlockSizesAgree(chunks, bytes, SIZE_HWCONFIG);
        case File3df => OneBlockSizesAgree(chunks, bytes, SIZE_3DF_NAME);
        case NoPayload =>
        case k =>
          if IsTextureBlock(k) {
            TextureBlockSizesAgree(c, first);
          } else if IsCompound(k) {
            CompoundSizesAgree(c, first);
          } else {
            DrawSizesAgree(c, first);
          }
      }
    }
  }
}
