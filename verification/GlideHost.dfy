/** The host's half of the command FIFO as functions of a snapshot: what processArgs and the API do for one call, for any
    contents of the area, and what a whole drain comes to. */
module GlideHost {
  import opened GlideAbi
  import opened GlideQueue

  /** The two words of the host address of a word of the area. */
  type Address = nat -> (Word, Word)

  const TWO_32 := 0x1_0000_0000
  const PAGE_SIZE := 0x1000

  /** Where a host can have the area: mapped once, at a page boundary of a 47-bit address space. */
  predicate HostBase(base: nat) {
    base > 0 && base % PAGE_SIZE == 0 && base + 4 * GRSHM_WORDS <= 0x8000_0000_0000
  }

  /** The addresses of the words of an area at base. */
  function AddressOf(base: nat): Address {
    p => ((base + 4 * p) % TWO_32, (base + 4 * p) / TWO_32)
  }

  /** A drain under way: the area, the data cursor, and the calls executed so far. */
  datatype Host = Host(s: seq<Word>, j: nat, log: seq<Exec>)

  /** Outside: some pointer the host followed or stored through led out of the area, or out of a vertex cache. */
  datatype Outcome = Ran(host: Host) | Outside

  // One call.

  /** The words from the data cursor on that the call's case reads, hands out or stores to. */
  function Extent(f: int, a: seq<Word>): nat {
    match HostKind(f)
    case FogTable => 18
    case GuMipMapLevel => Aligned(Arg(a, 3)) / 4 + 2
    case LfbLock => 0
    case NoPayload => 0
    case _ => Words(HostPayloadBytes(f, a, 0))
  }

  function FirstWord(s: seq<Word>, p: nat): Word {
    if p < |s| then s[p] else 0
  }

  predicate InArea(s: seq<Word>, f: int, a: seq<Word>, p: nat) {
    |s| == GRSHM_WORDS && (Extent(f, a) == 0 || p + Extent(f, a) <= |s|)
  }

  predicate IndicesFit(s: seq<Word>, a: seq<Word>, p: nat) {
    forall x | x in Slice(s, p, Arg(a, 0)) :: IndexFits(x)
  }

  /** Everything the case needs is in the area, and the indices of a polygon in a vertex cache. */
  predicate Reaches(s: seq<Word>, f: int, a: seq<Word>, p: nat) {
    InArea(s, f, a, p) && (HostKind(f) == Polygon ==> IndicesFit(s, a, p))
  }

  function Overlay(s: seq<Word>, at: nat, r: seq<Word>): (s': seq<Word>)
    requires at + |r| <= |s|
    ensures |s'| == |s| && s'[at..at + |r|] == r
    ensures forall k | 0 <= k < |s| && (k < at || at + |r| <= k) :: s'[k] == s[k]
  {
    s[..at] + r + s[at + |r|..]
  }

  /** The area once processArgs has copied to the output page or stored its pointer. */
  function Prepare(s: seq<Word>, f: int, a: seq<Word>, p: nat, address: Address): (s': seq<Word>)
    requires Reaches(s, f, a, p)
    ensures |s'| == |s|
  {
    if HostKind(f) == GuMipMapLevel then
      var q := p + Aligned(Arg(a, 3)) / 4;
      s[q := address(p).0][q + 1 := address(p).1]
    else
      Overlay(s, OUT_PAGE, CopiedOut(s, f, p))
  }

  /** The last place of an index in the list: the vertex stored there is the one that stays. */
  function LastOf(ilist: seq<Word>, x: Word): (k: nat)
    requires x in ilist
    ensures k < |ilist| && ilist[k] == x
    ensures forall i | k < i < |ilist| :: ilist[i] != x
  {
    var n := |ilist| - 1;
    if ilist[n] == x then n else LastOf(ilist[..n], x)
  }

  /** The vertices the API finds through the index list in the cache the stream was scattered to. */
  function Scattered(ilist: seq<Word>, stream: seq<Word>): (vs: seq<seq<Word>>)
    ensures |vs| == |ilist|
    ensures forall k | 0 <= k < |ilist| :: vs[k] == Slice(stream, 16 * LastOf(ilist, ilist[k]), VERTEX_WORDS)
  {
    seq(|ilist|, k requires 0 <= k < |ilist| => Slice(stream, 16 * LastOf(ilist, ilist[k]), VERTEX_WORDS))
  }

  function PolygonData(s: seq<Word>, a: seq<Word>, p: nat): seq<seq<Word>> {
    var n, vlist := Arg(a, 0), p + Aligned(Arg(a, 0) * 4) / 4;
    [Slice(s, p, n)] + Scattered(Slice(s, p, n), Slice(s, vlist, 16 * n))
  }

  /** The words behind the pointers the API gets. */
  function DataSeen(s: seq<Word>, f: int, a: seq<Word>, p: nat): seq<seq<Word>> {
    if HostKind(f) == Polygon then PolygonData(s, a, p) else PointedAt(s, f, a, p)
  }

  /** The data cursor behind a payload of that many bytes. A size that is none in signed 32 bits, which only a spoilt count
      is, does not take it forward: what the host finds there is not followed, as little as outside the area. */
  function Moved(j: nat, bytes: nat): nat {
    if bytes < 0x8000_0000 then j + Words(bytes) else j + GRSHM_WORDS
  }

  /** processArgs and the call: the cursor moves by what the host takes the payload to be. */
  function HostCall(h: Host, f: int, a: seq<Word>, address: Address): Outcome {
    var p := MAX_FIFO + h.j;
    if !Reaches(h.s, f, a, p) then Outside
    else
      var s' := Prepare(h.s, f, a, p, address);
      var j' := Moved(h.j, HostPayloadBytes(f, a, FirstWord(h.s, p)));
      Ran(Host(s', j', h.log + [Exec(f, a, DataSeen(s', f, a, p))]))
  }

  /** The calls of a drain, one after the other. */
  function HostCalls(h: Host, cs: seq<Call>, address: Address): Outcome
    decreases |cs|
  {
    if cs == [] then Ran(h)
    else
      match HostCall(h, cs[0].f, cs[0].args, address)
      case Outside => Outside
      case Ran(h') => HostCalls(h', cs[1..], address)
  }

  /** What a native API would have seen: the calls of q, one by one, with the data behind their pointers. */
  function Execs(q: seq<Call>): (execs: seq<Exec>)
    ensures |execs| == |q|
    ensures forall k | 0 <= k < |q| :: execs[k] == Native(q[k])
  {
    seq(|q|, k requires 0 <= k < |q| => Native(q[k]))
  }

  lemma ExecsStep(q: seq<Call>, c: Call)
    ensures Execs(q + [c]) == Execs(q) + [Native(c)]
  {
    hide Native, Execs;
  }

  lemma CallIs(h: Host, f: int, a: seq<Word>, address: Address)
    ensures var p := MAX_FIFO + h.j;
            HostCall(h, f, a, address)
            == if !Reaches(h.s, f, a, p) then Outside
               else
                 var s' := Prepare(h.s, f, a, p, address);
                 var j' := Moved(h.j, HostPayloadBytes(f, a, FirstWord(h.s, p)));
                 Ran(Host(s', j', h.log + [Exec(f, a, DataSeen(s', f, a, p))]))
  {
    hide Prepare, Reaches, DataSeen, HostPayloadBytes, Moved, FirstWord;
  }

  // What one call leaves alone.

  lemma PrepareFrame(s: seq<Word>, f: int, a: seq<Word>, p: nat, address: Address)
    requires Reaches(s, f, a, p)
    ensures HostKind(f) == GuMipMapLevel ==> Same(s, Prepare(s, f, a, p, address), 0, p + Aligned(Arg(a, 3)) / 4)
    ensures HostKind(f) == GuMipMapLevel ==>
              Same(s, Prepare(s, f, a, p, address), p + Aligned(Arg(a, 3)) / 4 + 2, GRSHM_WORDS)
    ensures HostKind(f) != GuMipMapLevel ==> Same(s, Prepare(s, f, a, p, address), 0, OUT_PAGE)
  {
    hide CopiedOut, HostKind, Aligned;
  }

  lemma CallFrame(h: Host, f: int, a: seq<Word>, address: Address)
    ensures var o := HostCall(h, f, a, address);
            o.Ran? ==>
              && |h.s| == |o.host.s| == GRSHM_WORDS && h.j <= o.host.j
              && |o.host.log| == |h.log| + 1 && h.log <= o.host.log
              && (h.j <= DATA_ROOM ==> Same(h.s, o.host.s, 0, MAX_FIFO + h.j))
              && (h.j >= FIRST_DATA ==> Same(h.s, o.host.s, 0, MAX_FIFO + FIRST_DATA))
  {
    hide CopiedOut, DataSeen, HostPayloadBytes, Extent, HostKind, Aligned, Words, Prepare;
    if HostCall(h, f, a, address).Ran? {
      PrepareFrame(h.s, f, a, MAX_FIFO + h.j, address);
    }
  }

  /** A drain only ever appends to the log, one entry a call. */
  lemma {:induction false} CallsFrame(h: Host, cs: seq<Call>, address: Address)
    ensures var o := HostCalls(h, cs, address);
            o.Ran? ==>
              && |o.host.log| == |h.log| + |cs| && h.log <= o.host.log && h.j <= o.host.j
              && (cs != [] ==> |o.host.s| == |h.s|)
              && (h.j >= FIRST_DATA ==> Same(h.s, o.host.s, 0, MAX_FIFO + FIRST_DATA))
    decreases |cs|
  {
    hide HostCall;
    if cs != [] {
      CallFrame(h, cs[0].f, cs[0].args, address);
      match HostCall(h, cs[0].f, cs[0].args, address)
      case Outside =>
      case Ran(h') => CallsFrame(h', cs[1..], address);
    }
  }

  // A legal call.

  lemma HostSizeRight(s: seq<Word>, c: Call, p: nat)
    requires p < |s| && Laid(s, p, GuestChunks(c))
    ensures Words(HostPayloadBytes(c.f, c.args, s[p])) == PayloadWords(c)
  {
    hide HostPayloadBytes, PayloadWords, Legal;
    if GuestKind(c.f) == FogTable {
      LaidFew(s, p, GuestChunks(c));
      assert s[p] == s[p..p + 1][0] == FOG_ENTRIES;
    }
    SizeRulesAgree(c, s[p]);
  }

  lemma LevelFits(c: Call)
    requires GuestKind(c.f) == GuMipMapLevel && !BlindLevel(c)
    ensures PayloadWords(c) == EvenUp(Words(Arg(c.args, 3))) + 2
  {
    TotalOfFew(GuestChunks(c));
  }

  lemma BlindIsEmpty(c: Call)
    requires BlindLevel(c)
    ensures GuestChunks(c) == [] && PayloadWords(c) == 0 && NativeData(c) == []
  {
  }

  /** How the snapshot the API sees relates to the one the guest left. */
  ghost predicate Prepared(s: seq<Word>, s': seq<Word>, c: Call, p: nat) {
    && |s| == |s'| == GRSHM_WORDS
    && Slice(s', OUT_PAGE, |CopiedOut(s, c.f, p)|) == CopiedOut(s, c.f, p)
    && Same(s, s', 0, p + if HostKind(c.f) == GuMipMapLevel then EvenUp(Words(Arg(c.args, 3))) else PayloadWords(c))
  }

  /** Whatever the kind, the words behind the host's pointers are the words the API would have read in the guest. */
  lemma DataArrives(s: seq<Word>, s': seq<Word>, c: Call, p: nat)
    requires Legal(c) && GuestKind(c.f) == HostKind(c.f) != Polygon
    requires Laid(s, p, GuestChunks(c)) && p + PayloadWords(c) <= OUT_PAGE
    requires Prepared(s, s', c, p)
    ensures PointedAt(s', c.f, c.args, p) == NativeData(c)
  {
    hide Laid, PointedAt, NativeData, GuestChunks, CopiedOut, Legal, Total;
    if GuestKind(c.f) == GuMipMapLevel {
      LevelArrives(s, s', c, p);
    } else {
      LaidFrame(s, s', p, GuestChunks(c));
      if IsDrawKind(GuestKind(c.f)) {
        DrawsArrive(s', c, p);
      } else if IsCopiedKind(GuestKind(c.f)) {
        if GuestKind(c.f) == TriStats {
          TriStatsWords(c);
        }
        CopiesArrive(s, s', c, p);
      } else {
        BlocksArrive(s', c, p);
      }
    }
  }

  lemma TriStatsWords(c: Call)
    requires GuestKind(c.f) == TriStats
    ensures PayloadWords(c) == 4
  {
    TotalOfFew(GuestChunks(c));
  }

  // Indexed polygons.

  function VertexOf(c: Call, x: Word): (v: seq<Word>)
    ensures |v| == VERTEX_WORDS
  {
    Load(c.mem, Arg(c.args, 2) + SIZE_VERTEX * x, SIZE_VERTEX)
  }

  function IndicesOf(c: Call): (ilist: seq<Word>)
    ensures |ilist| == Arg(c.args, 0)
  {
    Load(c.mem, Arg(c.args, 1), Arg(c.args, 0) * 4)
  }

  lemma SubSlice(s: seq<Word>, p: nat, n: nat, lo: nat, hi: nat)
    requires p + n <= |s| && lo <= hi <= n
    ensures s[p..p + n][lo..hi] == s[p + lo..p + hi]
  {
    var a, b := s[p..p + n][lo..hi], s[p + lo..p + hi];
    assert |a| == |b| && forall i | 0 <= i < |a| :: a[i] == b[i];
  }

  lemma StreamAt(s: seq<Word>, vp: nat, vs: seq<seq<Word>>, k: nat)
    requires Laid(s, vp, vs) && k < |vs| && vp + 16 * |vs| <= |s|
    requires forall i | 0 <= i < |vs| :: |vs[i]| == VERTEX_WORDS
    ensures s[vp..vp + 16 * |vs|][16 * k..16 * k + VERTEX_WORDS] == vs[k]
  {
    hide Laid;
    LaidVertices(s, vp, vs, k);
    SubSlice(s, vp, 16 * |vs|, 16 * k, 16 * k + VERTEX_WORDS);
  }

  /** An index list at p and a stream of vertices, one every 16 words, at vp. */
  ghost predicate StreamedAt(s: seq<Word>, p: nat, vp: nat, ilist: seq<Word>, vs: seq<seq<Word>>) {
    && p + |ilist| <= |s| && s[p..p + |ilist|] == ilist
    && vp + 16 * |vs| <= |s|
    && forall k | 0 <= k < |vs| :: s[vp..vp + 16 * |vs|][16 * k..16 * k + VERTEX_WORDS] == vs[k]
  }

  lemma PolygonSplit(s: seq<Word>, p: nat, ilist: seq<Word>, vs: seq<seq<Word>>)
    requires Laid(s, p, [ilist] + vs) && p + Total([ilist] + vs) <= |s|
    requires forall k | 0 <= k < |vs| :: |vs[k]| == VERTEX_WORDS
    ensures p + |ilist| <= |s| && s[p..p + |ilist|] == ilist
    ensures Laid(s, p + EvenUp(|ilist|), vs)
    ensures p + EvenUp(|ilist|) + 16 * |vs| <= |s|
  {
    assert ([ilist] + vs)[1..] == vs;
    TotalOfVertices(vs);
  }

  lemma PolygonStreamed(s: seq<Word>, p: nat, ilist: seq<Word>, vs: seq<seq<Word>>)
    requires Laid(s, p, [ilist] + vs) && p + Total([ilist] + vs) <= |s|
    requires forall k | 0 <= k < |vs| :: |vs[k]| == VERTEX_WORDS
    ensures StreamedAt(s, p, p + EvenUp(|ilist|), ilist, vs)
  {
    PolygonSplit(s, p, ilist, vs);
    hide Laid, Total, EvenUp;
    var vp := p + EvenUp(|ilist|);
    forall k | 0 <= k < |vs|
      ensures s[vp..vp + 16 * |vs|][16 * k..16 * k + VERTEX_WORDS] == vs[k]
    {
      StreamAt(s, vp, vs, k);
    }
  }

  function VerticesOf(c: Call): (vs: seq<seq<Word>>)
    ensures |vs| == Arg(c.args, 0)
    ensures forall k | 0 <= k < |vs| :: vs[k] == VertexOf(c, IndicesOf(c)[k])
  {
    Gather(c.mem, IndicesOf(c), Arg(c.args, 2))
  }

  /** Where the host finds the index list and the vertex stream of an indexed polygon. */
  lemma PolygonLaid(s: seq<Word>, c: Call, p: nat)
    requires GuestKind(c.f) == Polygon && Laid(s, p, GuestChunks(c)) && p + PayloadWords(c) <= |s|
    ensures StreamedAt(s, p, p + Aligned(Arg(c.args, 0) * 4) / 4, IndicesOf(c), VerticesOf(c))
  {
    hide Laid, Aligned, Total, StreamedAt;
    assert GuestChunks(c) == [IndicesOf(c)] + VerticesOf(c);
    hide GuestChunks, GuestKind;
    AlignedIsEvenWords(4 * Arg(c.args, 0));
    PolygonStreamed(s, p, IndicesOf(c), VerticesOf(c));
  }

  /** However often an index is repeated, what is found under it is its own vertex. */
  lemma ScatteredAre(ilist: seq<Word>, stream: seq<Word>, vs: seq<seq<Word>>, vertex: Word -> seq<Word>)
    requires |vs| == |ilist| && |stream| == 16 * |ilist|
    requires forall k | 0 <= k < |vs| :: stream[16 * k..16 * k + VERTEX_WORDS] == vs[k]
    requires forall k | 0 <= k < |vs| :: vs[k] == vertex(ilist[k])
    ensures Scattered(ilist, stream) == vs
  {
    hide Scattered;
    forall k | 0 <= k < |ilist|
      ensures Scattered(ilist, stream)[k] == vs[k]
    {
      var last := LastOf(ilist, ilist[k]);
      assert stream[16 * last..16 * last + VERTEX_WORDS] == vs[last];
    }
  }

  lemma NativeIsIndexed(c: Call)
    requires GuestKind(c.f) == Polygon
    ensures NativeData(c) == [IndicesOf(c)] + VerticesOf(c)
  {
    var native := NativeVertices(c.mem, Arg(c.args, 0), Arg(c.args, 1), Arg(c.args, 2));
    assert NativeData(c) == [IndicesOf(c)] + native;
    hide NativeData, GuestKind, VerticesOf, NativeVertices, IndicesOf, VertexOf;
    SameVertices(c, native);
  }

  lemma SameVertices(c: Call, native: seq<seq<Word>>)
    requires native == NativeVertices(c.mem, Arg(c.args, 0), Arg(c.args, 1), Arg(c.args, 2))
    ensures VerticesOf(c) == native
  {
    hide VerticesOf, NativeVertices;
    forall k | 0 <= k < |native|
      ensures VerticesOf(c)[k] == native[k]
    {
      assert IndicesOf(c)[k] == c.mem(Arg(c.args, 1) + 4 * k);
    }
  }

  lemma StreamSlices(s: seq<Word>, p: nat, vp: nat, ilist: seq<Word>, vs: seq<seq<Word>>)
    requires StreamedAt(s, p, vp, ilist, vs)
    ensures Slice(s, p, |ilist|) == ilist && |Slice(s, vp, 16 * |vs|)| == 16 * |vs|
    ensures forall k | 0 <= k < |vs| :: Slice(s, vp, 16 * |vs|)[16 * k..16 * k + VERTEX_WORDS] == vs[k]
  {
  }

  lemma PolygonDataIs(s: seq<Word>, a: seq<Word>, p: nat, ilist: seq<Word>, vs: seq<seq<Word>>, vertex: Word -> seq<Word>)
    requires |ilist| == |vs| == Arg(a, 0)
    requires StreamedAt(s, p, p + Aligned(Arg(a, 0) * 4) / 4, ilist, vs)
    requires forall k | 0 <= k < |vs| :: vs[k] == vertex(ilist[k])
    ensures Slice(s, p, Arg(a, 0)) == ilist && PolygonData(s, a, p) == [ilist] + vs
  {
    hide StreamedAt, Slice, Scattered, Aligned, LastOf;
    var vlist := p + Aligned(Arg(a, 0) * 4) / 4;
    StreamSlices(s, p, vlist, ilist, vs);
    ScatteredAre(ilist, Slice(s, vlist, 16 * |vs|), vs, vertex);
  }

  /** An indexed polygon reaches the API as it was in the guest. */
  lemma PolygonArrives(s: seq<Word>, c: Call, p: nat)
    requires GuestKind(c.f) == Polygon && Laid(s, p, GuestChunks(c)) && p + PayloadWords(c) <= |s|
    ensures Slice(s, p, Arg(c.args, 0)) == IndicesOf(c)
    ensures PolygonData(s, c.args, p) == NativeData(c)
  {
    hide StreamedAt, PolygonData, NativeData, VerticesOf, IndicesOf, VertexOf, Laid, GuestChunks, Slice, PayloadWords;
    PolygonLaid(s, c, p);
    NativeIsIndexed(c);
    PolygonDataIs(s, c.args, p, IndicesOf(c), VerticesOf(c), x => VertexOf(c, x));
  }

  // What a call needs of the area.

  /** The call's case reads from or stores to the data area. */
  predicate Touches(c: Call) {
    Extent(c.f, c.args) > 0
  }

  /** What a call touches is its own payload, but for the pointer stored behind a texture level that was not sent. */
  lemma ExtentFits(c: Call)
    requires !BlindLevel(c)
    ensures Extent(c.f, c.args) <= PayloadWords(c)
    ensures Extent(c.f, c.args) == PayloadWords(c) || GuestKind(c.f) == LfbLock
  {
    KindsAgree(c.f);
    hide HostPayloadBytes, PayloadWords;
    match GuestKind(c.f)
    case FogTable => FogWords(c);
    case GuMipMapLevel =>
      AlignedIsEvenWords(Arg(c.args, 3));
      LevelFits(c);
    case LfbLock =>
    case NoPayload => NoWords(c);
    case _ => SizeRulesAgree(c, 0);
  }

  lemma FogWords(c: Call)
    requires GuestKind(c.f) == FogTable
    ensures PayloadWords(c) == 18
  {
    TotalOfFew(GuestChunks(c));
  }

  lemma NoWords(c: Call)
    requires GuestKind(c.f) == NoPayload
    ensures PayloadWords(c) == 0
  {
  }

  // One call of a drain.

  /** The payload of a call lies at the data cursor, and ends before the output page. */
  ghost predicate AtCursor(h: Host, c: Call) {
    && |h.s| == GRSHM_WORDS
    && Laid(h.s, MAX_FIFO + h.j, GuestChunks(c))
    && h.j + PayloadWords(c) <= DATA_ROOM
  }

  lemma ExtentReaches(h: Host, c: Call)
    requires AtCursor(h, c) && !BlindLevel(c)
    ensures Extent(c.f, c.args) == 0 || MAX_FIFO + h.j + Extent(c.f, c.args) <= |h.s|
  {
    ExtentFits(c);
  }

  lemma IndicesAre(c: Call)
    requires GuestKind(c.f) == Polygon
    ensures (forall x | x in IndicesOf(c) :: IndexFits(x)) <==> IndicesInRange(c)
  {
    hide IndexFits;
    var ilist := IndicesOf(c);
    if forall x | x in ilist :: IndexFits(x) {
      forall i | 0 <= i < |ilist|
        ensures IndexFits(c.mem(Arg(c.args, 1) + 4 * i))
      {
        assert ilist[i] in ilist;
      }
    } else {
      var x :| x in ilist && !IndexFits(x);
      var i :| 0 <= i < |ilist| && ilist[i] == x;
      assert !IndexFits(c.mem(Arg(c.args, 1) + 4 * i));
    }
  }

  lemma PolygonReaches(h: Host, c: Call)
    requires AtCursor(h, c) && GuestKind(c.f) == Polygon
    ensures IndicesFit(h.s, c.args, MAX_FIFO + h.j) <==> IndicesInRange(c)
  {
    hide Laid, GuestChunks, PayloadWords, NativeData, PolygonData, Slice, IndicesOf, IndexFits, IndicesInRange;
    IndicesAre(c);
    PolygonArrives(h.s, c, MAX_FIFO + h.j);
  }

  /** Of what the wrapper sent, only the indices of a polygon can lead the host astray. */
  lemma ReachesExactly(h: Host, c: Call)
    requires AtCursor(h, c) && !BlindLevel(c)
    ensures Reaches(h.s, c.f, c.args, MAX_FIFO + h.j) <==> IndicesInRange(c)
  {
    KindsAgree(c.f);
    hide GuestKind, HostKind, IndicesInRange, IndicesFit, Laid, GuestChunks, PayloadWords, BlindLevel, Extent;
    ExtentReaches(h, c);
    if GuestKind(c.f) == Polygon {
      PolygonReaches(h, c);
    } else {
      OtherIndices(c);
    }
  }

  lemma OtherIndices(c: Call)
    requires GuestKind(c.f) != Polygon
    ensures IndicesInRange(c)
  {
  }

  lemma PreparedSo(s: seq<Word>, c: Call, p: nat, address: Address)
    requires Reaches(s, c.f, c.args, p) && p + PayloadWords(c) <= OUT_PAGE
    ensures Prepared(s, Prepare(s, c.f, c.args, p, address), c, p)
  {
    PrepareFrame(s, c.f, c.args, p, address);
    AlignedIsEvenWords(Arg(c.args, 3));
    PreparedCopies(s, c.f, c.args, p, address);
    hide Prepare, CopiedOut, HostKind, Extent, Aligned, Words, EvenUp, PayloadWords;
  }

  lemma PreparedCopies(s: seq<Word>, f: int, a: seq<Word>, p: nat, address: Address)
    requires Reaches(s, f, a, p)
    ensures var out := CopiedOut(s, f, p); Slice(Prepare(s, f, a, p, address), OUT_PAGE, |out|) == out
  {
    hide Extent, Aligned;
  }

  lemma NativeData0(s: seq<Word>, s': seq<Word>, c: Call, p: nat)
    requires Legal(c) && Laid(s, p, GuestChunks(c)) && p + PayloadWords(c) <= OUT_PAGE
    requires Prepared(s, s', c, p)
    ensures DataSeen(s', c.f, c.args, p) == NativeData(c)
  {
    KindsAgree(c.f);
    if HostKind(c.f) == Polygon {
      hide Laid, PolygonData, NativeData, GuestChunks, CopiedOut, Legal, PointedAt, Total;
      LaidFrame(s, s', p, GuestChunks(c));
      PolygonArrives(s', c, p);
    } else {
      hide Laid, PolygonData, NativeData, GuestChunks, CopiedOut, Legal, PointedAt, Total, Prepared;
      DataArrives(s, s', c, p);
    }
  }

  lemma SizeAt(h: Host, c: Call)
    requires AtCursor(h, c)
    ensures Moved(h.j, HostPayloadBytes(c.f, c.args, FirstWord(h.s, MAX_FIFO + h.j))) == h.j + PayloadWords(c)
  {
    hide HostPayloadBytes, PayloadWords, Laid, GuestChunks, Words, Moved;
    HostSizeRight(h.s, c, MAX_FIFO + h.j);
    MovedByWords(h.j, HostPayloadBytes(c.f, c.args, FirstWord(h.s, MAX_FIFO + h.j)));
  }

  lemma MovedByWords(j: nat, bytes: nat)
    requires Words(bytes) <= GRSHM_WORDS
    ensures Moved(j, bytes) == j + Words(bytes)
  {
  }

  /** The words a call leaves alone behind its payload. */
  lemma PrepareStays(s: seq<Word>, c: Call, p: nat, address: Address)
    requires Reaches(s, c.f, c.args, p) && !BlindLevel(c)
    ensures Same(s, Prepare(s, c.f, c.args, p, address), p + PayloadWords(c), OUT_PAGE)
  {
    PrepareFrame(s, c.f, c.args, p, address);
    KindsAgree(c.f);
    if HostKind(c.f) == GuMipMapLevel {
      LevelFits(c);
      AlignedIsEvenWords(Arg(c.args, 3));
    }
    hide Prepare, PayloadWords, Aligned, Words, EvenUp, Reaches;
  }

  /** A call whose payload is at the cursor runs natively, and the cursor moves past that payload, exactly when its
      indices are in range; otherwise the host leaves its memory. */
  lemma NativeStep(h: Host, c: Call, address: Address)
    requires AtCursor(h, c) && ArgsFit(c.f, c.args) && !BlindLevel(c)
    ensures var o := HostCall(h, c.f, c.args, address);
            && (o.Ran? <==> IndicesInRange(c))
            && (o.Ran? ==>
                  && o.host.j == h.j + PayloadWords(c) && o.host.log == h.log + [Native(c)]
                  && Same(h.s, o.host.s, MAX_FIFO + h.j + PayloadWords(c), OUT_PAGE))
  {
    hide Prepare, DataSeen, NativeData, HostPayloadBytes, Words, Laid, GuestChunks, PayloadWords, ArgsFit, IndicesInRange,
      BlindLevel, Prepared, Reaches, Moved;
    ReachesExactly(h, c);
    var p := MAX_FIFO + h.j;
    if Reaches(h.s, c.f, c.args, p) {
      SizeAt(h, c);
      PreparedSo(h.s, c, p, address);
      NativeData0(h.s, Prepare(h.s, c.f, c.args, p, address), c, p);
      PrepareStays(h.s, c, p, address);
    }
  }

  // Behind a texture level that was not sent.

  /** For a texture handle the wrapper does not know nothing is sent and the host stores its pointer all the same: the
      two words at the data cursor are lost, and the cursor stays where it is. */
  lemma BlindStep(h: Host, c: Call, address: Address)
    requires BlindLevel(c) && |h.s| == GRSHM_WORDS && h.j <= DATA_ROOM
    ensures var p := MAX_FIFO + h.j;
            var (lo, hi) := address(p);
            HostCall(h, c.f, c.args, address) == Ran(Host(h.s[p := lo][p + 1 := hi], h.j, h.log + [Native(c)]))
  {
    KindsAgree(c.f);
  }

  lemma UntouchedKinds(c: Call)
    requires !Touches(c)
    ensures HostKind(c.f) !in {OneVertex, TwoVertices, ThreeVertices, FogTable, TexSource, TexMipMap, TexTable, TexTablePartial,
              TexMemRequired, GuMipMapLevel, PerfStats, HwConfig, TriStats, File3df}
    ensures HostKind(c.f) in {Polygon, VertexList} ==> Arg(c.args, 0) == 0
    ensures HostKind(c.f) == TexMipMapLevel ==> Arg(c.args, 8) == 0
    ensures HostKind(c.f) == TexMipMapPartial ==> Arg(c.args, 10) == 0
    ensures HostKind(c.f) == GuMipMap ==> Arg(c.args, 2) == Arg(c.args, 3) == 0
    ensures HostKind(c.f) == LfbWrite ==> Arg(c.args, 5) * Arg(c.args, 6) == 0
  {
  }

  lemma NothingThere(s: seq<Word>, p: nat)
    ensures Slice(s, p, 0) == []
  {
  }

  lemma EmptyPolygon(s: seq<Word>, c: Call, p: nat)
    requires HostKind(c.f) == GuestKind(c.f) == Polygon && Arg(c.args, 0) == 0
    ensures DataSeen(s, c.f, c.args, p) == [[]] && NativeData(c) == [[]]
  {
    NothingThere(s, p);
    hide Slice, Aligned;
  }

  lemma UntouchedData(s: seq<Word>, c: Call, p: nat)
    requires !Touches(c)
    ensures DataSeen(s, c.f, c.args, p) == NativeData(c)
  {
    KindsAgree(c.f);
    UntouchedKinds(c);
    NothingThere(s, p);
    hide Aligned, HostPayloadBytes, Extent, Slice, Touches, PolygonData;
    if HostKind(c.f) == Polygon {
      EmptyPolygon(s, c, p);
    }
  }

  lemma UntouchedPrepared(s: seq<Word>, c: Call, p: nat, address: Address)
    requires !Touches(c) && |s| == GRSHM_WORDS
    ensures Reaches(s, c.f, c.args, p) && Prepare(s, c.f, c.args, p, address) == s
  {
    UntouchedKinds(c);
    hide Aligned, HostPayloadBytes;
    assert CopiedOut(s, c.f, p) == [];
    if HostKind(c.f) == Polygon {
      assert Slice(s, p, 0) == [];
    }
  }

  /** A call that touches nothing runs natively wherever the cursor is and whatever the area holds. */
  lemma UntouchedStep(h: Host, c: Call, address: Address)
    requires !Touches(c) && |h.s| == GRSHM_WORDS
    ensures HostCall(h, c.f, c.args, address) == Ran(Host(h.s, h.j + PayloadWords(c), h.log + [Native(c)]))
  {
    hide DataSeen, HostPayloadBytes, Words, PayloadWords, Prepare, Reaches, NativeData, Extent, HostKind, Moved;
    var p := MAX_FIFO + h.j;
    UntouchedData(h.s, c, p);
    UntouchedPrepared(h.s, c, p, address);
    UntouchedSize(c, FirstWord(h.s, p));
    MovedByWords(h.j, HostPayloadBytes(c.f, c.args, FirstWord(h.s, p)));
  }

  lemma UntouchedSize(c: Call, first: Word)
    requires !Touches(c)
    ensures Words(HostPayloadBytes(c.f, c.args, first)) == PayloadWords(c) <= 6
  {
    UntouchedKinds(c);
    KindsAgree(c.f);
    assert Words(HostPayloadBytes(c.f, c.args, first)) <= 6;
    hide HostPayloadBytes, PayloadWords, Words, Extent;
    SizeRulesAgree(c, first);
  }

  // What a touching call shows of the word at the cursor.

  /** The first word a wrapper sends. */
  function FirstSent(c: Call): Word {
    if GuestChunks(c) != [] && GuestChunks(c)[0] != [] then GuestChunks(c)[0][0] else 0
  }

  lemma TouchedKinds(c: Call)
    requires Touches(c)
    ensures HostKind(c.f) !in {NoPayload, LfbLock}
    ensures HostKind(c.f) in {Polygon, VertexList} ==> Arg(c.args, 0) > 0
    ensures HostKind(c.f) == TexMipMapLevel ==> Arg(c.args, 8) > 0
    ensures HostKind(c.f) == TexMipMapPartial ==> Arg(c.args, 10) > 0
    ensures HostKind(c.f) == GuMipMap ==> Arg(c.args, 2) > 0 || Arg(c.args, 3) > 0
    ensures HostKind(c.f) == LfbWrite ==> Arg(c.args, 5) * Arg(c.args, 6) > 0
  {
  }

  /** That word is the first one behind the first pointer of a native call. */
  lemma NativeFirst(c: Call)
    requires Touches(c) && !BlindLevel(c) && GuestKind(c.f) != FogTable
    ensures var data := NativeData(c); data != [] && data[0] != [] && data[0][0] == FirstSent(c)
  {
    KindsAgree(c.f);
    TouchedKinds(c);
    hide Aligned, HostPayloadBytes, Extent;
  }

  /** The words behind the first pointer of a call. */
  function FirstBlock(f: int, a: seq<Word>): nat {
    match HostKind(f)
    case OneVertex => VERTEX_WORDS
    case TwoVertices => VERTEX_WORDS
    case ThreeVertices => VERTEX_WORDS
    case Polygon => Arg(a, 0)
    case VertexList => Arg(a, 0) * VERTEX_WORDS
    case TexMipMapLevel => Words(Arg(a, 8))
    case TexMipMapPartial => Words(Arg(a, 10))
    case TexTable => Words(if Arg(a, 1) == TEXTABLE_PALETTE then SIZE_PALETTE else SIZE_NCCTABLE)
    case TexTablePartial => Words(if Arg(a, 1) == TEXTABLE_PALETTE then (Arg(a, 4) + 1) * 4 else SIZE_NCCTABLE)
    case GuMipMap => if Arg(a, 3) != 0 then Words(Arg(a, 3)) else Words(SIZE_NCCTABLE)
    case GuMipMapLevel => Words(Arg(a, 3))
    case LfbWrite => Words(Arg(a, 5) * Arg(a, 6))
    case File3df => Words(SIZE_3DF_NAME)
    case TexSource => 4
    case TexMipMap => 4
    case TexMemRequired => 4
    case PerfStats => Words(SIZE_PERFSTATS)
    case HwConfig => Words(SIZE_HWCONFIG)
    case TriStats => 1
    case _ => 0
  }

  lemma SomeWords(n: nat)
    requires n > 0
    ensures Words(n) > 0 && Words(n) <= Words(Aligned(n))
  {
  }

  lemma FirstBlockFits(c: Call)
    requires Touches(c) && !BlindLevel(c) && HostKind(c.f) != FogTable
    ensures 0 < FirstBlock(c.f, c.args) <= Extent(c.f, c.args)
  {
    KindsAgree(c.f);
    TouchedKinds(c);
    var a := c.args;
    match HostKind(c.f)
    case Polygon => ListHolds(Arg(a, 0));
    case VertexList => StreamHolds(Arg(a, 0));
    case TexMipMapLevel => SomeWords(Arg(a, 8));
    case TexMipMapPartial => SomeWords(Arg(a, 10));
    case TexTablePartial => SomeWords((Arg(a, 4) + 1) * 4);
    case TexMipMap => LevelHolds(Arg(a, 4));
    case GuMipMap => LevelsHold(Arg(a, 3));
    case GuMipMapLevel => BlindHolds(Arg(a, 3));
    case LfbWrite => SomeWords(Arg(a, 5) * Arg(a, 6));
    case _ =>
  }

  lemma SliceFirst(s: seq<Word>, p: nat, n: nat)
    requires 0 < n && p + n <= |s|
    ensures Slice(s, p, n) != [] && Slice(s, p, n)[0] == s[p]
  {
  }

  lemma SeenFirst(s: seq<Word>, s': seq<Word>, c: Call, p: nat)
    requires Touches(c) && !BlindLevel(c) && HostKind(c.f) != FogTable
    requires |s| == |s'| == GRSHM_WORDS && p + Extent(c.f, c.args) <= OUT_PAGE && s'[p] == s[p]
    requires Slice(s', OUT_PAGE, |CopiedOut(s, c.f, p)|) == CopiedOut(s, c.f, p)
    ensures var data := DataSeen(s', c.f, c.args, p); data != [] && data[0] != [] && data[0][0] == s[p]
  {
    KindsAgree(c.f);
    hide Extent;
    FirstBlockFits(c);
    if IsCopiedKind(HostKind(c.f)) {
      CopiedFirst(s, s', c, p);
    } else {
      TouchedKinds(c);
      hide Slice, Words, Aligned, CopiedOut, Scattered, FirstBlock;
      SliceFirst(s', p, FirstBlock(c.f, c.args));
      SeenBlock(s', c, p);
    }
  }

  lemma SeenBlock(s: seq<Word>, c: Call, p: nat)
    requires Touches(c) && !BlindLevel(c) && HostKind(c.f) != FogTable && !IsCopiedKind(HostKind(c.f))
    ensures var data := DataSeen(s, c.f, c.args, p); data != [] && data[0] == Slice(s, p, FirstBlock(c.f, c.args))
  {
    TouchedKinds(c);
    KindsAgree(c.f);
    hide Slice, Words, Aligned, Scattered, Extent;
  }

  lemma CopiedFirst(s: seq<Word>, s': seq<Word>, c: Call, p: nat)
    requires IsCopiedKind(HostKind(c.f))
    requires |s| == |s'| == GRSHM_WORDS && p < OUT_PAGE
    requires Slice(s', OUT_PAGE, |CopiedOut(s, c.f, p)|) == CopiedOut(s, c.f, p)
    ensures var data := DataSeen(s', c.f, c.args, p); data != [] && data[0] != [] && data[0][0] == s[p]
  {
    var out := CopiedOut(s, c.f, p);
    assert |out| >= 4 && out[0] == s[p];
    assert s'[OUT_PAGE] == out[0];
  }

  lemma ListHolds(n: nat)
    ensures n <= Words(Aligned(n * 4) + n * Aligned(SIZE_VERTEX))
  {
  }

  lemma StreamHolds(n: nat)
    ensures n * VERTEX_WORDS <= Words(Aligned(n * SIZE_VERTEX))
  {
  }

  lemma LevelHolds(n: nat)
    ensures 4 <= Words(Aligned(SIZE_TEXINFO) + Aligned(n))
  {
  }

  lemma LevelsHold(n: nat)
    ensures Words(n) <= Words(Aligned(n)) && Words(n) <= Words(Aligned(n) + SIZE_NCCTABLE) && (n > 0 ==> 0 < Words(n))
  {
  }

  lemma BlindHolds(n: nat)
    requires n > 0
    ensures 0 < Words(n) <= Aligned(n) / 4 + 2
  {
  }

  lemma DataDiffers(s: seq<Word>, c: Call, p: nat, address: Address)
    requires Reaches(s, c.f, c.args, p) && p + PayloadWords(c) <= OUT_PAGE
    requires Touches(c) && !BlindLevel(c) && GuestKind(c.f) != FogTable
    requires s[p] != FirstSent(c)
    ensures DataSeen(Prepare(s, c.f, c.args, p, address), c.f, c.args, p) != NativeData(c)
  {
    KindsAgree(c.f);
    ExtentFits(c);
    hide DataSeen, NativeData, HostPayloadBytes, Words, PayloadWords, Extent, FirstSent, BlindLevel, CopiedOut;
    PreparedCopies(s, c.f, c.args, p, address);
    FirstWordStays(s, c, p, address);
    hide Prepare, Reaches;
    SeenFirst(s, Prepare(s, c.f, c.args, p, address), c, p);
    NativeFirst(c);
  }

  /** With another first word at the cursor than the one that was sent, the call is not the native one. */
  lemma Sensitive(h: Host, c: Call, address: Address)
    requires |h.s| == GRSHM_WORDS && h.j + PayloadWords(c) <= DATA_ROOM
    requires Touches(c) && !BlindLevel(c) && GuestKind(c.f) != FogTable
    requires h.s[MAX_FIFO + h.j] != FirstSent(c)
    ensures var o := HostCall(h, c.f, c.args, address);
            o.Ran? ==> o.host.log != h.log + [Native(c)]
  {
    hide DataSeen, NativeData, HostPayloadBytes, Words, PayloadWords, Prepare, FirstSent, Reaches, BlindLevel, GuestKind, Touches;
    var p := MAX_FIFO + h.j;
    if Reaches(h.s, c.f, c.args, p) {
      DataDiffers(h.s, c, p, address);
      assert (h.log + [Native(c)])[|h.log|] == Native(c);
    }
  }

  lemma FirstWordStays(s: seq<Word>, c: Call, p: nat, address: Address)
    requires Reaches(s, c.f, c.args, p) && !BlindLevel(c) && p < OUT_PAGE
    ensures Prepare(s, c.f, c.args, p, address)[p] == s[p]
  {
    KindsAgree(c.f);
    PrepareFrame(s, c.f, c.args, p, address);
    if HostKind(c.f) == GuMipMapLevel {
      BlindHolds(Arg(c.args, 3));
      AlignedIsEvenWords(Arg(c.args, 3));
    }
    hide Prepare, Reaches;
  }

  /** A fog table behind such a level: its entries are where the host looks for them, but its size is the word that was
      stored over its count. */
  lemma FogStep(h: Host, c: Call, sent: seq<Word>, address: Address)
    requires GuestKind(c.f) == FogTable && |h.s| == GRSHM_WORDS
    requires Laid(sent, MAX_FIFO + h.j, GuestChunks(c)) && h.j + PayloadWords(c) <= DATA_ROOM
    requires Same(sent, h.s, MAX_FIFO + h.j + 2, OUT_PAGE)
    ensures var p := MAX_FIFO + h.j;
            HostCall(h, c.f, c.args, address)
            == Ran(Host(h.s, Moved(h.j, 8 + Aligned(h.s[p])), h.log + [Native(c)]))
  {
    hide Laid, GuestChunks, Total, PayloadWords, NativeData, Native, GuestKind, HostKind, HostCall, Prepare, Reaches, DataSeen,
      Moved, Aligned, HostPayloadBytes, FirstWord, Same, Extent;
    FogWords(c);
    var p := MAX_FIFO + h.j;
    FogReaches(h.s, c, p, address);
    FogSeen(sent, h.s, c, p);
    CallIs(h, c.f, c.args, address);
    NativeIs(c);
  }

  lemma NativeIs(c: Call)
    ensures Native(c) == Exec(c.f, c.args, NativeData(c))
  {
  }

  lemma FogReaches(s: seq<Word>, c: Call, p: nat, address: Address)
    requires GuestKind(c.f) == FogTable && |s| == GRSHM_WORDS && p + 18 <= OUT_PAGE
    ensures Reaches(s, c.f, c.args, p) && Prepare(s, c.f, c.args, p, address) == s
    ensures HostPayloadBytes(c.f, c.args, FirstWord(s, p)) == 8 + Aligned(s[p])
  {
    KindsAgree(c.f);
    assert Overlay(s, OUT_PAGE, []) == s;
    assert Aligned(4) == 8;
  }

  lemma FogSeen(sent: seq<Word>, s: seq<Word>, c: Call, p: nat)
    requires GuestKind(c.f) == FogTable && p + 18 <= OUT_PAGE <= |s|
    requires Laid(sent, p, GuestChunks(c)) && Same(sent, s, p + 2, OUT_PAGE)
    ensures DataSeen(s, c.f, c.args, p) == NativeData(c)
  {
    KindsAgree(c.f);
    hide Laid;
    LaidFew(sent, p, GuestChunks(c));
    assert s[p + 2..p + 18] == sent[p + 2..p + 18];
  }

  // A whole drain.

  /** The payloads of the calls lie one behind the other from the data cursor on, before the output page. */
  ghost predicate CallsLaid(s: seq<Word>, j: nat, cs: seq<Call>)
    decreases |cs|
  {
    && |s| == GRSHM_WORDS && j <= DATA_ROOM
    && (cs != [] ==> Laid(s, MAX_FIFO + j, GuestChunks(cs[0])) && CallsLaid(s, j + PayloadWords(cs[0]), cs[1..]))
  }

  ghost predicate AllFit(cs: seq<Call>) {
    forall k | 0 <= k < |cs| :: ArgsFit(cs[k].f, cs[k].args)
  }

  lemma {:induction false} CallsLaidFrame(s: seq<Word>, s': seq<Word>, j: nat, cs: seq<Call>)
    requires CallsLaid(s, j, cs) && Same(s, s', MAX_FIFO + j, OUT_PAGE)
    ensures CallsLaid(s', j, cs)
    decreases |cs|
  {
    hide Laid, GuestChunks, Total;
    if cs != [] {
      LaidFrame(s, s', MAX_FIFO + j, GuestChunks(cs[0]));
      CallsLaidFrame(s, s', j + PayloadWords(cs[0]), cs[1..]);
    }
  }

  lemma ExecsHead(cs: seq<Call>)
    requires cs != []
    ensures Execs(cs) == [Native(cs[0])] + Execs(cs[1..])
  {
    hide Native, Execs;
  }

  /** The drain ends with exactly these calls, each with its native data, added to the log. */
  ghost predicate RunsNatively(h: Host, cs: seq<Call>, address: Address) {
    HostCalls(h, cs, address).Ran? && HostCalls(h, cs, address).host.log == h.log + Execs(cs)
  }

  /** A drain is native exactly when its first call is and the rest is. */
  lemma RunsStep(h: Host, cs: seq<Call>, address: Address)
    requires cs != []
    ensures var o := HostCall(h, cs[0].f, cs[0].args, address);
            RunsNatively(h, cs, address)
            <==> o.Ran? && o.host.log == h.log + [Native(cs[0])] && RunsNatively(o.host, cs[1..], address)
  {
    hide HostCall, Native, Execs;
    ExecsHead(cs);
    CallFrame(h, cs[0].f, cs[0].args, address);
    match HostCall(h, cs[0].f, cs[0].args, address)
    case Outside =>
    case Ran(h') =>
      CallsFrame(h', cs[1..], address);
      if RunsNatively(h, cs, address) {
        var log := h.log + Execs(cs);
        assert log[..|h'.log|] == h.log + [Native(cs[0])];
      } else if h'.log == h.log + [Native(cs[0])] {
        assert h'.log + Execs(cs[1..]) == h.log + Execs(cs);
      }
  }

  /** What may follow a level that was not sent: more of these, calls that touch nothing, and one fog table behind which
      no call touches anything. */
  predicate Harmless(cs: seq<Call>) {
    cs == []
    || if BlindLevel(cs[0]) || !Touches(cs[0]) then Harmless(cs[1..])
       else GuestKind(cs[0].f) == FogTable && forall k | 1 <= k < |cs| :: !Touches(cs[k])
  }

  /** The drains that are native whatever the addresses of the host are. */
  predicate Carries(cs: seq<Call>) {
    cs == []
    || if BlindLevel(cs[0]) then Harmless(cs[1..]) else IndicesInRange(cs[0]) && Carries(cs[1..])
  }

  lemma {:induction false} UntouchedRun(h: Host, cs: seq<Call>, address: Address)
    requires |h.s| == GRSHM_WORDS && forall k | 0 <= k < |cs| :: !Touches(cs[k])
    ensures RunsNatively(h, cs, address)
    decreases |cs|
  {
    hide HostCall, Native, Execs, PayloadWords, Touches;
    if cs == [] {
      ExecsEmpty();
    } else {
      UntouchedStep(h, cs[0], address);
      RunsStep(h, cs, address);
      UntouchedRun(HostCall(h, cs[0].f, cs[0].args, address).host, cs[1..], address);
    }
  }

  lemma ExecsEmpty()
    ensures Execs([]) == []
  {
  }

  lemma NothingRuns(h: Host, address: Address)
    ensures RunsNatively(h, [], address)
  {
  }

  lemma {:induction false} HarmlessRun(h: Host, sent: seq<Word>, cs: seq<Call>, address: Address)
    requires CallsLaid(sent, h.j, cs) && Same(sent, h.s, MAX_FIFO + h.j + 2, OUT_PAGE) && Harmless(cs)
    ensures RunsNatively(h, cs, address)
    decreases |cs|
  {
    hide HostCall, Native, Execs, GuestChunks, Total, Laid, Touches, RunsNatively, BlindLevel;
    if cs == [] {
      NothingRuns(h, address);
    } else {
      RunsStep(h, cs, address);
      if BlindLevel(cs[0]) {
        BlindStep(h, cs[0], address);
        BlindIsEmpty(cs[0]);
        HarmlessRun(HostCall(h, cs[0].f, cs[0].args, address).host, sent, cs[1..], address);
      } else if !Touches(cs[0]) {
        UntouchedStep(h, cs[0], address);
        HarmlessRun(HostCall(h, cs[0].f, cs[0].args, address).host, sent, cs[1..], address);
      } else {
        FogStep(h, cs[0], sent, address);
        UntouchedRun(HostCall(h, cs[0].f, cs[0].args, address).host, cs[1..], address);
      }
    }
  }

  lemma {:induction false} CarriesRun(h: Host, cs: seq<Call>, address: Address)
    requires CallsLaid(h.s, h.j, cs) && AllFit(cs) && Carries(cs)
    ensures RunsNatively(h, cs, address)
    decreases |cs|
  {
    hide HostCall, Native, Execs, GuestChunks, Total, Laid, Touches, RunsNatively, BlindLevel, ArgsFit, Harmless, IndicesInRange;
    if cs == [] {
      NothingRuns(h, address);
    } else {
      RunsStep(h, cs, address);
      if BlindLevel(cs[0]) {
        BlindStep(h, cs[0], address);
        BlindIsEmpty(cs[0]);
        HarmlessRun(HostCall(h, cs[0].f, cs[0].args, address).host, h.s, cs[1..], address);
      } else {
        FirstAtCursor(h, cs);
        NativeStep(h, cs[0], address);
        var h' := HostCall(h, cs[0].f, cs[0].args, address).host;
        CallsLaidFrame(h.s, h'.s, h'.j, cs[1..]);
        CarriesRun(h', cs[1..], address);
      }
    }
  }

  lemma FirstAtCursor(h: Host, cs: seq<Call>)
    requires CallsLaid(h.s, h.j, cs) && cs != []
    ensures AtCursor(h, cs[0])
  {
    hide Laid, GuestChunks, Total;
  }

  /** The low half of a stored pointer shows: it is another first word than the one that was sent with the first call
      behind the level that touches the area, or a size that takes the cursor out of the area if that call is a fog
      table. */
  predicate Shows(cs: seq<Call>, lo: Word) {
    if cs == [] then true
    else if BlindLevel(cs[0]) || !Touches(cs[0]) then Shows(cs[1..], lo)
    else if GuestKind(cs[0].f) == FogTable then lo >= 4 * GRSHM_WORDS
    else lo != FirstSent(cs[0])
  }

  /** The pointer stored at the first level that was not sent, with the data cursor at j before these calls, shows. */
  predicate ShowsAt(j: nat, cs: seq<Call>, address: Address)
    decreases |cs|
  {
    if cs == [] then true
    else if BlindLevel(cs[0]) then Shows(cs[1..], address(MAX_FIFO + j).0)
    else ShowsAt(j + PayloadWords(cs[0]), cs[1..], address)
  }

  // Two places for the area, one of which always shows.
  const ONE_BASE := 0x7F00_1000_0000
  const OTHER_BASE := 0x7F00_2000_0000

  lemma TwoBases(p: nat)
    requires p < GRSHM_WORDS
    ensures HostBase(ONE_BASE) && HostBase(OTHER_BASE)
    ensures AddressOf(ONE_BASE)(p).0 == 0x1000_0000 + 4 * p && AddressOf(OTHER_BASE)(p).0 == 0x2000_0000 + 4 * p
  {
    assert ONE_BASE + 4 * p == TWO_32 * 0x7F00 + (0x1000_0000 + 4 * p);
    assert OTHER_BASE + 4 * p == TWO_32 * 0x7F00 + (0x2000_0000 + 4 * p);
  }

  lemma {:induction false} OneShows(cs: seq<Call>, lo: Word, lo': Word)
    requires lo != lo' && lo >= 4 * GRSHM_WORDS && lo' >= 4 * GRSHM_WORDS
    ensures Shows(cs, lo) || Shows(cs, lo')
    decreases |cs|
  {
    hide BlindLevel, Touches, GuestKind, FirstSent;
    if cs != [] {
      OneShows(cs[1..], lo, lo');
    }
  }

  lemma {:induction false} OneBaseShows(s: seq<Word>, j: nat, cs: seq<Call>)
    requires CallsLaid(s, j, cs)
    ensures ShowsAt(j, cs, AddressOf(ONE_BASE)) || ShowsAt(j, cs, AddressOf(OTHER_BASE))
    decreases |cs|
  {
    hide Laid, GuestChunks, Total, BlindLevel, Shows, AddressOf;
    if cs != [] {
      TwoBases(MAX_FIFO + j);
      OneShows(cs[1..], AddressOf(ONE_BASE)(MAX_FIFO + j).0, AddressOf(OTHER_BASE)(MAX_FIFO + j).0);
      OneBaseShows(s, j + PayloadWords(cs[0]), cs[1..]);
    }
  }

  /** A base with which what the calls of a drain leave behind shows. */
  function ShowingBase(j: nat, cs: seq<Call>): (base: nat)
    ensures HostBase(base)
  {
    TwoBases(0);
    if ShowsAt(j, cs, AddressOf(ONE_BASE)) then ONE_BASE else OTHER_BASE
  }

  /** With the cursor out of the area the next call that touches it leaves it. */
  lemma {:induction false} LostCursor(h: Host, cs: seq<Call>, address: Address, k: nat)
    requires |h.s| == GRSHM_WORDS && h.j >= GRSHM_WORDS
    requires k < |cs| && Touches(cs[k])
    ensures !RunsNatively(h, cs, address)
    decreases |cs|
  {
    hide HostCall, Native, Execs, PayloadWords, Touches, RunsNatively;
    RunsStep(h, cs, address);
    if Touches(cs[0]) {
      OutOfReach(h, cs[0], address);
    } else {
      UntouchedStep(h, cs[0], address);
      LostCursor(HostCall(h, cs[0].f, cs[0].args, address).host, cs[1..], address, k - 1);
    }
  }

  lemma OutOfReach(h: Host, c: Call, address: Address)
    requires h.j >= GRSHM_WORDS && Touches(c)
    ensures HostCall(h, c.f, c.args, address) == Outside
  {
    hide Extent;
  }

  ghost predicate OnlyLastTraps(cs: seq<Call>) {
    forall k | 0 <= k < |cs| - 1 :: Queueable(cs[k].f)
  }

  lemma UntouchedIsEmpty(c: Call)
    requires !Touches(c) && Queueable(c.f)
    ensures PayloadWords(c) == 0
  {
    UntouchedKinds(c);
    KindsAgree(c.f);
    hide PayloadWords, Extent;
    if BlindLevel(c) {
      BlindTouches(c);
    }
    ExtentFits(c);
  }

  lemma BlindTouches(c: Call)
    requires BlindLevel(c)
    ensures Touches(c)
  {
    KindsAgree(c.f);
  }

  lemma {:induction false} HarmRun(h: Host, sent: seq<Word>, cs: seq<Call>, address: Address)
    requires CallsLaid(sent, h.j, cs) && Same(sent, h.s, MAX_FIFO + h.j + 2, OUT_PAGE)
    requires !Harmless(cs) && OnlyLastTraps(cs)
    requires Shows(cs, address(MAX_FIFO + h.j).0) && h.s[MAX_FIFO + h.j] == address(MAX_FIFO + h.j).0
    ensures !RunsNatively(h, cs, address)
    decreases |cs|
  {
    hide HostCall, Native, Execs, GuestChunks, Total, Laid, Touches, RunsNatively, BlindLevel, FirstSent, GuestKind;
    RunsStep(h, cs, address);
    var o := HostCall(h, cs[0].f, cs[0].args, address);
    if BlindLevel(cs[0]) {
      BlindStep(h, cs[0], address);
      BlindIsEmpty(cs[0]);
      HarmRun(o.host, sent, cs[1..], address);
    } else if !Touches(cs[0]) {
      UntouchedStep(h, cs[0], address);
      UntouchedIsEmpty(cs[0]);
      HarmRun(o.host, sent, cs[1..], address);
    } else if GuestKind(cs[0].f) == FogTable {
      FogStep(h, cs[0], sent, address);
      var k :| 1 <= k < |cs| && Touches(cs[k]);
      LostCursor(o.host, cs[1..], address, k - 1);
    } else {
      Sensitive(h, cs[0], address);
    }
  }

  lemma {:induction false} CarriesOnlySo(h: Host, cs: seq<Call>, address: Address)
    requires CallsLaid(h.s, h.j, cs) && AllFit(cs) && OnlyLastTraps(cs) && !Carries(cs)
    requires ShowsAt(h.j, cs, address)
    ensures !RunsNatively(h, cs, address)
    decreases |cs|
  {
    hide HostCall, Native, Execs, GuestChunks, Total, Laid, Touches, RunsNatively, BlindLevel, ArgsFit, Harmless,
      IndicesInRange, Shows;
    RunsStep(h, cs, address);
    var o := HostCall(h, cs[0].f, cs[0].args, address);
    if BlindLevel(cs[0]) {
      BlindStep(h, cs[0], address);
      BlindIsEmpty(cs[0]);
      HarmRun(o.host, h.s, cs[1..], address);
    } else {
      FirstAtCursor(h, cs);
      NativeStep(h, cs[0], address);
      if o.Ran? {
        CallsLaidFrame(h.s, o.host.s, o.host.j, cs[1..]);
        CarriesOnlySo(o.host, cs[1..], address);
      }
    }
  }

  lemma ShowingBaseFails(h: Host, cs: seq<Call>)
    requires CallsLaid(h.s, h.j, cs) && AllFit(cs) && OnlyLastTraps(cs) && !Carries(cs)
    ensures !RunsNatively(h, cs, AddressOf(ShowingBase(h.j, cs)))
  {
    hide RunsNatively, CallsLaid, AllFit, OnlyLastTraps, Carries, ShowsAt, AddressOf;
    OneBaseShows(h.s, h.j, cs);
    CarriesOnlySo(h, cs, AddressOf(ShowingBase(h.j, cs)));
  }

  /** A drain with its trapped call reaches the API natively, wherever the host has the area, exactly when every index up
      to the first texture level that was not sent is in range, and what follows that level is harmless. */
  lemma NativeExactly(h: Host, cs: seq<Call>)
    requires CallsLaid(h.s, h.j, cs) && AllFit(cs) && OnlyLastTraps(cs)
    ensures (forall base | HostBase(base) :: RunsNatively(h, cs, AddressOf(base))) <==> Carries(cs)
  {
    hide RunsNatively, CallsLaid, AllFit, OnlyLastTraps, Carries, AddressOf, ShowingBase;
    if Carries(cs) {
      forall base | HostBase(base)
        ensures RunsNatively(h, cs, AddressOf(base))
      {
        CarriesRun(h, cs, AddressOf(base));
      }
    } else {
      ShowingBaseFails(h, cs);
    }
  }

  /** Calls that are all legal always arrive natively. */
  lemma {:induction false} LegalCarries(cs: seq<Call>)
    requires forall k | 0 <= k < |cs| :: Legal(cs[k])
    ensures Carries(cs)
  {
    if cs != [] {
      LegalCarries(cs[1..]);
    }
  }

  /** Payload behind such a level is not always lost: a fog table that comes last still arrives. */
  lemma FogTableLast(level: Call, fog: Call)
    requires BlindLevel(level) && GuestKind(fog.f) == FogTable
    ensures PayloadWords(fog) > 0 && Carries([level, fog])
  {
    FogWords(fog);
  }

  lemma FogTouches(c: Call)
    requires GuestKind(c.f) == FogTable
    ensures Touches(c) && !BlindLevel(c)
  {
    KindsAgree(c.f);
  }

  /** But a draw is, and a fog table with a draw behind it. */
  lemma DrawIsLost(level: Call, fog: Call, draw: Call)
    requires BlindLevel(level) && GuestKind(fog.f) == FogTable
    requires Touches(draw) && !BlindLevel(draw) && GuestKind(draw.f) != FogTable
    ensures !Carries([level, draw]) && !Carries([level, fog, draw])
  {
    hide Touches, BlindLevel, GuestKind;
    FogTouches(fog);
    assert [level, draw][1..] == [draw] && [level, fog, draw][1..] == [fog, draw] && [fog, draw][1] == draw;
    assert !Harmless([draw]) && !Harmless([fog, draw]);
  }

  // What a drain depends on.

  lemma SlicesSame(s: seq<Word>, s': seq<Word>, lo: nat)
    requires |s| == |s'| && Same(s, s', lo, |s|)
    ensures forall p: nat, n: nat | lo <= p :: Slice(s', p, n) == Slice(s, p, n)
  {
    forall p: nat, n: nat | lo <= p
      ensures Slice(s', p, n) == Slice(s, p, n)
    {
      if p + n <= |s| {
        assert s'[p..p + n] == s[p..p + n];
      }
    }
  }

  lemma ReachesSame(s: seq<Word>, s': seq<Word>, f: int, a: seq<Word>, p: nat, lo: nat)
    requires |s| == |s'| && lo <= p && Same(s, s', lo, |s|)
    ensures Reaches(s', f, a, p) <==> Reaches(s, f, a, p)
    ensures CopiedOut(s', f, p) == CopiedOut(s, f, p) && FirstWord(s', p) == FirstWord(s, p)
  {
    SlicesSame(s, s', lo);
    hide Slice, Extent, IndexFits;
  }

  lemma PrepareSame(s: seq<Word>, s': seq<Word>, f: int, a: seq<Word>, p: nat, lo: nat, address: Address)
    requires |s| == |s'| && lo <= p && lo <= OUT_PAGE && Same(s, s', lo, |s|) && Reaches(s, f, a, p) && Reaches(s', f, a, p)
    ensures Same(Prepare(s, f, a, p, address), Prepare(s', f, a, p, address), lo, |s|)
  {
    ReachesSame(s, s', f, a, p, lo);
    hide CopiedOut, Reaches, Aligned, HostKind;
  }

  lemma DataSame(s: seq<Word>, s': seq<Word>, f: int, a: seq<Word>, p: nat, lo: nat)
    requires |s| == |s'| && lo <= p && lo <= OUT_PAGE && Same(s, s', lo, |s|)
    ensures DataSeen(s', f, a, p) == DataSeen(s, f, a, p)
  {
    SlicesSame(s, s', lo);
    hide Slice, Aligned, Words, Same, Scattered;
  }

  /** What a call does depends on nothing in front of the data area. */
  lemma CallSame(h: Host, h': Host, f: int, a: seq<Word>, lo: nat, address: Address)
    requires |h.s| == |h'.s| && lo <= MAX_FIFO + h.j && lo <= OUT_PAGE && Same(h.s, h'.s, lo, |h.s|)
    requires h.j == h'.j && h.log == h'.log
    ensures var o, o' := HostCall(h, f, a, address), HostCall(h', f, a, address);
            && (o.Ran? <==> o'.Ran?)
            && (o.Ran? ==> o.host.log == o'.host.log && o.host.j == o'.host.j)
  {
    hide *;
    var p := MAX_FIFO + h.j;
    ReachesSame(h.s, h'.s, f, a, p, lo);
    CallIs(h, f, a, address);
    CallIs(h', f, a, address);
    if Reaches(h.s, f, a, p) {
      PrepareSame(h.s, h'.s, f, a, p, lo, address);
      DataSame(Prepare(h.s, f, a, p, address), Prepare(h'.s, f, a, p, address), f, a, p, lo);
    }
  }

  lemma {:induction false} CallsSnoc(h: Host, cs: seq<Call>, c: Call, address: Address)
    ensures var o := HostCalls(h, cs, address);
            HostCalls(h, cs + [c], address) == if o.Ran? then HostCall(o.host, c.f, c.args, address) else Outside
    decreases |cs|
  {
    hide HostCall;
    var all := cs + [c];
    if cs == [] {
      assert all[0] == c && all[1..] == [];
      if HostCall(h, c.f, c.args, address).Ran? {
        assert HostCalls(HostCall(h, c.f, c.args, address).host, [], address) == HostCall(h, c.f, c.args, address);
      }
    } else {
      assert all[0] == cs[0] && all[1..] == cs[1..] + [c];
      if HostCall(h, cs[0].f, cs[0].args, address).Ran? {
        CallsSnoc(HostCall(h, cs[0].f, cs[0].args, address).host, cs[1..], c, address);
      }
    }
  }

  // Drains of a longer run.

  lemma {:induction false} HarmlessCarries(cs: seq<Call>)
    requires Harmless(cs)
    ensures Carries(cs)
    decreases |cs|
  {
    hide Touches, BlindLevel, IndicesInRange;
    if cs != [] && !BlindLevel(cs[0]) {
      if Touches(cs[0]) {
        OtherIndices(cs[0]);
        UntouchedCarries(cs[1..]);
      } else {
        UntouchedInRange(cs[0]);
        HarmlessCarries(cs[1..]);
      }
    }
  }

  lemma UntouchedInRange(c: Call)
    requires !Touches(c)
    ensures IndicesInRange(c) && !BlindLevel(c)
  {
    KindsAgree(c.f);
    UntouchedKinds(c);
    hide Extent;
  }

  lemma {:induction false} UntouchedCarries(cs: seq<Call>)
    requires forall k | 0 <= k < |cs| :: !Touches(cs[k])
    ensures Carries(cs)
    decreases |cs|
  {
    hide Touches, BlindLevel, IndicesInRange;
    if cs != [] {
      UntouchedInRange(cs[0]);
      UntouchedCarries(cs[1..]);
    }
  }

  lemma {:induction false} HarmlessSplit(q: seq<Call>, r: seq<Call>)
    requires Harmless(q + r)
    ensures Harmless(q) && Carries(r)
    decreases |q|
  {
    hide Touches, BlindLevel, IndicesInRange, Carries, GuestKind;
    if q == [] {
      assert q + r == r;
      HarmlessCarries(r);
    } else {
      assert (q + r)[0] == q[0] && (q + r)[1..] == q[1..] + r;
      if BlindLevel(q[0]) || !Touches(q[0]) {
        HarmlessSplit(q[1..], r);
      } else {
        forall k | 0 <= k < |r|
          ensures !Touches(r[k])
        {
          assert (q + r)[|q| + k] == r[k];
        }
        UntouchedCarries(r);
        assert forall k | 1 <= k < |q| :: (q + r)[k] == q[k];
      }
    }
  }

  /** Where a native sequence is cut into drains does not matter. */
  lemma {:induction false} CarriesSplit(q: seq<Call>, r: seq<Call>)
    requires Carries(q + r)
    ensures Carries(q) && Carries(r)
    decreases |q|
  {
    hide Touches, BlindLevel, IndicesInRange, Harmless;
    if q == [] {
      assert q + r == r;
    } else {
      assert (q + r)[0] == q[0] && (q + r)[1..] == q[1..] + r;
      if BlindLevel(q[0]) {
        HarmlessSplit(q[1..], r);
      } else {
        CarriesSplit(q[1..], r);
      }
    }
  }
}
