/** What a snapshot of the shared area has to look like for the host to find the queued calls in it:
    entries behind one cursor, payload behind another, and no lengths anywhere. */
module GlideQueue {
  import opened GlideAbi

  /** Chunks from word p on, each at an even offset; the padding word keeps whatever it held. */
  predicate Laid(s: seq<Word>, p: nat, chunks: seq<seq<Word>>)
    decreases |chunks|
  {
    chunks == []
    || (&& p + |chunks[0]| <= |s|
        && s[p..p + |chunks[0]|] == chunks[0]
        && Laid(s, p + EvenUp(|chunks[0]|), chunks[1..]))
  }

  /** What one queued call leaves in the shared area. */
  datatype Item = Item(f: int, args: seq<Word>, chunks: seq<seq<Word>>)

  predicate EntryAt(s: seq<Word>, i: nat, f: int, args: seq<Word>) {
    && FIRST_FIFO <= i
    && i + 1 + |args| <= MAX_FIFO <= |s|
    && s[i] == f
    && s[i + 1..i + 1 + |args|] == args
  }

  /** The items q lie in the snapshot from entry cursor i and data cursor j on, and end exactly at iEnd and jEnd. */
  predicate Queued(s: seq<Word>, i: nat, j: nat, q: seq<Item>, iEnd: nat, jEnd: nat)
    decreases |q|
  {
    if q == [] then
      i == iEnd && j == jEnd
    else
      && EntryAt(s, i, q[0].f, q[0].args)
      && Laid(s, MAX_FIFO + j, q[0].chunks)
      && Queued(s, i + 1 + |q[0].args|, j + Total(q[0].chunks), q[1..], iEnd, jEnd)
  }

  predicate Same(s: seq<Word>, s': seq<Word>, lo: nat, hi: nat) {
    |s| == |s'| && forall k | lo <= k < hi && k < |s| :: s'[k] == s[k]
  }

  lemma {:induction false} LaidFrame(s: seq<Word>, s': seq<Word>, p: nat, chunks: seq<seq<Word>>)
    requires Laid(s, p, chunks)
    requires Same(s, s', p, p + Total(chunks))
    ensures Laid(s', p, chunks)
    decreases |chunks|
  {
    if chunks != [] {
      var n := |chunks[0]|;
      assert s'[p..p + n] == s[p..p + n];
      LaidFrame(s, s', p + EvenUp(n), chunks[1..]);
    }
  }

  lemma {:induction false} LaidSnoc(s: seq<Word>, p: nat, chunks: seq<seq<Word>>, d: seq<Word>)
    requires Laid(s, p, chunks)
    requires p + Total(chunks) + |d| <= |s|
    requires s[p + Total(chunks)..p + Total(chunks) + |d|] == d
    ensures Laid(s, p, chunks + [d])
    ensures Total(chunks + [d]) == Total(chunks) + EvenUp(|d|)
    decreases |chunks|
  {
    if chunks == [] {
      assert ([d])[1..] == [];
      assert chunks + [d] == [d];
    } else {
      assert (chunks + [d])[1..] == chunks[1..] + [d];
      LaidSnoc(s, p + EvenUp(|chunks[0]|), chunks[1..], d);
    }
  }

  /** Where the chunks of few blocks lie. */
  lemma LaidFew(s: seq<Word>, p: nat, chunks: seq<seq<Word>>)
    requires Laid(s, p, chunks)
    ensures |chunks| >= 1 ==> p + |chunks[0]| <= |s| && s[p..p + |chunks[0]|] == chunks[0]
    ensures |chunks| >= 2 ==>
              var p1 := p + EvenUp(|chunks[0]|);
              p1 + |chunks[1]| <= |s| && s[p1..p1 + |chunks[1]|] == chunks[1]
    ensures |chunks| >= 3 ==>
              var p2 := p + EvenUp(|chunks[0]|) + EvenUp(|chunks[1]|);
              p2 + |chunks[2]| <= |s| && s[p2..p2 + |chunks[2]|] == chunks[2]
  {
    if |chunks| >= 2 {
      var rest := chunks[1..];
      assert rest[0] == chunks[1] && Laid(s, p + EvenUp(|chunks[0]|), rest);
      if |chunks| >= 3 {
        assert rest[1..][0] == chunks[2] && Laid(s, p + EvenUp(|chunks[0]|) + EvenUp(|chunks[1]|), rest[1..]);
      }
    }
  }

  lemma {:induction false} LaidVertices(s: seq<Word>, p: nat, vs: seq<seq<Word>>, i: nat)
    requires Laid(s, p, vs) && i < |vs|
    requires forall k | 0 <= k < |vs| :: |vs[k]| == VERTEX_WORDS
    ensures p + 16 * i + VERTEX_WORDS <= |s|
    ensures s[p + 16 * i..p + 16 * i + VERTEX_WORDS] == vs[i]
    decreases i
  {
    if i > 0 {
      LaidVertices(s, p + 16, vs[1..], i - 1);
    }
  }

  lemma {:induction false} QueuedEnds(s: seq<Word>, i: nat, j: nat, q: seq<Item>, iEnd: nat, jEnd: nat)
    requires Queued(s, i, j, q, iEnd, jEnd)
    ensures i <= iEnd && j <= jEnd && (j % 2 == 0 ==> jEnd % 2 == 0)
    ensures q != [] ==> i < iEnd
    decreases |q|
  {
    if q != [] {
      QueuedEnds(s, i + 1 + |q[0].args|, j + Total(q[0].chunks), q[1..], iEnd, jEnd);
    }
  }

  lemma {:induction false} QueuedFrame(s: seq<Word>, s': seq<Word>, i: nat, j: nat, q: seq<Item>, iEnd: nat, jEnd: nat)
    requires Queued(s, i, j, q, iEnd, jEnd)
    requires Same(s, s', i, iEnd) && Same(s, s', MAX_FIFO + j, MAX_FIFO + jEnd)
    ensures Queued(s', i, j, q, iEnd, jEnd)
    decreases |q|
  {
    if q != [] {
      var i', j' := i + 1 + |q[0].args|, j + Total(q[0].chunks);
      QueuedEnds(s, i', j', q[1..], iEnd, jEnd);
      assert s'[i + 1..i'] == s[i + 1..i'];
      LaidFrame(s, s', MAX_FIFO + j, q[0].chunks);
      QueuedFrame(s, s', i', j', q[1..], iEnd, jEnd);
    }
  }

  lemma {:induction false} QueuedSnoc(s: seq<Word>, i: nat, j: nat, q: seq<Item>, iEnd: nat, jEnd: nat, x: Item)
    requires Queued(s, i, j, q, iEnd, jEnd)
    requires EntryAt(s, iEnd, x.f, x.args) && Laid(s, MAX_FIFO + jEnd, x.chunks)
    ensures Queued(s, i, j, q + [x], iEnd + 1 + |x.args|, jEnd + Total(x.chunks))
    decreases |q|
  {
    hide Laid, EntryAt, Total, EvenUp;
    var q', i', j' := q + [x], iEnd + 1 + |x.args|, jEnd + Total(x.chunks);
    if q == [] {
      assert q'[0] == x && q'[1..] == [];
      assert Queued(s, i', j', q'[1..], i', j');
    } else {
      assert q'[0] == q[0] && q'[1..] == q[1..] + [x];
      QueuedSnoc(s, i + 1 + |q[0].args|, j + Total(q[0].chunks), q[1..], iEnd, jEnd, x);
    }
  }

  // The host's view of one call's payload.

  function Slice(s: seq<Word>, p: nat, n: nat): seq<Word> {
    if p + n <= |s| then s[p..p + n] else []
  }

  /** The words processArgs copies to the output page before it hands out pointers there. */
  function CopiedOut(s: seq<Word>, f: int, p: nat): (out: seq<Word>)
    ensures |out| <= 37
  {
    match HostKind(f)
    case TexSource => Slice(s, p, 4)
    case TexMipMap => Slice(s, p, 4)
    case TexMemRequired => Slice(s, p, 4)
    case PerfStats => Slice(s, p, Words(SIZE_PERFSTATS))
    case HwConfig => Slice(s, p, Words(SIZE_HWCONFIG))
    case TriStats => Slice(s, p, 4)
    case _ => []
  }

  /** The words behind each pointer processArgs hands to the API, for everything but indexed polygons. */
  function PointedAt(s: seq<Word>, f: int, a: seq<Word>, p: nat): seq<seq<Word>> {
    match HostKind(f)
    case OneVertex => [Slice(s, p, VERTEX_WORDS)]
    case TwoVertices =>
      [Slice(s, p, VERTEX_WORDS), Slice(s, p + Aligned(SIZE_VERTEX) / 4, VERTEX_WORDS)]
    case ThreeVertices =>
      [Slice(s, p, VERTEX_WORDS), Slice(s, p + Aligned(SIZE_VERTEX) / 4, VERTEX_WORDS),
       Slice(s, p + 2 * Aligned(SIZE_VERTEX) / 4, VERTEX_WORDS)]
    case VertexList => [Slice(s, p, Arg(a, 0) * VERTEX_WORDS)]
    case FogTable => [Slice(s, p + Aligned(4) / 4, Words(FOG_ENTRIES))]
    case TexSource => [Slice(s, OUT_PAGE, 4)]
    case TexMipMap => [Slice(s, OUT_PAGE, 4), Slice(s, p + Aligned(SIZE_TEXINFO) / 4, Words(Arg(a, 4)))]
    case TexMipMapLevel => [Slice(s, p, Words(Arg(a, 8)))]
    case TexMipMapPartial => [Slice(s, p, Words(Arg(a, 10)))]
    case TexTable => [Slice(s, p, Words(if Arg(a, 1) == TEXTABLE_PALETTE then SIZE_PALETTE else SIZE_NCCTABLE))]
    case TexTablePartial =>
      [Slice(s, p, Words(if Arg(a, 1) == TEXTABLE_PALETTE then (Arg(a, 4) + 1) * 4 else SIZE_NCCTABLE))]
    case TexMemRequired => [Slice(s, OUT_PAGE, 4)]
    case GuMipMap =>
      (if Arg(a, 3) != 0 then [Slice(s, p, Words(Arg(a, 3)))] else [])
      + (if Arg(a, 2) != 0 then [Slice(s, p + Aligned(Arg(a, 3)) / 4, Words(SIZE_NCCTABLE))] else [])
    case GuMipMapLevel => if Arg(a, 3) != 0 then [Slice(s, p, Words(Arg(a, 3)))] else []
    case LfbWrite => [Slice(s, p, Words(Arg(a, 5) * Arg(a, 6)))]
    case PerfStats => [Slice(s, OUT_PAGE, Words(SIZE_PERFSTATS))]
    case HwConfig => [Slice(s, OUT_PAGE, Words(SIZE_HWCONFIG))]
    case TriStats => [Slice(s, OUT_PAGE, 1), Slice(s, OUT_PAGE + Aligned(4) / 4, 1)]
    case File3df => [Slice(s, p, Words(SIZE_3DF_NAME))]
    case _ => []
  }

  predicate IsDrawKind(k: Kind) {
    k.OneVertex? || k.TwoVertices? || k.ThreeVertices? || k.VertexList?
  }

  lemma DrawsArrive(s: seq<Word>, c: Call, p: nat)
    requires GuestKind(c.f) == HostKind(c.f) && IsDrawKind(GuestKind(c.f))
    requires Laid(s, p, GuestChunks(c))
    ensures PointedAt(s, c.f, c.args, p) == NativeData(c)
  {
    LaidFew(s, p, GuestChunks(c));
    if GuestKind(c.f) == VertexList {
      assert Words(Arg(c.args, 0) * SIZE_VERTEX) == Arg(c.args, 0) * VERTEX_WORDS;
    }
  }

  predicate IsCopiedKind(k: Kind) {
    k.TexSource? || k.TexMipMap? || k.TexMemRequired? || k.PerfStats? || k.HwConfig? || k.TriStats?
  }

  /** Two single words, each followed by a padding word, survive being copied together. */
  lemma WordPairCopied(s: seq<Word>, s': seq<Word>, p: nat, o: nat, d0: seq<Word>, d1: seq<Word>)
    requires |d0| == |d1| == 1 && p + 4 <= |s| && o + 4 <= |s'|
    requires s[p..p + 1] == d0 && s[p + 2..p + 3] == d1
    requires s'[o..o + 4] == s[p..p + 4]
    ensures s'[o..o + 1] == d0 && s'[o + 2..o + 3] == d1
  {
    assert s'[o] == s'[o..o + 4][0] == s[p..p + 4][0] == s[p] == s[p..p + 1][0];
    assert s'[o + 2] == s'[o..o + 4][2] == s[p..p + 4][2] == s[p + 2] == s[p + 2..p + 3][0];
  }

  /** The four fields of a texture description that are copied are the ones the API reads. */
  lemma TexInfoCopied(s: seq<Word>, s': seq<Word>, mem: int -> Word, addr: int, p: nat, o: nat)
    requires p + 5 <= |s| && o + 4 <= |s'|
    requires s[p..p + 5] == Load(mem, addr, SIZE_TEXINFO)
    requires s'[o..o + 4] == s[p..p + 4]
    ensures s'[o..o + 4] == Load(mem, addr, 16)
  {
    assert s[p..p + 4] == s[p..p + 5][..4];
  }

  lemma TexInfoArrives(s: seq<Word>, s': seq<Word>, c: Call, p: nat)
    requires GuestKind(c.f) == HostKind(c.f) && GuestKind(c.f) in {TexSource, TexMipMap, TexMemRequired}
    requires Laid(s, p, GuestChunks(c)) && Laid(s', p, GuestChunks(c))
    requires |s| == |s'| == GRSHM_WORDS
    requires Slice(s', OUT_PAGE, |CopiedOut(s, c.f, p)|) == CopiedOut(s, c.f, p)
    ensures PointedAt(s', c.f, c.args, p) == NativeData(c)
  {
    hide Laid;
    LaidFew(s, p, GuestChunks(c));
    LaidFew(s', p, GuestChunks(c));
    TexInfoCopied(s, s', c.mem, Arg(c.args, if GuestKind(c.f) == TexMemRequired then 1 else 3), p, OUT_PAGE);
  }

  lemma RepliesArrive(s: seq<Word>, s': seq<Word>, c: Call, p: nat)
    requires GuestKind(c.f) == HostKind(c.f) && GuestKind(c.f) in {PerfStats, HwConfig, TriStats}
    requires Laid(s, p, GuestChunks(c)) && Laid(s', p, GuestChunks(c))
    requires |s| == |s'| == GRSHM_WORDS
    requires Slice(s', OUT_PAGE, |CopiedOut(s, c.f, p)|) == CopiedOut(s, c.f, p)
    requires GuestKind(c.f) == TriStats ==> p + 4 <= |s|
    ensures PointedAt(s', c.f, c.args, p) == NativeData(c)
  {
    hide Laid;
    LaidFew(s, p, GuestChunks(c));
    LaidFew(s', p, GuestChunks(c));
    if GuestKind(c.f) == TriStats {
      assert |CopiedOut(s, c.f, p)| == 4;
      WordPairCopied(s, s', p, OUT_PAGE, GuestChunks(c)[0], GuestChunks(c)[1]);
    }
  }

  /** Payload that reaches the API through the output page. */
  lemma CopiesArrive(s: seq<Word>, s': seq<Word>, c: Call, p: nat)
    requires GuestKind(c.f) == HostKind(c.f) && IsCopiedKind(GuestKind(c.f))
    requires Laid(s, p, GuestChunks(c)) && Laid(s', p, GuestChunks(c))
    requires |s| == |s'| == GRSHM_WORDS
    requires Slice(s', OUT_PAGE, |CopiedOut(s, c.f, p)|) == CopiedOut(s, c.f, p)
    requires GuestKind(c.f) == TriStats ==> p + 4 <= |s|
    ensures PointedAt(s', c.f, c.args, p) == NativeData(c)
  {
    hide Laid, GuestChunks, NativeData, CopiedOut, PointedAt;
    if GuestKind(c.f) in {TexSource, TexMipMap, TexMemRequired} {
      TexInfoArrives(s, s', c, p);
    } else {
      RepliesArrive(s, s', c, p);
    }
  }

  /** A palette or colour table follows the texels of a mip map, whichever of the two are there. */
  lemma MipMapArrives(s: seq<Word>, c: Call, p: nat)
    requires GuestKind(c.f) == HostKind(c.f) == GuMipMap
    requires Laid(s, p, GuestChunks(c))
    ensures PointedAt(s, c.f, c.args, p) == NativeData(c)
  {
    hide Laid;
    LaidFew(s, p, GuestChunks(c));
    AlignedIsEvenWords(Arg(c.args, 3));
  }

  lemma FogArrives(s: seq<Word>, c: Call, p: nat)
    requires GuestKind(c.f) == HostKind(c.f) == FogTable
    requires Laid(s, p, GuestChunks(c))
    ensures PointedAt(s, c.f, c.args, p) == NativeData(c)
  {
    hide Laid;
    LaidFew(s, p, GuestChunks(c));
  }

  /** Payload the API reads where it lies. */
  lemma BlocksArrive(s: seq<Word>, c: Call, p: nat)
    requires GuestKind(c.f) == HostKind(c.f)
    requires !IsDrawKind(GuestKind(c.f)) && !IsCopiedKind(GuestKind(c.f))
    requires GuestKind(c.f) !in {Polygon, GuMipMapLevel}
    requires Laid(s, p, GuestChunks(c))
    ensures PointedAt(s, c.f, c.args, p) == NativeData(c)
  {
    if GuestKind(c.f) == GuMipMap {
      MipMapArrives(s, c, p);
    } else if GuestKind(c.f) == FogTable {
      FogArrives(s, c, p);
    } else {
      hide Laid, EvenUp, Aligned, Words;
      LaidFew(s, p, GuestChunks(c));
    }
  }

  /** A texture level survives the pointer the host parks behind it. */
  lemma LevelArrives(s: seq<Word>, s': seq<Word>, c: Call, p: nat)
    requires GuestKind(c.f) == HostKind(c.f) == GuMipMapLevel
    requires Laid(s, p, GuestChunks(c))
    requires Same(s, s', p, p + Words(Arg(c.args, 3)))
    ensures PointedAt(s', c.f, c.args, p) == NativeData(c)
  {
    hide Laid;
    LaidFew(s, p, GuestChunks(c));
    var n := Words(Arg(c.args, 3));
    if Arg(c.args, 3) != 0 {
      assert s'[p..p + n] == s[p..p + n];
    }
  }
}
