/** The shared area itself and both ends working on it: the guest wrapper pushing payload and entries or
    trapping, the host draining the queue with cursors of its own and then running the trapped call. */
module GlideFifo {
  import opened GlideAbi
  import opened GlideHost
  import opened GlideQueue

  /** The payload words that always fit behind a counter which has not reached MAX_DATA: 61440 bytes. */
  const MAX_PAYLOAD := DATA_ROOM - MAX_DATA

  function ItemOf(c: Call): Item {
    Item(c.f, c.args, GuestChunks(c))
  }

  function Items(q: seq<Call>): (items: seq<Item>)
    ensures |items| == |q|
    ensures forall k | 0 <= k < |q| :: items[k] == ItemOf(q[k])
  {
    seq(|q|, k requires 0 <= k < |q| => ItemOf(q[k]))
  }

  ghost predicate AllQueueable(q: seq<Call>) {
    forall k | 0 <= k < |q| :: ArgsFit(q[k].f, q[k].args) && Queueable(q[k].f)
  }

  lemma ItemsStep(q: seq<Call>, c: Call)
    ensures Items(q + [c]) == Items(q) + [ItemOf(c)]
    ensures q != [] ==> Items(q)[0] == ItemOf(q[0]) && Items(q)[1..] == Items(q[1..])
  {
    hide Items, ItemOf;
  }

  lemma {:induction false} TotalPrefix(chunks: seq<seq<Word>>, k: nat)
    requires k < |chunks|
    ensures Total(chunks[..k]) + EvenUp(|chunks[k]|) == Total(chunks[..k + 1]) <= Total(chunks)
    ensures Total(chunks[..k]) + |chunks[k]| <= Total(chunks)
    decreases k
  {
    assert chunks[..k + 1][0] == chunks[0];
    if k == 0 {
      assert chunks[..1][1..] == [];
    } else {
      assert chunks[..k][1..] == chunks[1..][..k - 1];
      assert chunks[..k + 1][1..] == chunks[1..][..k];
      TotalPrefix(chunks[1..], k - 1);
    }
  }

  lemma NoPayloadYet(s: seq<Word>, p: nat, chunks: seq<seq<Word>>)
    ensures Laid(s, p, chunks[..0]) && Total(chunks[..0]) == 0
  {
  }

  lemma PayloadStep(s: seq<Word>, s': seq<Word>, p: nat, chunks: seq<seq<Word>>, k: nat)
    requires k < |chunks| && Laid(s, p, chunks[..k])
    requires Same(s, s', p, p + Total(chunks[..k]))
    requires p + Total(chunks[..k]) + |chunks[k]| <= |s'|
    requires s'[p + Total(chunks[..k])..p + Total(chunks[..k]) + |chunks[k]|] == chunks[k]
    ensures Laid(s', p, chunks[..k + 1])
  {
    hide Laid, Total, EvenUp;
    LaidFrame(s, s', p, chunks[..k]);
    LaidSnoc(s', p, chunks[..k], chunks[k]);
    assert chunks[..k + 1] == chunks[..k] + [chunks[k]];
  }

  // Indexed polygons.

  function Collect(vtxCache: seq<Word>, ilist: seq<Word>): (vs: seq<seq<Word>>)
    ensures |vs| == |ilist|
    ensures forall k | 0 <= k < |ilist| :: vs[k] == Slice(vtxCache, VERTEX_WORDS * ilist[k], VERTEX_WORDS)
  {
    seq(|ilist|, k requires 0 <= k < |ilist| => Slice(vtxCache, VERTEX_WORDS * ilist[k], VERTEX_WORDS))
  }

  /** The vertices found in the cache through the index list are those of the stream. */
  lemma CollectIsScattered(vtxCache: seq<Word>, ilist: seq<Word>, stream: seq<Word>)
    requires forall x | x in ilist :: CachedRight(vtxCache, ilist, stream, x)
    ensures Collect(vtxCache, ilist) == Scattered(ilist, stream)
  {
    hide CachedRight, Collect, Scattered;
    forall k | 0 <= k < |ilist|
      ensures Collect(vtxCache, ilist)[k] == Scattered(ilist, stream)[k]
    {
      CachedSlice(vtxCache, ilist, stream, ilist[k]);
    }
  }

  /** Vertex x of the cache is the one the stream holds for the last place of x in the list. */
  ghost predicate CachedRight(vtxCache: seq<Word>, ilist: seq<Word>, stream: seq<Word>, x: Word)
    requires x in ilist
  {
    && VERTEX_WORDS * (x + 1) <= |vtxCache| && 16 * LastOf(ilist, x) + VERTEX_WORDS <= |stream|
    && vtxCache[VERTEX_WORDS * x..VERTEX_WORDS * (x + 1)] == stream[16 * LastOf(ilist, x)..16 * LastOf(ilist, x) + VERTEX_WORDS]
  }

  lemma CachedSlice(vtxCache: seq<Word>, ilist: seq<Word>, stream: seq<Word>, x: Word)
    requires x in ilist && CachedRight(vtxCache, ilist, stream, x)
    ensures Slice(vtxCache, VERTEX_WORDS * x, VERTEX_WORDS) == Slice(stream, 16 * LastOf(ilist, x), VERTEX_WORDS)
  {
  }

  lemma LastStep(ilist: seq<Word>, i: nat, x: Word)
    requires i < |ilist| && x in ilist[..i + 1]
    ensures x == ilist[i] ==> LastOf(ilist[..i + 1], x) == i
    ensures x != ilist[i] ==> x in ilist[..i] && LastOf(ilist[..i + 1], x) == LastOf(ilist[..i], x)
  {
    assert ilist[..i + 1][..i] == ilist[..i];
  }

  /** One vertex more: its place in the cache is its own, and no other vertex is touched. */
  lemma CachedStep(before: seq<Word>, after: seq<Word>, ilist: seq<Word>, stream: seq<Word>, i: nat, x: Word)
    requires i < |ilist| && x in ilist[..i + 1] && 16 * |ilist| <= |stream|
    requires |before| == |after| && VERTEX_WORDS * (ilist[i] + 1) <= |before|
    requires after[VERTEX_WORDS * ilist[i]..VERTEX_WORDS * (ilist[i] + 1)] == stream[16 * i..16 * i + VERTEX_WORDS]
    requires Same(before, after, 0, VERTEX_WORDS * ilist[i]) && Same(before, after, VERTEX_WORDS * (ilist[i] + 1), |before|)
    requires x in ilist[..i] ==> CachedRight(before, ilist[..i], stream, x)
    ensures CachedRight(after, ilist[..i + 1], stream, x)
  {
    hide LastOf;
    LastStep(ilist, i, x);
    if x != ilist[i] {
      assert after[VERTEX_WORDS * x..VERTEX_WORDS * (x + 1)] == before[VERTEX_WORDS * x..VERTEX_WORDS * (x + 1)];
    }
  }

  /** The host's vertex cache for an indexed polygon: room for the largest index, every vertex of the stream stored
      under its own index, the last one staying where indices repeat. */
  method ScatterPolygon(ilist: seq<Word>, stream: seq<Word>) returns (vtxCache: array<Word>)
    requires 16 * |ilist| <= |stream|
    ensures fresh(vtxCache)
    ensures forall x | x in ilist :: CachedRight(vtxCache[..], ilist, stream, x)
  {
    hide CachedRight;
    var v: Word := 0;
    for i := 0 to |ilist|
      invariant forall k | 0 <= k < i :: ilist[k] <= v
    {
      v := if ilist[i] > v then ilist[i] else v;
    }
    vtxCache := new Word[(v + 1) * VERTEX_WORDS];
    for i := 0 to |ilist|
      invariant fresh(vtxCache)
      invariant forall x | x in ilist[..i] :: CachedRight(vtxCache[..], ilist[..i], stream, x)
    {
      ghost var before := vtxCache[..];
      forall w | 0 <= w < VERTEX_WORDS {
        vtxCache[VERTEX_WORDS * ilist[i] + w] := stream[16 * i + w];
      }
      ghost var seen := ilist[..i + 1];
      forall x | x in seen
        ensures CachedRight(vtxCache[..], seen, stream, x)
      {
        CachedStep(before, vtxCache[..], ilist, stream, i, x);
      }
    }
    assert ilist[..|ilist|] == ilist;
  }

  /** The guard of FIFO_GRFUNC, with the counters as they stood before the wrapper was entered. */
  predicate Defers(c: Call, fifoEn: bool, fifo: nat, data: nat) {
    && Queueable(c.f)
    && fifoEn
    && fifo + QueuedArgs(c.f) + 1 < MAX_FIFO
    && data + PayloadWords(c) < MAX_DATA
  }

  /** The guard in numbers: 65536 words of entries, and 704512 words of data with the payload counted in. */
  lemma GuardIs(c: Call, fifo: nat, data: nat)
    requires ArgsFit(c.f, c.args)
    ensures Defers(c, true, fifo, data) <==> Queueable(c.f) && fifo + |c.args| + 1 < 65536 && data + PayloadWords(c) < 704512
    ensures !Defers(c, false, fifo, data)
  {
  }

  // Reading the frame buffer back.

  /** grLfbReadRegion writes its n words at the host's data cursor, d words past the start of the data area, and the
      guest always looks at the start: the words arrive, whatever they are, exactly when no payload was queued. */
  lemma ReadBackLands(s: seq<Word>, p: nat, d: nat, n: nat)
    requires 0 < n && p + d + n <= |s|
    ensures (forall r: seq<Word> | |r| == n :: Overlay(s, p + d, r)[p..p + n] == r) <==> d == 0
  {
    if d > 0 {
      var r: seq<Word> := seq(n, k => if k == 0 then s[p] + 1 else 0);
      assert Overlay(s, p + d, r)[p..p + n][0] == s[p] != r[0];
    }
  }

  // One step of the queue.

  /** The head of the queue: its entry and payload are at the cursors, the rest of the queue right behind. */
  lemma QueuePop(s: seq<Word>, i: nat, j: nat, q: seq<Call>, iEnd: nat, jEnd: nat)
    requires q != [] && Queued(s, i, j, Items(q), iEnd, jEnd)
    ensures EntryAt(s, i, q[0].f, q[0].args)
    ensures Laid(s, MAX_FIFO + j, GuestChunks(q[0]))
    ensures Queued(s, i + 1 + |q[0].args|, j + PayloadWords(q[0]), Items(q[1..]), iEnd, jEnd)
    ensures j + PayloadWords(q[0]) <= jEnd && i + 1 + |q[0].args| <= iEnd
  {
    hide Laid, EntryAt, Total, GuestChunks;
    ItemsStep(q, q[0]);
    QueuedEnds(s, i + 1 + |q[0].args|, j + PayloadWords(q[0]), Items(q[1..]), iEnd, jEnd);
  }

  lemma QueueDone(s: seq<Word>, i: nat, j: nat, q: seq<Call>, iEnd: nat, jEnd: nat)
    requires Queued(s, i, j, Items(q), iEnd, jEnd)
    ensures i <= iEnd && j <= jEnd
    ensures i == iEnd <==> q == []
    ensures q == [] ==> j == jEnd
  {
    QueuedEnds(s, i, j, Items(q), iEnd, jEnd);
  }

  lemma QueueGrows(s': seq<Word>, s'': seq<Word>, q: seq<Call>, c: Call, iEnd: nat, jEnd: nat)
    requires Queued(s', FIRST_FIFO, FIRST_DATA, Items(q), iEnd, jEnd)
    requires Laid(s', MAX_FIFO + jEnd, GuestChunks(c))
    requires EntryAt(s'', iEnd, c.f, c.args)
    requires Same(s', s'', 1, iEnd) && Same(s', s'', MAX_FIFO, GRSHM_WORDS) && |s'| == GRSHM_WORDS
    ensures Queued(s'', FIRST_FIFO, FIRST_DATA, Items(q + [c]), iEnd + 1 + |c.args|, jEnd + PayloadWords(c))
  {
    hide Laid, Queued, EntryAt, Total, GuestChunks, Items;
    QueuedFrame(s', s'', FIRST_FIFO, FIRST_DATA, Items(q), iEnd, jEnd);
    LaidFrame(s', s'', MAX_FIFO + jEnd, GuestChunks(c));
    QueuedSnoc(s'', FIRST_FIFO, FIRST_DATA, Items(q), iEnd, jEnd, ItemOf(c));
    ItemsStep(q, c);
  }

  lemma EmptyQueue(s: seq<Word>)
    ensures Queued(s, FIRST_FIFO, FIRST_DATA, Items([]), FIRST_FIFO, FIRST_DATA)
  {
  }

  /** The entry the host reads is the entry the guest wrote, and the host's table knows how long it is. */
  lemma EntryRead(s: seq<Word>, i: nat, c: Call)
    requires EntryAt(s, i, c.f, c.args) && ArgsFit(c.f, c.args) && Queueable(c.f)
    ensures i + 1 + |c.args| <= |s| && s[i] == c.f && 0 <= c.f < FUNCTIONS
    ensures HostArgCount(c.f) == |c.args| && s[i + 1..i + 1 + |c.args|] == c.args
  {
    hide HostArgCount, GuestKind;
    ArgCountsAgree(c.f);
  }

  /** The entries alone, which outlive a queued payload that a stored pointer has spoilt. */
  ghost predicate Entries(s: seq<Word>, i: nat, q: seq<Call>, iEnd: nat)
    decreases |q|
  {
    if q == [] then i == iEnd else EntryAt(s, i, q[0].f, q[0].args) && Entries(s, i + 1 + |q[0].args|, q[1..], iEnd)
  }

  lemma {:induction false} EntriesEnd(s: seq<Word>, i: nat, q: seq<Call>, iEnd: nat)
    requires Entries(s, i, q, iEnd)
    ensures i <= iEnd && (i == iEnd <==> q == [])
    decreases |q|
  {
    if q != [] {
      EntriesEnd(s, i + 1 + |q[0].args|, q[1..], iEnd);
    }
  }

  lemma {:induction false} EntriesFrame(s: seq<Word>, s': seq<Word>, i: nat, q: seq<Call>, iEnd: nat)
    requires Entries(s, i, q, iEnd) && Same(s, s', i, iEnd)
    ensures Entries(s', i, q, iEnd)
    decreases |q|
  {
    if q != [] {
      var i' := i + 1 + |q[0].args|;
      EntriesEnd(s, i', q[1..], iEnd);
      assert s'[i + 1..i'] == s[i + 1..i'];
      EntriesFrame(s, s', i', q[1..], iEnd);
    }
  }

  lemma {:induction false} QueuedEntries(s: seq<Word>, i: nat, j: nat, q: seq<Call>, iEnd: nat, jEnd: nat)
    requires Queued(s, i, j, Items(q), iEnd, jEnd)
    ensures Entries(s, i, q, iEnd)
    decreases |q|
  {
    hide Laid, EntryAt, Total, GuestChunks, Items, Queued;
    QueueDone(s, i, j, q, iEnd, jEnd);
    if q != [] {
      QueuePop(s, i, j, q, iEnd, jEnd);
      QueuedEntries(s, i + 1 + |q[0].args|, j + PayloadWords(q[0]), q[1..], iEnd, jEnd);
    }
  }

  /** The queue and the payload of the call that traps behind it are what the drain starts from. */
  lemma {:induction false} QueuedLaid(s: seq<Word>, i: nat, j: nat, q: seq<Call>, iEnd: nat, jEnd: nat, c: Call)
    requires |s| == GRSHM_WORDS && Queued(s, i, j, Items(q), iEnd, jEnd)
    requires Laid(s, MAX_FIFO + jEnd, GuestChunks(c)) && jEnd + PayloadWords(c) <= DATA_ROOM
    ensures CallsLaid(s, j, q + [c])
    decreases |q|
  {
    hide Laid, EntryAt, Total, GuestChunks, Items, Queued;
    QueueDone(s, i, j, q, iEnd, jEnd);
    var all := q + [c];
    if q == [] {
      assert all[0] == c && all[1..] == [];
    } else {
      assert all[0] == q[0] && all[1..] == q[1..] + [c];
      QueuePop(s, i, j, q, iEnd, jEnd);
      QueuedLaid(s, i + 1 + |q[0].args|, j + PayloadWords(q[0]), q[1..], iEnd, jEnd, c);
    }
  }

  /** Nothing in the queue says how long a payload is: with legal calls the host's cursor lands where the payload ends. */
  lemma {:induction false} LegalCursor(h: Host, i: nat, q: seq<Call>, iEnd: nat, jEnd: nat, c: Call, address: Address)
    requires |h.s| == GRSHM_WORDS && Queued(h.s, i, h.j, Items(q), iEnd, jEnd) && FIRST_FIFO <= i && iEnd <= MAX_FIFO
    requires Laid(h.s, MAX_FIFO + jEnd, GuestChunks(c)) && jEnd + PayloadWords(c) <= DATA_ROOM && Legal(c)
    requires FIRST_DATA <= h.j && forall k | 0 <= k < |q| :: Legal(q[k])
    ensures var o := HostCalls(h, q, address);
            && o.Ran? && o.host.j == jEnd
            && HostCall(o.host, c.f, c.args, address).Ran?
            && HostCall(o.host, c.f, c.args, address).host.j == jEnd + PayloadWords(c)
    decreases |q|
  {
    hide Laid, EntryAt, Total, GuestChunks, Items, Queued, HostCall, Native;
    QueueDone(h.s, i, h.j, q, iEnd, jEnd);
    if q == [] {
      LegalStep(h, c, address);
    } else {
      QueuePop(h.s, i, h.j, q, iEnd, jEnd);
      LegalStep(h, q[0], address);
      var h', i' := HostCall(h, q[0].f, q[0].args, address).host, i + 1 + |q[0].args|;
      CallFrame(h, q[0].f, q[0].args, address);
      QueueDone(h.s, i', h'.j, q[1..], iEnd, jEnd);
      QueuedFrame(h.s, h'.s, i', h'.j, Items(q[1..]), iEnd, jEnd);
      LaidFrame(h.s, h'.s, MAX_FIFO + jEnd, GuestChunks(c));
      LegalCursor(h', i', q[1..], iEnd, jEnd, c, address);
    }
  }

  lemma LegalStep(h: Host, c: Call, address: Address)
    requires AtCursor(h, c) && Legal(c)
    ensures var o := HostCall(h, c.f, c.args, address);
            && o.Ran? && o.host.j == h.j + PayloadWords(c)
            && Same(h.s, o.host.s, MAX_FIFO + h.j + PayloadWords(c), OUT_PAGE)
  {
    NativeStep(h, c, address);
    hide *;
  }

  lemma PolygonExtent(n: nat)
    ensures Words(Aligned(n * 4) + n * Aligned(SIZE_VERTEX)) == Aligned(n * 4) / 4 + 16 * n && n <= Aligned(n * 4) / 4
  {
    AlignedIsEvenWords(4 * n);
    WordsOfSum(Aligned(4 * n), n);
    WordsOfInts(n);
    assert Aligned(SIZE_VERTEX) == 64;
    hide Aligned, Words;
  }

  lemma PolygonRoom(s: seq<Word>, f: int, a: seq<Word>, p: nat)
    requires HostKind(f) == Polygon && InArea(s, f, a, p)
    ensures |Slice(s, p, Arg(a, 0))| == Arg(a, 0)
    ensures |Slice(s, p + Aligned(Arg(a, 0) * 4) / 4, 16 * Arg(a, 0))| == 16 * Arg(a, 0)
  {
    PolygonExtent(Arg(a, 0));
    hide Aligned, Words;
  }

  lemma LevelRoom(s: seq<Word>, f: int, a: seq<Word>, p: nat)
    requires Reaches(s, f, a, p)
    ensures HostKind(f) == GuMipMapLevel ==> p + Aligned(Arg(a, 3)) / 4 + 2 <= |s|
  {
    hide Aligned, HostKind, HostPayloadBytes;
  }

  lemma StillInArea(s: seq<Word>, s': seq<Word>, f: int, a: seq<Word>, p: nat)
    requires Reaches(s, f, a, p) && |s| == |s'|
    ensures InArea(s', f, a, p)
  {
    hide Extent, HostKind;
  }

  /** The data counter less what the host has read, in 32 bits. */
  function CounterLess(counter: nat, n: nat): nat {
    (counter - n) % 0x1_0000_0000
  }

  ghost predicate AllLegal(cs: seq<Call>) {
    forall k | 0 <= k < |cs| :: Legal(cs[k])
  }

  lemma LeakIs(h: Host, q: seq<Call>, iEnd: nat, jEnd: nat, c: Call, address: Address)
    requires |h.s| == GRSHM_WORDS && h.j == FIRST_DATA && iEnd <= MAX_FIFO
    requires Queued(h.s, FIRST_FIFO, FIRST_DATA, Items(q), iEnd, jEnd)
    requires Laid(h.s, MAX_FIFO + jEnd, GuestChunks(c)) && jEnd + PayloadWords(c) <= DATA_ROOM
    ensures AllLegal(q + [c]) ==>
              var o := HostCalls(h, q, address);
              && o.Ran? && o.host.j == jEnd
              && HostCall(o.host, c.f, c.args, address).Ran?
              && HostCall(o.host, c.f, c.args, address).host.j == jEnd + PayloadWords(c)
  {
    hide Laid, Queued, Total, GuestChunks, HostCall, Legal, HostCalls;
    if AllLegal(q + [c]) {
      assert (q + [c])[|q|] == c;
      assert forall k | 0 <= k < |q| :: (q + [c])[k] == q[k];
      LegalCursor(h, FIRST_FIFO, q, iEnd, jEnd, c, address);
    }
  }

  lemma TrapArgs(c: Call)
    requires ArgsFit(c.f, c.args)
    ensures |c.args| <= 16 && (Queueable(c.f) ==> |c.args| == QueuedArgs(c.f))
  {
  }

  lemma DrainCarries(h: Host, q: seq<Call>, c: Call, address: Address)
    requires CallsLaid(h.s, h.j, q + [c]) && AllQueueable(q) && ArgsFit(c.f, c.args)
    ensures Carries(q + [c]) ==> RunsNatively(h, q + [c], address)
  {
    hide CallsLaid, Carries, RunsNatively, ArgsFit, Queueable;
    if Carries(q + [c]) {
      CarriesRun(h, q + [c], address);
    }
  }

  // Room.

  /** With the guards going that way and the counters there, some payload finds no room before the output page. */
  predicate Overruns(cs: seq<Call>, fifoEn: seq<bool>, fifo: nat, data: nat)
    requires |fifoEn| == |cs|
    decreases |cs|
  {
    && cs != []
    && (|| data + PayloadWords(cs[0]) > DATA_ROOM
        || if Defers(cs[0], fifoEn[0], fifo, data) then
             Overruns(cs[1..], fifoEn[1..], fifo + 1 + |cs[0].args|, data + PayloadWords(cs[0]))
           else
             Overruns(cs[1..], fifoEn[1..], FIRST_FIFO, FIRST_DATA))
  }

  lemma OverrunsStep(cs: seq<Call>, fifoEn: seq<bool>, k: nat, fifo: nat, data: nat)
    requires |fifoEn| == |cs| && k < |cs|
    ensures Overruns(cs[k..], fifoEn[k..], fifo, data)
            <==> || data + PayloadWords(cs[k]) > DATA_ROOM
                 || if Defers(cs[k], fifoEn[k], fifo, data) then
                      Overruns(cs[k + 1..], fifoEn[k + 1..], fifo + 1 + |cs[k].args|, data + PayloadWords(cs[k]))
                    else
                      Overruns(cs[k + 1..], fifoEn[k + 1..], FIRST_FIFO, FIRST_DATA)
  {
    hide Defers, PayloadWords;
    assert cs[k..][0] == cs[k] && cs[k..][1..] == cs[k + 1..] && fifoEn[k..][0] == fifoEn[k] && fifoEn[k..][1..] == fifoEn[k + 1..];
  }

  function QueuedWords(q: seq<Call>): nat {
    if q == [] then 0 else QueuedWords(q[..|q| - 1]) + PayloadWords(q[|q| - 1])
  }

  /** Whichever way the guards go, every payload finds room behind the calls queued in front of it. */
  ghost predicate DrainsFit(cs: seq<Call>) {
    forall i, k | 0 <= i <= k < |cs| && AllQueueable(cs[i..k]) && FIRST_DATA + QueuedWords(cs[i..k]) < MAX_DATA ::
      FIRST_DATA + QueuedWords(cs[i..k]) + PayloadWords(cs[k]) <= DATA_ROOM
  }

  lemma {:induction false} QueuedWordsHead(q: seq<Call>)
    requires q != []
    ensures QueuedWords(q) == PayloadWords(q[0]) + QueuedWords(q[1..])
    decreases |q|
  {
    hide PayloadWords;
    var n := |q| - 1;
    if n > 0 {
      assert q[..n][0] == q[0] && q[..n][1..] == q[1..][..n - 1] && q[1..][n - 1] == q[n];
      QueuedWordsHead(q[..n]);
    }
  }

  /** The data counter is where the queued payload ends. */
  lemma {:induction false} QueuedWordsAre(s: seq<Word>, i: nat, j: nat, q: seq<Call>, iEnd: nat, jEnd: nat)
    requires Queued(s, i, j, Items(q), iEnd, jEnd)
    ensures jEnd == j + QueuedWords(q)
    decreases |q|
  {
    hide Queued, Items, PayloadWords, EntryAt, Laid;
    QueueDone(s, i, j, q, iEnd, jEnd);
    if q != [] {
      QueuePop(s, i, j, q, iEnd, jEnd);
      QueuedWordsHead(q);
      QueuedWordsAre(s, i + 1 + |q[0].args|, j + PayloadWords(q[0]), q[1..], iEnd, jEnd);
    }
  }

  lemma DrainsFitSuffix(cs: seq<Call>, n: nat)
    requires DrainsFit(cs) && n <= |cs|
    ensures DrainsFit(cs[n..])
  {
    hide AllQueueable, QueuedWords, PayloadWords;
    var rest := cs[n..];
    forall i, k | 0 <= i <= k < |rest| && AllQueueable(rest[i..k]) && FIRST_DATA + QueuedWords(rest[i..k]) < MAX_DATA
      ensures FIRST_DATA + QueuedWords(rest[i..k]) + PayloadWords(rest[k]) <= DATA_ROOM
    {
      assert rest[i..k] == cs[n + i..n + k] && rest[k] == cs[n + k];
    }
  }

  lemma {:induction false} FitNeverOverruns(q: seq<Call>, cs: seq<Call>, fifoEn: seq<bool>, fifo: nat)
    requires |fifoEn| == |cs| && AllFit(cs) && AllQueueable(q) && FIRST_DATA + QueuedWords(q) < MAX_DATA && DrainsFit(q + cs)
    ensures !Overruns(cs, fifoEn, fifo, FIRST_DATA + QueuedWords(q))
    decreases |cs|
  {
    hide PayloadWords, DrainsFit, ArgsFit, QueuedWords;
    if cs != [] {
      var c := cs[0];
      FitsBehind(q, cs);
      if Defers(c, fifoEn[0], fifo, FIRST_DATA + QueuedWords(q)) {
        QueuedWordsSnoc(q, c);
        assert (q + [c]) + cs[1..] == q + cs;
        FitNeverOverruns(q + [c], cs[1..], fifoEn[1..], fifo + 1 + |c.args|);
      } else {
        DrainsFitSuffix(q + cs, |q| + 1);
        assert (q + cs)[|q| + 1..] == [] + cs[1..];
        NothingQueued();
        FitNeverOverruns([], cs[1..], fifoEn[1..], FIRST_FIFO);
      }
    }
  }

  lemma NothingQueued()
    ensures QueuedWords([]) == 0
  {
  }

  lemma QueuedWordsSnoc(q: seq<Call>, c: Call)
    ensures QueuedWords(q + [c]) == QueuedWords(q) + PayloadWords(c)
  {
    hide PayloadWords;
    assert (q + [c])[..|q|] == q;
  }

  lemma FitsBehind(q: seq<Call>, cs: seq<Call>)
    requires cs != [] && AllQueueable(q) && FIRST_DATA + QueuedWords(q) < MAX_DATA && DrainsFit(q + cs)
    ensures FIRST_DATA + QueuedWords(q) + PayloadWords(cs[0]) <= DATA_ROOM
  {
    hide PayloadWords, QueuedWords, AllQueueable;
    assert (q + cs)[0..|q|] == q && (q + cs)[|q|] == cs[0];
  }

  lemma RoomIsMade(s: seq<Word>, q: seq<Call>, iEnd: nat, jEnd: nat, cs: seq<Call>, fifoEn: seq<bool>)
    requires Queued(s, FIRST_FIFO, FIRST_DATA, Items(q), iEnd, jEnd) && jEnd < MAX_DATA && AllQueueable(q)
    requires |fifoEn| == |cs| && AllFit(cs)
    ensures DrainsFit(q + cs) ==> !Overruns(cs, fifoEn, iEnd, jEnd)
  {
    hide Queued, Items, AllQueueable, AllFit, DrainsFit, Overruns, QueuedWords;
    QueuedWordsAre(s, FIRST_FIFO, FIRST_DATA, q, iEnd, jEnd);
    if DrainsFit(q + cs) {
      FitNeverOverruns(q, cs, fifoEn, iEnd);
    }
  }

  /** Payloads of at most 61440 bytes always find room. */
  lemma SmallPayloadsFit(cs: seq<Call>)
    requires forall k | 0 <= k < |cs| :: PayloadWords(cs[k]) <= MAX_PAYLOAD
    ensures DrainsFit(cs)
  {
    hide PayloadWords, QueuedWords, AllQueueable;
  }

  /** A stretch that ends with a call that traps cannot be queued. */
  lemma QueryStops(cs: seq<Call>, i: nat, k: nat)
    requires 0 < k <= |cs| && i <= k && !Queueable(cs[k - 1].f)
    ensures AllQueueable(cs[i..k]) ==> i == k
  {
    hide Queueable;
    if i < k {
      assert cs[i..k][k - 1 - i] == cs[k - 1];
    }
  }

  lemma OverrunsDone(fifo: nat, data: nat)
    ensures !Overruns([], [], fifo, data)
  {
  }

  /** So does any payload that fits an empty queue, behind a call that traps, as the size query before a download does. */
  lemma DownloadFits(cs: seq<Call>, query: Call, download: Call)
    requires DrainsFit(cs + [query]) && !Queueable(query.f)
    requires FIRST_DATA + PayloadWords(download) <= DATA_ROOM
    ensures DrainsFit(cs + [query] + [download])
  {
    hide PayloadWords, QueuedWords, Queueable;
    var some, all := cs + [query], cs + [query] + [download];
    forall i, k | 0 <= i <= k < |all| && AllQueueable(all[i..k]) && FIRST_DATA + QueuedWords(all[i..k]) < MAX_DATA
      ensures FIRST_DATA + QueuedWords(all[i..k]) + PayloadWords(all[k]) <= DATA_ROOM
    {
      if k < |some| {
        assert all[i..k] == some[i..k] && all[k] == some[k];
      } else {
        QueryStops(all, i, k);
        assert all[i..k] == [];
        NothingQueued();
      }
    }
  }

  lemma ReadTraps(c: Call, fifoEn: bool, fifo: nat, data: nat)
    requires c.f == GR_LFB_READ_REGION
    ensures !Defers(c, fifoEn, fifo, data) && PayloadWords(c) == 0
  {
  }

  /** Every stretch of the calls that the guards can make one drain carries: the calls before its last one can be
      queued, the last one ends it. */
  ghost predicate DrainsCarry(cs: seq<Call>) {
    forall i, j | 0 <= i < j <= |cs| && OnlyLastTraps(cs[i..j]) :: Carries(cs[i..j])
  }

  lemma OneDrain(cs: seq<Call>, i: nat, j: nat, q: seq<Call>, c: Call)
    requires DrainsCarry(cs) && i < j <= |cs| && cs[i..j] == q + [c] && AllQueueable(q)
    ensures Carries(q + [c])
  {
    hide Carries, Queueable;
  }

  /** It is enough that the whole sequence would carry as one drain. */
  lemma CarriesDrains(cs: seq<Call>)
    requires Carries(cs)
    ensures DrainsCarry(cs)
  {
    hide Carries, OnlyLastTraps;
    forall i, j | 0 <= i < j <= |cs|
      ensures Carries(cs[i..j])
    {
      assert cs == cs[..i] + cs[i..];
      CarriesSplit(cs[..i], cs[i..]);
      assert cs[i..] == cs[i..j] + cs[j..];
      CarriesSplit(cs[i..j], cs[j..]);
    }
  }

  /** But not needed: a level that was not sent spoils nothing behind a call that always traps, such as the end of a frame. */
  lemma SwapEndsDrain(level: Call, swap: Call, point: Call)
    requires BlindLevel(level) && swap.f == GR_BUFFER_SWAP && point.f == GR_DRAW_POINT
    ensures DrainsCarry([level, swap, point]) && !Carries([level, swap, point])
  {
    var cs := [level, swap, point];
    SwapCalls(level, swap, point);
    hide Carries, OnlyLastTraps;
    forall i, j | 0 <= i < j <= |cs| && OnlyLastTraps(cs[i..j])
      ensures Carries(cs[i..j])
    {
      if i == 0 {
        assert cs[..1] == [level] && cs[..2] == [level, swap] && cs[..3] == cs;
      } else if i == 1 {
        assert cs[1..2] == [swap] && cs[1..3] == [swap, point];
      } else {
        assert cs[2..3] == [point];
      }
    }
  }

  lemma SwapCalls(level: Call, swap: Call, point: Call)
    requires BlindLevel(level) && swap.f == GR_BUFFER_SWAP && point.f == GR_DRAW_POINT
    ensures Carries([level]) && Carries([level, swap]) && Carries([swap]) && Carries([point])
    ensures !OnlyLastTraps([level, swap, point]) && !OnlyLastTraps([swap, point]) && !Carries([level, swap, point])
  {
    assert !BlindLevel(swap) && !Touches(swap) && IndicesInRange(swap);
    assert !BlindLevel(point) && Touches(point) && IndicesInRange(point) && GuestKind(point.f) != FogTable;
    hide BlindLevel, Touches, GuestKind, IndicesInRange;
    assert [level, swap, point][1..] == [swap, point] && [swap, point][1..] == [point] && [level, swap][1..] == [swap];
    assert [level, swap, point][1] == swap && !Queueable(swap.f);
    assert !Harmless([point]) && !Harmless([swap, point]);
  }

  /** The area as the guest leaves it when a call traps: queue and call reach the API natively wherever the host has the
      area exactly when the calls carry. */
  lemma TransparentExactly(s: seq<Word>, begun: seq<Exec>, q: seq<Call>, iEnd: nat, jEnd: nat, c: Call)
    requires |s| == GRSHM_WORDS && AllQueueable(q) && Queued(s, FIRST_FIFO, FIRST_DATA, Items(q), iEnd, jEnd)
    requires ArgsFit(c.f, c.args) && Laid(s, MAX_FIFO + jEnd, GuestChunks(c)) && jEnd + PayloadWords(c) <= DATA_ROOM
    ensures (forall base | HostBase(base) :: RunsNatively(Host(s, FIRST_DATA, begun), q + [c], AddressOf(base)))
            <==> Carries(q + [c])
  {
    hide Queued, Laid, GuestChunks, Total, Items, CallsLaid, ArgsFit, Queueable, RunsNatively, Carries, AddressOf;
    QueuedLaid(s, FIRST_FIFO, FIRST_DATA, q, iEnd, jEnd, c);
    NativeExactly(Host(s, FIRST_DATA, begun), q + [c]);
  }

  class GlideLink {
    const shm: array<Word>
    /** Where the host has the area, and the pointers it would store, by the word they point to. */
    const base: nat
    const address: Address := AddressOf(base)
    var log: seq<Exec>
    /** The host followed or stored through a pointer that leads out of its memory: nothing is promised from then on. */
    var faulted: bool
    /** A payload did not fit between the data counter and the output page; the wrapper writes it all the same, over that
        page and, if it is long enough, past the area. Nothing is promised from then on either. */
    var overrun: bool
    ghost var queued: seq<Call>

    /** The queued calls are all in the shared area, their payload ending at data cursor j. */
    ghost predicate Holding(j: nat)
      reads this, shm
    {
      && shm.Length == GRSHM_WORDS
      && shm[0] < MAX_FIFO
      && j % 2 == 0
      && AllQueueable(queued)
      && Queued(shm[..], FIRST_FIFO, FIRST_DATA, Items(queued), shm[0], j)
    }

    /** What holds of the shared area whenever the guest is between two calls. */
    ghost predicate Valid()
      reads this, shm
    {
      && shm.Length == GRSHM_WORDS
      && Holding(shm[MAX_FIFO])
      && shm[MAX_FIFO] < MAX_DATA
      && !faulted && !overrun
    }

    constructor (base: nat)
      requires HostBase(base)
      ensures Valid() && fresh(shm) && this.base == base
      ensures log == [] && queued == []
      ensures shm[0] == FIRST_FIFO && shm[MAX_FIFO] == FIRST_DATA
    {
      shm := new Word[GRSHM_WORDS];
      this.base := base;
      log := [];
      faulted, overrun := false, false;
      queued := [];
      new;
      shm[0] := FIRST_FIFO;
      shm[MAX_FIFO] := FIRST_DATA;
    }

    // The guest end.

    method FifoAddEntry(f: Word, numArgs: nat)
      requires shm.Length == GRSHM_WORDS && numArgs <= 16
      requires FIRST_FIFO <= shm[0] && shm[0] + numArgs + 1 < MAX_FIFO
      modifies shm
      ensures EntryAt(shm[..], old(shm[0]), f, old(shm[2..2 + numArgs]))
      ensures shm[old(shm[0])] == f && shm[old(shm[0]) + 1..old(shm[0]) + 1 + numArgs] == old(shm[2..2 + numArgs])
      ensures shm[0] == old(shm[0]) + 1 + numArgs
      ensures Same(old(shm[..]), shm[..], 1, old(shm[0]))
      ensures Same(old(shm[..]), shm[..], MAX_FIFO, GRSHM_WORDS)
    {
      var j := shm[0];
      ghost var j0, before := j, shm[..];
      shm[j] := f;
      j := j + 1;
      for i := 0 to numArgs
        invariant j == j0 + 1 + i && shm[j0] == f
        invariant forall k | 0 <= k < j0 || MAX_FIFO <= k < GRSHM_WORDS :: shm[k] == before[k]
        invariant forall k | j0 < k < j :: shm[k] == before[k - j0 + 1]
      {
        shm[j] := shm[2 + i];
        j := j + 1;
      }
      shm[0] := j;
      assert shm[..][j0 + 1..j] == before[2..2 + numArgs];
    }

    /** One block of payload: the words behind the guest pointer. */
    method FifoAddData(data: seq<Word>)
      requires shm.Length == GRSHM_WORDS
      requires 0 < shm[MAX_FIFO] && shm[MAX_FIFO] % 2 == 0
      requires MAX_FIFO + shm[MAX_FIFO] + |data| <= OUT_PAGE
      modifies shm
      ensures shm[MAX_FIFO] == old(shm[MAX_FIFO]) + EvenUp(|data|) == old(shm[MAX_FIFO]) + |data| + |data| % 2
      ensures var p := MAX_FIFO + old(shm[MAX_FIFO]); shm[..][p..p + |data|] == data
      ensures Same(old(shm[..]), shm[..], OUT_PAGE, GRSHM_WORDS)
      ensures Same(old(shm[..]), shm[..], 0, MAX_FIFO)
      ensures Same(old(shm[..]), shm[..], MAX_FIFO + 1, MAX_FIFO + old(shm[MAX_FIFO]))
    {
      var j := shm[MAX_FIFO];
      shm[MAX_FIFO] := if (j + |data|) % 2 == 1 then j + |data| + 1 else j + |data|;
      var p := MAX_FIFO + j;
      forall k | 0 <= k < |data| {
        shm[p + k] := data[k];
      }
    }

    /** The fifoAddData calls of one wrapper. */
    method AddPayload(chunks: seq<seq<Word>>)
      requires shm.Length == GRSHM_WORDS
      requires 0 < shm[MAX_FIFO] && shm[MAX_FIFO] % 2 == 0
      requires shm[MAX_FIFO] + Total(chunks) <= DATA_ROOM
      modifies shm
      ensures shm[MAX_FIFO] == old(shm[MAX_FIFO]) + Total(chunks)
      ensures Laid(shm[..], MAX_FIFO + old(shm[MAX_FIFO]), chunks)
      ensures Same(old(shm[..]), shm[..], OUT_PAGE, GRSHM_WORDS)
      ensures Same(old(shm[..]), shm[..], 0, MAX_FIFO)
      ensures Same(old(shm[..]), shm[..], MAX_FIFO + 1, MAX_FIFO + old(shm[MAX_FIFO]))
    {
      hide Laid, Total, EvenUp;
      ghost var j0 := shm[MAX_FIFO];
      NoPayloadYet(shm[..], MAX_FIFO + j0, chunks);
      for k := 0 to |chunks|
        invariant shm[MAX_FIFO] == j0 + Total(chunks[..k])
        invariant Laid(shm[..], MAX_FIFO + j0, chunks[..k])
        invariant Same(old(shm[..]), shm[..], OUT_PAGE, GRSHM_WORDS)
        invariant Same(old(shm[..]), shm[..], 0, MAX_FIFO)
        invariant Same(old(shm[..]), shm[..], MAX_FIFO + 1, MAX_FIFO + j0)
      {
        TotalPrefix(chunks, k);
        ghost var before := shm[..];
        FifoAddData(chunks[k]);
        PayloadStep(before, shm[..], MAX_FIFO + j0, chunks, k);
      }
      assert chunks[..|chunks|] == chunks;
    }

    /** The wrapper's stores to pt[1] and up, which are words 2 and up of the area. */
    method StoreArgs(args: seq<Word>)
      requires shm.Length == GRSHM_WORDS && |args| <= 16
      modifies shm
      ensures shm[2..2 + |args|] == args
      ensures Same(old(shm[..]), shm[..], 0, 2)
      ensures Same(old(shm[..]), shm[..], FIRST_FIFO, GRSHM_WORDS)
    {
      forall k | 0 <= k < |args| {
        shm[2 + k] := args[k];
      }
    }

    // The host end.

    /** What processArgs copies to the output page before it hands out pointers there. */
    method CopyOut(f: int, p: nat)
      requires shm.Length == GRSHM_WORDS
      modifies shm
      ensures shm[..] == Overlay(old(shm[..]), OUT_PAGE, CopiedOut(old(shm[..]), f, p))
    {
      hide CopiedOut;
      var out := CopiedOut(shm[..], f, p);
      forall k | 0 <= k < |out| {
        shm[OUT_PAGE + k] := out[k];
      }
    }

    /** guTexDownloadMipMapLevel wants a pointer to a pointer: the host stores one right behind the texels, whether any
        were sent or not. */
    method ParkPointer(p: nat, q: nat)
      requires shm.Length == GRSHM_WORDS && q + 2 <= GRSHM_WORDS
      modifies shm
      ensures shm[..] == old(shm[..])[q := address(p).0][q + 1 := address(p).1]
    {
      shm[q] := address(p).0;
      shm[q + 1] := address(p).1;
    }

    /** processArgs for an indexed polygon. */
    method ProcessPolygon(f: int, args: seq<Word>, p: nat) returns (data: seq<seq<Word>>)
      requires shm.Length == GRSHM_WORDS && HostKind(f) == Polygon && InArea(shm[..], f, args, p)
      ensures data == PolygonData(shm[..], args, p)
    {
      hide Slice, Scattered, Aligned, HostKind, InArea;
      PolygonRoom(shm[..], f, args, p);
      var n := Arg(args, 0);
      var ilist := Slice(shm[..], p, n);
      var stream := Slice(shm[..], p + Aligned(n * 4) / 4, 16 * n);
      var vtxCache := ScatterPolygon(ilist, stream);
      data := [ilist] + Collect(vtxCache[..], ilist);
      CollectIsScattered(vtxCache[..], ilist, stream);
    }

    /** The pointer stored behind a texture level, or the copy to the output page. */
    method PrepareArea(f: int, args: seq<Word>, p: nat)
      requires shm.Length == GRSHM_WORDS && Reaches(shm[..], f, args, p)
      modifies shm
      ensures shm[..] == Prepare(old(shm[..]), f, args, p, address)
    {
      hide CopiedOut, Overlay, Aligned, HostKind;
      if HostKind(f) == GuMipMapLevel {
        LevelRoom(shm[..], f, args, p);
        ParkPointer(p, p + Aligned(Arg(args, 3)) / 4);
      } else {
        CopyOut(f, p);
      }
    }

    /** The words behind the pointers the API gets. */
    method PointAt(f: int, args: seq<Word>, p: nat) returns (data: seq<seq<Word>>)
      requires shm.Length == GRSHM_WORDS && InArea(shm[..], f, args, p)
      ensures data == DataSeen(shm[..], f, args, p)
    {
      hide PointedAt, PolygonData, HostKind, Extent;
      if HostKind(f) == Polygon {
        data := ProcessPolygon(f, args, p);
      } else {
        data := PointedAt(shm[..], f, args, p);
      }
    }

    /** processArgs: the payload size, and the words behind the pointers the API gets. */
    method ProcessArgs(f: int, args: seq<Word>, j: nat) returns (ok: bool, datacb: nat, data: seq<seq<Word>>)
      requires shm.Length == GRSHM_WORDS
      modifies shm
      ensures var o := HostCall(Host(old(shm[..]), j, log), f, args, address);
              && (ok <==> o.Ran?)
              && (ok ==> o.host == Host(shm[..], Moved(j, datacb), log + [Exec(f, args, data)]))
    {
      ghost var s := shm[..];
      var p: nat := MAX_FIFO + j;
      hide *;
      CallIs(Host(s, j, log), f, args, address);
      ok, datacb, data := Reaches(shm[..], f, args, p), HostPayloadBytes(f, args, FirstWord(shm[..], p)), [];
      if ok {
        PrepareArea(f, args, p);
        StillInArea(s, shm[..], f, args, p);
        data := PointAt(f, args, p);
      }
    }

    /** One round of the drain loop: the call at the cursors is run, and the cursors move by what the host
        believes its arguments and payload to be. */
    method ProcessEntry(i: nat, j: nat, ghost rest: seq<Call>, ghost iEnd: nat) returns (i': nat, j': nat)
      requires shm.Length == GRSHM_WORDS && !faulted && rest != [] && AllQueueable(rest)
      requires FIRST_DATA <= j && iEnd <= MAX_FIFO && Entries(shm[..], i, rest, iEnd)
      modifies this`log, this`faulted, shm
      ensures var o := HostCall(Host(old(shm[..]), j, old(log)), rest[0].f, rest[0].args, address);
              && (faulted <==> o.Outside?)
              && (!faulted ==> o.host == Host(shm[..], j', log))
      ensures !faulted ==>
                && i' == i + 1 + |rest[0].args| && FIRST_DATA <= j'
                && Entries(shm[..], i', rest[1..], iEnd) && AllQueueable(rest[1..])
                && Same(old(shm[..]), shm[..], 0, MAX_FIFO + FIRST_DATA)
    {
      hide EntryAt, ArgsFit, Queueable, HostArgCount, HostCall, Words;
      ghost var c, s := rest[0], shm[..];
      EntryRead(s, i, c);
      CallFrame(Host(s, j, log), c.f, c.args, address);
      EntriesEnd(s, i + 1 + |c.args|, rest[1..], iEnd);
      var f := shm[i];
      var numArgs := HostArgCount(f);
      var args := shm[i + 1..i + 1 + numArgs];
      var ok, datacb, data := ProcessArgs(f, args, j);
      if ok {
        log := log + [Exec(f, args, data)];
        EntriesFrame(s, shm[..], i + 1 + numArgs, rest[1..], iEnd);
      }
      faulted := !ok;
      i', j' := i + 1 + numArgs, Moved(j, datacb);
    }

    /** Drains the queue. Nothing in it says how long a payload is: the host's data cursor goes wherever the sizes it works
        out take it, and what is left of the counter is the difference. */
    method ProcessFifo() returns (i: nat, j: nat)
      requires shm.Length == GRSHM_WORDS && !faulted && shm[0] < MAX_FIFO
      requires AllQueueable(queued) && Entries(shm[..], FIRST_FIFO, queued, shm[0])
      modifies this`log, this`faulted, this`queued, shm
      ensures var o := HostCalls(Host(old(shm[..]), FIRST_DATA, old(log)), old(queued), address);
              && (faulted <==> o.Outside?)
              && (!faulted ==>
                    && log == o.host.log && j == o.host.j >= FIRST_DATA && i == old(shm[0])
                    && Same(o.host.s, shm[..], 1, MAX_FIFO) && Same(o.host.s, shm[..], MAX_FIFO + 1, GRSHM_WORDS)
                    && Same(old(shm[..]), shm[..], 1, MAX_FIFO)
                    && shm[0] == FIRST_FIFO
                    && shm[MAX_FIFO] == (if j > FIRST_DATA then CounterLess(old(shm[MAX_FIFO]), j) else old(shm[MAX_FIFO]))
                    && queued == [])
    {
      hide HostCall, EntryAt, ArgsFit, Queueable;
      i, j := FIRST_FIFO, FIRST_DATA;
      ghost var rest, iEnd, h := queued, shm[0], Host(shm[..], FIRST_DATA, log);
      EntriesEnd(shm[..], i, rest, iEnd);
      while i < shm[0]
        invariant !faulted && FIRST_DATA <= j && AllQueueable(rest) && Entries(shm[..], i, rest, iEnd)
        invariant i <= iEnd && (i == iEnd <==> rest == [])
        invariant HostCalls(Host(shm[..], j, log), rest, address) == HostCalls(h, old(queued), address)
        invariant Same(old(shm[..]), shm[..], 0, MAX_FIFO + FIRST_DATA) && queued == old(queued)
        decreases iEnd - i
      {
        i, j := ProcessEntry(i, j, rest, iEnd);
        if faulted {
          return;
        }
        rest := rest[1..];
        EntriesEnd(shm[..], i, rest, iEnd);
      }
      queued := [];
      shm[0] := FIRST_FIFO;
      if j > FIRST_DATA {
        shm[MAX_FIFO] := CounterLess(shm[MAX_FIFO], j);
      }
    }

    /** The trapped call itself, once the queue is drained. */
    method TrappedCall(f: int, numArgs: nat, j: nat, ghost own: seq<Word>) returns (residue: nat)
      requires shm.Length == GRSHM_WORDS && !faulted && !overrun && queued == [] && shm[0] == FIRST_FIFO
      requires FIRST_DATA <= j && numArgs <= 16 && shm[2..2 + numArgs] == own
      modifies this`log, this`faulted, shm
      ensures var o := HostCall(Host(old(shm[..]), j, old(log)), f, own, address);
              && (faulted <==> o.Outside?)
              && (!faulted ==>
                    && Valid() && log == o.host.log && shm[0] == FIRST_FIFO && shm[MAX_FIFO] == FIRST_DATA
                    && (o.host.j - j < GRSHM_WORDS ==> residue == CounterLess(old(shm[MAX_FIFO]), o.host.j - j)))
    {
      hide HostCall, Words;
      var args := shm[2..2 + numArgs];
      CallFrame(Host(shm[..], j, log), f, args, address);
      residue := 0;
      var ok, datacb, data := ProcessArgs(f, args, j);
      if ok {
        log := log + [Exec(f, args, data)];
        shm[MAX_FIFO] := CounterLess(shm[MAX_FIFO], Words(datacb));
        residue := shm[MAX_FIFO];
        shm[MAX_FIFO] := FIRST_DATA;
        EmptyQueue(shm[..]);
      }
      faulted := !ok;
    }

    /** The data cursor of the host once it has drained these calls. */
    ghost predicate CursorAt(s: seq<Word>, begun: seq<Exec>, q: seq<Call>, j: nat) {
      var o := HostCalls(Host(s, FIRST_DATA, begun), q, address);
      o.Ran? && o.host.j == j >= FIRST_DATA
    }

    /** The write that traps: the queue is drained, then the trapped call runs with its arguments from words 2 and
        up and its payload behind what was queued. With legal calls the value tested as a leak is 0, or 2 when nothing
        was queued. */
    method Trap(f: int, numArgs: nat, ghost c: Call, ghost jq: nat) returns (residue: nat, j: nat)
      requires Holding(jq) && jq + PayloadWords(c) <= DATA_ROOM && !faulted && !overrun
      requires ArgsFit(c.f, c.args) && f == c.f && numArgs == |c.args|
      requires shm[2..2 + numArgs] == c.args
      requires Laid(shm[..], MAX_FIFO + jq, GuestChunks(c)) && shm[MAX_FIFO] == jq + PayloadWords(c)
      modifies this`log, this`faulted, this`queued, shm
      ensures var o := HostCalls(Host(old(shm[..]), FIRST_DATA, old(log)), old(queued) + [c], address);
              && (faulted <==> o.Outside?)
              && (!faulted ==>
                    && Valid() && queued == [] && log == o.host.log
                    && shm[0] == FIRST_FIFO && shm[MAX_FIFO] == FIRST_DATA
                    && CursorAt(old(shm[..]), old(log), old(queued), j))
      ensures AllLegal(old(queued) + [c]) ==> !faulted && j == jq && residue == if jq > FIRST_DATA then 0 else FIRST_DATA
    {
      hide Laid, EntryAt, Total, GuestChunks, PayloadWords, Items, Queued, Entries, HostCall, HostCalls, Legal, AllLegal;
      TrapArgs(c);
      ghost var h := Host(shm[..], FIRST_DATA, log);
      QueuedEntries(shm[..], FIRST_FIFO, FIRST_DATA, queued, shm[0], jq);
      CallsSnoc(h, queued, c, address);
      LeakIs(h, queued, shm[0], jq, c, address);
      var i;
      i, j := ProcessFifo();
      residue := 0;
      if !faulted {
        ghost var h1 := HostCalls(h, old(queued), address).host;
        CallSame(h1, Host(shm[..], j, log), f, c.args, MAX_FIFO + FIRST_DATA, address);
        residue := TrappedCall(f, numArgs, j, c.args);
      }
    }

    /** What every wrapper does before it decides: the payload goes behind the data counter, the arguments into pt. */
    method LayOut(c: Call)
      requires Valid() && ArgsFit(c.f, c.args) && shm[MAX_FIFO] + PayloadWords(c) <= DATA_ROOM
      modifies shm
      ensures Holding(old(shm[MAX_FIFO])) && FIRST_FIFO <= shm[0] == old(shm[0])
      ensures shm[MAX_FIFO] == old(shm[MAX_FIFO]) + PayloadWords(c)
      ensures Laid(shm[..], MAX_FIFO + old(shm[MAX_FIFO]), GuestChunks(c))
      ensures |c.args| <= 16 && shm[2..2 + |c.args|] == c.args
      ensures Same(old(shm[..]), shm[..], OUT_PAGE, GRSHM_WORDS)
    {
      hide Laid, EntryAt, Total, GuestChunks, Items, ArgsFit, Queued;
      TrapArgs(c);
      ghost var s, jq, iq := shm[..], shm[MAX_FIFO], shm[0];
      QueueDone(s, FIRST_FIFO, FIRST_DATA, queued, iq, jq);
      AddPayload(GuestChunks(c));
      ghost var s1 := shm[..];
      StoreArgs(c.args);
      QueuedFrame(s, shm[..], FIRST_FIFO, FIRST_DATA, Items(queued), iq, jq);
      LaidFrame(s1, shm[..], MAX_FIFO + jq, GuestChunks(c));
    }

    /** The log is what the host's drain of these calls, begun with that log, leaves behind. */
    ghost predicate Drained(s: seq<Word>, begun: seq<Exec>, cs: seq<Call>)
      reads this
    {
      var o := HostCalls(Host(s, FIRST_DATA, begun), cs, address);
      (faulted <==> o.Outside?) && (!faulted ==> log == o.host.log)
    }

    /** One wrapper of the guest library: payload, arguments, then either an entry in the queue or a trap. j is where the
        host's data cursor stands for the trapped call. */
    method GuestCall(c: Call, fifoEn: bool) returns (j: nat)
      requires Valid() && ArgsFit(c.f, c.args)
      modifies this, shm
      ensures !faulted && !overrun ==> Valid()
      ensures overrun <==> old(shm[MAX_FIFO]) + PayloadWords(c) > DATA_ROOM
      ensures overrun ==> !faulted && log == old(log) && queued == old(queued)
      ensures Defers(c, fifoEn, old(shm[0]), old(shm[MAX_FIFO])) ==>
                && !faulted && !overrun && log == old(log) && queued == old(queued) + [c]
                && shm[0] == old(shm[0]) + 1 + |c.args| && shm[MAX_FIFO] == old(shm[MAX_FIFO]) + PayloadWords(c)
      ensures !overrun && !Defers(c, fifoEn, old(shm[0]), old(shm[MAX_FIFO])) ==>
                && (exists s :: CallsLaid(s, FIRST_DATA, old(queued) + [c]) && Drained(s, old(log), old(queued) + [c])
                                && (!faulted ==> CursorAt(s, old(log), old(queued), j)))
                && (AllLegal(old(queued) + [c]) ==> !faulted && j == old(shm[MAX_FIFO]))
                && (!faulted ==> queued == [] && shm[0] == FIRST_FIFO && shm[MAX_FIFO] == FIRST_DATA)
      ensures !overrun && Carries(old(queued) + [c]) ==>
                !faulted && log + Execs(queued) == old(log) + Execs(old(queued)) + [Native(c)]
    {
      hide Laid, EntryAt, Total, GuestChunks, Execs, Items, ArgsFit, Queued, Carries, HostCalls, CallsLaid, Native;
      TrapArgs(c);
      hide CursorAt, AllLegal;
      ghost var iq, jq := shm[0], shm[MAX_FIFO];
      j := 0;
      if shm[MAX_FIFO] + PayloadWords(c) > DATA_ROOM {
        overrun := true;
        return;
      }
      LayOut(c);
      ExecsStep(queued, c);
      if Queueable(c.f) && fifoEn && shm[0] + (QueuedArgs(c.f) + 1) < MAX_FIFO && shm[MAX_FIFO] < MAX_DATA {
        ghost var s := shm[..];
        FifoAddEntry(c.f, QueuedArgs(c.f));
        QueueGrows(s, shm[..], queued, c, iq, jq);
        queued := queued + [c];
      } else {
        QueuedLaid(shm[..], FIRST_FIFO, FIRST_DATA, queued, iq, jq, c);
        DrainCarries(Host(shm[..], FIRST_DATA, log), queued, c, address);
        ghost var s := shm[..];
        var residue;
        residue, j := Trap(c.f, |c.args|, c, jq);
        assert Drained(s, old(log), old(queued) + [c]);
        ExecsEmpty();
      }
    }

    method StoreReply(at: nat, reply: seq<Word>)
      requires Valid() && queued == [] && MAX_FIFO < at && at + |reply| <= GRSHM_WORDS
      modifies shm
      ensures Valid() && shm[..] == Overlay(old(shm[..]), at, reply)
    {
      hide AllQueueable;
      forall k | 0 <= k < |reply| {
        shm[at + k] := reply[k];
      }
    }

    /** The one call whose reply travels through the data area: the host writes it at its data cursor (before it
        resets the counter), the guest reads it at the start of the area. d is how far apart the two are: for legal
        calls what was queued. */
    method ReadRegion(c: Call, reply: seq<Word>) returns (got: seq<Word>, ghost d: nat)
      requires Valid() && ArgsFit(c.f, c.args) && c.f == GR_LFB_READ_REGION && shm[MAX_FIFO] + |reply| <= DATA_ROOM
      modifies this, shm
      ensures |got| == |reply|
      ensures !faulted ==> Valid() && queued == [] && forall k | d <= k < |reply| :: got[k] == reply[k - d]
      ensures !faulted && d == 0 ==> got == reply
      ensures !faulted ==>
                exists s :: CallsLaid(s, FIRST_DATA, old(queued) + [c]) && CursorAt(s, old(log), old(queued), FIRST_DATA + d)
      ensures Carries(old(queued) + [c]) ==> log == old(log) + Execs(old(queued)) + [Native(c)]
      ensures AllLegal(old(queued) + [c]) ==> !faulted && d == old(shm[MAX_FIFO]) - FIRST_DATA
    {
      hide Execs, Items, Native, Queued, EntryAt, Laid, ArgsFit, HostCalls, CallsLaid, Carries, AllLegal, PayloadWords,
        Defers, CursorAt, Drained;
      QueueDone(shm[..], FIRST_FIFO, FIRST_DATA, queued, shm[0], shm[MAX_FIFO]);
      ReadTraps(c, false, shm[0], shm[MAX_FIFO]);
      ExecsEmpty();
      var j := GuestCall(c, false);
      d, got := 0, reply;
      if !faulted {
        ghost var s :| CallsLaid(s, FIRST_DATA, old(queued) + [c]) && CursorAt(s, old(log), old(queued), j);
        CursorBound(s, old(log), old(queued), j);
        d := j - FIRST_DATA;
        if MAX_FIFO + j + |reply| > GRSHM_WORDS {
          faulted := true;
        } else {
          StoreReply(MAX_FIFO + j, reply);
          got := shm[MAX_FIFO + FIRST_DATA..MAX_FIFO + FIRST_DATA + |reply|];
        }
      }
    }

    lemma CursorBound(s: seq<Word>, begun: seq<Exec>, q: seq<Call>, j: nat)
      requires CursorAt(s, begun, q, j)
      ensures j >= FIRST_DATA
    {
    }

    /** Any sequence of guest calls, whichever way each guard goes: what reaches the API, together with what is still
        queued, is the sequence a native library would have seen, as long as every payload finds room behind what its
        drain has queued. The counters stay in bounds throughout. */
    method Run(cs: seq<Call>, fifoEn: seq<bool>)
      requires Valid() && |fifoEn| == |cs| && AllFit(cs)
      modifies this, shm
      ensures !faulted && !overrun ==> Valid()
      ensures !faulted ==> (overrun <==> Overruns(cs, fifoEn, old(shm[0]), old(shm[MAX_FIFO])))
      ensures DrainsCarry(old(queued) + cs) && !Overruns(cs, fifoEn, old(shm[0]), old(shm[MAX_FIFO])) ==>
                !faulted && !overrun && log + Execs(queued) == old(log) + Execs(old(queued)) + Execs(cs)
      ensures DrainsFit(old(queued) + cs) ==> !overrun
    {
      hide ArgsFit, Execs, PayloadWords, Queued, Laid, EntryAt, Native, AllQueueable, Items, Carries, HostCalls, CallsLaid,
        Defers, Drained, DrainsCarry, CursorAt, AllLegal, OnlyLastTraps, DrainsFit, Overruns;
      ghost var (all, m, start) := (queued + cs, |queued|, 0);
      ghost var late := Overruns(cs, fifoEn, shm[0], shm[MAX_FIFO]);
      assert cs[..0] == [] && all[..m] == queued && cs[0..] == cs && fifoEn[0..] == fifoEn;
      RoomIsMade(shm[..], queued, shm[0], shm[MAX_FIFO], cs, fifoEn);
      ExecsEmpty();
      var k := 0;
      while k < |cs| && !faulted && !overrun
        invariant 0 <= k <= |cs| && (!faulted && !overrun ==> Valid())
        invariant 0 <= start <= m + k && (!faulted && !overrun ==> queued == all[start..m + k])
        invariant overrun ==> late
        invariant !faulted && !overrun ==> late == Overruns(cs[k..], fifoEn[k..], shm[0], shm[MAX_FIFO])
        invariant DrainsCarry(all) && !overrun ==>
                    !faulted && log + Execs(queued) == old(log) + Execs(old(queued)) + Execs(cs[..k])
      {
        assert all[start..m + k + 1] == queued + [cs[k]];
        if DrainsCarry(all) {
          OneDrain(all, start, m + k + 1, queued, cs[k]);
        }
        OverrunsStep(cs, fifoEn, k, shm[0], shm[MAX_FIFO]);
        ghost var before := queued;
        var _ := GuestCall(cs[k], fifoEn[k]);
        ExecsStep(cs[..k], cs[k]);
        assert cs[..k] + [cs[k]] == cs[..k + 1];
        k := k + 1;
        start := if queued == before + [cs[k - 1]] then start else m + k;
        assert all[m + k..m + k] == [];
      }
      if !faulted && !overrun {
        assert cs[..k] == cs && cs[k..] == [] && fifoEn[k..] == [];
        OverrunsDone(shm[0], shm[MAX_FIFO]);
      }
    }
  }

  lemma LostPointCalls(level: Call, point: Call, query: Call)
    requires ArgsFit(level.f, level.args) && BlindLevel(level)
    requires ArgsFit(point.f, point.args) && point.f == GR_DRAW_POINT
    requires ArgsFit(query.f, query.args) && query.f == GR_BUFFER_NUM_PENDING
    ensures var cs := [level, point, query];
            AllFit(cs) && OnlyLastTraps(cs) && !Carries(cs) && QueueFits(cs, FIRST_FIFO, FIRST_DATA)
  {
    LevelSent(level);
    PointSent(point);
    assert PayloadWords(query) == 0;
    hide BlindLevel, PayloadWords, Touches;
    var cs := [level, point, query];
    assert cs[1..] == [point, query] && [point, query][1..] == [query];
    assert !Queueable(query.f);
    assert QueueFits([query], FIRST_FIFO + 7, FIRST_DATA + 16);
    assert QueueFits([point, query], FIRST_FIFO + 5, FIRST_DATA);
  }

  lemma LevelSent(c: Call)
    requires BlindLevel(c) && ArgsFit(c.f, c.args)
    ensures PayloadWords(c) == 0 && c.f == GU_TEX_DOWNLOAD_MIP_MAP_LEVEL && |c.args| == QueuedArgs(c.f) == 4
  {
  }

  lemma PointSent(c: Call)
    requires c.f == GR_DRAW_POINT && ArgsFit(c.f, c.args)
    ensures PayloadWords(c) == 16 && Touches(c) && !BlindLevel(c) && GuestKind(c.f) == OneVertex
    ensures |c.args| == QueuedArgs(c.f) == 1
  {
    TotalOfFew(GuestChunks(c));
  }

  lemma NotNative(s: seq<Word>, cs: seq<Call>)
    requires CallsLaid(s, FIRST_DATA, cs) && AllFit(cs) && OnlyLastTraps(cs) && !Carries(cs)
    ensures var o := HostCalls(Host(s, FIRST_DATA, []), cs, AddressOf(ShowingBase(FIRST_DATA, cs)));
            o.Ran? ==> o.host.log != Execs(cs)
  {
    hide HostCalls, Carries, CallsLaid, AllFit, OnlyLastTraps, Execs, AddressOf, ShowingBase;
    ShowingBaseFails(Host(s, FIRST_DATA, []), cs);
    assert [] + Execs(cs) == Execs(cs);
  }

  /** With the counters there all but the last of these calls are queued; that one finds room and traps. */
  predicate QueueFits(cs: seq<Call>, fifo: nat, data: nat)
    requires cs != []
    decreases |cs|
  {
    if |cs| == 1 then data + PayloadWords(cs[0]) <= DATA_ROOM && !Defers(cs[0], true, fifo, data)
    else
      && Defers(cs[0], true, fifo, data)
      && QueueFits(cs[1..], fifo + 1 + |cs[0].args|, data + PayloadWords(cs[0]))
  }

  lemma QueueFitsNow(cs: seq<Call>, fifo: nat, data: nat)
    requires cs != [] && QueueFits(cs, fifo, data)
    ensures data + PayloadWords(cs[0]) <= DATA_ROOM
    ensures |cs| == 1 ==> !Defers(cs[0], true, fifo, data)
    ensures |cs| > 1 ==>
              && Defers(cs[0], true, fifo, data)
              && QueueFits(cs[1..], fifo + 1 + |cs[0].args|, data + PayloadWords(cs[0]))
  {
  }

  /** Whatever the calls of one drain are, if they do not carry then a fresh link, with the area where a host can have it,
      runs them to something that is not native. */
  method Spoil(cs: seq<Call>) returns (link: GlideLink)
    requires cs != [] && AllFit(cs) && OnlyLastTraps(cs) && !Carries(cs)
    requires QueueFits(cs, FIRST_FIFO, FIRST_DATA)
    ensures fresh(link) && (link.faulted || (link.queued == [] && link.log != Execs(cs)))
  {
    hide HostCalls, Carries, CallsLaid, OnlyLastTraps, ShowingBase, BlindLevel, ArgsFit, Queueable, PayloadWords, Defers, Execs,
      RunsNatively, Queued, Items, GuestKind, Laid, EntryAt, Total, GuestChunks, AllQueueable, Native, HostCall, AddressOf,
      QueueFits, AllLegal;
    link := new GlideLink(ShowingBase(FIRST_DATA, cs));
    var n := |cs| - 1;
    assert cs[0..] == cs && cs[..0] == [];
    for k := 0 to n
      invariant fresh(link) && fresh(link.shm) && link.Valid() && link.base == ShowingBase(FIRST_DATA, cs)
      invariant link.log == [] && link.queued == cs[..k]
      invariant QueueFits(cs[k..], link.shm[0], link.shm[MAX_FIFO])
    {
      QueueFitsNow(cs[k..], link.shm[0], link.shm[MAX_FIFO]);
      assert cs[k..][0] == cs[k] && cs[k..][1..] == cs[k + 1..] && cs[..k] + [cs[k]] == cs[..k + 1];
      var _ := link.GuestCall(cs[k], true);
    }
    QueueFitsNow(cs[n..], link.shm[0], link.shm[MAX_FIFO]);
    assert cs[n..][0] == cs[n] && cs[..n] + [cs[n]] == cs;
    var _ := link.GuestCall(cs[n], true);
    ghost var s :| CallsLaid(s, FIRST_DATA, cs) && link.Drained(s, [], cs);
    NotNative(s, cs);
  }

  /** A level of a handle the wrapper does not know, a point and a call that traps, on a fresh link: the point is queued
      behind the level, and what reaches the API is not what was called. */
  method LostPoint(level: Call, point: Call, query: Call) returns (link: GlideLink)
    requires ArgsFit(level.f, level.args) && BlindLevel(level)
    requires ArgsFit(point.f, point.args) && point.f == GR_DRAW_POINT
    requires ArgsFit(query.f, query.args) && query.f == GR_BUFFER_NUM_PENDING
    ensures fresh(link) && (link.faulted || (link.queued == [] && link.log != Execs([level, point, query])))
  {
    LostPointCalls(level, point, query);
    hide *;
    link := Spoil([level, point, query]);
  }

  /** A point is queued, then the frame buffer is read: 16 words into the reply the guest has what belongs at its start. */
  method LateReply(base: nat, point: Call, read: Call, reply: seq<Word>) returns (got: seq<Word>)
    requires HostBase(base)
    requires ArgsFit(point.f, point.args) && point.f == GR_DRAW_POINT
    requires ArgsFit(read.f, read.args) && read.f == GR_LFB_READ_REGION
    requires 16 < |reply| <= DATA_ROOM - 18 && reply[16] != reply[0]
    ensures got != reply
  {
    hide Queued, Items, EntryAt, Laid, ArgsFit, HostCalls, CallsLaid, Carries, AllLegal, PayloadWords, Defers, Execs, Native;
    PointIsLegal(point, read);
    var link := new GlideLink(base);
    var _ := link.GuestCall(point, true);
    assert link.queued + [read] == [point, read];
    ghost var d;
    got, d := link.ReadRegion(read, reply);
    assert got[16] == reply[0];
  }

  lemma PointIsLegal(point: Call, read: Call)
    requires ArgsFit(point.f, point.args) && point.f == GR_DRAW_POINT
    requires ArgsFit(read.f, read.args) && read.f == GR_LFB_READ_REGION
    ensures AllLegal([point, read]) && PayloadWords(point) == 16
    ensures Defers(point, true, FIRST_FIFO, FIRST_DATA)
  {
    PointSent(point);
    hide PayloadWords;
    assert Legal(point) && Legal(read);
  }

  /** As many triangles as the guards let into the queue, then a screen of 640 by 480 pixels of 16 bits: the queue is drained
      only when the wrapper traps, and by then it has written the pixels past the end of the area. */
  method FullQueue(base: nat, triangle: Call, write: Call) returns (link: GlideLink, end: nat)
    requires HostBase(base)
    requires ArgsFit(triangle.f, triangle.args) && triangle.f == GR_DRAW_TRIANGLE
    requires ArgsFit(write.f, write.args) && write.f == GR_LFB_WRITE_REGION
    requires Arg(write.args, 5) * Arg(write.args, 6) == 1280 * 480
    ensures fresh(link) && link.overrun && |link.queued| == 14677 && end == MAX_FIFO + 858098 > GRSHM_WORDS
  {
    hide Queued, Items, EntryAt, Laid, ArgsFit, HostCalls, CallsLaid, Carries, AllLegal, PayloadWords, Defers, Execs, Native,
      AllQueueable, GuestKind;
    link := new GlideLink(base);
    for k := 0 to 14677
      invariant fresh(link) && fresh(link.shm) && link.Valid() && |link.queued| == k
      invariant link.shm[0] == FIRST_FIFO + 4 * k && link.shm[MAX_FIFO] == FIRST_DATA + 48 * k
    {
      TriangleSent(triangle, link.shm[0], link.shm[MAX_FIFO]);
      var _ := link.GuestCall(triangle, true);
    }
    WriteSent(write);
    end := MAX_FIFO + link.shm[MAX_FIFO] + PayloadWords(write);
    var _ := link.GuestCall(write, true);
  }

  lemma TriangleSent(c: Call, fifo: nat, data: nat)
    requires ArgsFit(c.f, c.args) && c.f == GR_DRAW_TRIANGLE
    ensures PayloadWords(c) == 48 && |c.args| == 3
    ensures fifo + 4 < MAX_FIFO && data + 48 < MAX_DATA ==> Defers(c, true, fifo, data)
  {
    TotalOfFew(GuestChunks(c));
  }

  lemma WriteSent(c: Call)
    requires c.f == GR_LFB_WRITE_REGION && Arg(c.args, 5) * Arg(c.args, 6) == 614400
    ensures PayloadWords(c) == 153600
  {
    TotalOfFew(GuestChunks(c));
  }
}
