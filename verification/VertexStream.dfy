/** The guest's half of the vertex arrays, and runs of calls through both halves: the wrapper's own table of arrays, and the
    slices of application memory it sends with a draw. */
module VertexStream {
  import opened VertexCache

  /** A guest array holds an address or an offset, and no block. */
  function Address(handle: nat): Pointer {
    if handle == 0 then Null else Offset(handle)
  }

  /** What one array adds to the stream. An odd number of words skips one, which holds whatever was there. */
  function SliceOf(a: VtxArray, mem: int -> Byte, skipped: seq<Byte>, start: int, end: int): seq<Byte>
    requires start <= end
  {
    SliceCovers(a, start, end);
    var n := SliceWords(a, start, end);
    Bytes(mem, GuestAddress(a, []) + Step(a) * start, 4 * n) + if n % 2 == 1 then skipped else []
  }

  /** What a draw sends. */
  function StreamOf(arrays: seq<VtxArray>, mem: int -> Byte, skipped: seq<Byte>, start: int, end: int): seq<Byte>
    requires start <= end
  {
    if arrays == [] then []
    else (if Sent(arrays[0]) then SliceOf(arrays[0], mem, skipped, start, end) else [])
         + StreamOf(arrays[1..], mem, skipped, start, end)
  }

  /** The host's array stands for the guest's. */
  predicate Alike(g: VtxArray, h: VtxArray, list: seq<VertArry>) {
    && h.enable == g.enable && h.elemBytes == g.elemBytes && h.stride == g.stride && h.client == g.client
    && (g.client ==>
          && (h.ptr == Null <==> g.ptr == Null) && (h.ptr != Null ==> h.ptr.Cached? && h.ptr.k < |list|)
          && GuestAddress(h, list) == GuestAddress(g, []))
  }

  ghost predicate AllAlike(gs: seq<VtxArray>, hs: seq<VtxArray>, list: seq<VertArry>) {
    |gs| == |hs| && forall j | 0 <= j < |gs| :: Alike(gs[j], hs[j], list)
  }

  lemma SliceAlike(g: VtxArray, h: VtxArray, list: seq<VertArry>, mem: int -> Byte, skipped: seq<Byte>, start: int, end: int)
    requires start <= end && |skipped| == 4 && Alike(g, h, list) && Sent(g)
    ensures Sent(h) && SliceWords(h, start, end) == SliceWords(g, start, end) >= 0
    ensures var (n, s) := (SliceWords(h, start, end), SliceOf(g, mem, skipped, start, end));
            |s| == Advance(n) >= 4 * n && s[..4 * n] == Bytes(mem, GuestAddress(h, list) + Step(h) * start, 4 * n)
  {
    hide GuestAddress;
    SameSlice(g, h, start, end);
    SliceCovers(g, start, end);
  }

  lemma SliceInMiddle(before: seq<Byte>, slice: seq<Byte>, rest: seq<Byte>, n: nat)
    requires n <= |slice|
    ensures (before + (slice + rest))[|before|..|before| + n] == slice[..n]
    ensures (before + slice) + rest == before + (slice + rest)
  {
  }

  lemma StreamedSent(stream: seq<Byte>, pos: nat, hs: seq<VtxArray>, list: seq<VertArry>, mem: int -> Byte, start: int, end: int)
    requires start <= end && hs != [] && Sent(hs[0])
    requires var n := SliceWords(hs[0], start, end);
             && 0 <= n && 4 * n <= Advance(n) && pos + 4 * n <= |stream|
             && stream[pos..pos + 4 * n] == Bytes(mem, GuestAddress(hs[0], list) + Step(hs[0]) * start, 4 * n)
             && Streamed(stream, pos + Advance(n), hs[1..], list, mem, start, end)
    ensures Streamed(stream, pos, hs, list, mem, start, end)
    ensures StreamBytes(hs, start, end) == Advance(SliceWords(hs[0], start, end)) + StreamBytes(hs[1..], start, end)
  {
    hide SliceWords, Advance, GuestAddress, Step, Sent, Bytes;
  }

  lemma StreamedNotSent(stream: seq<Byte>, pos: nat, hs: seq<VtxArray>, list: seq<VertArry>, mem: int -> Byte, start: int, end: int)
    requires start <= end && hs != [] && !Sent(hs[0]) && Streamed(stream, pos, hs[1..], list, mem, start, end)
    ensures Streamed(stream, pos, hs, list, mem, start, end)
    ensures StreamBytes(hs, start, end) == StreamBytes(hs[1..], start, end)
  {
    hide SliceWords, Advance, GuestAddress, Step, Sent, Bytes;
  }

  lemma StreamedNothing(stream: seq<Byte>, pos: nat, list: seq<VertArry>, mem: int -> Byte, start: int, end: int)
    requires start <= end
    ensures Streamed(stream, pos, [], list, mem, start, end) && StreamBytes([], start, end) == 0
  {
  }

  /** What the guest sends for its table is what the host expects for its own. */
  lemma {:induction false} StreamAlike(before: seq<Byte>, gs: seq<VtxArray>, hs: seq<VtxArray>, list: seq<VertArry>, mem: int -> Byte,
                                       skipped: seq<Byte>, start: int, end: int)
    requires start <= end && |skipped| == 4 && AllAlike(gs, hs, list)
    ensures Streamed(before + StreamOf(gs, mem, skipped, start, end), |before|, hs, list, mem, start, end)
    ensures StreamBytes(hs, start, end) == |StreamOf(gs, mem, skipped, start, end)|
    decreases |gs|
  {
    hide SliceOf, SliceWords, Alike, Advance, Sent, GuestAddress, Step, Streamed, StreamBytes, Bytes;
    var stream := before + StreamOf(gs, mem, skipped, start, end);
    if gs == [] {
      StreamedNothing(stream, |before|, list, mem, start, end);
    } else if Sent(gs[0]) {
      var slice, rest := SliceOf(gs[0], mem, skipped, start, end), StreamOf(gs[1..], mem, skipped, start, end);
      SliceAlike(gs[0], hs[0], list, mem, skipped, start, end);
      SliceInMiddle(before, slice, rest, 4 * SliceWords(hs[0], start, end));
      StreamAlike(before + slice, gs[1..], hs[1..], list, mem, skipped, start, end);
      StreamedSent(stream, |before|, hs, list, mem, start, end);
    } else {
      SentAlike(gs[0], hs[0], list);
      StreamAlike(before, gs[1..], hs[1..], list, mem, skipped, start, end);
      assert stream == before + StreamOf(gs[1..], mem, skipped, start, end);
      StreamedNotSent(stream, |before|, hs, list, mem, start, end);
    }
  }

  lemma SentAlike(g: VtxArray, h: VtxArray, list: seq<VertArry>)
    requires Alike(g, h, list)
    ensures Sent(g) <==> Sent(h)
  {
  }

  // The wrapper's table, and what calls make of it.

  type ArrayNumber = i: nat | i < ARRAYS

  datatype Guest = Guest(interleaved: VtxArray, arrays: seq<VtxArray>, arrayBuf: nat)

  datatype Call =
    | PointerCall(i: ArrayNumber, elemBytes: nat, stride: nat, handle: nat)
    | InterleavedCall(elemBytes: nat, stride: nat, handle: nat)
    | EnableCall(i: ArrayNumber, on: bool)
    | BindCall(buffer: nat)
    | DrawCall(first: nat, count: nat, vao: nat, mem: int -> Byte)
    | IndexedCall(indices: seq<nat>, base: int, vao: nat, elemArryBuf: nat, mem: int -> Byte)
    | EndContext

  /** The draw sends arrays along. */
  predicate Sends(c: Call) {
    match c
    case DrawCall(_, count, vao, _) => count != 0 && vao == 0
    case IndexedCall(_, _, vao, elemArryBuf, _) => vao == 0 && elemArryBuf == 0
    case _ => false
  }

  function Told(g: Guest, c: Call): (r: Guest)
    requires |g.arrays| == ARRAYS
    ensures |r.arrays| == ARRAYS
  {
    match c
    case PointerCall(i, elemBytes, stride, handle) =>
      g.(arrays := g.arrays[i := VtxArray(g.arrays[i].enable, elemBytes, stride, Address(handle), 0, g.arrayBuf == 0)])
    case InterleavedCall(elemBytes, stride, handle) =>
      g.(interleaved := VtxArray(true, elemBytes, stride, Address(handle), 0, g.arrayBuf == 0))
    case EnableCall(i, on) => g.(arrays := g.arrays[i := g.arrays[i].(enable := on)])
    case BindCall(buffer) => g.(arrayBuf := buffer)
    case EndContext => Guest(UNSET, seq(ARRAYS, i => UNSET), 0)
    case _ => if Sends(c) then g.(interleaved := Spent(g.interleaved)) else g
  }

  function AllTold(g: Guest, calls: seq<Call>): (r: Guest)
    requires |g.arrays| == ARRAYS
    ensures |r.arrays| == ARRAYS
  {
    if calls == [] then g else Told(AllTold(g, calls[..|calls| - 1]), calls[|calls| - 1])
  }

  class GuestArrays {
    var interleaved: VtxArray
    var arrays: seq<VtxArray>
    var arrayBuf: nat

    function State(): Guest
      reads this
    {
      Guest(interleaved, arrays, arrayBuf)
    }

    constructor ()
      ensures State() == Guest(UNSET, seq(ARRAYS, i => UNSET), 0)
    {
      interleaved, arrays, arrayBuf := UNSET, seq(ARRAYS, i => UNSET), 0;
    }

    method SetPointer(i: ArrayNumber, elemBytes: nat, stride: nat, handle: nat)
      requires |arrays| == ARRAYS
      modifies this`arrays
      ensures State() == Told(old(State()), PointerCall(i, elemBytes, stride, handle))
    {
      arrays := arrays[i := VtxArray(arrays[i].enable, elemBytes, stride, Address(handle), 0, arrayBuf == 0)];
    }

    method SetInterleaved(elemBytes: nat, stride: nat, handle: nat)
      requires |arrays| == ARRAYS
      modifies this`interleaved
      ensures State() == Told(old(State()), InterleavedCall(elemBytes, stride, handle))
    {
      interleaved := VtxArray(interleaved.enable, elemBytes, stride, Address(handle), 0, arrayBuf == 0);
      interleaved := interleaved.(enable := true);
    }

    method EnableArray(i: ArrayNumber, on: bool)
      requires |arrays| == ARRAYS
      modifies this`arrays
      ensures State() == Told(old(State()), EnableCall(i, on))
    {
      arrays := arrays[i := arrays[i].(enable := on)];
    }

    method BindArrayBuffer(buffer: nat)
      requires |arrays| == ARRAYS
      modifies this`arrayBuf
      ensures State() == Told(old(State()), BindCall(buffer))
    {
      arrayBuf := buffer;
    }

    method InitClientStates()
      requires |arrays| == ARRAYS
      modifies this
      ensures State() == Told(old(State()), EndContext)
    {
      interleaved, arrays, arrayBuf := UNSET, seq(ARRAYS, i => UNSET), 0;
    }

    /** The guest's PushVertexArray: the slices of all arrays that travel, in order, or an interleaved one alone and once. */
    method PushVertexArray(start: int, end: int, mem: int -> Byte, skipped: seq<Byte>) returns (stream: seq<Byte>)
      requires start <= end
      modifies this`interleaved
      ensures stream == StreamOf(old(Carried(interleaved, arrays)), mem, skipped, start, end)
      ensures interleaved == Spent(old(interleaved))
    {
      hide SliceOf, StreamOf;
      if interleaved.enable && interleaved.ptr != Null {
        stream := SliceOf(interleaved.(client := true), mem, skipped, start, end);
        OneSlice(interleaved.(client := true), mem, skipped, start, end);
        interleaved := interleaved.(enable := false);
      } else {
        stream := [];
        assert arrays[0..] == arrays;
        for i := 0 to |arrays|
          invariant interleaved == old(interleaved)
          invariant stream + StreamOf(arrays[i..], mem, skipped, start, end) == StreamOf(arrays, mem, skipped, start, end)
        {
          var a := arrays[i];
          NextSlice(arrays, i, stream, mem, skipped, start, end);
          if a.enable && a.ptr != Null && a.client {
            stream := stream + SliceOf(a, mem, skipped, start, end);
          }
        }
        NoSlice(stream, arrays, mem, skipped, start, end);
      }
    }
  }

  lemma NextSlice(arrays: seq<VtxArray>, i: nat, stream: seq<Byte>, mem: int -> Byte, skipped: seq<Byte>, start: int, end: int)
    requires start <= end && i < |arrays|
    ensures stream + StreamOf(arrays[i..], mem, skipped, start, end)
            == (if Sent(arrays[i]) then stream + SliceOf(arrays[i], mem, skipped, start, end) else stream)
               + StreamOf(arrays[i + 1..], mem, skipped, start, end)
  {
    hide SliceOf, Sent;
    assert arrays[i..][0] == arrays[i] && arrays[i..][1..] == arrays[i + 1..];
  }

  lemma NoSlice(stream: seq<Byte>, arrays: seq<VtxArray>, mem: int -> Byte, skipped: seq<Byte>, start: int, end: int)
    requires start <= end
    ensures stream + StreamOf(arrays[|arrays|..], mem, skipped, start, end) == stream
  {
  }

  lemma OneSlice(a: VtxArray, mem: int -> Byte, skipped: seq<Byte>, start: int, end: int)
    requires start <= end && Sent(a)
    ensures StreamOf([a], mem, skipped, start, end) == SliceOf(a, mem, skipped, start, end)
  {
    hide SliceOf;
    assert [a][1..] == [] && StreamOf([], mem, skipped, start, end) == [];
  }

  // Both halves.

  /** The host's table stands for the guest's. */
  ghost predicate Together(g: Guest, interleaved: VtxArray, arrays: seq<VtxArray>, arrayBuf: nat, list: seq<VertArry>) {
    && |g.arrays| == ARRAYS && g.arrayBuf == arrayBuf
    && Alike(g.interleaved.(client := true), interleaved.(client := true), list)
    && AllAlike(g.arrays, arrays, list)
  }

  lemma AlikeGrows(g: VtxArray, h: VtxArray, list: seq<VertArry>, list': seq<VertArry>)
    requires Alike(g, h, list) && list <= list'
    ensures Alike(g, h, list')
  {
  }

  lemma TogetherGrows(g: Guest, interleaved: VtxArray, arrays: seq<VtxArray>, arrayBuf: nat, list: seq<VertArry>, list': seq<VertArry>)
    requires Together(g, interleaved, arrays, arrayBuf, list) && list <= list'
    ensures Together(g, interleaved, arrays, arrayBuf, list')
  {
    hide Alike;
    AlikeGrows(g.interleaved.(client := true), interleaved.(client := true), list, list');
    forall j | 0 <= j < |arrays|
      ensures Alike(g.arrays[j], arrays[j], list')
    {
      AlikeGrows(g.arrays[j], arrays[j], list, list');
    }
  }

  lemma CarriedAlike(g: Guest, interleaved: VtxArray, arrays: seq<VtxArray>, arrayBuf: nat, list: seq<VertArry>)
    requires Together(g, interleaved, arrays, arrayBuf, list)
    ensures AllAlike(Carried(g.interleaved, g.arrays), Carried(interleaved, arrays), list)
    ensures Together(g.(interleaved := Spent(g.interleaved)), Spent(interleaved), arrays, arrayBuf, list)
  {
  }

  /** What a call leaves in the host: the arrays a draw sent, and the cache. */
  datatype Shown = Shown(sent: seq<VtxArray>, list: seq<VertArry>, blocks: seq<seq<Byte>>)

  /** The arrays sent with a draw are those of the guest's table, and every element drawn is in the cache for each. */
  ghost predicate Served(g: Guest, c: Call, d: Shown) {
    Sends(c) ==>
      && AllAlike(Carried(g.interleaved, g.arrays), d.sent, d.list)
      && match c
         case DrawCall(first, count, _, mem) =>
           forall j, v | 0 <= j < |d.sent| && Sent(d.sent[j]) && first <= v < first + count ::
             MirrorsElement(d.sent[j], d.list, d.blocks, mem, v)
         case IndexedCall(indices, base, _, _, mem) =>
           (forall v | v in indices :: v + base >= 0) ==>
             forall j, v | 0 <= j < |d.sent| && Sent(d.sent[j]) && v in indices ::
               MirrorsElement(d.sent[j], d.list, d.blocks, mem, v + base)
         case _ => true
  }

  /** The same in the guest's terms: the host finds byte o of element v where the guest's pointer call put it. */
  lemma ElementThere(g: VtxArray, h: VtxArray, list: seq<VertArry>, blocks: seq<seq<Byte>>, mem: int -> Byte, v: nat, o: nat)
    requires Alike(g, h, list) && Sent(g) && g.ptr.Offset? && MirrorsElement(h, list, blocks, mem, v) && o < g.elemBytes
    ensures ByteShown(h, blocks, mem, g.ptr.handle, g.elemBytes, g.stride, v, o)
  {
    hide MirrorsElement, ByteShown;
    ElementShown(h, list, blocks, mem, v, o);
  }

  /** The draw reads element v. */
  ghost predicate Draws(c: Call, v: nat) {
    match c
    case DrawCall(first, count, _, _) => first <= v < first + count
    case IndexedCall(indices, base, _, _, _) => (forall u | u in indices :: u + base >= 0) && exists u | u in indices :: u + base == v
    case _ => false
  }

  /** Every byte of every element a served draw reads, for every array the guest's table sends. */
  lemma DrawnByte(g: Guest, c: Call, d: Shown, j: nat, v: nat, o: nat)
    requires Served(g, c, d) && Sends(c) && Draws(c, v)
    requires var sent := Carried(g.interleaved, g.arrays);
             j < |sent| && Sent(sent[j]) && sent[j].ptr.Offset? && o < sent[j].elemBytes
    ensures var a := Carried(g.interleaved, g.arrays)[j];
            && j < |d.sent| && (c.DrawCall? || c.IndexedCall?)
            && ByteShown(d.sent[j], d.blocks, c.mem, a.ptr.handle, a.elemBytes, a.stride, v, o)
  {
    hide MirrorsElement, ByteShown, Alike, Sent, Carried;
    var a := Carried(g.interleaved, g.arrays)[j];
    SentAlike(a, d.sent[j], d.list);
    if c.IndexedCall? {
      var u :| u in c.indices && u + c.base == v;
      assert MirrorsElement(d.sent[j], d.list, d.blocks, c.mem, u + c.base);
    }
    ElementThere(a, d.sent[j], d.list, d.blocks, c.mem, v, o);
  }

  /** A pointer call whose address lies below the block it is found in. */
  predicate Strays(c: Call, list: seq<VertArry>, szVertCache: nat, arrayBuf: nat) {
    match c
    case PointerCall(_, _, _, handle) => arrayBuf == 0 && !Reachable(list, handle, szVertCache)
    case InterleavedCall(_, _, handle) => !Reachable(list, handle, szVertCache)
    case _ => false
  }

  lemma ToldPointer(g: Guest, c: Call, interleaved: VtxArray, arrays: seq<VtxArray>, arrays': seq<VtxArray>, arrayBuf: nat,
                      list: seq<VertArry>)
    requires c.PointerCall? && Together(g, interleaved, arrays, arrayBuf, list) && |arrays'| == ARRAYS
    requires forall j | 0 <= j < ARRAYS && j != c.i :: arrays'[j] == arrays[j]
    requires Alike(Told(g, c).arrays[c.i], arrays'[c.i], list)
    ensures Together(Told(g, c), interleaved, arrays', arrayBuf, list)
  {
    hide Alike;
  }

  lemma EnabledAlike(g: VtxArray, h: VtxArray, on: bool, list: seq<VertArry>)
    requires Alike(g, h, list)
    ensures Alike(g.(enable := on), h.(enable := on), list)
  {
  }

  lemma ToldEnable(g: Guest, c: Call, interleaved: VtxArray, arrays: seq<VtxArray>, arrayBuf: nat, list: seq<VertArry>)
    requires c.EnableCall? && Together(g, interleaved, arrays, arrayBuf, list)
    ensures Together(Told(g, c), interleaved, arrays[c.i := arrays[c.i].(enable := c.on)], arrayBuf, list)
  {
    hide Alike;
    EnabledAlike(g.arrays[c.i], arrays[c.i], c.on, list);
  }

  /** One call through both halves. */
  method Play(g: GuestArrays, h: MesaArrays, c: Call, skipped: seq<Byte>) returns (ghost d: Shown)
    requires h.Valid() && h.szVertCache > 0 && |skipped| == 4 && |g.arrays| == ARRAYS
    requires Together(g.State(), h.interleaved, h.arrays, h.arrayBuf, h.list)
    requires !Strays(c, h.list, h.szVertCache, h.arrayBuf)
    modifies g, h
    ensures h.Valid() && h.szVertCache == old(h.szVertCache) && |g.arrays| == ARRAYS
    ensures Together(g.State(), h.interleaved, h.arrays, h.arrayBuf, h.list)
    ensures g.State() == Told(old(g.State()), c)
    ensures d.list == h.list && d.blocks == h.blocks && Served(old(g.State()), c, d)
  {
    match c
    case DrawCall(_, _, _, _) => d := PlayDraw(g, h, c, skipped);
    case IndexedCall(_, _, _, _, _) => d := PlayIndexed(g, h, c, skipped);
    case _ =>
      PlaySetting(g, h, c);
      d := Shown([], h.list, h.blocks);
  }

  method PlayDraw(g: GuestArrays, h: MesaArrays, c: Call, skipped: seq<Byte>) returns (ghost d: Shown)
    requires h.Valid() && c.DrawCall? && |skipped| == 4
    requires Together(g.State(), h.interleaved, h.arrays, h.arrayBuf, h.list)
    modifies g`interleaved, h`blocks, h`interleaved
    ensures h.Valid()
    ensures Together(g.State(), h.interleaved, h.arrays, h.arrayBuf, h.list)
    ensures g.State() == Told(old(g.State()), c)
    ensures d.list == h.list && d.blocks == h.blocks && Served(old(g.State()), c, d)
    ensures d.sent == old(h.Travelling()) && (NoneSent(d.sent) ==> h.blocks == old(h.blocks))
    ensures h.interleaved == if Sends(c) then Spent(old(h.interleaved)) else old(h.interleaved)
  {
    hide Together, AllAlike, StreamOf, Streamed, StreamBytes, Carried, Spent, MirrorsElement, OnlyRefreshed, Sent;
    ghost var (g0, sent) := (g.State(), h.Travelling());
    CarriedAlike(g0, h.interleaved, h.arrays, h.arrayBuf, h.list);
    var stream := [];
    if c.count != 0 && c.vao == 0 {
      stream := g.PushVertexArray(c.first, c.first + c.count - 1, c.mem, skipped);
      StreamAlike([], Carried(g0.interleaved, g0.arrays), sent, h.list, c.mem, skipped, c.first, c.first + c.count - 1);
      assert [] + stream == stream;
    }
    h.DrawArrays(c.first, c.count, c.vao, stream, c.mem);
    d := Shown(sent, h.list, h.blocks);
  }

  method PlayIndexed(g: GuestArrays, h: MesaArrays, c: Call, skipped: seq<Byte>) returns (ghost d: Shown)
    requires h.Valid() && c.IndexedCall? && |skipped| == 4
    requires Together(g.State(), h.interleaved, h.arrays, h.arrayBuf, h.list)
    modifies g`interleaved, h`blocks, h`interleaved
    ensures h.Valid()
    ensures Together(g.State(), h.interleaved, h.arrays, h.arrayBuf, h.list)
    ensures g.State() == Told(old(g.State()), c)
    ensures d.list == h.list && d.blocks == h.blocks && Served(old(g.State()), c, d)
  {
    hide Together, AllAlike, StreamOf, Streamed, StreamBytes, Carried, Spent, MirrorsElement, OnlyRefreshed, Sent, Least, Largest;
    ghost var (g0, sent) := (g.State(), h.Travelling());
    CarriedAlike(g0, h.interleaved, h.arrays, h.arrayBuf, h.list);
    var stream := [];
    if c.elemArryBuf == 0 {
      var start, end := ScanIndices(c.indices);
      if c.vao == 0 {
        stream := g.PushVertexArray(start + c.base, end + c.base, c.mem, skipped);
        StreamAlike([], Carried(g0.interleaved, g0.arrays), sent, h.list, c.mem, skipped, start + c.base, end + c.base);
        assert [] + stream == stream;
      }
    }
    h.DrawElements(c.indices, c.base, c.vao, c.elemArryBuf, stream, c.mem);
    d := Shown(sent, h.list, h.blocks);
  }

  /** The calls that draw nothing. */
  method PlaySetting(g: GuestArrays, h: MesaArrays, c: Call)
    requires h.Valid() && h.szVertCache > 0 && !c.DrawCall? && !c.IndexedCall? && |g.arrays| == ARRAYS
    requires Together(g.State(), h.interleaved, h.arrays, h.arrayBuf, h.list)
    requires !Strays(c, h.list, h.szVertCache, h.arrayBuf)
    modifies g, h
    ensures h.Valid() && h.szVertCache == old(h.szVertCache)
    ensures Together(g.State(), h.interleaved, h.arrays, h.arrayBuf, h.list)
    ensures g.State() == Told(old(g.State()), c)
  {
    match c
    case PointerCall(_, _, _, _) => PlayPointer(g, h, c);
    case InterleavedCall(_, _, _) => PlayInterleaved(g, h, c);
    case EnableCall(i, on) =>
      ToldEnable(g.State(), c, h.interleaved, h.arrays, h.arrayBuf, h.list);
      g.EnableArray(i, on);
      h.EnableArray(i, on);
    case BindCall(buffer) =>
      g.BindArrayBuffer(buffer);
      h.BindArrayBuffer(buffer);
    case EndContext =>
      g.InitClientStates();
      var _ := h.Reset();
  }

  method PlayPointer(g: GuestArrays, h: MesaArrays, c: Call)
    requires h.Valid() && h.szVertCache > 0 && c.PointerCall? && |g.arrays| == ARRAYS
    requires Together(g.State(), h.interleaved, h.arrays, h.arrayBuf, h.list)
    requires !Strays(c, h.list, h.szVertCache, h.arrayBuf)
    modifies g`arrays, h`list, h`blocks, h`arrays
    ensures h.Valid()
    ensures Together(g.State(), h.interleaved, h.arrays, h.arrayBuf, h.list)
    ensures g.State() == Told(old(g.State()), c)
  {
    hide Together, Reachable, AllAlike;
    ghost var g0 := g.State();
    g.SetPointer(c.i, c.elemBytes, c.stride, c.handle);
    h.SetPointer(c.i, c.elemBytes, c.stride, c.handle);
    TogetherGrows(g0, h.interleaved, old(h.arrays), h.arrayBuf, old(h.list), h.list);
    TogetherIs(g0, h.interleaved, old(h.arrays), h.arrayBuf, h.list, c.i);
    ToldPointer(g0, c, h.interleaved, old(h.arrays), h.arrays, h.arrayBuf, h.list);
  }

  method PlayInterleaved(g: GuestArrays, h: MesaArrays, c: Call)
    requires h.Valid() && h.szVertCache > 0 && c.InterleavedCall? && |g.arrays| == ARRAYS
    requires Together(g.State(), h.interleaved, h.arrays, h.arrayBuf, h.list)
    requires !Strays(c, h.list, h.szVertCache, h.arrayBuf)
    modifies g`interleaved, h`list, h`blocks, h`interleaved
    ensures h.Valid() && h.interleaved.enable
    ensures Together(g.State(), h.interleaved, h.arrays, h.arrayBuf, h.list)
    ensures g.State() == Told(old(g.State()), c)
  {
    hide Reachable, AllAlike;
    ghost var g0 := g.State();
    g.SetInterleaved(c.elemBytes, c.stride, c.handle);
    h.SetInterleaved(c.elemBytes, c.stride, c.handle);
    TogetherGrows(g0, old(h.interleaved), h.arrays, h.arrayBuf, old(h.list), h.list);
  }

  lemma TogetherIs(g: Guest, interleaved: VtxArray, arrays: seq<VtxArray>, arrayBuf: nat, list: seq<VertArry>, i: ArrayNumber)
    requires Together(g, interleaved, arrays, arrayBuf, list)
    ensures |arrays| == |g.arrays| == ARRAYS && g.arrayBuf == arrayBuf && Alike(g.arrays[i], arrays[i], list)
  {
    hide Alike;
  }

  /** Every call of a run was served, with the guest's table as the calls before it leave it. */
  ghost predicate AllServed(g: Guest, calls: seq<Call>, log: seq<Shown>)
    requires |g.arrays| == ARRAYS
    decreases |log|
  {
    log != [] ==>
      var p := |log| - 1;
      p < |calls| && Served(AllTold(g, calls[..p]), calls[p], log[p]) && AllServed(g, calls, log[..p])
  }

  lemma {:induction false} EachServed(g: Guest, calls: seq<Call>, log: seq<Shown>, p: nat)
    requires |g.arrays| == ARRAYS && AllServed(g, calls, log) && p < |log|
    ensures p < |calls| && Served(AllTold(g, calls[..p]), calls[p], log[p])
    decreases |log|
  {
    hide Served, AllTold;
    var n := |log| - 1;
    if p < n {
      EachServed(g, calls, log[..n], p);
      assert log[..n][p] == log[p];
    }
  }

  lemma NothingTold(g: Guest, calls: seq<Call>)
    requires |g.arrays| == ARRAYS
    ensures AllTold(g, calls[..0]) == g && AllServed(g, calls, [])
  {
    assert calls[..0] == [];
  }

  lemma Snoc<T>(s: seq<T>, x: T)
    ensures (s + [x])[..|s|] == s && (s + [x])[|s|] == x
  {
  }

  lemma ServedMore(g: Guest, calls: seq<Call>, log: seq<Shown>, d: Shown)
    requires |g.arrays| == ARRAYS && |log| < |calls| && AllServed(g, calls, log)
    requires Served(AllTold(g, calls[..|log|]), calls[|log|], d)
    ensures AllServed(g, calls, log + [d])
  {
    Snoc(log, d);
  }

  lemma ToldMore(g: Guest, calls: seq<Call>, n: nat)
    requires n < |calls| && |g.arrays| == ARRAYS
    ensures AllTold(g, calls[..n + 1]) == Told(AllTold(g, calls[..n]), calls[n])
  {
    assert calls[..n + 1][..n] == calls[..n];
  }

  /** Any run of calls through both halves, up to a pointer call that strays: the host's table keeps standing for the guest's,
      and after every draw each element drawn is in the cache, for every array the guest's table sends. */
  method Run(g: GuestArrays, h: MesaArrays, calls: seq<Call>, skipped: seq<Byte>) returns (n: nat, ghost log: seq<Shown>)
    requires h.Valid() && h.szVertCache > 0 && |skipped| == 4 && |g.arrays| == ARRAYS
    requires Together(g.State(), h.interleaved, h.arrays, h.arrayBuf, h.list)
    modifies g, h
    ensures n <= |calls| && |log| == n
    ensures n < |calls| ==> Strays(calls[n], h.list, h.szVertCache, h.arrayBuf)
    ensures (forall c | c in calls :: c.PointerCall? || c.InterleavedCall? ==> c.handle == 0 || c.handle >= PAGE_SIZE) ==> n == |calls|
    ensures h.Valid() && Together(g.State(), h.interleaved, h.arrays, h.arrayBuf, h.list)
    ensures |g.arrays| == ARRAYS && g.State() == AllTold(old(g.State()), calls[..n])
    ensures AllServed(old(g.State()), calls, log)
    ensures n > 0 ==> log[n - 1].list == h.list && log[n - 1].blocks == h.blocks
  {
    NothingTold(g.State(), calls);
    hide *;
    n, log := 0, [];
    while n < |calls| && !Strays(calls[n], h.list, h.szVertCache, h.arrayBuf)
      invariant n <= |calls| && |log| == n && h.szVertCache == old(h.szVertCache) && |g.arrays| == ARRAYS
      invariant h.Valid() && Together(g.State(), h.interleaved, h.arrays, h.arrayBuf, h.list)
      invariant g.State() == AllTold(old(g.State()), calls[..n])
      invariant AllServed(old(g.State()), calls, log)
      invariant n > 0 ==> log[n - 1].list == h.list && log[n - 1].blocks == h.blocks
    {
      ToldMore(old(g.State()), calls, n);
      ghost var d;
      d := Play(g, h, calls[n], skipped);
      ServedMore(old(g.State()), calls, log, d);
      n, log := n + 1, log + [d];
    }
    if n < |calls| {
      StraysLow(calls[n], h.list, h.szVertCache, h.arrayBuf);
      assert calls[n] in calls;
    }
  }

  lemma StraysLow(c: Call, list: seq<VertArry>, szVertCache: nat, arrayBuf: nat)
    requires Strays(c, list, szVertCache, arrayBuf)
    ensures (c.PointerCall? || c.InterleavedCall?) && 0 < c.handle < PAGE_SIZE
  {
    HighHandleReachable(list, c.handle, szVertCache);
  }

  /** The guest's bytes of element v, as far as the block has room for it, are the same in both memories. */
  ghost predicate SameThere(a: VtxArray, tagLo: int, now: int -> Byte, later: int -> Byte, v: int)
    requires a.ptr.Cached?
  {
    forall o | InElement(a, v, o) :: later(tagLo + o) == now(tagLo + o)
  }

  lemma LaterElement(a: VtxArray, b: VtxArray, list: seq<VertArry>, blocks: seq<seq<Byte>>, now: int -> Byte, later: int -> Byte, v: int)
    requires MirrorsElement(a, list, blocks, now, v) && a.ptr.Cached? && a.ptr.k < |list|
    requires b == a.(enable := b.enable, client := b.client)
    ensures MirrorsElement(b, list, blocks, now, v)
    ensures MirrorsElement(b, list, blocks, later, v) <==> SameThere(b, list[b.ptr.k].tagLo, now, later, v)
  {
    var k := a.ptr.k;
    forall o
      ensures InElement(b, v, o) <==> InElement(a, v, o)
    {
    }
    if SameThere(b, list[k].tagLo, now, later, v) {
      forall o | InElement(b, v, o)
        ensures MirrorsByte(list, blocks, later, k, o)
      {
        assert InElement(a, v, o) && MirrorsByte(list, blocks, now, k, o);
      }
    }
    if MirrorsElement(b, list, blocks, later, v) {
      forall o | InElement(b, v, o)
        ensures later(list[k].tagLo + o) == now(list[k].tagLo + o)
      {
        assert InElement(a, v, o) && MirrorsByte(list, blocks, now, k, o) && MirrorsByte(list, blocks, later, k, o);
      }
    }
  }

  lemma StartTogether(list: seq<VertArry>)
    ensures var unset := seq(ARRAYS, i => UNSET); Together(Guest(UNSET, unset, 0), UNSET, unset, 0, list)
  {
  }

  lemma InterleavedIs(g: Guest, interleaved: VtxArray, arrays: seq<VtxArray>, arrayBuf: nat, list: seq<VertArry>)
    requires Together(g, interleaved, arrays, arrayBuf, list) && g.interleaved.ptr.Offset?
    ensures interleaved.ptr.Cached? && interleaved.ptr.k < |list| && GuestAddress(interleaved, list) == g.interleaved.ptr.handle
    ensures interleaved.elemBytes == g.interleaved.elemBytes && interleaved.stride == g.interleaved.stride
    ensures interleaved.enable ==> Carried(interleaved, arrays) == [interleaved.(client := true)] && Sent(interleaved.(client := true))
  {
    hide AllAlike;
  }

  /** Two draws after one glInterleavedArrays, from the start: the first one switches the array off, so that the second sends
      nothing, and shows an element as it is in guest memory by then exactly if its bytes are still those of the first. */
  method SecondDraw(szVertCache: nat, elemBytes: nat, stride: nat, handle: nat, first: nat, count: nat,
                    now: int -> Byte, later: int -> Byte, skipped: seq<Byte>) returns (g: GuestArrays, h: MesaArrays)
    requires szVertCache > 0 && handle >= PAGE_SIZE && count > 0 && |skipped| == 4
    ensures fresh(g) && fresh(h) && h.Valid() && !g.interleaved.enable && !h.interleaved.enable
    ensures h.interleaved.ptr.Cached? && h.interleaved.ptr.k < |h.list| && GuestAddress(h.interleaved, h.list) == handle
    ensures h.interleaved.elemBytes == elemBytes && h.interleaved.stride == stride
    ensures forall v | first <= v < first + count ::
              && MirrorsElement(h.interleaved, h.list, h.blocks, now, v)
              && (MirrorsElement(h.interleaved, h.list, h.blocks, later, v)
                  <==> SameThere(h.interleaved, h.list[h.interleaved.ptr.k].tagLo, now, later, v))
  {
    hide Reachable, MirrorsElement, AllAlike, Together, Sent, GuestAddress, SameThere;
    g := new GuestArrays();
    h := new MesaArrays(szVertCache);
    StartTogether(h.list);
    HighHandleReachable(h.list, handle, szVertCache);
    PlayInterleaved(g, h, InterleavedCall(elemBytes, stride, handle));
    InterleavedIs(g.State(), h.interleaved, h.arrays, h.arrayBuf, h.list);
    ghost var (a, d) := (h.interleaved.(client := true), Shown([], [], []));
    d := PlayDraw(g, h, DrawCall(first, count, 0, now), skipped);
    assert d.sent == [a];
    InterleavedIs(g.State(), h.interleaved, h.arrays, h.arrayBuf, h.list);
    forall v | first <= v < first + count
      ensures MirrorsElement(h.interleaved, h.list, h.blocks, now, v)
      ensures MirrorsElement(h.interleaved, h.list, h.blocks, later, v)
              <==> SameThere(h.interleaved, h.list[h.interleaved.ptr.k].tagLo, now, later, v)
    {
      assert Sent(d.sent[0]) && MirrorsElement(d.sent[0], h.list, h.blocks, now, v);
      LaterElement(a, h.interleaved, h.list, h.blocks, now, later, v);
    }
    NothingSet();
    d := PlayDraw(g, h, DrawCall(first, count, 0, later), skipped);
  }

  lemma NothingSet()
    ensures NoneSent(seq(ARRAYS, i => UNSET))
  {
  }
}
