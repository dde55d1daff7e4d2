/** The host's copy of the guest's vertex arrays: blocks that stand for ranges of guest addresses, the array state that
    points into them, and the draws that refresh them from the payload stream. */
module VertexCache {

  const PAGE_SIZE := 0x1000
  const ARRAYS := 18
  const TWO_32 := 0x1_0000_0000

  type Byte = bv8

  /** A block of the cache stands for the guest addresses [tagLo, tagHi). */
  datatype VertArry = VertArry(tagLo: nat, tagHi: nat)

  /** A vertex array pointer: into block k of the cache, or an offset into a bound array buffer. */
  datatype Pointer = Null | Cached(k: nat, off: nat) | Offset(handle: nat)

  datatype VtxArray = VtxArray(enable: bool, elemBytes: nat, stride: nat, ptr: Pointer, room: nat, client: bool)

  const UNSET := VtxArray(false, 0, 0, Null, 0, false)

  // Lookup.

  predicate Fits(a: VertArry, handle: nat, size: nat) {
    && (handle >= a.tagLo || a.tagLo == PAGE_SIZE)
    && handle < a.tagHi
    && a.tagHi - handle >= size / 2
  }

  /** The first block that fits, or the number of blocks. */
  function FirstFit(list: seq<VertArry>, handle: nat, size: nat): (k: nat)
    ensures k <= |list|
    ensures k < |list| ==> Fits(list[k], handle, size)
    ensures forall j | 0 <= j < k :: !Fits(list[j], handle, size)
  {
    if list == [] || Fits(list[0], handle, size) then 0 else 1 + FirstFit(list[1..], handle, size)
  }

  /** Blocks are only ever appended, so a lookup that found one finds the same one for good. */
  lemma {:induction false} LookupIsStable(list: seq<VertArry>, more: seq<VertArry>, handle: nat, size: nat)
    requires FirstFit(list, handle, size) < |list|
    ensures FirstFit(list + more, handle, size) == FirstFit(list, handle, size)
  {
    if !Fits(list[0], handle, size) {
      assert (list + more)[1..] == list[1..] + more;
      LookupIsStable(list[1..], more, handle, size);
    }
  }

  lemma FitAtEnd(list: seq<VertArry>, a: VertArry, handle: nat, size: nat)
    requires FirstFit(list, handle, size) == |list| && Fits(a, handle, size)
    ensures FirstFit(list + [a], handle, size) == |list|
  {
    var k := FirstFit(list + [a], handle, size);
    assert (list + [a])[|list|] == a;
    assert forall j | 0 <= j < |list| :: (list + [a])[j] == list[j];
  }

  /** The block made for a handle nothing fits. */
  function NewBlock(handle: nat, size: nat): VertArry {
    var tagLo := if handle > size then handle - size else PAGE_SIZE;
    VertArry(tagLo, tagLo + 2 * size)
  }

  /** A new block takes the addresses up to a block's size below the one it is made for, and those above it with half a
      block's size left behind them: these find it, and make none of their own. */
  lemma NewBlockReaches(handle: nat, size: nat, h: nat)
    requires handle > size + PAGE_SIZE
    ensures Fits(NewBlock(handle, size), h, size) <==> handle - size <= h < handle + size && handle + size - h >= size / 2
    ensures size > 0 ==> Fits(NewBlock(handle, size), handle, size)
  {
  }

  /** The block a lookup finds or makes. */
  function BlockFor(list: seq<VertArry>, handle: nat, size: nat): VertArry {
    var k := FirstFit(list, handle, size);
    if k < |list| then list[k] else NewBlock(handle, size)
  }

  /** A handle that is not below the block it is looked up in, told from the blocks there are: always one from the page size
      on, and a smaller one unless the block starts at the page size. */
  predicate Reachable(list: seq<VertArry>, handle: nat, size: nat) {
    handle == 0 || handle >= BlockFor(list, handle, size).tagLo
  }

  lemma HighHandleReachable(list: seq<VertArry>, handle: nat, size: nat)
    ensures handle >= PAGE_SIZE ==> Reachable(list, handle, size)
  {
  }

  /** handle - tagLo in 32 bits. */
  function Distance(handle: nat, tagLo: nat): (d: nat)
    requires handle >= tagLo || tagLo == PAGE_SIZE
    ensures (tagLo + d - handle) % TWO_32 == 0 && (handle >= tagLo <==> tagLo + d == handle)
  {
    if handle >= tagLo then handle - tagLo else handle - tagLo + TWO_32
  }

  // Slices.

  function Step(a: VtxArray): nat {
    if a.stride != 0 then a.stride else a.elemBytes
  }

  function Words(n: int): int {
    if n % 4 != 0 then n / 4 + 1 else n / 4
  }

  /** Where element v begins, counted from the first: v strides on, or v elements when they are packed. */
  lemma ElementAt(a: VtxArray, v: int)
    ensures a.stride != 0 ==> Step(a) * v == v * a.stride
    ensures a.stride == 0 ==> Step(a) * v == v * a.elemBytes
  {
  }

  /** The words of one array's slice for elements start to end. */
  function SliceWords(a: VtxArray, start: int, end: int): int {
    Words(Step(a) * (end - start) + a.elemBytes)
  }

  function Advance(n: int): int {
    if n % 2 == 1 then 4 * (n + 1) else 4 * n
  }

  /** Only application memory travels with a draw. */
  predicate Sent(a: VtxArray) {
    a.enable && a.ptr != Null && a.client
  }

  /** The arrays whose slices a draw sends along, in the order they are read: an interleaved one travels alone. */
  function Carried(interleaved: VtxArray, arrays: seq<VtxArray>): seq<VtxArray> {
    if interleaved.enable && interleaved.ptr != Null then [interleaved.(client := true)] else arrays
  }

  /** An interleaved array that has travelled is switched off. */
  function Spent(interleaved: VtxArray): VtxArray {
    if interleaved.enable && interleaved.ptr != Null then interleaved.(enable := false) else interleaved
  }

  ghost predicate NoneSent(arrays: seq<VtxArray>) {
    forall j | 0 <= j < |arrays| :: !Sent(arrays[j])
  }

  /** The guest address the array starts at. */
  function GuestAddress(a: VtxArray, list: seq<VertArry>): int {
    match a.ptr
    case Null => 0
    case Offset(handle) => handle
    case Cached(k, off) => if k < |list| then list[k].tagLo + off else 0
  }

  /** n bytes of guest memory. */
  function Bytes(mem: int -> Byte, addr: int, n: nat): (s: seq<Byte>)
    ensures |s| == n
    ensures forall i | 0 <= i < n :: s[i] == mem(addr + i)
  {
    seq(n, i => mem(addr + i))
  }

  /** The stream a draw reads from position pos on: a slice of guest memory for every array that is sent, in order,
      each padded to an even number of words. */
  ghost predicate Streamed(stream: seq<Byte>, pos: nat, arrays: seq<VtxArray>, list: seq<VertArry>, mem: int -> Byte,
                           start: int, end: int)
    requires start <= end
    decreases |arrays|
  {
    if arrays == [] then true
    else if !Sent(arrays[0]) then Streamed(stream, pos, arrays[1..], list, mem, start, end)
    else
      var a, n := arrays[0], SliceWords(arrays[0], start, end);
      && 0 <= n && pos + 4 * n <= |stream|
      && stream[pos..pos + 4 * n] == Bytes(mem, GuestAddress(a, list) + Step(a) * start, 4 * n)
      && Streamed(stream, pos + Advance(n), arrays[1..], list, mem, start, end)
  }

  /** The bytes the stream takes. */
  function StreamBytes(arrays: seq<VtxArray>, start: int, end: int): int {
    if arrays == [] then 0
    else (if Sent(arrays[0]) then Advance(SliceWords(arrays[0], start, end)) else 0) + StreamBytes(arrays[1..], start, end)
  }

  lemma WordsCover(n: nat)
    ensures n <= 4 * Words(n) < n + 4
    ensures 4 * Words(n) <= Advance(Words(n)) < 4 * Words(n) + 8 && Advance(Words(n)) % 8 == 0
  {
  }

  lemma ProductNotNegative(a: nat, b: nat)
    ensures a * b >= 0
  {
  }

  lemma SliceCovers(a: VtxArray, start: int, end: int)
    requires start <= end
    ensures 0 <= Step(a) * (end - start) + a.elemBytes <= 4 * SliceWords(a, start, end)
    ensures 4 * SliceWords(a, start, end) < Step(a) * (end - start) + a.elemBytes + 4
    ensures 4 * SliceWords(a, start, end) <= Advance(SliceWords(a, start, end)) < 4 * SliceWords(a, start, end) + 8
    ensures Advance(SliceWords(a, start, end)) % 8 == 0
  {
    hide Words, Advance, Step;
    ProductNotNegative(Step(a), end - start);
    WordsCover(Step(a) * (end - start) + a.elemBytes);
  }

  // What a draw must achieve.

  /** A byte of the cache is what the guest has at the address it stands for. */
  predicate MirrorsByte(list: seq<VertArry>, blocks: seq<seq<Byte>>, mem: int -> Byte, k: nat, off: int) {
    k < |list| && k < |blocks| && 0 <= off < |blocks[k]| && blocks[k][off] == mem(list[k].tagLo + off)
  }

  /** Offset o of the block belongs to the slice of elements start to end, and the block has room for it. */
  predicate InSlice(a: VtxArray, start: int, end: int, o: int)
    requires a.ptr.Cached?
  {
    var d := Step(a) * start;
    0 <= d && a.ptr.off + d <= o < a.ptr.off + d + 4 * SliceWords(a, start, end) && o < a.ptr.off + a.room
  }

  /** Every byte of elements start to end, as far as the block has room for it. */
  ghost predicate MirrorsSlice(a: VtxArray, list: seq<VertArry>, blocks: seq<seq<Byte>>, mem: int -> Byte, start: int, end: int) {
    a.ptr.Cached? ==>
      forall o | InSlice(a, start, end, o) :: MirrorsByte(list, blocks, mem, a.ptr.k, o)
  }

  /** A push writes guest memory or nothing: bytes that were right stay right, the others become right or stay put. */
  ghost predicate OnlyRefreshed(list: seq<VertArry>, blocks: seq<seq<Byte>>, blocks': seq<seq<Byte>>, mem: int -> Byte) {
    && |blocks'| == |blocks|
    && (forall k | 0 <= k < |blocks| :: |blocks'[k]| == |blocks[k]|)
    && (forall k, off | 0 <= k < |blocks| && 0 <= off < |blocks[k]| ::
          blocks'[k][off] == blocks[k][off] || MirrorsByte(list, blocks', mem, k, off))
  }

  lemma RefreshKeepsByte(list: seq<VertArry>, blocks: seq<seq<Byte>>, blocks': seq<seq<Byte>>, mem: int -> Byte, k: nat, off: int)
    requires OnlyRefreshed(list, blocks, blocks', mem) && MirrorsByte(list, blocks, mem, k, off)
    ensures MirrorsByte(list, blocks', mem, k, off)
  {
    assert |blocks'[k]| == |blocks[k]|;
  }

  lemma RefreshKeepsSlice(a: VtxArray, list: seq<VertArry>, blocks: seq<seq<Byte>>, blocks': seq<seq<Byte>>, mem: int -> Byte,
                          start: int, end: int)
    requires OnlyRefreshed(list, blocks, blocks', mem) && MirrorsSlice(a, list, blocks, mem, start, end)
    ensures MirrorsSlice(a, list, blocks', mem, start, end)
  {
    hide OnlyRefreshed, MirrorsByte, InSlice;
    if a.ptr.Cached? {
      forall o | InSlice(a, start, end, o)
        ensures MirrorsByte(list, blocks', mem, a.ptr.k, o)
      {
        RefreshKeepsByte(list, blocks, blocks', mem, a.ptr.k, o);
      }
    }
  }

  lemma RefreshChains(list: seq<VertArry>, b0: seq<seq<Byte>>, b1: seq<seq<Byte>>, b2: seq<seq<Byte>>, mem: int -> Byte)
    requires OnlyRefreshed(list, b0, b1, mem) && OnlyRefreshed(list, b1, b2, mem)
    ensures OnlyRefreshed(list, b0, b2, mem)
  {
    forall k, off | 0 <= k < |b0| && 0 <= off < |b0[k]|
      ensures b2[k][off] == b0[k][off] || MirrorsByte(list, b2, mem, k, off)
    {
      assert |b1[k]| == |b0[k]|;
      if b1[k][off] != b0[k][off] {
        RefreshKeepsByte(list, b1, b2, mem, k, off);
      }
    }
  }

  function Splice(s: seq<Byte>, at: nat, bytes: seq<Byte>): (r: seq<Byte>)
    requires at + |bytes| <= |s|
    ensures |r| == |s|
    ensures forall i | 0 <= i < |s| :: r[i] == if at <= i < at + |bytes| then bytes[i - at] else s[i]
  {
    s[..at] + bytes + s[at + |bytes|..]
  }

  lemma NothingRefreshed(list: seq<VertArry>, blocks: seq<seq<Byte>>, mem: int -> Byte)
    ensures OnlyRefreshed(list, blocks, blocks, mem)
  {
  }

  lemma RefreshKeepsSlices(done: seq<VtxArray>, list: seq<VertArry>, blocks: seq<seq<Byte>>, blocks': seq<seq<Byte>>,
                           mem: int -> Byte, start: int, end: int)
    requires OnlyRefreshed(list, blocks, blocks', mem)
    ensures forall j | 0 <= j < |done| && MirrorsSlice(done[j], list, blocks, mem, start, end) ::
              MirrorsSlice(done[j], list, blocks', mem, start, end)
  {
    hide MirrorsSlice, OnlyRefreshed;
    forall j | 0 <= j < |done| && MirrorsSlice(done[j], list, blocks, mem, start, end)
      ensures MirrorsSlice(done[j], list, blocks', mem, start, end)
    {
      RefreshKeepsSlice(done[j], list, blocks, blocks', mem, start, end);
    }
  }

  lemma SentIs(a: VtxArray)
    ensures Sent(a) <==> a.enable && a.ptr != Null && a.client
  {
  }

  lemma StreamStep(stream: seq<Byte>, pos: nat, arrays: seq<VtxArray>, list: seq<VertArry>, mem: int -> Byte,
                   start: int, end: int)
    requires start <= end && arrays != [] && Streamed(stream, pos, arrays, list, mem, start, end)
    ensures var a, n := arrays[0], SliceWords(arrays[0], start, end);
            && 0 <= n
            && (Sent(a) ==>
                  && pos + 4 * n <= |stream|
                  && stream[pos..pos + 4 * n] == Bytes(mem, GuestAddress(a, list) + Step(a) * start, 4 * n)
                  && Streamed(stream, pos + Advance(n), arrays[1..], list, mem, start, end)
                  && StreamBytes(arrays, start, end) == Advance(n) + StreamBytes(arrays[1..], start, end))
            && (!Sent(a) ==>
                  && Streamed(stream, pos, arrays[1..], list, mem, start, end)
                  && StreamBytes(arrays, start, end) == StreamBytes(arrays[1..], start, end))
  {
    hide SliceWords, Sent, Advance;
    SliceCovers(arrays[0], start, end);
  }

  lemma StreamDone(start: int, end: int)
    ensures StreamBytes([], start, end) == 0
  {
  }

  /** Offset o of the block belongs to element v, and the block has room for it. */
  predicate InElement(a: VtxArray, v: int, o: int)
    requires a.ptr.Cached?
  {
    a.ptr.off + Step(a) * v <= o < a.ptr.off + Step(a) * v + a.elemBytes && o < a.ptr.off + a.room
  }

  /** Every byte of element v is what the guest has there. */
  ghost predicate MirrorsElement(a: VtxArray, list: seq<VertArry>, blocks: seq<seq<Byte>>, mem: int -> Byte, v: int) {
    a.ptr.Cached? ==> forall o | InElement(a, v, o) :: MirrorsByte(list, blocks, mem, a.ptr.k, o)
  }

  lemma StepGrows(step: nat, start: int, v: int, end: int)
    requires start <= v <= end
    ensures step * start <= step * v && step * v - step * start <= step * (end - start)
    ensures 0 <= start ==> 0 <= step * start
  {
    assert step * v == step * start + step * (v - start);
    assert step * (end - start) == step * (v - start) + step * (end - v);
    ProductNotNegative(step, v - start);
    ProductNotNegative(step, end - v);
  }

  /** A mirrored slice mirrors each of its elements. */
  lemma SliceMirrorsElement(a: VtxArray, list: seq<VertArry>, blocks: seq<seq<Byte>>, mem: int -> Byte,
                            start: int, end: int, v: int)
    requires 0 <= start <= v <= end && MirrorsSlice(a, list, blocks, mem, start, end)
    ensures MirrorsElement(a, list, blocks, mem, v)
  {
    hide MirrorsByte, SliceWords, Step, Advance;
    StepGrows(Step(a), start, v, end);
    SliceCovers(a, start, end);
    if a.ptr.Cached? {
      forall o | InElement(a, v, o)
        ensures MirrorsByte(list, blocks, mem, a.ptr.k, o)
      {
        assert InSlice(a, start, end, o);
      }
    }
  }

  /** What one push leaves in the blocks, as a value. */
  ghost predicate Pushed(a: VtxArray, d: int, src: seq<Byte>, blocks: seq<seq<Byte>>, blocks': seq<seq<Byte>>) {
    && |blocks'| == |blocks|
    && (forall k | 0 <= k < |blocks| :: |blocks'[k]| == |blocks[k]|)
    && (forall k, o | 0 <= k < |blocks| && 0 <= o < |blocks[k]| ::
          blocks'[k][o] == if d >= 0 && a.ptr.Cached? && k == a.ptr.k && a.ptr.off + d <= o < a.ptr.off + d + |src|
                           then src[o - a.ptr.off - d] else blocks[k][o])
  }

  /** A slice of guest memory, pushed where the array points, makes the cache mirror it. */
  lemma PushMirrors(a: VtxArray, list: seq<VertArry>, blocks: seq<seq<Byte>>, blocks': seq<seq<Byte>>, mem: int -> Byte,
                    start: int, end: int, src: seq<Byte>)
    requires |blocks| == |list|
    requires a.ptr.Cached? ==> a.ptr.k < |list| && a.ptr.off + a.room == |blocks[a.ptr.k]|
    requires start <= end && |src| == 4 * SliceWords(a, start, end)
    requires src == Bytes(mem, GuestAddress(a, list) + Step(a) * start, |src|)
    requires Pushed(a, Step(a) * start, src, blocks, blocks')
    ensures MirrorsSlice(a, list, blocks', mem, start, end)
    ensures OnlyRefreshed(list, blocks, blocks', mem)
  {
    hide Step, SliceWords;
    var d := Step(a) * start;
    forall k, o | 0 <= k < |blocks| && 0 <= o < |blocks[k]|
      ensures blocks'[k][o] == blocks[k][o] || MirrorsByte(list, blocks', mem, k, o)
    {
      if d >= 0 && a.ptr.Cached? && k == a.ptr.k && a.ptr.off + d <= o < a.ptr.off + d + |src| {
        assert src[o - a.ptr.off - d] == mem(list[k].tagLo + o);
      }
    }
    if a.ptr.Cached? {
      var k := a.ptr.k;
      forall o | InSlice(a, start, end, o)
        ensures MirrorsByte(list, blocks', mem, k, o)
      {
        assert src[o - a.ptr.off - d] == mem(list[k].tagLo + o);
      }
    }
  }

  class MesaArrays {
    var list: seq<VertArry>
    /** The allocation behind each block. */
    var blocks: seq<seq<Byte>>
    var interleaved: VtxArray
    /** Color, EdgeFlag, Index, Normal, eight TexCoord, Vertex, SecondaryColor, FogCoord, Weight, two GenAttrib. */
    var arrays: seq<VtxArray>
    var szVertCache: nat
    var arrayBuf: nat

    predicate PointsIn(a: VtxArray)
      reads this
    {
      match a.ptr
      case Cached(k, off) => k < |list| && k < |blocks| && off + a.room == |blocks[k]|
      case _ => a.room == 0
    }

    ghost predicate Valid()
      reads this
    {
      && |blocks| == |list| && |arrays| == ARRAYS
      && (forall k | 0 <= k < |list| :: list[k].tagHi == list[k].tagLo + |blocks[k]|)
      && PointsIn(interleaved)
      && (forall i | 0 <= i < ARRAYS :: PointsIn(arrays[i]))
    }

    function Travelling(): seq<VtxArray>
      reads this
    {
      Carried(interleaved, arrays)
    }

    constructor (szVertCache: nat)
      ensures Valid() && list == [] && this.szVertCache == szVertCache
      ensures interleaved == UNSET && arrays == seq(ARRAYS, i => UNSET) && arrayBuf == 0
    {
      list, blocks, interleaved, arrays := [], [], UNSET, seq(ARRAYS, i => UNSET);
      this.szVertCache, arrayBuf := szVertCache, 0;
    }

    /** The first block that fits, made if there is none. */
    method FindBlock(handle: nat, size: nat) returns (p: nat)
      requires Valid() && size > 0 && handle > 0
      modifies this`list, this`blocks
      ensures Valid() && old(list) <= list && old(blocks) <= blocks
      ensures p == FirstFit(list, handle, size) < |list| && list[p] == BlockFor(old(list), handle, size)
      ensures FirstFit(old(list), handle, size) < |old(list)| ==> list == old(list)
      ensures FirstFit(old(list), handle, size) == |old(list)| ==> list == old(list) + [NewBlock(handle, size)]
    {
      p := 0;
      while p < |list| && !Fits(list[p], handle, size)
        invariant p <= |list|
        invariant forall j | 0 <= j < p :: !Fits(list[j], handle, size)
      {
        p := p + 1;
      }
      if p == |list| {
        var a := NewBlock(handle, size);
        FitAtEnd(list, a, handle, size);
        var allocation := new Byte[2 * size];
        list, blocks := list + [a], blocks + [allocation[..]];
      }
    }

    /** Where guest memory at handle is kept, and how much of the block is left from there. A block that starts at the page
        size also takes the handles below it: only for those are pointer and room off the block. */
    method LookupVertArry(handle: nat, size: nat) returns (ptr: Pointer, room: nat)
      requires Valid() && size > 0
      modifies this`list, this`blocks
      ensures Valid() && old(list) <= list && old(blocks) <= blocks
      ensures handle == 0 ==> ptr == Null && room == 0 && list == old(list)
      ensures handle != 0 ==>
                && ptr.Cached? && ptr.k == FirstFit(list, handle, size) < |list|
                && (list[ptr.k].tagLo + ptr.off == handle <==> handle >= list[ptr.k].tagLo)
                && (ptr.off + room == |blocks[ptr.k]| <==> handle >= list[ptr.k].tagLo)
                && (list[ptr.k].tagLo + ptr.off - handle) % TWO_32 == 0
                && list[ptr.k] == BlockFor(old(list), handle, size)
                && room >= size / 2
                && (FirstFit(old(list), handle, size) < |old(list)| ==> list == old(list))
                && (FirstFit(old(list), handle, size) == |old(list)| ==> list == old(list) + [NewBlock(handle, size)])
    {
      if handle == 0 {
        return Null, 0;
      }
      hide FirstFit, NewBlock;
      var p := FindBlock(handle, size);
      room := list[p].tagHi - handle;
      ptr := Cached(p, Distance(handle, list[p].tagLo));
    }

    /** vtxarry_init_guest: the address is guest memory, or an offset when an array buffer is bound. */
    method InitGuest(elemBytes: nat, stride: nat, handle: nat, was: VtxArray) returns (a: VtxArray)
      requires Valid() && szVertCache > 0
      modifies this`list, this`blocks
      ensures Valid() && old(list) <= list && old(blocks) <= blocks
      ensures a.enable == was.enable && a.elemBytes == elemBytes && a.stride == stride
      ensures a.client <==> arrayBuf == 0
      ensures PointsIn(a) <==> arrayBuf != 0 || Reachable(old(list), handle, szVertCache)
      ensures a.client && handle == 0 ==> a.ptr == Null
      ensures a.client && handle != 0 ==> a.room >= szVertCache / 2
      ensures a.client && handle != 0 ==> a.ptr.Cached? && a.ptr.k < |list| && (PointsIn(a) ==> GuestAddress(a, list) == handle)
      ensures !a.client ==> a.room == 0 && list == old(list)
    {
      var ptr, room := Offset(handle), 0;
      if arrayBuf == 0 {
        ptr, room := LookupVertArry(handle, szVertCache);
      }
      a := VtxArray(was.enable, elemBytes, stride, ptr, room, arrayBuf == 0);
    }

    /** The pointer call of array i: it stands for the guest address from then on, and every array still points into its
        block exactly if that address does not lie below the block it was found in. */
    method SetPointer(i: nat, elemBytes: nat, stride: nat, handle: nat)
      requires Valid() && szVertCache > 0 && i < ARRAYS
      modifies this`list, this`blocks, this`arrays
      ensures |arrays| == ARRAYS && forall j | 0 <= j < ARRAYS && j != i :: arrays[j] == old(arrays)[j]
      ensures arrays[i].enable == old(arrays)[i].enable && arrays[i].elemBytes == elemBytes && arrays[i].stride == stride
      ensures arrays[i].client <==> arrayBuf == 0
      ensures old(list) <= list && (arrayBuf == 0 && handle == 0 ==> arrays[i].ptr == Null)
      ensures arrayBuf == 0 && handle != 0 ==> arrays[i].room >= szVertCache / 2
      ensures Valid() <==> arrayBuf != 0 || Reachable(old(list), handle, szVertCache)
      ensures Valid() <==> PointsIn(arrays[i])
      ensures arrayBuf == 0 && handle != 0 ==>
                arrays[i].ptr.Cached? && arrays[i].ptr.k < |list| && (Valid() ==> GuestAddress(arrays[i], list) == handle)
    {
      var a := InitGuest(elemBytes, stride, handle, arrays[i]);
      arrays := arrays[i := a];
      assert arrays[i] == a;
    }

    /** glInterleavedArrays, which does not ask whether an array buffer is bound. */
    method SetInterleaved(elemBytes: nat, stride: nat, handle: nat)
      requires Valid() && szVertCache > 0
      modifies this`list, this`blocks, this`interleaved
      ensures interleaved.enable && interleaved.elemBytes == elemBytes && interleaved.stride == stride
      ensures old(list) <= list && (handle == 0 <==> interleaved.ptr == Null)
      ensures Valid() <==> Reachable(old(list), handle, szVertCache)
      ensures handle != 0 ==>
                interleaved.ptr.Cached? && interleaved.ptr.k < |list| && (Valid() ==> GuestAddress(interleaved, list) == handle)
    {
      var ptr, room := LookupVertArry(handle, szVertCache);
      interleaved := VtxArray(true, elemBytes, stride, ptr, room, interleaved.client);
    }

    /** glEnableClientState and glDisableClientState. */
    method EnableArray(i: nat, on: bool)
      requires Valid() && i < ARRAYS
      modifies this`arrays
      ensures Valid() && arrays == old(arrays)[i := old(arrays)[i].(enable := on)]
    {
      arrays := arrays[i := arrays[i].(enable := on)];
    }

    method BindArrayBuffer(buffer: nat)
      requires Valid()
      modifies this`arrayBuf
      ensures Valid() && arrayBuf == buffer
    {
      arrayBuf := buffer;
    }

    /** vtxarry_push: nothing outside the block is written, and a slice that does not fit is cut off. */
    method Push(a: VtxArray, cbElem: nat, start: int, src: seq<Byte>) returns (overflowed: bool)
      requires PointsIn(a) && |blocks| == |list|
      modifies this`blocks
      ensures Pushed(a, cbElem * start, src, old(blocks), blocks)
      ensures overflowed <==> !(0 <= cbElem * start < a.room && cbElem * start + |src| <= a.room)
    {
      var destOffset := cbElem * start;
      if destOffset < 0 || destOffset >= a.room {
        return true;
      }
      var roomLeft := a.room - destOffset;
      var k := a.ptr.k;
      if |src| > roomLeft {
        blocks := blocks[k := Splice(blocks[k], a.ptr.off + destOffset, src[..roomLeft])];
        return true;
      }
      blocks := blocks[k := Splice(blocks[k], a.ptr.off + destOffset, src)];
      return false;
    }

    /** One array's turn: its slice is taken from the stream, which moves on by whole pairs of words. */
    method PushArray(a: VtxArray, stream: seq<Byte>, pos: nat, start: int, end: int, ghost mem: int -> Byte) returns (n: nat)
      requires Valid() && PointsIn(a) && start <= end
      requires var n := SliceWords(a, start, end);
               && 0 <= n && pos + 4 * n <= |stream|
               && stream[pos..pos + 4 * n] == Bytes(mem, GuestAddress(a, list) + Step(a) * start, 4 * n)
      modifies this`blocks
      ensures Valid() && n == SliceWords(a, start, end)
      ensures MirrorsSlice(a, list, blocks, mem, start, end)
      ensures OnlyRefreshed(list, old(blocks), blocks, mem)
    {
      hide MirrorsSlice, OnlyRefreshed;
      var cbElem := if a.stride != 0 then a.stride else a.elemBytes;
      var cb := cbElem * (end - start) + a.elemBytes;
      n := if cb % 4 != 0 then cb / 4 + 1 else cb / 4;
      var _ := Push(a, cbElem, start, stream[pos..pos + 4 * n]);
      PushMirrors(a, list, old(blocks), blocks, mem, start, end, stream[pos..pos + 4 * n]);
    }

    /** The turn of an interleaved array: it travels alone, and only once. */
    method PushInterleaved(stream: seq<Byte>, start: int, end: int, ghost mem: int -> Byte) returns (datacb: nat)
      requires Valid() && start <= end && interleaved.enable && interleaved.ptr != Null
      requires Streamed(stream, 0, [interleaved.(client := true)], list, mem, start, end)
      modifies this`blocks, this`interleaved
      ensures Valid() && interleaved == old(interleaved).(enable := false)
      ensures datacb == StreamBytes([old(interleaved).(client := true)], start, end)
      ensures MirrorsSlice(old(interleaved).(client := true), list, blocks, mem, start, end)
      ensures OnlyRefreshed(list, old(blocks), blocks, mem)
    {
      hide Sent, SliceWords, MirrorsSlice, OnlyRefreshed, Streamed, StreamBytes;
      var a := interleaved.(client := true);
      SentIs(a);
      StreamStep(stream, 0, [a], list, mem, start, end);
      var n := PushArray(a, stream, 0, start, end, mem);
      datacb := if n % 2 == 1 then (n + 1) * 4 else n * 4;
      StreamDone(start, end);
      assert [a][1..] == [];
      interleaved := interleaved.(enable := false);
    }

    method PushSeparate(stream: seq<Byte>, start: int, end: int, ghost mem: int -> Byte) returns (datacb: nat)
      requires Valid() && start <= end
      requires Streamed(stream, 0, arrays, list, mem, start, end)
      modifies this`blocks
      ensures Valid()
      ensures datacb == StreamBytes(arrays, start, end)
      ensures forall j | 0 <= j < ARRAYS && Sent(arrays[j]) :: MirrorsSlice(arrays[j], list, blocks, mem, start, end)
      ensures OnlyRefreshed(list, old(blocks), blocks, mem)
      ensures NoneSent(arrays) ==> blocks == old(blocks)
    {
      hide Sent, SliceWords, MirrorsSlice, OnlyRefreshed, Streamed, StreamBytes;
      NothingRefreshed(list, blocks, mem);
      ghost var before := blocks;
      datacb := 0;
      assert arrays[0..] == arrays;
      for i := 0 to ARRAYS
        invariant Valid()
        invariant Streamed(stream, datacb, arrays[i..], list, mem, start, end)
        invariant datacb + StreamBytes(arrays[i..], start, end) == StreamBytes(arrays, start, end)
        invariant forall j | 0 <= j < i && Sent(arrays[j]) :: MirrorsSlice(arrays[j], list, blocks, mem, start, end)
        invariant OnlyRefreshed(list, before, blocks, mem)
        invariant NoneSent(arrays) ==> blocks == before
      {
        datacb := PushNext(i, stream, datacb, start, end, before, mem);
      }
      StreamDone(start, end);
      assert arrays[ARRAYS..] == [];
    }

    /** One round of that loop. */
    method PushNext(i: nat, stream: seq<Byte>, pos: nat, start: int, end: int, ghost before: seq<seq<Byte>>,
                    ghost mem: int -> Byte) returns (pos': nat)
      requires Valid() && start <= end && i < ARRAYS
      requires Streamed(stream, pos, arrays[i..], list, mem, start, end)
      requires forall j | 0 <= j < i && Sent(arrays[j]) :: MirrorsSlice(arrays[j], list, blocks, mem, start, end)
      requires OnlyRefreshed(list, before, blocks, mem)
      modifies this`blocks
      ensures Valid()
      ensures Streamed(stream, pos', arrays[i + 1..], list, mem, start, end)
      ensures pos' + StreamBytes(arrays[i + 1..], start, end) == pos + StreamBytes(arrays[i..], start, end)
      ensures forall j | 0 <= j <= i && Sent(arrays[j]) :: MirrorsSlice(arrays[j], list, blocks, mem, start, end)
      ensures OnlyRefreshed(list, before, blocks, mem)
      ensures !Sent(arrays[i]) ==> blocks == old(blocks)
    {
      hide Sent, SliceWords, MirrorsSlice, OnlyRefreshed, Streamed, StreamBytes;
      var a := arrays[i];
      ghost var rest := arrays[i..];
      assert rest[0] == a && rest[1..] == arrays[i + 1..];
      StreamStep(stream, pos, rest, list, mem, start, end);
      SentIs(a);
      pos' := pos;
      if a.enable && a.ptr != Null && a.client {
        ghost var b := blocks;
        var n := PushArray(a, stream, pos, start, end, mem);
        pos' := pos + if n % 2 == 1 then (n + 1) * 4 else n * 4;
        RefreshChains(list, before, b, blocks, mem);
        RefreshKeepsSlices(arrays[..i], list, b, blocks, mem, start, end);
        assert forall j | 0 <= j < i :: arrays[..i][j] == arrays[j];
      }
    }

    /** PushVertexArray: after it the cache mirrors every slice that was sent, overlapping or not. */
    method PushVertexArray(stream: seq<Byte>, start: int, end: int, ghost mem: int -> Byte) returns (datacb: nat)
      requires Valid() && start <= end
      requires Streamed(stream, 0, Travelling(), list, mem, start, end)
      modifies this`blocks, this`interleaved
      ensures Valid()
      ensures datacb == StreamBytes(old(Travelling()), start, end)
      ensures forall j | 0 <= j < |old(Travelling())| && Sent(old(Travelling())[j]) ::
                MirrorsSlice(old(Travelling())[j], list, blocks, mem, start, end)
      ensures OnlyRefreshed(list, old(blocks), blocks, mem)
      ensures interleaved == Spent(old(interleaved))
      ensures NoneSent(old(Travelling())) ==> blocks == old(blocks)
    {
      hide Sent, SliceWords, MirrorsSlice, OnlyRefreshed, Streamed, StreamBytes;
      if interleaved.enable && interleaved.ptr != Null {
        SentIs(Travelling()[0]);
        datacb := PushInterleaved(stream, start, end, mem);
      } else {
        datacb := PushSeparate(stream, start, end, mem);
      }
    }

    /** glDrawArrays. */
    method DrawArrays(first: nat, count: nat, vao: nat, stream: seq<Byte>, ghost mem: int -> Byte)
      requires Valid()
      requires count != 0 && vao == 0 ==> Streamed(stream, 0, Travelling(), list, mem, first, first + count - 1)
      modifies this`blocks, this`interleaved
      ensures Valid() && OnlyRefreshed(list, old(blocks), blocks, mem)
      ensures vao == 0 ==>
                forall j, v | 0 <= j < |old(Travelling())| && Sent(old(Travelling())[j]) && first <= v < first + count ::
                  MirrorsElement(old(Travelling())[j], list, blocks, mem, v)
      ensures interleaved == if count != 0 && vao == 0 then Spent(old(interleaved)) else old(interleaved)
      ensures NoneSent(old(Travelling())) ==> blocks == old(blocks)
    {
      hide Sent, MirrorsSlice, OnlyRefreshed, Streamed, MirrorsElement, NoneSent;
      NothingRefreshed(list, blocks, mem);
      if count != 0 && vao == 0 {
        ghost var sent := Travelling();
        var _ := PushVertexArray(stream, first, first + count - 1, mem);
        forall j, v | 0 <= j < |sent| && Sent(sent[j]) && first <= v < first + count
          ensures MirrorsElement(sent[j], list, blocks, mem, v)
        {
          SliceMirrorsElement(sent[j], list, blocks, mem, first, first + count - 1, v);
        }
      }
    }

    /** glDrawElements and its base vertex forms: the range the index list spans is refreshed before the draw. */
    method DrawElements(indices: seq<nat>, base: int, vao: nat, elemArryBuf: nat, stream: seq<Byte>, ghost mem: int -> Byte)
      requires Valid()
      requires vao == 0 && elemArryBuf == 0 ==>
                 Streamed(stream, 0, Travelling(), list, mem, Least(indices) + base, Largest(indices) + base)
      modifies this`blocks, this`interleaved
      ensures Valid() && OnlyRefreshed(list, old(blocks), blocks, mem)
      ensures vao == 0 && elemArryBuf == 0 && (forall v | v in indices :: v + base >= 0) ==>
                forall j, v | 0 <= j < |old(Travelling())| && Sent(old(Travelling())[j]) && v in indices ::
                  MirrorsElement(old(Travelling())[j], list, blocks, mem, v + base)
      ensures interleaved == if vao == 0 && elemArryBuf == 0 then Spent(old(interleaved)) else old(interleaved)
      ensures NoneSent(old(Travelling())) ==> blocks == old(blocks)
    {
      hide Sent, MirrorsSlice, OnlyRefreshed, Streamed, MirrorsElement, Least, Largest, NoneSent;
      NothingRefreshed(list, blocks, mem);
      if elemArryBuf == 0 {
        var start, end := ScanIndices(indices);
        if vao == 0 {
          ghost var sent := Travelling();
          var _ := PushVertexArray(stream, start + base, end + base, mem);
          forall j, v | 0 <= j < |sent| && Sent(sent[j]) && v in indices && start + base >= 0
            ensures MirrorsElement(sent[j], list, blocks, mem, v + base)
          {
            IndexBounds(indices, v);
            SliceMirrorsElement(sent[j], list, blocks, mem, start + base, end + base, v + base);
          }
          if indices != [] {
            LeastIsThere(indices);
          }
        }
      }
    }

    /** The end of a context frees the blocks, and the next one starts with no array set. */
    method Reset() returns (cnt: nat)
      requires Valid()
      modifies this
      ensures Valid() && list == [] && cnt == |old(list)| && interleaved == UNSET && arrays == seq(ARRAYS, i => UNSET)
      ensures szVertCache == old(szVertCache) && arrayBuf == 0
    {
      cnt := |list|;
      list, blocks := [], [];
      interleaved, arrays, arrayBuf := UNSET, seq(ARRAYS, i => UNSET), 0;
    }
  }

  /** A first pointer call for an address in the first page, no larger than the blocks are long: the block made for it starts
      behind it, and the array does not point into it. */
  method StrayPointer(szVertCache: nat, i: nat, elemBytes: nat, stride: nat, handle: nat) returns (s: MesaArrays)
    requires i < ARRAYS && 0 < handle < PAGE_SIZE && handle <= szVertCache
    ensures fresh(s) && !s.Valid() && |s.arrays| == ARRAYS && !s.PointsIn(s.arrays[i])
  {
    s := new MesaArrays(szVertCache);
    s.SetPointer(i, elemBytes, stride, handle);
  }

  /** A fresh context with one array in guest memory and another one set while a buffer was bound, both enabled. */
  method TwoArrays(szVertCache: nat, i: nat, buffered: nat, elemBytes: nat, stride: nat, handle: nat) returns (s: MesaArrays)
    requires szVertCache > 0 && i < ARRAYS && buffered < ARRAYS && buffered != i && handle >= PAGE_SIZE
    ensures fresh(s) && s.Valid() && |s.arrays| == ARRAYS && s.interleaved == UNSET
    ensures s.arrays[i].enable && s.arrays[i].client && s.arrays[i].ptr.Cached? && GuestAddress(s.arrays[i], s.list) == handle
    ensures s.arrays[i].elemBytes == elemBytes && s.arrays[i].stride == stride && s.arrays[i].room >= szVertCache / 2
    ensures s.arrays[buffered].enable && !s.arrays[buffered].client
    ensures forall j | 0 <= j < ARRAYS && j != i && j != buffered :: s.arrays[j] == UNSET
  {
    hide FirstFit, NewBlock, Reachable;
    s := new MesaArrays(szVertCache);
    s.BindArrayBuffer(1);
    s.SetPointer(buffered, elemBytes, stride, handle);
    s.EnableArray(buffered, true);
    s.BindArrayBuffer(0);
    HighHandleReachable(s.list, handle, szVertCache);
    s.SetPointer(i, elemBytes, stride, handle);
    s.EnableArray(i, true);
  }

  /** From the start to the first draw: a slice of guest memory behind the array's address is all that travels, and every
      element of the draw is in the cache afterwards. */
  method FirstDraw(szVertCache: nat, i: nat, buffered: nat, elemBytes: nat, stride: nat, handle: nat, first: nat, count: nat,
                   stream: seq<Byte>, ghost mem: int -> Byte) returns (s: MesaArrays)
    requires szVertCache > 0 && i < ARRAYS && buffered < ARRAYS && buffered != i && handle >= PAGE_SIZE && count > 0
    requires var a := VtxArray(true, elemBytes, stride, Null, 0, true);
             var n := SliceWords(a, first, first + count - 1);
             0 <= 4 * n <= |stream| && stream[..4 * n] == Bytes(mem, handle + Step(a) * first, 4 * n)
    ensures fresh(s) && s.Valid() && |s.arrays| == ARRAYS
    ensures s.arrays[i].ptr.Cached? && GuestAddress(s.arrays[i], s.list) == handle && s.arrays[i].room >= szVertCache / 2
    ensures forall v | first <= v < first + count :: MirrorsElement(s.arrays[i], s.list, s.blocks, mem, v)
    ensures forall v: nat, o: nat | first <= v < first + count && o < elemBytes ::
              ByteShown(s.arrays[i], s.blocks, mem, handle, elemBytes, stride, v, o)
  {
    hide MirrorsElement, SliceWords, Step, Streamed, Sent, OnlyRefreshed, GuestAddress;
    s := TwoArrays(szVertCache, i, buffered, elemBytes, stride, handle);
    OneSent(s.arrays, i, buffered);
    SameSlice(VtxArray(true, elemBytes, stride, Null, 0, true), s.arrays[i], first, first + count - 1);
    OneStreamed(stream, s.arrays, i, s.list, mem, first, first + count - 1);
    assert s.Travelling() == s.arrays;
    s.DrawArrays(first, count, 0, stream, mem);
    forall v: nat, o: nat | first <= v < first + count && o < elemBytes
      ensures ByteShown(s.arrays[i], s.blocks, mem, handle, elemBytes, stride, v, o)
    {
      ElementShown(s.arrays[i], s.list, s.blocks, mem, v, o);
    }
  }

  /** Byte o of element v of an array that starts at that guest address lies v strides behind it, or v elements when the
      stride is 0; as far as the block has room, the host's array has there what the guest has. */
  predicate ByteShown(a: VtxArray, blocks: seq<seq<Byte>>, mem: int -> Byte, handle: int, elemBytes: nat, stride: nat, v: nat, o: nat) {
    var at := v * (if stride != 0 then stride else elemBytes) + o;
    a.ptr.Cached? && (at < a.room ==>
      a.ptr.k < |blocks| && a.ptr.off + at < |blocks[a.ptr.k]| && blocks[a.ptr.k][a.ptr.off + at] == mem(handle + at))
  }

  /** A mirrored element, byte by byte, in terms of the pointer call. */
  lemma ElementShown(a: VtxArray, list: seq<VertArry>, blocks: seq<seq<Byte>>, mem: int -> Byte, v: nat, o: nat)
    requires a.ptr.Cached? && a.ptr.k < |list| && MirrorsElement(a, list, blocks, mem, v) && o < a.elemBytes
    ensures ByteShown(a, blocks, mem, GuestAddress(a, list), a.elemBytes, a.stride, v, o)
  {
    var at := v * (if a.stride != 0 then a.stride else a.elemBytes) + o;
    assert Step(a) * v + o == at by {
      ElementAt(a, v);
    }
    hide Step;
    if 0 <= at < a.room {
      assert InElement(a, v, a.ptr.off + at);
    }
  }

  lemma OneSent(arrays: seq<VtxArray>, i: nat, buffered: nat)
    requires i < |arrays| && buffered < |arrays| && buffered != i && !arrays[buffered].client
    requires arrays[i].enable && arrays[i].ptr.Cached? && arrays[i].client
    requires forall j | 0 <= j < |arrays| && j != i && j != buffered :: arrays[j] == UNSET
    ensures forall j | 0 <= j < |arrays| :: Sent(arrays[j]) <==> j == i
  {
  }

  lemma SameSlice(a: VtxArray, b: VtxArray, start: int, end: int)
    requires a.elemBytes == b.elemBytes && a.stride == b.stride
    ensures SliceWords(a, start, end) == SliceWords(b, start, end) && Step(a) == Step(b)
  {
  }

  lemma {:induction false} NoneStreamed(stream: seq<Byte>, pos: nat, arrays: seq<VtxArray>, list: seq<VertArry>, mem: int -> Byte,
                                        start: int, end: int)
    requires start <= end && forall j | 0 <= j < |arrays| :: !Sent(arrays[j])
    ensures Streamed(stream, pos, arrays, list, mem, start, end)
    decreases |arrays|
  {
    if arrays != [] {
      NoneStreamed(stream, pos, arrays[1..], list, mem, start, end);
    }
  }

  /** The stream of a draw that sends a single array. */
  lemma {:induction false} OneStreamed(stream: seq<Byte>, arrays: seq<VtxArray>, i: nat, list: seq<VertArry>, mem: int -> Byte,
                                       start: int, end: int)
    requires start <= end && i < |arrays| && forall j | 0 <= j < |arrays| && j != i :: !Sent(arrays[j])
    requires var n := SliceWords(arrays[i], start, end);
             && 0 <= 4 * n <= |stream| && stream[..4 * n] == Bytes(mem, GuestAddress(arrays[i], list) + Step(arrays[i]) * start, 4 * n)
    ensures Streamed(stream, 0, arrays, list, mem, start, end)
    decreases |arrays|
  {
    hide SliceWords, Step, Sent, GuestAddress, Advance;
    if i > 0 {
      assert !Sent(arrays[0]);
      OneStreamed(stream, arrays[1..], i - 1, list, mem, start, end);
    } else {
      SliceCovers(arrays[0], start, end);
      NoneStreamed(stream, Advance(SliceWords(arrays[0], start, end)), arrays[1..], list, mem, start, end);
      NoneStreamed(stream, 0, arrays[1..], list, mem, start, end);
    }
  }

  // The range an index list spans.

  function Largest(indices: seq<nat>): nat {
    if indices == [] then 0
    else
      var n := |indices| - 1;
      var m := Largest(indices[..n]);
      if indices[n] > m then indices[n] else m
  }

  /** The least index, but 0 for an empty list. */
  function Least(indices: seq<nat>): (m: nat)
    ensures m <= Largest(indices)
  {
    LeastFrom(indices, Largest(indices))
  }

  function LeastFrom(indices: seq<nat>, from: nat): (m: nat)
    ensures m <= from
  {
    if indices == [] then from
    else
      var n := |indices| - 1;
      var m := LeastFrom(indices[..n], from);
      if indices[n] < m then indices[n] else m
  }

  lemma {:induction false} LargestBounds(indices: seq<nat>, v: nat)
    requires v in indices
    ensures v <= Largest(indices)
  {
    var n := |indices| - 1;
    if v != indices[n] {
      assert v in indices[..n];
      LargestBounds(indices[..n], v);
    }
  }

  lemma {:induction false} LeastFromBounds(indices: seq<nat>, from: nat, v: nat)
    requires v in indices
    ensures LeastFrom(indices, from) <= v
  {
    var n := |indices| - 1;
    if v != indices[n] {
      assert v in indices[..n];
      LeastFromBounds(indices[..n], from, v);
    }
  }

  lemma {:induction false} LargestIsThere(indices: seq<nat>)
    requires indices != []
    ensures Largest(indices) in indices
  {
    var n := |indices| - 1;
    if n > 0 {
      LargestIsThere(indices[..n]);
    } else {
      assert indices[..0] == [];
    }
  }

  lemma {:induction false} LeastFromIsThere(indices: seq<nat>, from: nat)
    ensures LeastFrom(indices, from) in indices || LeastFrom(indices, from) == from
  {
    if indices != [] {
      LeastFromIsThere(indices[..|indices| - 1], from);
    }
  }

  lemma LeastIsThere(indices: seq<nat>)
    requires indices != []
    ensures Least(indices) in indices
  {
    LeastFromIsThere(indices, Largest(indices));
    LargestIsThere(indices);
  }

  /** Every index lies in the range, and for a non-empty list the range ends at indices of the list. */
  lemma IndexBounds(indices: seq<nat>, v: nat)
    requires v in indices
    ensures Least(indices) <= v <= Largest(indices)
    ensures Least(indices) in indices && Largest(indices) in indices
  {
    LargestBounds(indices, v);
    LeastFromBounds(indices, Largest(indices), v);
    LeastIsThere(indices);
    LargestIsThere(indices);
  }

  /** The two scans over the index list. */
  method ScanIndices(indices: seq<nat>) returns (start: nat, end: nat)
    ensures start == Least(indices) && end == Largest(indices)
    ensures forall v | v in indices :: start <= v <= end
    ensures indices == [] ==> start == 0 && end == 0
  {
    end := 0;
    for i := 0 to |indices|
      invariant end == Largest(indices[..i])
    {
      assert indices[..i + 1][..i] == indices[..i];
      end := if indices[i] > end then indices[i] else end;
    }
    assert indices[..|indices|] == indices;
    start := end;
    for i := 0 to |indices|
      invariant start == LeastFrom(indices[..i], end)
    {
      assert indices[..i + 1][..i] == indices[..i];
      start := if indices[i] < start then indices[i] else start;
    }
    forall v | v in indices
      ensures start <= v <= end
    {
      IndexBounds(indices, v);
    }
  }
}
