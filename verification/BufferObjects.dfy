/** Mapped buffer objects: the list of them, and the one staging area that stands in for all the mappings KVM cannot
    give the guest directly. Mappings are taken from the area like from a stack, but may be given back in any order. */
module BufferObjects {
  import opened GuestPlacement

  const MGLFBT_SIZE := 0x2000000

  type Byte = bv8

  datatype Access = Access(write: bool, flushExplicit: bool)

  datatype BufObj = BufObj(idx: int, mapsz: nat, acc: Access, offst: nat, range: nat, hva: nat, gpa: nat, mused: nat, ocpy: bool)

  function NewBufObj(idx: int): BufObj {
    BufObj(idx, 0, Access(false, false), 0, 0, 0, 0, 0, false)
  }

  // The list.

  function Find(list: seq<BufObj>, idx: int): (k: nat)
    ensures k <= |list|
    ensures k < |list| ==> list[k].idx == idx
    ensures forall j | 0 <= j < k :: list[j].idx != idx
  {
    if list == [] || list[0].idx == idx then 0 else 1 + Find(list[1..], idx)
  }

  ghost predicate Distinct(list: seq<BufObj>) {
    forall p, q | 0 <= p < q < |list| :: list[p].idx != list[q].idx
  }

  // The area. A copied mapping owns the bytes from Lo on; mused is what was in use when it was made.

  /** The first byte of a mapping in the area, which fills up from its end. */
  function Lo(b: BufObj): int {
    MGLFBT_SIZE - b.mused - AlignBo(b.mapsz)
  }

  predicate Separate(a: BufObj, b: BufObj) {
    || a.mapsz == 0 || b.mapsz == 0
    || a.mused + AlignBo(a.mapsz) <= b.mused
    || b.mused + AlignBo(b.mapsz) <= a.mused
  }

  ghost predicate AllSeparate(list: seq<BufObj>) {
    forall p, q | 0 <= p < q < |list| && list[p].ocpy && list[q].ocpy :: Separate(list[p], list[q])
  }

  /** The mapping's bytes are where the guest looks for them, and are what the guest wrote. */
  ghost predicate Mirrored(b: BufObj, area: seq<Byte>, view: map<int, seq<Byte>>, fbtm: nat) {
    && 0 <= Lo(b) && Lo(b) + b.mapsz <= |area|
    && b.gpa == fbtm + MGLFBT_SIZE - b.mused
    && b.idx in view
    && area[Lo(b)..Lo(b) + b.mapsz] == view[b.idx]
  }

  /** The mark is past the end of the mapping; an empty one takes no room and may be left behind. */
  predicate Below(b: BufObj, used: nat) {
    b.mapsz == 0 || b.mused + AlignBo(b.mapsz) <= used
  }

  ghost predicate AllMirrored(list: seq<BufObj>, used: nat, area: seq<Byte>, view: map<int, seq<Byte>>, fbtm: nat) {
    forall k | 0 <= k < |list| && list[k].ocpy ::
      Mirrored(list[k], area, view, fbtm) && Below(list[k], used)
  }

  ghost predicate AllHosted(list: seq<BufObj>, host: map<int, seq<Byte>>) {
    forall k | 0 <= k < |list| ::
      if list[k].ocpy then
        list[k].idx in host && |host[list[k].idx]| == list[k].mapsz
      else
        list[k].hva == 0 ==> list[k].mapsz == 0 && !list[k].acc.write
  }

  ghost predicate Consistent(list: seq<BufObj>, used: nat, area: seq<Byte>, view: map<int, seq<Byte>>,
                             host: map<int, seq<Byte>>, fbtm: nat) {
    && |area| == MGLFBT_SIZE && used <= MGLFBT_SIZE
    && Distinct(list) && AllSeparate(list)
    && AllMirrored(list, used, area, view, fbtm)
    && AllHosted(list, host)
  }

  function Splice(s: seq<Byte>, at: nat, bytes: seq<Byte>): (r: seq<Byte>)
    requires at + |bytes| <= |s|
    ensures |r| == |s|
    ensures r[at..at + |bytes|] == bytes
    ensures r[..at] == s[..at] && r[at + |bytes|..] == s[at + |bytes|..]
  {
    s[..at] + bytes + s[at + |bytes|..]
  }

  /** What a flush copies: the range, or without one everything from the offset on. */
  function FlushLength(b: BufObj): int {
    if b.range != 0 then b.range else b.mapsz - b.offst
  }

  lemma SpliceFrame(area: seq<Byte>, at: nat, bytes: seq<Byte>, lo: nat, hi: nat)
    requires at + |bytes| <= |area| && lo <= hi <= |area|
    requires lo == hi || |bytes| == 0 || hi <= at || at + |bytes| <= lo
    ensures Splice(area, at, bytes)[lo..hi] == area[lo..hi]
  {
    var area' := Splice(area, at, bytes);
    assert forall i | 0 <= i < at :: area'[i] == area[..at][i];
    assert forall i | at + |bytes| <= i < |area| :: area'[i] == area[at + |bytes|..][i - at - |bytes|];
  }

  lemma SpliceInside(area: seq<Byte>, lo: nat, n: nat, off: nat, bytes: seq<Byte>)
    requires lo + n <= |area| && off + |bytes| <= n
    ensures Splice(area, lo + off, bytes)[lo..lo + n] == Splice(area[lo..lo + n], off, bytes)
  {
  }

  /** A write into one mapping moves with the guest's view of it, and does not reach another one. */
  lemma WriteMirrors(a: BufObj, b: BufObj, area: seq<Byte>, view: map<int, seq<Byte>>, fbtm: nat, off: nat, bytes: seq<Byte>)
    requires Mirrored(a, area, view, fbtm) && Mirrored(b, area, view, fbtm) && off + |bytes| <= b.mapsz
    requires a == b || (a.idx != b.idx && Separate(a, b))
    ensures Mirrored(a, Splice(area, Lo(b) + off, bytes), view[b.idx := Splice(view[b.idx], off, bytes)], fbtm)
  {
    hide Splice, AlignBo;
    if a == b {
      SpliceInside(area, Lo(b), b.mapsz, off, bytes);
    } else {
      SpliceFrame(area, Lo(b) + off, bytes, Lo(a), Lo(a) + a.mapsz);
    }
  }

  lemma TwoOf(list: seq<BufObj>, i: nat, k: nat)
    requires i < |list| && k < |list| && Distinct(list) && AllSeparate(list) && list[i].ocpy && list[k].ocpy
    ensures list[i] == list[k] || (list[i].idx != list[k].idx && Separate(list[i], list[k]))
  {
    hide AlignBo;
    if i < k {
      assert Separate(list[i], list[k]);
    } else if k < i {
      assert Separate(list[k], list[i]);
    }
  }

  /** Writing inside one copied mapping leaves every other one as the guest left it. */
  lemma WriteKeeps(list: seq<BufObj>, used: nat, area: seq<Byte>, view: map<int, seq<Byte>>, host: map<int, seq<Byte>>,
                   fbtm: nat, k: nat, off: nat, bytes: seq<Byte>)
    requires k < |list| && list[k].ocpy && off + |bytes| <= list[k].mapsz
    requires Consistent(list, used, area, view, host, fbtm)
    ensures Mirrored(list[k], area, view, fbtm)
    ensures Consistent(list, used, Splice(area, Lo(list[k]) + off, bytes),
                       view[list[k].idx := Splice(view[list[k].idx], off, bytes)], host, fbtm)
  {
    hide Splice, AlignBo, Mirrored, Lo, Separate, Distinct, AllSeparate, AllHosted, Below;
    CopiedMirrored(list[k], list, k, used, area, view, fbtm);
    var area', view' := Splice(area, Lo(list[k]) + off, bytes), view[list[k].idx := Splice(view[list[k].idx], off, bytes)];
    forall i | 0 <= i < |list| && list[i].ocpy
      ensures Mirrored(list[i], area', view', fbtm)
    {
      TwoOf(list, i, k);
      WriteMirrors(list[i], list[k], area, view, fbtm, off, bytes);
    }
  }

  lemma CopiedMirrored(b: BufObj, list: seq<BufObj>, k: nat, used: nat, area: seq<Byte>, view: map<int, seq<Byte>>, fbtm: nat)
    requires k < |list| && b == list[k] && b.ocpy && AllMirrored(list, used, area, view, fbtm)
    ensures Mirrored(b, area, view, fbtm)
    ensures 0 <= Lo(b) && Lo(b) + b.mapsz <= |area| && b.idx in view && |view[b.idx]| == b.mapsz
  {
    hide AlignBo;
  }

  /** Filling in bytes beyond everything in use leaves every mapping as it was. */
  lemma FillKeeps(list: seq<BufObj>, used: nat, area: seq<Byte>, view: map<int, seq<Byte>>, host: map<int, seq<Byte>>,
                  fbtm: nat, at: nat, bytes: seq<Byte>)
    requires Consistent(list, used, area, view, host, fbtm)
    requires at + |bytes| <= MGLFBT_SIZE - used
    ensures Consistent(list, used, Splice(area, at, bytes), view, host, fbtm)
  {
    hide Splice, AlignBo;
    forall i | 0 <= i < |list| && list[i].ocpy
      ensures Mirrored(list[i], Splice(area, at, bytes), view, fbtm)
    {
      SpliceFrame(area, at, bytes, Lo(list[i]), Lo(list[i]) + list[i].mapsz);
    }
  }

  // Giving a mapping back.

  function RemoveAt(list: seq<BufObj>, k: nat): (r: seq<BufObj>)
    requires k < |list|
    ensures |r| == |list| - 1
    ensures forall i | 0 <= i < k :: r[i] == list[i]
    ensures forall i | k <= i < |r| :: r[i] == list[i + 1]
  {
    list[..k] + list[k + 1..]
  }

  /** The mark after an unmap: the topmost mapping is popped, any other one leaves a hole. */
  function MarkAfter(b: BufObj, used: nat): int {
    if used == b.mused + AlignBo(b.mapsz) then used - AlignBo(b.mapsz) else used
  }

  lemma RemoveKeeps(list: seq<BufObj>, k: nat, host: map<int, seq<Byte>>)
    requires k < |list| && Distinct(list) && AllSeparate(list) && AllHosted(list, host)
    ensures Distinct(RemoveAt(list, k)) && AllSeparate(RemoveAt(list, k)) && AllHosted(RemoveAt(list, k), host)
  {
    hide Separate, RemoveAt;
  }

  /** Whatever the order of the unmaps, the mark never falls below the end of a mapping that is still there. */
  lemma PopKeeps(list: seq<BufObj>, k: nat, used: nat, area: seq<Byte>, view: map<int, seq<Byte>>,
                 host: map<int, seq<Byte>>, fbtm: nat)
    requires k < |list| && list[k].ocpy && Consistent(list, used, area, view, host, fbtm)
    ensures 0 <= MarkAfter(list[k], used) <= used
    ensures Consistent(RemoveAt(list, k), MarkAfter(list[k], used), area, view - {list[k].idx}, host, fbtm)
  {
    hide RemoveAt;
    var b, list' := list[k], RemoveAt(list, k);
    RemoveKeeps(list, k, host);
    forall i | 0 <= i < |list'| && list'[i].ocpy
      ensures Mirrored(list'[i], area, view - {b.idx}, fbtm)
      ensures Below(list'[i], MarkAfter(b, used))
    {
      var j := if i < k then i else i + 1;
      assert list'[i] == list[j] && list[j].idx != b.idx;
      assert Separate(list[j], b);
    }
  }

  /** Dropping an object that owns nothing in the area. */
  lemma DropKeeps(list: seq<BufObj>, k: nat, used: nat, area: seq<Byte>, view: map<int, seq<Byte>>,
                  host: map<int, seq<Byte>>, fbtm: nat)
    requires k < |list| && !list[k].ocpy && Consistent(list, used, area, view, host, fbtm)
    ensures Consistent(RemoveAt(list, k), used, area, view - {list[k].idx}, host, fbtm)
  {
    hide RemoveAt;
    var b, list' := list[k], RemoveAt(list, k);
    RemoveKeeps(list, k, host);
    forall i | 0 <= i < |list'| && list'[i].ocpy
      ensures Mirrored(list'[i], area, view - {b.idx}, fbtm) && Below(list'[i], used)
    {
      var j := if i < k then i else i + 1;
      assert list'[i] == list[j] && list[j].idx != b.idx;
    }
  }

  // Flushing.

  /** The flush stays inside the mapping. */
  predicate Flushable(b: BufObj) {
    b.offst <= b.mapsz && b.offst + FlushLength(b) <= b.mapsz
  }

  /** A flush touches host memory only for a copied mapping whose host mapping succeeded. */
  predicate Copies(b: BufObj) {
    b.hva != 0 && b.ocpy
  }

  /** The unmap flushes by itself. */
  predicate FlushesAtUnmap(b: BufObj) {
    b.acc.write && !b.acc.flushExplicit
  }

  /** The host's bytes after a flush, given what the guest has in the mapping. */
  function Flushed(b: BufObj, host: seq<Byte>, view: seq<Byte>): (r: seq<Byte>)
    requires |host| == |view| == b.mapsz && Flushable(b)
    ensures |r| == |host|
  {
    Splice(host, b.offst, view[b.offst..b.offst + FlushLength(b)])
  }

  /** A flush moves exactly the guest's bytes inside its range, and none outside. */
  lemma FlushedAt(b: BufObj, host: seq<Byte>, view: seq<Byte>, i: nat)
    requires |host| == |view| == b.mapsz && Flushable(b) && i < b.mapsz
    ensures Flushed(b, host, view)[i] == if b.offst <= i < b.offst + FlushLength(b) then view[i] else host[i]
  {
    var n, r := FlushLength(b), Flushed(b, host, view);
    if i < b.offst {
      assert r[..b.offst][i] == host[..b.offst][i];
    } else if i < b.offst + n {
      assert r[b.offst..b.offst + n][i - b.offst] == view[b.offst..b.offst + n][i - b.offst];
    } else {
      assert r[b.offst + n..][i - b.offst - n] == host[b.offst + n..][i - b.offst - n];
    }
  }

  /** A mapping no flush has touched yet. */
  predicate Whole(b: BufObj) {
    b.offst == 0 && (b.range == 0 || b.range == b.mapsz)
  }

  lemma WholeFlush(b: BufObj, host: seq<Byte>, view: seq<Byte>)
    requires |host| == |view| == b.mapsz && Whole(b)
    ensures Flushable(b) && Flushed(b, host, view) == view
  {
  }

  /** A flush without a length copies everything behind its offset: it does what was asked exactly when there was a
      length, when nothing lies behind the offset, or when the host's bytes there happen to be the guest's already. */
  lemma EmptyFlush(b: BufObj, host: seq<Byte>, view: seq<Byte>)
    requires |host| == |view| == b.mapsz && b.offst + b.range <= b.mapsz
    ensures Flushed(b, host, view) == Splice(host, b.offst, view[b.offst..b.offst + b.range])
            <==> b.range != 0 || view[b.offst..] == host[b.offst..]
  {
    if b.range == 0 {
      assert view[b.offst..b.mapsz] == view[b.offst..];
      assert Splice(host, b.offst, []) == host;
      assert host[b.offst..b.offst + |view[b.offst..]|] == host[b.offst..];
      if view[b.offst..] == host[b.offst..] {
        assert Flushed(b, host, view) == host[..b.offst] + host[b.offst..] == host;
      }
    }
  }

  /** What a flush leaves in the object. */
  function Retagged(b: BufObj, offst: nat, range: nat, apple: bool): BufObj {
    b.(offst := offst, range := range, acc := if apple then b.acc.(flushExplicit := true) else b.acc)
  }

  // What the guest does between a map and an unmap, to this mapping and to others.

  datatype Step =
    | Write(idx: int, off: nat, bytes: seq<Byte>)
    | FlushRange(idx: int, offst: nat, range: nat, apple: bool)
    | MapBuffer(idx: int, size: nat, ranged: bool, acc: Access, hva: nat, kvm: bool, fill: bool, contents: seq<Byte>)
    | UnmapBuffer(idx: int, kvm: bool)

  /** A step that leaves the mapping standing. */
  predicate OfBytes(s: Step) {
    s.Write? || s.FlushRange?
  }

  /** The bytes a step writes or flushes, in a mapping of that size. */
  predicate Covers(s: Step, size: nat, i: nat) {
    match s
    case Write(_, off, bytes) => off <= i < off + |bytes|
    case FlushRange(_, offst, range, _) => offst <= i < if range != 0 then offst + range else size
    case _ => false
  }

  /** The step writes or flushes inside the mapping. */
  predicate Inside(s: Step, size: nat) {
    match s
    case Write(_, off, bytes) => off + |bytes| <= size
    case FlushRange(_, offst, range, _) => offst <= size && offst + range <= size
    case _ => false
  }

  /** A byte of a mapping as the guest has it after these steps: the one written last, or the one it was mapped with. */
  function GuestByte(v: Byte, idx: int, size: nat, i: nat, steps: seq<Step>): Byte {
    if steps == [] then v
    else
      var n := |steps| - 1;
      if steps[n].Write? && steps[n].idx == idx && Covers(steps[n], size, i) then steps[n].bytes[i - steps[n].off]
      else GuestByte(v, idx, size, i, steps[..n])
  }

  /** A byte of the host's buffer after these steps: what the guest had there when it was last flushed, or else what was
      there when it was mapped. */
  function HostByte(h: Byte, v: Byte, idx: int, size: nat, i: nat, steps: seq<Step>): Byte {
    if steps == [] then h
    else
      var n := |steps| - 1;
      if steps[n].FlushRange? && steps[n].idx == idx && Covers(steps[n], size, i) then GuestByte(v, idx, size, i, steps[..n])
      else HostByte(h, v, idx, size, i, steps[..n])
  }

  /** Byte by byte, mapping and buffer are what the steps make of them. */
  ghost predicate Bytes(idx: int, size: nat, steps: seq<Step>, v: seq<Byte>, h: seq<Byte>, v': seq<Byte>, h': seq<Byte>) {
    && |v| == |h| == |v'| == |h'| == size
    && (forall i | 0 <= i < size :: v'[i] == GuestByte(v[i], idx, size, i, steps))
    && (forall i | 0 <= i < size :: h'[i] == HostByte(h[i], v[i], idx, size, i, steps))
  }

  ghost predicate Follows(b: BufObj, steps: seq<Step>, view: map<int, seq<Byte>>, host: map<int, seq<Byte>>,
                          view': map<int, seq<Byte>>, host': map<int, seq<Byte>>) {
    && b.idx in view && b.idx in host && b.idx in view' && b.idx in host'
    && Bytes(b.idx, b.mapsz, steps, view[b.idx], host[b.idx], view'[b.idx], host'[b.idx])
  }

  lemma NoStep(b: BufObj, view: map<int, seq<Byte>>, host: map<int, seq<Byte>>)
    requires b.idx in view && b.idx in host && |view[b.idx]| == |host[b.idx]| == b.mapsz
    ensures Follows(b, [], view, host, view, host)
  {
  }

  lemma OneByte(v: Byte, h: Byte, idx: int, size: nat, i: nat, steps: seq<Step>, s: Step)
    ensures GuestByte(v, idx, size, i, steps + [s])
            == if s.Write? && s.idx == idx && Covers(s, size, i) then s.bytes[i - s.off] else GuestByte(v, idx, size, i, steps)
    ensures HostByte(h, v, idx, size, i, steps + [s])
            == if s.FlushRange? && s.idx == idx && Covers(s, size, i) then GuestByte(v, idx, size, i, steps)
               else HostByte(h, v, idx, size, i, steps)
  {
    assert (steps + [s])[..|steps|] == steps;
  }

  lemma BytesStep(idx: int, size: nat, steps: seq<Step>, s: Step, v: seq<Byte>, h: seq<Byte>, v': seq<Byte>, h': seq<Byte>,
                  v'': seq<Byte>, h'': seq<Byte>)
    requires Bytes(idx, size, steps, v, h, v', h') && |v''| == |h''| == size
    requires forall i | 0 <= i < size ::
               v''[i] == if s.Write? && s.idx == idx && Covers(s, size, i) then s.bytes[i - s.off] else v'[i]
    requires forall i | 0 <= i < size ::
               h''[i] == if s.FlushRange? && s.idx == idx && Covers(s, size, i) then v'[i] else h'[i]
    ensures Bytes(idx, size, steps + [s], v, h, v'', h'')
  {
    hide GuestByte, HostByte, Covers;
    forall i | 0 <= i < size
      ensures v''[i] == GuestByte(v[i], idx, size, i, steps + [s]) && h''[i] == HostByte(h[i], v[i], idx, size, i, steps + [s])
    {
      OneByte(v[i], h[i], idx, size, i, steps, s);
    }
  }

  lemma SpliceAt(s: seq<Byte>, at: nat, bytes: seq<Byte>, i: nat)
    requires at + |bytes| <= |s| && i < |s|
    ensures Splice(s, at, bytes)[i] == if at <= i < at + |bytes| then bytes[i - at] else s[i]
  {
  }

  /** A step on another buffer, whatever it is, or a write or flush on this one. */
  lemma StepFollows(b: BufObj, steps: seq<Step>, s: Step, view: map<int, seq<Byte>>, host: map<int, seq<Byte>>,
                    view': map<int, seq<Byte>>, host': map<int, seq<Byte>>, view'': map<int, seq<Byte>>, host'': map<int, seq<Byte>>)
    requires Follows(b, steps, view, host, view', host')
    requires b.idx in view'' && b.idx in host''
    requires s.idx != b.idx ==> view''[b.idx] == view'[b.idx] && host''[b.idx] == host'[b.idx]
    requires s.idx == b.idx ==> Inside(s, b.mapsz)
    requires s.idx == b.idx && s.Write? ==>
               && s.off + |s.bytes| <= |view'[b.idx]| && host''[b.idx] == host'[b.idx]
               && view''[b.idx] == Splice(view'[b.idx], s.off, s.bytes)
    requires s.idx == b.idx && s.FlushRange? ==>
               var f := b.(offst := s.offst, range := s.range);
               && view''[b.idx] == view'[b.idx]
               && Flushable(f) && host''[b.idx] == Flushed(f, host'[b.idx], view'[b.idx])
    ensures Follows(b, steps + [s], view, host, view'', host'')
  {
    hide Splice, Flushed, GuestByte, HostByte;
    FollowsIn(b, steps, view, host, view', host');
    var (v', h', v'', h'') := (view'[b.idx], host'[b.idx], view''[b.idx], host''[b.idx]);
    forall i | 0 <= i < b.mapsz
      ensures v''[i] == if s.Write? && s.idx == b.idx && Covers(s, b.mapsz, i) then s.bytes[i - s.off] else v'[i]
      ensures h''[i] == if s.FlushRange? && s.idx == b.idx && Covers(s, b.mapsz, i) then v'[i] else h'[i]
    {
      if s.idx == b.idx {
        if s.Write? {
          SpliceAt(v', s.off, s.bytes, i);
        } else {
          FlushedAt(b.(offst := s.offst, range := s.range), h', v', i);
        }
      }
    }
    BytesStep(b.idx, b.mapsz, steps, s, view[b.idx], host[b.idx], v', h', v'', h'');
  }

  /** A write inside a copied mapping, a flush inside any, a map the area has room for, an unmap that goes the way of the
      map: what the methods below ask for. */
  predicate Usable(list: seq<BufObj>, used: nat, s: Step) {
    var k := Find(list, s.idx);
    match s
    case MapBuffer(_, size, _, _, hva, kvm, fill, contents) =>
      && |contents| == size
      && if kvm then !fill && hva != 0 && (k < |list| ==> !list[k].ocpy) else used + AlignBo(size) <= MGLFBT_SIZE
    case UnmapBuffer(_, kvm) =>
      k < |list| ==>
        && (Copies(list[k]) && FlushesAtUnmap(list[k]) ==> Flushable(list[k]))
        && (list[k].ocpy || list[k].mapsz > 0 ==> kvm == !list[k].ocpy)
    case Write(_, _, _) => k < |list| && Copies(list[k]) && Inside(s, list[k].mapsz)
    case FlushRange(_, _, _, _) => k < |list| && (list[k].ocpy ==> Copies(list[k])) && Inside(s, list[k].mapsz)
  }

  /** The offset and range of the last flush of a mapping, or what it was mapped with. */
  function LastRange(idx: int, offst: nat, range: nat, steps: seq<Step>): (nat, nat) {
    if steps == [] then (offst, range)
    else
      var n := |steps| - 1;
      if steps[n].FlushRange? && steps[n].idx == idx then (steps[n].offst, steps[n].range)
      else LastRange(idx, offst, range, steps[..n])
  }

  lemma {:induction false} NoFlushNoRange(idx: int, offst: nat, range: nat, steps: seq<Step>)
    requires forall s | s in steps :: s.FlushRange? ==> s.idx != idx
    ensures LastRange(idx, offst, range, steps) == (offst, range)
    decreases |steps|
  {
    if steps != [] {
      var n := |steps| - 1;
      assert steps[n] in steps && forall s | s in steps[..n] :: s in steps;
      NoFlushNoRange(idx, offst, range, steps[..n]);
    }
  }

  /** Whether flushes are explicit in the end. */
  ghost predicate MadeExplicit(idx: int, explicit: bool, steps: seq<Step>) {
    explicit || exists s | s in steps :: s.FlushRange? && s.idx == idx && s.apple
  }

  /** The unmap takes this byte along: it is in a write mapping whose flushes are not explicit, inside the range of the last
      flush there was, or anywhere if there was none. */
  ghost predicate TakenAtUnmap(idx: int, acc: Access, offst: nat, range: nat, size: nat, i: nat, steps: seq<Step>) {
    var (o, r) := LastRange(idx, offst, range, steps);
    acc.write && !MadeExplicit(idx, acc.flushExplicit, steps) && o <= i < if r != 0 then o + r else size
  }

  /** Only flushes leave a trace in an object, and none where its bytes are. */
  ghost predicate Marked(b: BufObj, b': BufObj, steps: seq<Step>) {
    && b' == b.(offst := b'.offst, range := b'.range, acc := b'.acc)
    && (b'.offst, b'.range) == LastRange(b.idx, b.offst, b.range, steps)
    && b'.acc.write == b.acc.write && (b'.acc.flushExplicit <==> MadeExplicit(b.idx, b.acc.flushExplicit, steps))
    && (Flushable(b) ==> Flushable(b'))
  }

  lemma FindOf(list: seq<BufObj>, idx: int, k: nat)
    requires k < |list| && list[k].idx == idx && forall j | 0 <= j < k :: list[j].idx != idx
    ensures Find(list, idx) == k
  {
  }

  /** Objects that keep their buffers, and ones appended, do not change where a buffer's object is. */
  lemma FindSame(list: seq<BufObj>, list': seq<BufObj>, idx: int)
    requires |list| <= |list'| && Find(list, idx) < |list|
    requires forall k | 0 <= k < |list| :: list'[k].idx == list[k].idx
    ensures Find(list', idx) == Find(list, idx)
  {
    FindOf(list', idx, Find(list, idx));
  }

  lemma FindRemoved(list: seq<BufObj>, k: nat, idx: int)
    requires k < |list| && list[k].idx != idx && Find(list, idx) < |list|
    ensures var (i, list') := (Find(list, idx), RemoveAt(list, k));
            Find(list', idx) == (if i < k then i else i - 1) < |list'| && list'[Find(list', idx)] == list[i]
  {
    hide RemoveAt;
    var i := Find(list, idx);
    FindOf(RemoveAt(list, k), idx, if i < k then i else i - 1);
  }

  /** A buffer a step was not about: object, mapping and bytes are what they were. */
  ghost predicate Untouched(idx: int, list: seq<BufObj>, view: map<int, seq<Byte>>, host: map<int, seq<Byte>>,
                            list': seq<BufObj>, view': map<int, seq<Byte>>, host': map<int, seq<Byte>>) {
    && (Find(list, idx) < |list| ==> Find(list', idx) < |list'| && list'[Find(list', idx)] == list[Find(list, idx)])
    && (idx in view ==> idx in view' && view'[idx] == view[idx])
    && (idx in host ==> idx in host' && host'[idx] == host[idx])
  }

  /** List, mark, mappings and host buffers at one time. */
  datatype Snapshot = Snapshot(list: seq<BufObj>, used: nat, view: map<int, seq<Byte>>, host: map<int, seq<Byte>>)

  /** The mark once that object is gone: its bytes go back if they were copied and end at the mark, and everything does when no
      object is left. */
  function MarkLeft(b: BufObj, used: nat, left: seq<BufObj>): nat {
    if left == [] then 0 else if b.ocpy && used == b.mused + AlignBo(b.mapsz) then b.mused else used
  }

  /** What a step does to its own buffer, and to the mark. */
  ghost predicate Done(s: Step, x: Snapshot, y: Snapshot) {
    var (k, k') := (Find(x.list, s.idx), Find(y.list, s.idx));
    match s
    case Write(idx, off, bytes) =>
      && k < |x.list| && k' < |y.list| && y.list[k'] == x.list[k] && y.host == x.host && y.used == x.used
      && idx in x.view && off + |bytes| <= |x.view[idx]| && idx in y.view && y.view[idx] == Splice(x.view[idx], off, bytes)
    case FlushRange(idx, offst, range, apple) =>
      && k < |x.list| && k' < |y.list| && y.list[k'] == Retagged(x.list[k], offst, range, apple)
      && y.view == x.view && y.used == x.used
      && var f := x.list[k].(offst := offst, range := range);
         if Copies(f) then
           && idx in x.view && idx in x.host && idx in y.host && |x.host[idx]| == |x.view[idx]| == f.mapsz && Flushable(f)
           && y.host[idx] == Flushed(f, x.host[idx], x.view[idx])
         else y.host == x.host
    case MapBuffer(idx, size, ranged, acc, hva, kvm, fill, contents) =>
      && k' < |y.list| && y.list[k'].mapsz == size && y.list[k'].acc == acc && y.list[k'].hva == hva && y.list[k'].ocpy == !kvm
      && y.list[k'].offst == 0 && y.list[k'].range == (if ranged then size else 0)
      && idx in y.host && y.host[idx] == contents
      && y.used == (if kvm then x.used else x.used + AlignBo(size))
      && (!kvm ==> y.list[k'].mused == x.used && idx in y.view && |y.view[idx]| == size && (fill ==> y.view[idx] == contents))
    case UnmapBuffer(idx, _) =>
      && k' == |y.list| && idx !in y.view
      && y.used == (if k < |x.list| then MarkLeft(x.list[k], x.used, y.list) else x.used)
      && if k < |x.list| && Copies(x.list[k]) && FlushesAtUnmap(x.list[k]) then
           && idx in x.view && idx in x.host && idx in y.host && |x.host[idx]| == |x.view[idx]| == x.list[k].mapsz
           && Flushable(x.list[k]) && y.host[idx] == Flushed(x.list[k], x.host[idx], x.view[idx])
         else y.host == x.host
  }

  /** One step: what it does to its buffer, and nothing to any other. */
  ghost predicate Stepped(s: Step, x: Snapshot, y: Snapshot) {
    && Done(s, x, y)
    && forall idx | idx != s.idx :: Untouched(idx, x.list, x.view, x.host, y.list, y.view, y.host)
  }

  ghost predicate AllStepped(steps: seq<Step>, trace: seq<Snapshot>)
    decreases |steps|
  {
    && |trace| == |steps| + 1
    && (steps != [] ==>
          var n := |steps| - 1;
          Stepped(steps[n], trace[n], trace[n + 1]) && AllStepped(steps[..n], trace[..n + 1]))
  }

  lemma SteppedMore(steps: seq<Step>, trace: seq<Snapshot>, s: Step, y: Snapshot)
    requires AllStepped(steps, trace) && Stepped(s, trace[|steps|], y)
    ensures AllStepped(steps + [s], trace + [y])
  {
    hide Stepped;
    assert (steps + [s])[..|steps|] == steps && (trace + [y])[..|steps| + 1] == trace;
  }

  // Mapping and unmapping in stack order.

  /** The copied mappings these steps have begun and not ended, the oldest first. */
  function Begun(steps: seq<Step>): seq<int> {
    if steps == [] then []
    else
      var n := |steps| - 1;
      var begun := Begun(steps[..n]);
      match steps[n]
      case MapBuffer(idx, _, _, _, _, kvm, _, _) => if kvm then begun else begun + [idx]
      case UnmapBuffer(_, _) => if begun == [] then [] else begun[..|begun| - 1]
      case _ => begun
  }

  /** The steps map buffers that are not there yet, or through KVM, and unmap only the one mapped last of those that are begun. */
  ghost predicate StackOrder(list: seq<BufObj>, steps: seq<Step>)
    decreases |steps|
  {
    steps != [] ==>
      var n := |steps| - 1;
      && StackOrder(list, steps[..n])
      && match steps[n]
         case MapBuffer(idx, _, _, _, _, kvm, _, _) => idx !in Begun(steps[..n]) && (kvm || Find(list, idx) == |list|)
         case UnmapBuffer(idx, _) => Begun(steps[..n]) != [] && idx == Begun(steps[..n])[|Begun(steps[..n])| - 1]
         case _ => true
  }

  /** The mappings begun lie on one another, from the mark there was up to the mark there is. */
  ghost predicate Piled(begun: seq<int>, list: seq<BufObj>, base: nat, used: nat)
    decreases |begun|
  {
    if begun == [] then used == base
    else
      var n := |begun| - 1;
      var k := Find(list, begun[n]);
      && k < |list| && list[k].ocpy && used == list[k].mused + AlignBo(list[k].mapsz)
      && begun[n] !in begun[..n]
      && Piled(begun[..n], list, base, list[k].mused)
  }

  predicate SamePlace(idx: int, list: seq<BufObj>, list': seq<BufObj>) {
    var (k, k') := (Find(list, idx), Find(list', idx));
    k < |list| ==> k' < |list'| && list'[k'] == list[k].(offst := list'[k'].offst, range := list'[k'].range, acc := list'[k'].acc)
  }

  /** A step on another buffer, or a write or flush, leaves a buffer's object in its place. */
  lemma PlaceStays(idx: int, s: Step, y: Snapshot, z: Snapshot)
    requires Stepped(s, y, z) && (idx == s.idx ==> OfBytes(s))
    ensures SamePlace(idx, y.list, z.list)
  {
    hide Find, AlignBo, Splice, Flushed;
    if idx != s.idx {
      assert Untouched(idx, y.list, y.view, y.host, z.list, z.view, z.host);
    }
  }

  lemma PlacesStay(begun: seq<int>, s: Step, y: Snapshot, z: Snapshot)
    requires Stepped(s, y, z) && (s.idx in begun ==> OfBytes(s))
    ensures forall idx | idx in begun :: SamePlace(idx, y.list, z.list)
  {
    hide Stepped, SamePlace;
    forall idx | idx in begun
      ensures SamePlace(idx, y.list, z.list)
    {
      PlaceStays(idx, s, y, z);
    }
  }

  lemma {:induction false} PiledFrame(begun: seq<int>, list: seq<BufObj>, list': seq<BufObj>, base: nat, used: nat)
    requires Piled(begun, list, base, used)
    requires forall idx | idx in begun :: SamePlace(idx, list, list')
    ensures Piled(begun, list', base, used)
    decreases |begun|
  {
    hide Find, AlignBo;
    if begun != [] {
      var n := |begun| - 1;
      assert begun[n] in begun && forall idx | idx in begun[..n] :: idx in begun;
      PiledFrame(begun[..n], list, list', base, list[Find(list, begun[n])].mused);
    }
  }

  /** What holds along a run in stack order: the pile, and that the first of the objects there were is there still. */
  ghost predicate StackHolds(begun: seq<int>, x: Snapshot, y: Snapshot) {
    && Piled(begun, y.list, x.used, y.used)
    && (forall idx | idx in begun :: Find(x.list, idx) == |x.list|)
    && (x.list != [] ==> Find(y.list, x.list[0].idx) < |y.list|)
  }

  lemma StackStep(s: Step, begun: seq<int>, x: Snapshot, y: Snapshot, z: Snapshot)
    requires StackHolds(begun, x, y) && Stepped(s, y, z) && (x.list == [] ==> x.used == 0)
    requires s.MapBuffer? ==> s.idx !in begun && (s.kvm || Find(x.list, s.idx) == |x.list|)
    requires s.UnmapBuffer? ==> begun != [] && s.idx == begun[|begun| - 1]
    ensures StackHolds(match s
                       case MapBuffer(idx, _, _, _, _, kvm, _, _) => if kvm then begun else begun + [idx]
                       case UnmapBuffer(_, _) => begun[..|begun| - 1]
                       case _ => begun, x, z)
  {
    match s
    case Write(_, _, _) => StackByte(s, begun, x, y, z);
    case FlushRange(_, _, _, _) => StackByte(s, begun, x, y, z);
    case MapBuffer(_, _, _, _, _, _, _, _) => StackMap(s, begun, x, y, z);
    case UnmapBuffer(_, _) => StackUnmap(s, begun, x, y, z);
  }

  lemma FirstFound(x: Snapshot)
    requires x.list != []
    ensures Find(x.list, x.list[0].idx) < |x.list|
  {
  }

  lemma StackByte(s: Step, begun: seq<int>, x: Snapshot, y: Snapshot, z: Snapshot)
    requires StackHolds(begun, x, y) && Stepped(s, y, z) && OfBytes(s)
    ensures StackHolds(begun, x, z)
  {
    hide Find, AlignBo, Splice, Flushed, Piled, SamePlace;
    PlacesStay(begun, s, y, z);
    PiledFrame(begun, y.list, z.list, x.used, y.used);
    FirstStays(s, x, y, z);
  }

  lemma FirstStays(s: Step, x: Snapshot, y: Snapshot, z: Snapshot)
    requires Stepped(s, y, z) && (x.list != [] ==> Find(y.list, x.list[0].idx) < |y.list|)
    requires s.UnmapBuffer? ==> Find(x.list, s.idx) == |x.list|
    ensures x.list != [] ==> Find(z.list, x.list[0].idx) < |z.list|
  {
    hide Find, AlignBo, Splice, Flushed;
    if x.list != [] {
      FirstFound(x);
      var idx := x.list[0].idx;
      if idx != s.idx {
        assert Untouched(idx, y.list, y.view, y.host, z.list, z.view, z.host);
      }
    }
  }

  lemma PiledPush(begun: seq<int>, idx: int, list: seq<BufObj>, base: nat, used: nat)
    requires Piled(begun, list, base, used) && idx !in begun && Find(list, idx) < |list|
    requires list[Find(list, idx)].ocpy && list[Find(list, idx)].mused == used
    ensures Piled(begun + [idx], list, base, used + AlignBo(list[Find(list, idx)].mapsz))
  {
    hide Find, AlignBo;
    assert (begun + [idx])[..|begun|] == begun;
  }

  lemma MappedIs(s: Step, y: Snapshot, z: Snapshot)
    requires Stepped(s, y, z) && s.MapBuffer?
    ensures var k := Find(z.list, s.idx);
            && k < |z.list| && z.list[k].mapsz == s.size && z.list[k].ocpy == !s.kvm
            && z.used == (if s.kvm then y.used else y.used + AlignBo(s.size)) && (!s.kvm ==> z.list[k].mused == y.used)
  {
    hide Find, AlignBo, Untouched;
  }

  lemma StackMap(s: Step, begun: seq<int>, x: Snapshot, y: Snapshot, z: Snapshot)
    requires StackHolds(begun, x, y) && Stepped(s, y, z) && s.MapBuffer?
    requires s.idx !in begun && (s.kvm || Find(x.list, s.idx) == |x.list|)
    ensures StackHolds(if s.kvm then begun else begun + [s.idx], x, z)
  {
    hide Find, AlignBo, SamePlace, Stepped, Piled;
    PlacesStay(begun, s, y, z);
    PiledFrame(begun, y.list, z.list, x.used, y.used);
    FirstStays(s, x, y, z);
    MappedIs(s, y, z);
    if !s.kvm {
      PiledPush(begun, s.idx, z.list, x.used, y.used);
    }
  }

  lemma StackUnmap(s: Step, begun: seq<int>, x: Snapshot, y: Snapshot, z: Snapshot)
    requires StackHolds(begun, x, y) && Stepped(s, y, z) && s.UnmapBuffer? && (x.list == [] ==> x.used == 0)
    requires begun != [] && s.idx == begun[|begun| - 1]
    ensures StackHolds(begun[..|begun| - 1], x, z)
  {
    hide Find, AlignBo, Splice, Flushed, SamePlace, Untouched;
    var n := |begun| - 1;
    var b := y.list[Find(y.list, s.idx)];
    assert s.idx in begun && s.idx !in begun[..n] && forall idx | idx in begun[..n] :: idx in begun;
    PlacesStay(begun[..n], s, y, z);
    PiledFrame(begun[..n], y.list, z.list, x.used, b.mused);
    FirstStays(s, x, y, z);
  }

  lemma {:induction false} StackRun(steps: seq<Step>, trace: seq<Snapshot>)
    requires AllStepped(steps, trace) && StackOrder(trace[0].list, steps) && (trace[0].list == [] ==> trace[0].used == 0)
    ensures StackHolds(Begun(steps), trace[0], trace[|steps|])
    decreases |steps|
  {
    hide Stepped, StackHolds;
    if steps == [] {
      StackStart(trace[0]);
    } else {
      var n := |steps| - 1;
      StackRun(steps[..n], trace[..n + 1]);
      StackStep(steps[n], Begun(steps[..n]), trace[0], trace[n], trace[n + 1]);
    }
  }

  lemma StackStart(x: Snapshot)
    ensures StackHolds([], x, x)
  {
    if x.list != [] {
      FirstFound(x);
    }
  }

  /** Buffers mapped and unmapped in stack order, with whatever is written, flushed or mapped through KVM in between, leave the
      mark where it was. */
  lemma StackBringsMarkBack(steps: seq<Step>, trace: seq<Snapshot>)
    requires AllStepped(steps, trace) && StackOrder(trace[0].list, steps) && (trace[0].list == [] ==> trace[0].used == 0)
    requires Begun(steps) == []
    ensures trace[|steps|].used == trace[0].used
  {
    hide AllStepped, StackOrder, Begun;
    StackRun(steps, trace);
  }

  /** The mapping stands all along: it is there, and the steps on its buffer only write and flush. */
  ghost predicate Stands(idx: int, list: seq<BufObj>, steps: seq<Step>) {
    Find(list, idx) < |list| && forall s | s in steps && s.idx == idx :: OfBytes(s)
  }

  /** A mapping that is still there, with what the steps make of it. */
  ghost predicate Kept(idx: int, steps: seq<Step>, list: seq<BufObj>, view: map<int, seq<Byte>>, host: map<int, seq<Byte>>,
                       list': seq<BufObj>, view': map<int, seq<Byte>>, host': map<int, seq<Byte>>) {
    var (k, k') := (Find(list, idx), Find(list', idx));
    && k < |list| && k' < |list'| && Marked(list[k], list'[k'], steps)
    && (list[k].ocpy ==> Follows(list[k], steps, view, host, view', host'))
  }

  lemma MarkedStep(b: BufObj, b': BufObj, b'': BufObj, steps: seq<Step>, s: Step)
    requires Marked(b, b', steps) && (s.idx == b.idx ==> Inside(s, b.mapsz))
    requires b'' == if s.FlushRange? && s.idx == b.idx then Retagged(b', s.offst, s.range, s.apple) else b'
    ensures Marked(b, b'', steps + [s])
  {
    var all := steps + [s];
    assert all[..|steps|] == steps && s in all && forall t | t in steps :: t in all;
  }

  lemma KeptStart(idx: int, list: seq<BufObj>, used: nat, area: seq<Byte>, view: map<int, seq<Byte>>, host: map<int, seq<Byte>>,
                  fbtm: nat)
    requires Consistent(list, used, area, view, host, fbtm) && Stands(idx, list, [])
    ensures Kept(idx, [], list, view, host, list, view, host)
  {
    hide Follows, AllSeparate, Separate;
    var k := Find(list, idx);
    if list[k].ocpy {
      CopiedMirrored(list[k], list, k, used, area, view, fbtm);
      NoStep(list[k], view, host);
    }
  }

  /** A mapping follows the steps past one on another buffer. */
  lemma KeptBeside(idx: int, steps: seq<Step>, s: Step, list: seq<BufObj>, view: map<int, seq<Byte>>, host: map<int, seq<Byte>>,
                   list': seq<BufObj>, view': map<int, seq<Byte>>, host': map<int, seq<Byte>>,
                   list'': seq<BufObj>, view'': map<int, seq<Byte>>, host'': map<int, seq<Byte>>)
    requires Kept(idx, steps, list, view, host, list', view', host') && s.idx != idx
    requires Untouched(idx, list', view', host', list'', view'', host'')
    ensures Kept(idx, steps + [s], list, view, host, list'', view'', host'')
  {
    hide Follows, Marked, Find;
    var (b, b') := (list[Find(list, idx)], list'[Find(list', idx)]);
    MarkedStep(b, b', b', steps, s);
    if b.ocpy {
      FollowsIn(b, steps, view, host, view', host');
      StepFollows(b, steps, s, view, host, view', host', view'', host'');
    }
  }

  /** And past a write or flush of its own. */
  lemma KeptThrough(steps: seq<Step>, s: Step, used: nat, used': nat, list: seq<BufObj>, view: map<int, seq<Byte>>, host: map<int, seq<Byte>>,
                    list': seq<BufObj>, view': map<int, seq<Byte>>, host': map<int, seq<Byte>>,
                    list'': seq<BufObj>, view'': map<int, seq<Byte>>, host'': map<int, seq<Byte>>)
    requires Kept(s.idx, steps, list, view, host, list', view', host') && OfBytes(s) && Usable(list', used, s)
    requires Done(s, Snapshot(list', used, view', host'), Snapshot(list'', used', view'', host''))
    ensures Kept(s.idx, steps + [s], list, view, host, list'', view'', host'')
  {
    hide Follows, Marked, Find, Splice, Flushed, Inside;
    var (b, b') := (list[Find(list, s.idx)], list'[Find(list', s.idx)]);
    MarkedIs(b, b', steps);
    MarkedStep(b, b', list''[Find(list'', s.idx)], steps, s);
    if b.ocpy {
      FollowsIn(b, steps, view, host, view', host');
      if s.FlushRange? {
        FlushedLike(b, b', s.offst, s.range, host'[s.idx], view'[s.idx]);
      }
      StepFollows(b, steps, s, view, host, view', host', view'', host'');
    }
  }

  lemma MarkedIs(b: BufObj, b': BufObj, steps: seq<Step>)
    requires Marked(b, b', steps)
    ensures b' == b.(offst := b'.offst, range := b'.range, acc := b'.acc)
  {
  }

  lemma FollowsIn(b: BufObj, steps: seq<Step>, view: map<int, seq<Byte>>, host: map<int, seq<Byte>>,
                  view': map<int, seq<Byte>>, host': map<int, seq<Byte>>)
    requires Follows(b, steps, view, host, view', host')
    ensures b.idx in view' && b.idx in host' && |view'[b.idx]| == |host'[b.idx]| == b.mapsz
  {
  }

  lemma FlushedLike(b: BufObj, b': BufObj, offst: nat, range: nat, host: seq<Byte>, view: seq<Byte>)
    requires b' == b.(offst := b'.offst, range := b'.range, acc := b'.acc)
    requires |host| == |view| == b.mapsz && Flushable(b'.(offst := offst, range := range))
    ensures Flushable(b.(offst := offst, range := range))
    ensures Flushed(b'.(offst := offst, range := range), host, view) == Flushed(b.(offst := offst, range := range), host, view)
  {
    hide Splice;
  }

  function PlaceOf(b: BufObj): Place {
    Place(b.mapsz, b.hva, b.gpa)
  }

  function Places(list: seq<BufObj>): (r: seq<Place>)
    ensures |r| == |list|
    ensures forall k | 0 <= k < |list| :: r[k] == PlaceOf(list[k])
  {
    seq(|list|, k requires 0 <= k < |list| => PlaceOf(list[k]))
  }

  lemma FirstIsApart(o: Place, P: nat)
    requires PageSize(P)
    ensures PlacedApart(Places([]), o, P)
  {
  }

  class MappedBuffers {
    /** The host address of the staging area, and the host page size. */
    const fbtm: nat
    const pageSize: nat
    const area: array<Byte>
    var list: seq<BufObj>
    var szUsed: nat
    /** The host's bytes behind each mapping, by buffer index. */
    var host: map<int, seq<Byte>>
    /** What the guest has in each copied mapping, as if every one had memory of its own. */
    ghost var view: map<int, seq<Byte>>

    ghost predicate Valid()
      reads this, area
    {
      && PageSize(pageSize)
      && area.Length == MGLFBT_SIZE && szUsed <= MGLFBT_SIZE
      && Consistent(list, szUsed, area[..], view, host, fbtm)
      && (list == [] ==> szUsed == 0)
    }

    constructor (fbtm: nat, pageSize: nat)
      requires PageSize(pageSize)
      ensures Valid() && list == [] && fresh(area)
    {
      this.fbtm, this.pageSize := fbtm, pageSize;
      area := new Byte[MGLFBT_SIZE];
      list, szUsed, host, view := [], 0, map[], map[];
    }

    /** The object of a buffer, appended when there is none. */
    method LookupBufObj(idx: int) returns (k: nat)
      requires Valid()
      modifies this`list
      ensures k == Find(old(list), idx) == Find(list, idx) < |list| && list[k].idx == idx
      ensures list == if k < |old(list)| then old(list) else old(list) + [NewBufObj(idx)]
      ensures Consistent(list, szUsed, area[..], view, host, fbtm)
    {
      hide Mirrored, Separate;
      k := 0;
      while k < |list| && list[k].idx != idx
        invariant k <= |list|
        invariant forall j | 0 <= j < k :: list[j].idx != idx
      {
        k := k + 1;
      }
      if k == |list| {
        list := list + [NewBufObj(idx)];
        assert list[k].idx == idx;
      }
    }

    /** Unlinks the object of a buffer; what is returned is the number of objects left. */
    method FreeBufObj(idx: int) returns (cnt: nat)
      modifies this`list
      ensures var k := Find(old(list), idx); list == if k < |old(list)| then RemoveAt(old(list), k) else old(list)
      ensures cnt == |list|
    {
      var k := 0;
      while k < |list| && list[k].idx != idx
        invariant k <= |list|
        invariant forall j | 0 <= j < k :: list[j].idx != idx
      {
        k := k + 1;
      }
      if k < |list| {
        list := list[..k] + list[k + 1..];
      }
      cnt := |list|;
    }

    /** A guest address for the object at k, clear of the objects before it. Returned is how many those are. */
    method MapBufObjGpa(k: nat) returns (lvl: nat)
      requires PageSize(pageSize) && k < |list|
      modifies this`list
      ensures |list| == |old(list)| && list == old(list)[k := old(list)[k].(gpa := list[k].gpa)]
      ensures lvl == k
      ensures k == 0 ==> list[k].gpa == list[k].hva % MBUFO_SIZE
      ensures k > 0 ==>
                var (earlier, b) := (Places(old(list)[..k]), list[k]);
                var (lo, hi) := (LowMark(earlier, pageSize), HighMark(earlier, pageSize));
                var (want, need) := (b.hva % 0x0800_0000, AlignBo(b.mapsz) + b.hva % pageSize);
                && (want + need < lo || want >= hi ==> b.gpa == want)
                && (lo <= want + need && want < hi ==>
                      && (need < lo ==> b.gpa + need == lo)
                      && (lo <= need && hi + need < 0x0800_0000 ==> b.gpa == hi)
                      && (lo <= need && hi + need >= 0x0800_0000 ==> b.gpa == 0))
      ensures PlacedApart(Places(old(list)[..k]), PlaceOf(list[k]), pageSize)
    {
      hide AlignBo, PageDown, PlacedApart, Chosen;
      var bufo := list[k];
      ghost var earlier := Places(list[..k]);
      var gpa := bufo.hva % MBUFO_SIZE;
      lvl := 0;
      if k != 0 {
        var addrLo, addrHi := MBUFO_SIZE - 1, 0;
        var bufoSize := AlignBo(bufo.mapsz) + bufo.hva % pageSize;
        while lvl != k
          invariant lvl <= k
          invariant addrLo == LowMark(earlier[..lvl], pageSize) && addrHi == HighMark(earlier[..lvl], pageSize)
        {
          var curr := list[lvl];
          var currSize := curr.mapsz + curr.hva % pageSize;
          assert earlier[..lvl + 1][..lvl] == earlier[..lvl] && earlier[lvl] == PlaceOf(curr);
          addrLo := if PageDown(curr.gpa, pageSize) < addrLo then PageDown(curr.gpa, pageSize) else addrLo;
          addrHi := if PageDown(curr.gpa + currSize, pageSize) > addrHi then PageDown(curr.gpa + currSize, pageSize)
                    else addrHi;
          lvl := lvl + 1;
        }
        assert earlier[..k] == earlier;
        if gpa + bufoSize < addrLo || gpa >= addrHi {
        } else {
          gpa := 0;
          if gpa == 0 && addrLo > bufoSize {
            gpa := addrLo - bufoSize;
          }
          if gpa == 0 && addrHi + bufoSize < MBUFO_SIZE {
            gpa := addrHi;
          }
        }
      }
      list := list[k := bufo.(gpa := gpa)];
      if k != 0 {
        ChosenFrom(bufo.hva % MBUFO_SIZE, Need(bufo.mapsz, bufo.hva, pageSize), LowMark(earlier, pageSize),
                   HighMark(earlier, pageSize), gpa);
        ChosenIsPlacedApart(earlier, PlaceOf(list[k]), pageSize);
      } else {
        FirstIsApart(PlaceOf(list[0]), pageSize);
      }
    }

    /** memcpy into the area. */
    method Store(at: nat, bytes: seq<Byte>)
      requires at + |bytes| <= area.Length
      modifies area
      ensures area[..] == Splice(old(area[..]), at, bytes)
    {
      forall i | 0 <= i < |bytes| {
        area[at + i] := bytes[i];
      }
    }

    /** wrFillBufObj: the host's bytes go where a copied mapping of that size would lie. */
    method FillBufObj(contents: seq<Byte>)
      requires Consistent(list, szUsed, area[..], view, host, fbtm) && area.Length == MGLFBT_SIZE
      requires szUsed + AlignBo(|contents|) <= MGLFBT_SIZE
      modifies area
      ensures Consistent(list, szUsed, area[..], view, host, fbtm)
      ensures var at := MGLFBT_SIZE - szUsed - AlignBo(|contents|); area[..][at..at + |contents|] == contents
    {
      hide Splice, AlignBo, Consistent;
      FillKeeps(list, szUsed, area[..], view, host, fbtm, MGLFBT_SIZE - szUsed - AlignBo(|contents|), contents);
      Store(MGLFBT_SIZE - szUsed - AlignBo(|contents|), contents);
    }

    /** A mapping KVM gives the guest directly. */
    method MapDirect(k: nat, bufo: BufObj, contents: seq<Byte>) returns (ret: nat)
      requires PageSize(pageSize) && area.Length == MGLFBT_SIZE && szUsed <= MGLFBT_SIZE
      requires Consistent(list, szUsed, area[..], view, host, fbtm)
      requires k < |list| && bufo.idx == list[k].idx && !list[k].ocpy && !bufo.ocpy && bufo.hva != 0
      modifies this`list, this`host
      ensures Valid() && |list| == |old(list)| && ret == list[k].gpa
      ensures PlacedApart(Places(old(list)[..k]), PlaceOf(list[k]), pageSize)
      ensures list == old(list)[k := bufo.(gpa := list[k].gpa)] && host == old(host)[bufo.idx := contents]
    {
      hide Consistent, Need, LowMark, HighMark, Chosen, PlacedApart;
      ghost var before := list;
      list := list[k := bufo];
      assert list[..k] == before[..k];
      var _ := MapBufObjGpa(k);
      assert list == before[k := list[k]];
      DirectKeeps(before, k, list[k], szUsed, area[..], view, host, contents, fbtm);
      host := host[bufo.idx := contents];
      ret := list[k].gpa;
    }

    /** A mapping staged in the area; the address returned is marked as such by its low bit. */
    method MapCopied(k: nat, bufo: BufObj, contents: seq<Byte>) returns (ret: nat)
      requires PageSize(pageSize) && area.Length == MGLFBT_SIZE && szUsed <= MGLFBT_SIZE
      requires Consistent(list, szUsed, area[..], view, host, fbtm)
      requires k < |list| && bufo.idx == list[k].idx && |contents| == bufo.mapsz
      requires bufo.mused == szUsed && bufo.gpa == fbtm + MGLFBT_SIZE - szUsed
      requires szUsed + AlignBo(bufo.mapsz) <= MGLFBT_SIZE
      modifies this`list, this`host, this`szUsed, this`view
      ensures Valid() && list == old(list)[k := bufo.(ocpy := true)] && host == old(host)[bufo.idx := contents]
      ensures szUsed == old(szUsed) + AlignBo(bufo.mapsz) && ret == szUsed + 1
      ensures 0 <= Lo(bufo) && Lo(bufo) + bufo.mapsz <= area.Length
      ensures view == old(view)[bufo.idx := area[Lo(bufo)..Lo(bufo) + bufo.mapsz]]
    {
      hide Consistent, AlignBo;
      CopiedKeeps(list, k, bufo.(ocpy := true), szUsed, area[..], view, host, contents, fbtm);
      view := view[bufo.idx := area[..][Lo(bufo)..Lo(bufo) + bufo.mapsz]];
      list := list[k := bufo.(ocpy := true)];
      szUsed := szUsed + AlignBo(bufo.mapsz);
      ret := szUsed + 1;
      host := host[bufo.idx := contents];
    }

    /** glMapBuffer and glMapBufferRange, through the host call that makes the mapping at hva. A copied mapping is
        filled beforehand, unless the target is a pixel unpack buffer. */
    method Map(idx: int, size: nat, ranged: bool, acc: Access, hva: nat, kvm: bool, fill: bool, contents: seq<Byte>)
      returns (ret: nat)
      requires Valid() && |contents| == size
      requires kvm ==> !fill && hva != 0 && (Find(list, idx) < |list| ==> !list[Find(list, idx)].ocpy)
      requires !kvm ==> szUsed + AlignBo(size) <= MGLFBT_SIZE
      modifies this, area
      ensures Valid()
      ensures var k := Find(list, idx);
              && k < |list| && k == Find(old(list), idx)
              && list[k].ocpy == !kvm && list[k].mapsz == size && list[k].acc == acc && list[k].hva == hva
              && list[k].offst == 0 && list[k].range == if ranged then size else 0
      ensures |list| >= |old(list)| && forall j | 0 <= j < |old(list)| && old(list)[j].idx != idx :: list[j] == old(list)[j]
      ensures kvm ==> view == old(view) && szUsed == old(szUsed) && ret == list[Find(list, idx)].gpa
      ensures kvm ==> var k := Find(list, idx); PlacedApart(Places(list[..k]), PlaceOf(list[k]), pageSize)
      ensures !kvm ==>
                && idx in view && |view[idx]| == size && (fill ==> view[idx] == contents)
                && view == old(view)[idx := view[idx]]
                && szUsed == old(szUsed) + AlignBo(size) && ret == szUsed + 1 && list[Find(list, idx)].mused == old(szUsed)
                // Where the guest's wrapper looks for a mapping, from what it gets back.
                && var at := MGLFBT_SIZE - (ret - 1); 0 <= at && at + size <= area.Length && area[at..at + size] == view[idx]
      ensures host == old(host)[idx := contents]
      ensures |list| == |old(list)| + if Find(old(list), idx) < |old(list)| then 0 else 1
    {
      hide Splice, AlignBo, Consistent, Find, PlacedApart, Places, Mirrored;
      var k := LookupBufObj(idx);
      var bufo := list[k].(offst := 0, range := if ranged then size else 0, mapsz := size, acc := acc);
      if fill {
        FillBufObj(contents);
      }
      bufo := bufo.(hva := hva, mused := szUsed, gpa := fbtm + MGLFBT_SIZE - szUsed);
      ghost var before := list;
      if kvm {
        ret := MapDirect(k, bufo, contents);
      } else {
        ret := MapCopied(k, bufo, contents);
      }
      FindUpdate(before, k, list[k]);
      assert list[..k] == before[..k];
    }

    /** The guest writes to one of its copied mappings. */
    method GuestWrite(idx: int, off: nat, bytes: seq<Byte>)
      requires Valid()
      requires var k := Find(list, idx); k < |list| && list[k].ocpy && off + |bytes| <= list[k].mapsz
      modifies area, this`view
      ensures Valid()
      ensures idx in old(view) && off + |bytes| <= |old(view)[idx]|
      ensures view == old(view)[idx := Splice(old(view)[idx], off, bytes)]
    {
      hide Splice, Consistent, Find;
      var k := Find(list, idx);
      MirrorOf(list, k, szUsed, area[..], view, host, fbtm);
      WriteKeeps(list, szUsed, area[..], view, host, fbtm, k, off, bytes);
      var at := MGLFBT_SIZE - list[k].mused - AlignBo(list[k].mapsz) + off;
      Store(at, bytes);
      view := view[idx := Splice(view[idx], off, bytes)];
    }

    /** wrFlushBufObj. */
    method WrFlushBufObj(k: nat)
      requires Consistent(list, szUsed, area[..], view, host, fbtm) && k < |list|
      requires Copies(list[k]) ==> Flushable(list[k])
      modifies this`host
      ensures Consistent(list, szUsed, area[..], view, host, fbtm)
      ensures var b := list[k];
              if Copies(b) then
                && b.idx in old(host) && b.idx in view && |old(host)[b.idx]| == |view[b.idx]| == b.mapsz
                && host == old(host)[b.idx := Flushed(b, old(host)[b.idx], view[b.idx])]
              else host == old(host)
      ensures list[k].hva == 0 || !list[k].ocpy ==> host == old(host)
    {
      hide Splice, AlignBo, Consistent;
      var bufo := list[k];
      if bufo.hva != 0 && bufo.ocpy {
        MirrorOf(list, k, szUsed, area[..], view, host, fbtm);
        var size := if bufo.range != 0 then bufo.range else bufo.mapsz - bufo.offst;
        var src := bufo.gpa - fbtm - AlignBo(bufo.mapsz) + bufo.offst;
        ViewSlice(area[..], src - bufo.offst, bufo.mapsz, bufo.offst, size);
        host := host[bufo.idx := Splice(host[bufo.idx], bufo.offst, area[src..src + size])];
        HostKeeps(list, szUsed, area[..], view, old(host), fbtm, bufo.idx, host[bufo.idx]);
      }
    }

    /** glFlushMappedBufferRange; Apple's extension makes the flushes explicit after the fact. */
    method Flush(idx: int, offst: nat, range: nat, apple: bool)
      requires Valid()
      requires var k := Find(list, idx);
               k < |list| && Copies(list[k]) ==> Flushable(list[k].(offst := offst, range := range))
      modifies this
      ensures Valid() && view == old(view) && szUsed == old(szUsed)
      ensures |list| >= |old(list)| && forall j | 0 <= j < |old(list)| && old(list)[j].idx != idx :: list[j] == old(list)[j]
      ensures Find(old(list), idx) < |old(list)| ==> list == old(list)[Find(old(list), idx) := list[Find(old(list), idx)]]
      ensures var k := Find(list, idx);
              && k < |list| && k == Find(old(list), idx) && list[k].offst == offst && list[k].range == range
              && (apple ==> list[k].acc.flushExplicit)
              && (k < |old(list)| ==> list[k] == Retagged(old(list[k]), offst, range, apple))
              && if k < |old(list)| && Copies(list[k]) then
                   && idx in old(host) && idx in view && |old(host)[idx]| == |view[idx]| == list[k].mapsz
                   && host == old(host)[idx := Flushed(list[k], old(host)[idx], view[idx])]
                 else host == old(host)
    {
      hide Splice, AlignBo, Consistent, Find, Flushable;
      var k := LookupBufObj(idx);
      ghost var before := list;
      var bufo := list[k].(offst := offst, range := range);
      RetagKeeps(list, k, bufo, szUsed, area[..], view, host, fbtm);
      list := list[k := bufo];
      WrFlushBufObj(k);
      if apple {
        var tagged := bufo.(acc := bufo.acc.(flushExplicit := true));
        RetagKeeps(list, k, tagged, szUsed, area[..], view, host, fbtm);
        list := list[k := tagged];
      }
      FindUpdate(before, k, list[k]);
      assert list == before[k := list[k]];
    }

    ghost function Now(): Snapshot
      reads this
    {
      Snapshot(list, szUsed, view, host)
    }

    /** One step, which leaves alone what it is not about. */
    method EditOne(s: Step)
      requires Valid() && Usable(list, szUsed, s)
      modifies this, area
      ensures Valid() && Stepped(s, old(Now()), Now())
    {
      hide *;
      match s
      case Write(_, _, _) => EditWrite(s);
      case FlushRange(_, _, _, _) => EditFlush(s);
      case MapBuffer(_, _, _, _, _, _, _, _) => EditMap(s);
      case UnmapBuffer(_, _) => EditUnmap(s);
    }

    method EditWrite(s: Step)
      requires Valid() && s.Write? && Usable(list, szUsed, s)
      modifies area, this`view
      ensures Valid() && Stepped(s, old(Now()), Now())
    {
      hide Consistent, Splice, Find;
      GuestWrite(s.idx, s.off, s.bytes);
    }

    method EditFlush(s: Step)
      requires Valid() && s.FlushRange? && Usable(list, szUsed, s)
      modifies this
      ensures Valid() && Stepped(s, old(Now()), Now())
    {
      hide Consistent, Splice, Find, Flushed;
      ghost var b := list[Find(list, s.idx)];
      InsideFlush(b, s.offst, s.range);
      DistinctHere(list, szUsed, area[..], view, host, fbtm);
      Flush(s.idx, s.offst, s.range, s.apple);
      if Copies(b) {
        FlushedSame(b, s.offst, s.range, s.apple, old(host)[s.idx], view[s.idx]);
      }
      OthersThere(s.idx, old(list), list);
    }

    method EditMap(s: Step)
      requires Valid() && s.MapBuffer? && Usable(list, szUsed, s)
      modifies this, area
      ensures Valid() && Stepped(s, old(Now()), Now())
    {
      hide Consistent, Splice, Find, AlignBo, PlacedApart, Places;
      DistinctHere(list, szUsed, area[..], view, host, fbtm);
      var _ := Map(s.idx, s.size, s.ranged, s.acc, s.hva, s.kvm, s.fill, s.contents);
      OthersThere(s.idx, old(list), list);
    }

    method EditUnmap(s: Step)
      requires Valid() && s.UnmapBuffer? && Usable(list, szUsed, s)
      modifies this
      ensures Valid() && Stepped(s, old(Now()), Now())
    {
      hide Consistent, Splice, Find, Flushable, Flushed, Whole, RemoveAt, AlignBo;
      DistinctHere(list, szUsed, area[..], view, host, fbtm);
      Unmap(s.idx, s.kvm);
      OthersLeft(s.idx, old(list), list);
      GoneFrom(s.idx, old(list), list);
    }

    /** Any run of writes, flushes, maps and unmaps, on any buffers and in any order, as far as the steps are usable: each
        mapping that stands all along ends up, byte by byte, and its host buffer with it, with what the steps on it make of
        them, whatever is done to the others in between. */
    method Edit(steps: seq<Step>) returns (n: nat, ghost trace: seq<Snapshot>)
      requires Valid()
      modifies this, area
      ensures Valid() && n <= |steps| && (n < |steps| ==> !Usable(list, szUsed, steps[n]))
      ensures AllStepped(steps[..n], trace) && trace[0] == old(Now()) && trace[n] == Now()
      ensures forall idx | Stands(idx, old(list), steps[..n]) ::
                Kept(idx, steps[..n], old(list), old(view), old(host), list, view, host)
    {
      hide Consistent, Find, Usable, Kept, Untouched, Done, AllStepped;
      n, trace := 0, [Now()];
      NothingStepped(Now());
      forall idx | Stands(idx, list, steps[..n])
        ensures Kept(idx, steps[..n], list, view, host, list, view, host)
      {
        assert steps[..n] == [];
        KeptStart(idx, list, szUsed, area[..], view, host, fbtm);
      }
      assert steps[..n] == [];
      while n < |steps| && Usable(list, szUsed, steps[n])
        invariant Valid() && n <= |steps|
        invariant AllStepped(steps[..n], trace) && |trace| == n + 1 && trace[0] == old(Now()) && trace[n] == Now()
        invariant forall idx | Stands(idx, old(list), steps[..n]) ::
                    Kept(idx, steps[..n], old(list), old(view), old(host), list, view, host)
      {
        ghost var (list0, view0, host0, used0) := (list, view, host, szUsed);
        EditOne(steps[n]);
        SteppedMore(steps[..n], trace, steps[n], Now());
        assert steps[..n + 1] == steps[..n] + [steps[n]];
        n, trace := n + 1, trace + [Now()];
        forall idx | Stands(idx, old(list), steps[..n])
          ensures Kept(idx, steps[..n], old(list), old(view), old(host), list, view, host)
        {
          StandsBefore(idx, old(list), steps, n - 1);
          if idx == steps[n - 1].idx {
            KeptThrough(steps[..n - 1], steps[n - 1], used0, szUsed, old(list), old(view), old(host), list0, view0, host0, list, view, host);
          } else {
            KeptBeside(idx, steps[..n - 1], steps[n - 1], old(list), old(view), old(host), list0, view0, host0, list, view, host);
          }
        }
      }
    }

    /** A copied mapping from map to unmap, with any steps in between, maps and unmaps of other buffers included: byte by
        byte the buffer ends up with what the guest has there if the unmap takes it, and otherwise with what the guest had
        when it was last flushed, or what was mapped where it never was. So with explicit flushes it is exactly what was
        flushed, and without any flush a write mapping leaves all the guest has; but once it is flushed without being
        explicit, the unmap takes no more than the range of the last flush. The steps end at the first that is not usable,
        which is none on this mapping: last and used are list and mark there. */
    method Session(idx: int, size: nat, ranged: bool, acc: Access, hva: nat, fill: bool, contents: seq<Byte>, steps: seq<Step>)
      returns (n: nat, ghost mapped: seq<Byte>, ghost last: seq<BufObj>, ghost used: nat)
      requires Valid() && |contents| == size && hva != 0 && Find(list, idx) == |list|
      requires szUsed + AlignBo(size) <= MGLFBT_SIZE
      requires forall s | s in steps && s.idx == idx :: Inside(s, size)
      modifies this, area
      ensures Valid() && |mapped| == size && (fill ==> mapped == contents)
      ensures n <= |steps| && (n < |steps| ==> steps[n].idx != idx && !Usable(last, used, steps[n]))
      ensures Find(last, idx) < |last| && list == RemoveAt(last, Find(last, idx)) && szUsed <= used
      ensures idx in host && |host[idx]| == size
      ensures forall i | 0 <= i < size ::
                host[idx][i]
                == if TakenAtUnmap(idx, acc, 0, if ranged then size else 0, size, i, steps[..n]) then
                     GuestByte(mapped[i], idx, size, i, steps[..n])
                   else HostByte(contents[i], mapped[i], idx, size, i, steps[..n])
      ensures acc.flushExplicit || !acc.write ==>
                forall i | 0 <= i < size :: host[idx][i] == HostByte(contents[i], mapped[i], idx, size, i, steps[..n])
      ensures acc.write && !acc.flushExplicit && (forall s | s in steps[..n] :: s.FlushRange? ==> s.idx != idx) ==>
                forall i | 0 <= i < size :: host[idx][i] == GuestByte(mapped[i], idx, size, i, steps[..n])
    {
      hide Consistent, Splice, Find, Usable, Marked, Flushed, AlignBo, Kept, PlacedApart, Places;
      var _ := Map(idx, size, ranged, acc, hva, false, fill, contents);
      mapped := view[idx];
      ghost var (was, view0, host0) := (list, view, host);
      ghost var trace;
      n, trace := Edit(steps);
      last, used := list, szUsed;
      StandsThrough(idx, was, size, steps, n);
      SessionKept(idx, steps[..n], was, view0, host0, list, view, host);
      if n < |steps| {
        NotStopped(idx, size, steps, n, list, szUsed);
      }
      ghost var (b, b') := (was[Find(was, idx)], list[Find(list, idx)]);
      hide FlushesAtUnmap, Copies, Whole, Follows, HostByte, GuestByte, RemoveAt, TakenAtUnmap;
      ghost var (view1, host1) := (view, host);
      Unmap(idx, false);
      SessionEnds(b, b', steps[..n], view0, host0, view1, host1, host);
      TakenWithoutFlush(idx, acc, if ranged then size else 0, size, steps[..n]);
    }

    /** What is left of an unmap once the bytes are flushed. */
    method Release(idx: int, k: nat, kvm: bool)
      requires PageSize(pageSize) && area.Length == MGLFBT_SIZE
      requires Consistent(list, szUsed, area[..], view, host, fbtm) && szUsed <= MGLFBT_SIZE
      requires k == Find(list, idx) < |list|
      requires list[k].ocpy || list[k].mapsz > 0 ==> kvm == !list[k].ocpy
      modifies this`list, this`szUsed, this`view
      ensures Valid() && view == old(view) - {idx} && list == RemoveAt(old(list), k)
      ensures szUsed == MarkLeft(old(list)[k], old(szUsed), list) <= old(szUsed)
    {
      hide Consistent, Find, RemoveAt;
      var bufo := list[k];
      if bufo.ocpy {
        PopKeeps(list, k, szUsed, area[..], view, host, fbtm);
      } else {
        DropKeeps(list, k, szUsed, area[..], view, host, fbtm);
      }
      if !kvm {
        szUsed := szUsed - if szUsed == bufo.mused + AlignBo(bufo.mapsz) then AlignBo(bufo.mapsz) else 0;
      }
      var left := FreeBufObj(idx);
      szUsed := if left != 0 then szUsed else 0;
      view := view - {idx};
      if list == [] {
        EmptyIsConsistent(area[..], view, host, fbtm);
      }
    }

    /** glUnmapBuffer, in any order: the bytes of a write mapping reach the host unless flushes were explicit, every
        other mapping keeps its own, and the mark is back at 0 when the last object goes. */
    method Unmap(idx: int, kvm: bool)
      requires Valid()
      requires var k := Find(list, idx);
               k < |list| ==>
                 && (Copies(list[k]) && FlushesAtUnmap(list[k]) ==> Flushable(list[k]))
                 && (list[k].ocpy || list[k].mapsz > 0 ==> kvm == !list[k].ocpy)
      modifies this
      ensures Valid() && view == old(view) - {idx}
      ensures var k := Find(old(list), idx);
              && list == (if k < |old(list)| then RemoveAt(old(list), k) else old(list))
              && if k < |old(list)| && Copies(old(list)[k]) && FlushesAtUnmap(old(list)[k]) then
                   var b := old(list)[k];
                   && idx in old(host) && idx in old(view) && |old(host)[idx]| == |old(view)[idx]| == b.mapsz
                   && host == old(host)[idx := Flushed(b, old(host)[idx], old(view)[idx])]
                   && (Whole(b) ==> host[idx] == old(view)[idx])
                 else host == old(host)
      ensures szUsed <= old(szUsed)
      ensures var k := Find(old(list), idx);
              szUsed == if list == [] then 0
                        else if k < |old(list)| && old(list)[k].ocpy && old(szUsed) == old(list)[k].mused + AlignBo(old(list)[k].mapsz) then
                          old(list)[k].mused
                        else old(szUsed)
    {
      hide Splice, AlignBo, Consistent, Find, Flushable, Flushed, Whole, RemoveAt;
      ghost var before := list;
      var k := LookupBufObj(idx);
      var bufo := list[k];
      if bufo.acc.write && !bufo.acc.flushExplicit {
        WrFlushBufObj(k);
        if Copies(bufo) && Whole(bufo) {
          WholeFlush(bufo, old(host)[idx], view[idx]);
        }
      }
      Release(idx, k, kvm);
    }
  }

  lemma DistinctHere(list: seq<BufObj>, used: nat, area: seq<Byte>, view: map<int, seq<Byte>>, host: map<int, seq<Byte>>, fbtm: nat)
    requires Consistent(list, used, area, view, host, fbtm)
    ensures Distinct(list)
  {
  }

  lemma SameOwners(idx: int, list: seq<BufObj>, list': seq<BufObj>)
    requires |list| <= |list'| && forall j | 0 <= j < |list| && list[j].idx != idx :: list'[j] == list[j]
    requires Distinct(list) && Find(list, idx) == Find(list', idx)
    ensures forall j | 0 <= j < |list| :: list'[j].idx == list[j].idx
  {
    forall j | 0 <= j < |list| && list[j].idx == idx
      ensures list'[j].idx == idx
    {
      FindOf(list, idx, j);
    }
  }

  lemma OthersThere(idx: int, list: seq<BufObj>, list': seq<BufObj>)
    requires |list| <= |list'| && forall j | 0 <= j < |list| && list[j].idx != idx :: list'[j] == list[j]
    requires Distinct(list) && Find(list, idx) == Find(list', idx)
    ensures forall i | i != idx && Find(list, i) < |list| :: Find(list', i) < |list'| && list'[Find(list', i)] == list[Find(list, i)]
  {
    hide Find, Distinct;
    SameOwners(idx, list, list');
    forall i | i != idx && Find(list, i) < |list|
      ensures Find(list', i) < |list'| && list'[Find(list', i)] == list[Find(list, i)]
    {
      FindSame(list, list', i);
    }
  }

  lemma OthersLeft(idx: int, list: seq<BufObj>, list': seq<BufObj>)
    requires var k := Find(list, idx); list' == if k < |list| then RemoveAt(list, k) else list
    ensures forall i | i != idx && Find(list, i) < |list| :: Find(list', i) < |list'| && list'[Find(list', i)] == list[Find(list, i)]
  {
    hide RemoveAt;
    if Find(list, idx) < |list| {
      forall i | i != idx && Find(list, i) < |list|
        ensures Find(list', i) < |list'| && list'[Find(list', i)] == list[Find(list, i)]
      {
        FindRemoved(list, Find(list, idx), i);
      }
    }
  }

  lemma NothingStepped(x: Snapshot)
    ensures AllStepped([], [x])
  {
  }

  lemma GoneFrom(idx: int, list: seq<BufObj>, list': seq<BufObj>)
    requires var k := Find(list, idx); list' == if k < |list| then RemoveAt(list, k) else list
    requires Distinct(list)
    ensures Find(list', idx) == |list'|
  {
    var k := Find(list, idx);
    if k < |list| {
      forall j | 0 <= j < |list'|
        ensures list'[j].idx != idx
      {
        assert list'[j] == list[if j < k then j else j + 1];
      }
    }
  }

  lemma StandsBefore(idx: int, list: seq<BufObj>, steps: seq<Step>, n: nat)
    requires n < |steps| && Stands(idx, list, steps[..n + 1])
    ensures steps[..n + 1] == steps[..n] + [steps[n]] && Stands(idx, list, steps[..n])
    ensures idx == steps[n].idx ==> OfBytes(steps[n])
  {
    assert forall s | s in steps[..n] :: s in steps[..n + 1];
    assert steps[..n + 1][n] == steps[n];
  }

  lemma StandsThrough(idx: int, list: seq<BufObj>, size: nat, steps: seq<Step>, n: nat)
    requires n <= |steps| && Find(list, idx) < |list| && forall s | s in steps && s.idx == idx :: Inside(s, size)
    ensures Stands(idx, list, steps[..n])
  {
    assert forall s | s in steps[..n] :: s in steps;
  }

  /** What the unmap of a session finds. */
  lemma SessionKept(idx: int, steps: seq<Step>, list: seq<BufObj>, view: map<int, seq<Byte>>, host: map<int, seq<Byte>>,
                    list': seq<BufObj>, view': map<int, seq<Byte>>, host': map<int, seq<Byte>>)
    requires Kept(idx, steps, list, view, host, list', view', host')
    requires Whole(list[Find(list, idx)]) && Copies(list[Find(list, idx)])
    ensures Find(list', idx) < |list'|
    ensures var (b, b') := (list[Find(list, idx)], list'[Find(list', idx)]);
            && b.idx == b'.idx == idx && Marked(b, b', steps) && Follows(b, steps, view, host, view', host')
            && Flushable(b') && b'.ocpy && b'.mapsz == b.mapsz && Copies(b')
  {
    hide Follows, LastRange, MadeExplicit;
    WholeIsFlushable(list[Find(list, idx)]);
  }

  /** No step on the mapping of a session stops it. */
  lemma NotStopped(idx: int, size: nat, steps: seq<Step>, n: nat, list: seq<BufObj>, used: nat)
    requires n < |steps| && !Usable(list, used, steps[n]) && forall s | s in steps && s.idx == idx :: Inside(s, size)
    requires var k := Find(list, idx); k < |list| && Copies(list[k]) && list[k].mapsz == size
    ensures steps[n].idx != idx
  {
    hide Find;
    assert steps[n] in steps;
  }

  lemma SessionEnds(b: BufObj, b': BufObj, steps: seq<Step>, view: map<int, seq<Byte>>, host: map<int, seq<Byte>>,
                    view': map<int, seq<Byte>>, host': map<int, seq<Byte>>, host'': map<int, seq<Byte>>)
    requires Marked(b, b', steps) && Follows(b, steps, view, host, view', host') && Copies(b) && Flushable(b')
    requires if Copies(b') && FlushesAtUnmap(b') then
               && b.idx in host' && b.idx in view' && |host'[b.idx]| == |view'[b.idx]| == b'.mapsz
               && host'' == host'[b.idx := Flushed(b', host'[b.idx], view'[b.idx])]
             else host'' == host'
    ensures b.idx in host'' && |host''[b.idx]| == b.mapsz
    ensures forall i | 0 <= i < b.mapsz ::
              host''[b.idx][i]
              == if TakenAtUnmap(b.idx, b.acc, b.offst, b.range, b.mapsz, i, steps) then
                   GuestByte(view[b.idx][i], b.idx, b.mapsz, i, steps)
                 else HostByte(host[b.idx][i], view[b.idx][i], b.idx, b.mapsz, i, steps)
  {
    hide Splice, HostByte, GuestByte, Whole, Flushed, LastRange, MadeExplicit;
    FollowsIn(b, steps, view, host, view', host');
    forall i | 0 <= i < b.mapsz
      ensures host''[b.idx][i]
              == if TakenAtUnmap(b.idx, b.acc, b.offst, b.range, b.mapsz, i, steps) then view'[b.idx][i] else host'[b.idx][i]
    {
      if Copies(b') && FlushesAtUnmap(b') {
        FlushedAt(b', host'[b.idx], view'[b.idx], i);
      }
    }
  }

  /** Without any flush an unmap takes all of a write mapping whose flushes are not explicit; with explicit flushes none. */
  lemma TakenWithoutFlush(idx: int, acc: Access, range: nat, size: nat, steps: seq<Step>)
    requires range in {0, size}
    ensures acc.flushExplicit || !acc.write ==> forall i | 0 <= i < size :: !TakenAtUnmap(idx, acc, 0, range, size, i, steps)
    ensures acc.write && !acc.flushExplicit && (forall s | s in steps :: s.FlushRange? ==> s.idx != idx) ==>
              forall i | 0 <= i < size :: TakenAtUnmap(idx, acc, 0, range, size, i, steps)
  {
    if forall s | s in steps :: s.FlushRange? ==> s.idx != idx {
      NoFlushNoRange(idx, 0, range, steps);
    }
  }

  lemma WholeIsFlushable(b: BufObj)
    requires Whole(b)
    ensures Flushable(b)
  {
  }

  lemma InsideFlush(b: BufObj, offst: nat, range: nat)
    requires offst <= b.mapsz && offst + range <= b.mapsz
    ensures Flushable(b.(offst := offst, range := range))
  {
  }

  lemma FlushedSame(b: BufObj, offst: nat, range: nat, apple: bool, host: seq<Byte>, view: seq<Byte>)
    requires |host| == |view| == b.mapsz && Flushable(b.(offst := offst, range := range))
    ensures Flushed(Retagged(b, offst, range, apple), host, view) == Flushed(b.(offst := offst, range := range), host, view)
  {
    hide Splice;
  }

  /** Two bytes written, the first flushed, and the flag for explicit flushes not set: the second never reaches the host. */
  method LostByte(fbtm: nat, pageSize: nat, hva: nat, written: seq<Byte>, contents: seq<Byte>) returns (m: MappedBuffers)
    requires PageSize(pageSize) && hva != 0 && |written| == |contents| == 2
    ensures fresh(m) && 1 in m.host && m.host[1] == [written[0], contents[1]]
  {
    m := new MappedBuffers(fbtm, pageSize);
    var write, flush := Write(1, 0, written), FlushRange(1, 0, 1, false);
    LostByteSteps(contents, contents, written);
    hide HostByte, GuestByte, TakenAtUnmap;
    ghost var mapped;
    var n;
    ghost var last, used;
    n, mapped, last, used := m.Session(1, 2, true, Access(true, false), hva, true, contents, [write, flush]);
    assert [write, flush][..2] == [write, flush];
    LostByteSteps(mapped, contents, written);
    assert m.host[1][0] == written[0] && m.host[1][1] == contents[1];
  }

  /** Two buffers of 16 bytes mapped, the second one given back: the third is where the second was. */
  method TopIsReused(fbtm: nat, pageSize: nat, hva: nat, contents: seq<Byte>) returns (m: MappedBuffers, second: nat, third: nat)
    requires PageSize(pageSize) && hva != 0 && |contents| == 16
    ensures fresh(m) && second == third == 33
  {
    hide Find, Consistent, Places, PlacedApart;
    m := new MappedBuffers(fbtm, pageSize);
    OneFound(m.list);
    var write := Access(true, false);
    var first := m.Map(1, 16, true, write, hva, false, true, contents);
    second := m.Map(2, 16, true, write, hva, false, true, contents);
    m.Unmap(2, false);
    third := m.Map(3, 16, true, write, hva, false, true, contents);
  }

  lemma OneFound(list: seq<BufObj>)
    ensures list == [] ==> forall idx :: Find(list, idx) == 0
  {
  }

  lemma LostByteSteps(v: seq<Byte>, h: seq<Byte>, written: seq<Byte>)
    requires |v| == |h| == |written| == 2
    ensures var steps := [Write(1, 0, written), FlushRange(1, 0, 1, false)];
            && (forall s | s in steps :: s.idx == 1 && Inside(s, 2))
            && TakenAtUnmap(1, Access(true, false), 0, 2, 2, 0, steps) && !TakenAtUnmap(1, Access(true, false), 0, 2, 2, 1, steps)
            && GuestByte(v[0], 1, 2, 0, steps) == written[0] && HostByte(h[1], v[1], 1, 2, 1, steps) == h[1]
  {
    var write, flush := Write(1, 0, written), FlushRange(1, 0, 1, false);
    var steps := [write, flush];
    assert steps == [write] + [flush] && [write] == [] + [write] && steps[..1] == [write];
    assert LastRange(1, 0, 2, steps) == (0, 1);
    OneByte(v[0], h[0], 1, 2, 0, [write], flush);
    OneByte(v[0], h[0], 1, 2, 0, [], write);
    OneByte(v[1], h[1], 1, 2, 1, [write], flush);
    OneByte(v[1], h[1], 1, 2, 1, [], write);
  }

  lemma EmptyIsConsistent(area: seq<Byte>, view: map<int, seq<Byte>>, host: map<int, seq<Byte>>, fbtm: nat)
    requires |area| == MGLFBT_SIZE
    ensures Consistent([], 0, area, view, host, fbtm)
  {
  }

  /** What consistency says of one copied mapping. */
  lemma MirrorOf(list: seq<BufObj>, k: nat, used: nat, area: seq<Byte>, view: map<int, seq<Byte>>,
                 host: map<int, seq<Byte>>, fbtm: nat)
    requires Consistent(list, used, area, view, host, fbtm) && k < |list| && list[k].ocpy
    ensures Mirrored(list[k], area, view, fbtm)
    ensures list[k].idx in host && |host[list[k].idx]| == list[k].mapsz
  {
    hide Mirrored;
  }

  lemma ViewSlice(area: seq<Byte>, lo: nat, n: nat, off: nat, len: nat)
    requires lo + n <= |area| && off + len <= n
    ensures area[lo + off..lo + off + len] == area[lo..lo + n][off..off + len]
  {
    var a, b := area[lo + off..lo + off + len], area[lo..lo + n][off..off + len];
    assert forall i | 0 <= i < len :: a[i] == b[i];
  }

  lemma HostKeeps(list: seq<BufObj>, used: nat, area: seq<Byte>, view: map<int, seq<Byte>>,
                  host: map<int, seq<Byte>>, fbtm: nat, idx: int, bytes: seq<Byte>)
    requires Consistent(list, used, area, view, host, fbtm) && idx in host && |bytes| == |host[idx]|
    ensures Consistent(list, used, area, view, host[idx := bytes], fbtm)
  {
    hide AllMirrored, AllSeparate;
  }

  /** Flush ranges and flags play no part in where a mapping lies. */
  lemma RetagKeeps(list: seq<BufObj>, k: nat, b: BufObj, used: nat, area: seq<Byte>, view: map<int, seq<Byte>>,
                   host: map<int, seq<Byte>>, fbtm: nat)
    requires k < |list| && Consistent(list, used, area, view, host, fbtm)
    requires b == list[k].(offst := b.offst, range := b.range, acc := b.acc) && b.acc.write == list[k].acc.write
    ensures Consistent(list[k := b], used, area, view, host, fbtm)
  {
    var list' := list[k := b];
    forall i | 0 <= i < |list'| && list'[i].ocpy
      ensures Mirrored(list'[i], area, view, fbtm) && Below(list'[i], used)
    {
      assert list[i].ocpy && Lo(list'[i]) == Lo(list[i]);
    }
    forall p, q | 0 <= p < q < |list'| && list'[p].ocpy && list'[q].ocpy
      ensures Separate(list'[p], list'[q])
    {
      assert Separate(list[p], list[q]);
    }
  }

  lemma FindUpdate(list: seq<BufObj>, k: nat, b: BufObj)
    requires k < |list| && b.idx == list[k].idx && k == Find(list, b.idx)
    ensures Find(list[k := b], b.idx) == k
  {
    assert list[k := b][k] == b;
  }

  lemma DirectKeeps(list: seq<BufObj>, k: nat, b: BufObj, used: nat, area: seq<Byte>, view: map<int, seq<Byte>>,
                    host: map<int, seq<Byte>>, contents: seq<Byte>, fbtm: nat)
    requires k < |list| && b.idx == list[k].idx && !list[k].ocpy && !b.ocpy && b.hva != 0
    requires Consistent(list, used, area, view, host, fbtm)
    ensures Consistent(list[k := b], used, area, view, host[b.idx := contents], fbtm)
  {
    hide Mirrored, Separate, Below;
  }

  /** A new copied mapping takes the bytes right behind everything in use. */
  lemma CopiedKeeps(list: seq<BufObj>, k: nat, b: BufObj, used: nat, area: seq<Byte>, view: map<int, seq<Byte>>,
                    host: map<int, seq<Byte>>, contents: seq<Byte>, fbtm: nat)
    requires k < |list| && b.idx == list[k].idx
    requires b.ocpy && b.mused == used && b.gpa == fbtm + MGLFBT_SIZE - used && used + AlignBo(b.mapsz) <= MGLFBT_SIZE
    requires |contents| == b.mapsz && Consistent(list, used, area, view, host, fbtm)
    ensures 0 <= Lo(b) && Lo(b) + b.mapsz <= |area|
    ensures Consistent(list[k := b], used + AlignBo(b.mapsz), area, view[b.idx := area[Lo(b)..Lo(b) + b.mapsz]],
                       host[b.idx := contents], fbtm)
  {
    var list', view' := list[k := b], view[b.idx := area[Lo(b)..Lo(b) + b.mapsz]];
    forall i | 0 <= i < |list'| && list'[i].ocpy
      ensures Mirrored(list'[i], area, view', fbtm) && Below(list'[i], used + AlignBo(b.mapsz))
    {
      if i != k {
        assert list'[i] == list[i] && list[i].idx != b.idx;
      }
    }
  }
}
