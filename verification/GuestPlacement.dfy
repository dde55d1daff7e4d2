/** Pages, and where a mapped buffer goes in the guest's buffer aperture so that its page window does not run
    into those of the buffers mapped before it. The host page size is a parameter throughout. */
module GuestPlacement {
  import opened DivMod

  const MBUFO_SIZE := 0x08000000

  /** A host page size the aperture is made of. */
  predicate PageSize(P: nat) {
    P >= 2 && MBUFO_SIZE % P == 0
  }

  function PageDown(x: nat, P: nat): (y: nat)
    requires P > 0
    ensures y <= x < y + P
  {
    x - x % P
  }

  function PageUp(x: nat, P: nat): (y: nat)
    requires P > 0
    ensures x <= y < x + P
  {
    if x % P == 0 then x else x - x % P + P
  }

  function AlignBo(x: nat): (y: nat)
    ensures x <= y < x + 16 && y % 16 == 0
  {
    if x % 16 != 0 then (x / 16 + 1) * 16 else x
  }

  // Multiples of the page size.

  lemma MultipleGap(a: nat, b: nat, P: nat)
    requires P > 0 && a % P == 0 && b % P == 0
    ensures a < b ==> a + P <= b
  {
    var i, j := a / P, b / P;
    assert a == P * i && b == P * j;
    MulMonotone(P, j, i);
    MulMonotone(P, i + 1, j);
  }

  lemma MultipleSum(a: nat, b: nat, P: nat)
    requires P > 0 && a % P == 0
    ensures (a + b) % P == b % P
  {
    var i, j, r := a / P, b / P, b % P;
    assert a == P * i && b == P * j + r;
    assert a + b == P * (i + j) + r;
    QuotientUnique(a + b, i + j, r, P);
  }

  lemma DownIsMultiple(x: nat, P: nat)
    requires P > 0
    ensures PageDown(x, P) % P == 0
  {
    var q := x / P;
    assert x == P * q + x % P;
    QuotientUnique(PageDown(x, P), q, 0, P);
  }

  lemma UpIsMultiple(x: nat, P: nat)
    requires P > 0
    ensures PageUp(x, P) % P == 0
  {
    DownIsMultiple(x, P);
    MultipleSum(PageDown(x, P), P, P);
    QuotientUnique(P, 1, 0, P);
  }

  /** PageDown is the largest multiple that is not larger, PageUp the least that is not smaller. */
  lemma PageBounds(a: nat, x: nat, P: nat)
    requires P > 0 && a % P == 0
    ensures a <= x ==> a <= PageDown(x, P)
    ensures x <= a ==> PageUp(x, P) <= a
  {
    hide PageDown, PageUp;
    DownIsMultiple(x, P);
    UpIsMultiple(x, P);
    MultipleGap(PageDown(x, P), a, P);
    MultipleGap(a, PageUp(x, P), P);
  }

  // Windows.

  /** What a mapping needs to be told apart: its size, the host address and the guest address it was given. */
  datatype Place = Place(mapsz: nat, hva: nat, gpa: nat)

  function Size(o: Place, P: nat): nat
    requires P > 0
  {
    o.mapsz + o.hva % P
  }

  /** The pages KVM maps for it, as a half-open range. */
  function WindowLo(o: Place, P: nat): nat
    requires P > 0
  {
    PageDown(o.gpa, P)
  }

  function WindowHi(o: Place, P: nat): nat
    requires P > 0
  {
    WindowLo(o, P) + PageUp(Size(o, P), P)
  }

  predicate Apart(a: Place, b: Place, P: nat)
    requires P > 0
  {
    WindowHi(a, P) <= WindowLo(b, P) || WindowHi(b, P) <= WindowLo(a, P)
  }

  /** Where the scan takes the end of an earlier object to be. */
  function Mark(o: Place, P: nat): nat
    requires P > 0
  {
    PageDown(o.gpa + Size(o, P), P)
  }

  /** The object's window reaches past its mark: what is left of the last page does not fill it. */
  predicate Spills(o: Place, P: nat)
    requires P > 0
  {
    Size(o, P) % P != 0 && o.gpa % P + Size(o, P) % P < P
  }

  lemma SpillsByOnePage(o: Place, P: nat)
    requires P > 0
    ensures WindowHi(o, P) == Mark(o, P) + if Spills(o, P) then P else 0
    ensures WindowLo(o, P) <= Mark(o, P) && Mark(o, P) % P == 0
  {
    var size, g := Size(o, P), o.gpa % P;
    var lo, whole, rest := o.gpa - g, size - size % P, size % P;
    DownIsMultiple(o.gpa, P);
    DownIsMultiple(size, P);
    DownIsMultiple(o.gpa + size, P);
    MultipleSum(lo, whole, P);
    var base := lo + whole;
    assert o.gpa + size == base + (g + rest);
    MultipleSum(base, g + rest, P);
    if g + rest < P {
      QuotientUnique(g + rest, 0, g + rest, P);
    } else {
      QuotientUnique(g + rest, 1, g + rest - P, P);
    }
  }

  /** The pages KVM maps hold the buffer, and none of them is there for nothing, if its guest address has the offset in its
      page that the host address has. */
  lemma WindowHolds(o: Place, P: nat)
    requires P > 0 && o.mapsz > 0 && o.gpa % P == o.hva % P
    ensures WindowLo(o, P) <= o.gpa < WindowLo(o, P) + P
    ensures WindowHi(o, P) - P < o.gpa + o.mapsz <= WindowHi(o, P)
  {
  }

  function LowMark(earlier: seq<Place>, P: nat): nat
    requires P > 0
  {
    if earlier == [] then MBUFO_SIZE - 1
    else
      var n := |earlier| - 1;
      var lo := LowMark(earlier[..n], P);
      if PageDown(earlier[n].gpa, P) < lo then PageDown(earlier[n].gpa, P) else lo
  }

  function HighMark(earlier: seq<Place>, P: nat): nat
    requires P > 0
  {
    if earlier == [] then 0
    else
      var n := |earlier| - 1;
      var hi := HighMark(earlier[..n], P);
      if Mark(earlier[n], P) > hi then Mark(earlier[n], P) else hi
  }

  /** What the scan leaves to fit: the aligned size, and the offset of the host address in its page. */
  function Need(mapsz: nat, hva: nat, P: nat): nat
    requires P > 0
  {
    AlignBo(mapsz) + hva % P
  }

  /** The address for an object with need bytes, given the bounds of the objects before it. */
  function Chosen(want: nat, need: nat, lo: nat, hi: nat): nat {
    if want + need < lo || want >= hi then want
    else if lo > need then lo - need
    else if hi + need < MBUFO_SIZE then hi
    else 0
  }

  lemma ChosenFrom(want: nat, need: nat, lo: nat, hi: nat, gpa: nat)
    requires want + need < lo || want >= hi ==> gpa == want
    requires lo <= want + need && want < hi ==>
               && (need < lo ==> gpa + need == lo)
               && (lo <= need && hi + need < MBUFO_SIZE ==> gpa == hi)
               && (lo <= need && hi + need >= MBUFO_SIZE ==> gpa == 0)
    ensures gpa == Chosen(want, need, lo, hi)
  {
  }

  lemma {:induction false} LowMarkBounds(earlier: seq<Place>, P: nat, k: nat)
    requires PageSize(P) && k < |earlier|
    ensures LowMark(earlier, P) <= WindowLo(earlier[k], P)
            || (LowMark(earlier, P) == MBUFO_SIZE - 1 && MBUFO_SIZE <= WindowLo(earlier[k], P))
  {
    var n := |earlier| - 1;
    LowMarkCeiling(earlier[..n], P);
    if k < n {
      LowMarkBounds(earlier[..n], P, k);
    }
  }

  lemma {:induction false} LowMarkCeiling(earlier: seq<Place>, P: nat)
    requires PageSize(P)
    ensures LowMark(earlier, P) <= MBUFO_SIZE - 1
    ensures LowMark(earlier, P) % P == 0 || LowMark(earlier, P) == MBUFO_SIZE - 1
  {
    if earlier != [] {
      var n := |earlier| - 1;
      LowMarkCeiling(earlier[..n], P);
      DownIsMultiple(earlier[n].gpa, P);
    }
  }

  /** The marks are reached: the low one by a window, unless it is where the scan begins, the high one by an end. */
  lemma {:induction false} MarksReached(earlier: seq<Place>, P: nat)
    requires P > 0
    ensures LowMark(earlier, P) == MBUFO_SIZE - 1 || exists k | 0 <= k < |earlier| :: LowMark(earlier, P) == WindowLo(earlier[k], P)
    ensures if earlier == [] then HighMark(earlier, P) == 0 else
              HighMark(earlier, P) == 0 || exists k | 0 <= k < |earlier| :: HighMark(earlier, P) == Mark(earlier[k], P)
  {
    hide PageDown, Mark;
    if earlier != [] {
      var n := |earlier| - 1;
      MarksReached(earlier[..n], P);
      assert forall k | 0 <= k < n :: earlier[..n][k] == earlier[k];
    }
  }

  lemma {:induction false} HighMarkBounds(earlier: seq<Place>, P: nat, k: nat)
    requires P > 0 && k < |earlier|
    ensures Mark(earlier[k], P) <= HighMark(earlier, P)
  {
    var n := |earlier| - 1;
    if k < n {
      HighMarkBounds(earlier[..n], P, k);
    }
  }

  lemma {:induction false} HighMarkIsPage(earlier: seq<Place>, P: nat)
    requires P > 0
    ensures HighMark(earlier, P) % P == 0
  {
    if earlier != [] {
      var n := |earlier| - 1;
      HighMarkIsPage(earlier[..n], P);
      DownIsMultiple(earlier[n].gpa + Size(earlier[n], P), P);
    }
  }

  /** Placed below everything before it, moved there or not, an object is apart from all of it. */
  lemma BelowIsApart(earlier: seq<Place>, o: Place, P: nat, k: nat)
    requires PageSize(P) && k < |earlier|
    requires o.gpa + Need(o.mapsz, o.hva, P) <= LowMark(earlier, P)
    ensures Apart(earlier[k], o, P)
  {
    hide LowMark, Need, PageDown, PageUp;
    DownIsMultiple(earlier[k].gpa, P);
    var lo := LowMark(earlier, P);
    LowMarkBounds(earlier, P, k);
    LowMarkCeiling(earlier, P);
    // The next page boundary at or above the mark.
    var edge := if lo % P == 0 then lo else MBUFO_SIZE;
    assert edge % P == 0 && lo <= edge <= WindowLo(earlier[k], P);
    EndBelow(o, P, lo, edge);
  }

  lemma EndBelow(o: Place, P: nat, lo: nat, edge: nat)
    requires P > 0 && edge % P == 0 && lo <= edge
    requires o.gpa + Need(o.mapsz, o.hva, P) <= lo
    ensures WindowHi(o, P) <= edge
  {
    hide AlignBo;
    DownIsMultiple(o.gpa, P);
    var room := edge - WindowLo(o, P);
    assert Size(o, P) <= room;
    MultipleDifference(edge, WindowLo(o, P), P);
    PageBounds(room, Size(o, P), P);
  }

  lemma MultipleDifference(a: nat, b: nat, P: nat)
    requires P > 0 && b <= a && a % P == 0 && b % P == 0
    ensures (a - b) % P == 0
  {
    MultipleSum(b, a - b, P);
  }

  /** Placed at or above the high mark, an object is apart from an earlier one exactly unless that one spills over
      the very page the object starts in. */
  lemma AboveIsApart(earlier: seq<Place>, o: Place, P: nat, k: nat)
    requires P > 0 && k < |earlier|
    requires o.gpa >= HighMark(earlier, P) && Size(o, P) > 0
    ensures Apart(earlier[k], o, P) <==> !(Spills(earlier[k], P) && WindowLo(o, P) == Mark(earlier[k], P))
  {
    hide Spills, Size, Mark;
    HighMarkBounds(earlier, P, k);
    HighMarkIsPage(earlier, P);
    PageBounds(HighMark(earlier, P), o.gpa, P);
    SpillsByOnePage(earlier[k], P);
    DownIsMultiple(o.gpa, P);
    MultipleGap(Mark(earlier[k], P), WindowLo(o, P), P);
  }

  /** There is room somewhere: as wanted, below everything before it, or behind it. */
  predicate Fits(want: nat, need: nat, lo: nat, hi: nat) {
    want + need < lo || want >= hi || lo > need || hi + need < MBUFO_SIZE
  }

  /** What has to be true of an earlier object for the address the code chooses to be clear of it: nothing when that lies
      below the low mark, and otherwise that the object does not spill into the page the address is in. */
  predicate Clear(want: nat, need: nat, lo: nat, hi: nat, e: Place, P: nat)
    requires P > 0
  {
    if want + need < lo then true
    else if want >= hi then !(Spills(e, P) && Mark(e, P) == PageDown(want, P))
    else if lo > need then true
    else !(Spills(e, P) && Mark(e, P) == hi)
  }

  /** An object that gets an address is apart from an earlier one exactly if that one is clear of it. */
  lemma ChosenIsApart(earlier: seq<Place>, o: Place, P: nat, k: nat)
    requires PageSize(P) && k < |earlier| && Size(o, P) > 0
    requires var (want, need) := (o.hva % MBUFO_SIZE, Need(o.mapsz, o.hva, P));
             var (lo, hi) := (LowMark(earlier, P), HighMark(earlier, P));
             Fits(want, need, lo, hi) && o.gpa == Chosen(want, need, lo, hi)
    ensures Apart(earlier[k], o, P)
            <==> Clear(o.hva % MBUFO_SIZE, Need(o.mapsz, o.hva, P), LowMark(earlier, P), HighMark(earlier, P), earlier[k], P)
  {
    hide LowMark, HighMark, Need, Apart, Spills, Mark, Size, PageDown;
    var want, need, lo, hi := o.hva % MBUFO_SIZE, Need(o.mapsz, o.hva, P), LowMark(earlier, P), HighMark(earlier, P);
    if want + need < lo || (want < hi && lo > need) {
      BelowIsApart(earlier, o, P, k);
    } else {
      AboveIsApart(earlier, o, P, k);
      HighMarkIsPage(earlier, P);
      PageBounds(hi, hi, P);
    }
  }

  /** The object's window against those of all the objects it was placed after. */
  ghost predicate PlacedApart(earlier: seq<Place>, o: Place, P: nat)
    requires P > 0
  {
    var (want, need) := (o.hva % MBUFO_SIZE, Need(o.mapsz, o.hva, P));
    var (lo, hi) := (LowMark(earlier, P), HighMark(earlier, P));
    Fits(want, need, lo, hi) && Size(o, P) > 0 ==>
      forall k | 0 <= k < |earlier| :: Apart(earlier[k], o, P) <==> Clear(want, need, lo, hi, earlier[k], P)
  }

  lemma ChosenIsPlacedApart(earlier: seq<Place>, o: Place, P: nat)
    requires PageSize(P)
    requires o.gpa == Chosen(o.hva % MBUFO_SIZE, Need(o.mapsz, o.hva, P), LowMark(earlier, P), HighMark(earlier, P))
    ensures PlacedApart(earlier, o, P)
  {
    hide Fits, Clear, Apart, Need, LowMark, HighMark, Size;
    var (want, need, lo, hi) := (o.hva % MBUFO_SIZE, Need(o.mapsz, o.hva, P), LowMark(earlier, P), HighMark(earlier, P));
    if Fits(want, need, lo, hi) && Size(o, P) > 0 {
      forall k | 0 <= k < |earlier|
        ensures Apart(earlier[k], o, P) <==> Clear(want, need, lo, hi, earlier[k], P)
      {
        ChosenIsApart(earlier, o, P, k);
      }
    }
  }

  /** Whole pages never spill. */
  lemma WholePagesFit(o: Place, P: nat)
    requires P > 0 && Size(o, P) % P == 0
    ensures !Spills(o, P)
  {
  }

  lemma MarksOfOne(o: Place, P: nat)
    requires PageSize(P)
    ensures HighMark([o], P) == Mark(o, P)
  {
    hide Mark;
    assert [o][..0] == [];
  }

  lemma SmallMod(base: nat, r: nat, P: nat)
    requires P > 0 && base % P == 0 && r < P
    ensures (base + r) % P == r && PageDown(base + r, P) == base
  {
    MultipleSum(base, r, P);
    QuotientUnique(r, 0, r, P);
  }

  lemma SmallBufferSpills(a: Place, base: nat, r: nat, P: nat)
    requires P > 0 && base % P == 0 && a.gpa == base + r && a.hva % P == r
    requires 0 < a.mapsz && 2 * r + a.mapsz < P
    ensures Spills(a, P) && Mark(a, P) == base
  {
    hide PageDown;
    SmallMod(base, r, P);
    SmallMod(0, a.mapsz + r, P);
    SmallMod(base, r + a.mapsz + r, P);
    assert a.gpa + Size(a, P) == base + (r + a.mapsz + r);
  }

  /** A host address in the page at base comes to the guest page of that page, at the same offset. */
  lemma SameOffset(base: nat, r: nat, P: nat)
    requires PageSize(P) && base % P == 0 && r < P
    ensures (base % MBUFO_SIZE) % P == 0 && (base + r) % MBUFO_SIZE == base % MBUFO_SIZE + r
  {
    var q, g := base / MBUFO_SIZE, base % MBUFO_SIZE;
    assert base == MBUFO_SIZE * q + g;
    MultipleOf(q, P);
    MultipleSum(MBUFO_SIZE * q, g, P);
    MultipleGap(g, MBUFO_SIZE, P);
    QuotientUnique(base + r, q, g + r, MBUFO_SIZE);
  }

  lemma MultipleOf(q: nat, P: nat)
    requires PageSize(P)
    ensures (MBUFO_SIZE * q) % P == 0
  {
    var k := MBUFO_SIZE / P;
    assert MBUFO_SIZE == P * k;
    Product(P, k, q);
    QuotientUnique(MBUFO_SIZE * q, k * q, 0, P);
  }

  lemma Product(P: nat, k: nat, q: nat)
    ensures (P * k) * q == P * (k * q)
  {
  }

  lemma SmallSharePage(a: Place, b: Place, g: nat, r: nat, t: nat, P: nat)
    requires PageSize(P) && g % P == 0 && r < P && t < P
    requires a.gpa == g + r && a.hva % P == r && 0 < a.mapsz && 2 * r + a.mapsz < P && 0 < b.mapsz
    requires b.gpa == Chosen(g + t, Need(b.mapsz, b.hva, P), LowMark([a], P), HighMark([a], P))
    ensures b.gpa == g + t && !Apart(a, b, P)
  {
    hide AlignBo, LowMark, HighMark, Need, Apart, PageDown, PageUp, Spills, Mark, PageSize;
    SmallBufferSpills(a, g, r, P);
    SmallMod(g, t, P);
    MarksOfOne(a, P);
    AboveIsApart([a], b, P, 0);
  }

  /** Two small buffers in one host page, at base: the scan rounds the end of the first down to that page, the second
      wants an address in it, and is given it. */
  lemma SmallBuffersShareAPage(a: Place, b: Place, base: nat, P: nat)
    requires PageSize(P) && base % P == 0
    requires base <= a.hva < base + P && base <= b.hva < base + P && a.gpa == a.hva % MBUFO_SIZE
    requires 0 < a.mapsz && 2 * (a.hva - base) + a.mapsz < P && 0 < b.mapsz
    requires b.gpa == Chosen(b.hva % MBUFO_SIZE, Need(b.mapsz, b.hva, P), LowMark([a], P), HighMark([a], P))
    ensures b.gpa == b.hva % MBUFO_SIZE && !Apart(a, b, P)
  {
    hide AlignBo, LowMark, HighMark, Need, Apart, PageDown, PageUp, Spills, Mark, PageSize;
    var g, r, t := base % MBUFO_SIZE, a.hva - base, b.hva - base;
    SameOffset(base, r, P);
    SameOffset(base, t, P);
    SmallMod(base, r, P);
    SmallSharePage(a, b, g, r, t, P);
  }
}
