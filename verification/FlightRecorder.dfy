/** The flight recorder: a ring of events that is never waited for, and flushes that append what is new to a file. */
module FlightRecorder {
  import opened DivMod

  datatype Event = Event(ticks: nat, kind: nat, id: nat, value: nat)

  /** One chunk of the file: its header's index and loss count, and the events behind it. */
  datatype Chunk = Chunk(firstIndex: nat, lost: nat, events: seq<Event>)

  // The capacity is a power of two, so that masking takes the place of a remainder.

  function Pow2(k: nat): (p: nat)
    ensures p > 0
  {
    if k == 0 then 1 else 2 * Pow2(k - 1)
  }

  /** Bitwise and. */
  function And(x: nat, y: nat): nat {
    if x == 0 || y == 0 then 0 else 2 * And(x / 2, y / 2) + x % 2 * (y % 2)
  }

  lemma HalvedRemainder(x: nat, n: nat)
    requires n > 0
    ensures x % (2 * n) == 2 * (x / 2 % n) + x % 2
  {
    var h, b := x / 2, x % 2;
    var q, r := h / n, h % n;
    assert h == n * q + r;
    assert n * q * 2 == 2 * n * q;
    QuotientUnique(x, q, 2 * r + b, 2 * n);
  }

  lemma {:induction false} MaskIsRemainder(x: nat, k: nat)
    ensures And(x, Pow2(k) - 1) == x % Pow2(k)
  {
    if k > 0 {
      var n := Pow2(k - 1);
      HalvedRemainder(x, n);
      MaskIsRemainder(x / 2, k - 1);
      AndOfOdd(x, n - 1);
    }
  }

  lemma AndOfOdd(x: nat, m: nat)
    ensures And(x, 2 * m + 1) == 2 * And(x / 2, m) + x % 2
  {
    assert (2 * m + 1) / 2 == m && (2 * m + 1) % 2 == 1;
  }

  /** pow2floor. */
  function PowFloor(v: nat): nat {
    if v == 0 then 0 else if v == 1 then 1 else 2 * PowFloor(v / 2)
  }

  function Log2(v: nat): nat {
    if v <= 1 then 0 else 1 + Log2(v / 2)
  }

  /** The largest power of two that is not larger. */
  lemma {:induction false} PowFloorIsPowerOfTwo(v: nat)
    requires v > 0
    ensures PowFloor(v) == Pow2(Log2(v)) <= v < 2 * PowFloor(v)
  {
    if v > 1 {
      PowFloorIsPowerOfTwo(v / 2);
    }
  }

  // The file.

  /** The chunks of the file cover the log up to index written: each one's events are the log's, and the events between
      two chunks are exactly those the second one counts as lost. */
  ghost predicate Covers(file: seq<Chunk>, written: nat, log: seq<Event>)
    decreases |file|
  {
    if file == [] then written == 0
    else
      var c := file[|file| - 1];
      && c.firstIndex + |c.events| == written <= |log|
      && log[c.firstIndex..written] == c.events
      && c.lost <= c.firstIndex
      && Covers(file[..|file| - 1], c.firstIndex - c.lost, log)
  }

  function Emitted(file: seq<Chunk>): nat {
    if file == [] then 0 else Emitted(file[..|file| - 1]) + |file[|file| - 1].events|
  }

  function Lost(file: seq<Chunk>): nat {
    if file == [] then 0 else Lost(file[..|file| - 1]) + file[|file| - 1].lost
  }

  lemma {:induction false} CoversMore(file: seq<Chunk>, written: nat, log: seq<Event>, e: Event)
    requires Covers(file, written, log)
    ensures Covers(file, written, log + [e])
    decreases |file|
  {
    if file != [] {
      var c := file[|file| - 1];
      assert (log + [e])[c.firstIndex..written] == log[c.firstIndex..written];
      CoversMore(file[..|file| - 1], c.firstIndex - c.lost, log, e);
    }
  }

  /** Over any run nothing is unaccounted for: what was emitted and what was lost add up to what was recorded before
      the last flush. */
  lemma {:induction false} NothingUnaccounted(file: seq<Chunk>, written: nat, log: seq<Event>)
    requires Covers(file, written, log)
    ensures Emitted(file) + Lost(file) == written
    decreases |file|
  {
    if file != [] {
      var c := file[|file| - 1];
      NothingUnaccounted(file[..|file| - 1], c.firstIndex - c.lost, log);
    }
  }

  // The ring.

  /** The ring holds the end of the log, each event in the slot of its index. */
  ghost predicate Holds(ring: seq<Event>, log: seq<Event>) {
    |ring| > 0 && forall i | 0 <= i < |log| && |log| - |ring| <= i :: ring[i % |ring|] == log[i]
  }

  lemma SlotsDiffer(i: nat, j: nat, n: nat)
    requires i < j < i + n
    ensures i % n != j % n
  {
    ModAdd(i, j - i, n);
  }

  lemma RecordHolds(ring: seq<Event>, log: seq<Event>, e: Event)
    requires Holds(ring, log)
    ensures |log| % |ring| < |ring| && Holds(ring[|log| % |ring| := e], log + [e])
  {
    var n, log' := |ring|, log + [e];
    var ring' := ring[|log| % n := e];
    forall i | 0 <= i < |log'| && |log'| - n <= i
      ensures ring'[i % n] == log'[i]
    {
      if i < |log| {
        SlotsDiffer(i, |log|, n);
      }
    }
  }

  /** Read in two parts, from the first slot to the end and from the start on, the ring gives the end of the log in order. */
  lemma TwoParts(ring: seq<Event>, log: seq<Event>, pending: nat)
    requires Holds(ring, log) && pending <= |log| && pending <= |ring|
    ensures var n, slot := |ring|, (|log| - pending) % |ring|;
            var first := if pending < n - slot then pending else n - slot;
            && slot + first <= n && 0 <= pending - first <= n
            && ring[slot..slot + first] + ring[..pending - first] == log[|log| - pending..]
  {
    var n, start := |ring|, |log| - pending;
    var slot := start % n;
    var first := if pending < n - slot then pending else n - slot;
    var read := ring[slot..slot + first] + ring[..pending - first];
    forall k | 0 <= k < pending
      ensures read[k] == log[start..][k]
    {
      ModAdd(start, k, n);
      assert ring[(start + k) % n] == log[start + k];
    }
    assert read == log[start..];
  }

  class Recorder {
    const events: array<Event>
    const mask: nat
    var recorded: nat
    var written: nat
    var isOpen: bool
    var file: seq<Chunk>
    /** Every event ever recorded, and the exponent of the capacity. */
    ghost var log: seq<Event>
    ghost const k: nat

    ghost predicate Valid()
      reads this, events
    {
      && events.Length == mask + 1 == Pow2(k)
      && recorded == |log|
      && Holds(events[..], log)
      && written <= recorded && Covers(file, written, log)
    }

    /** flight_init, past its file and memory errors: the ring takes the largest power of two of events that fits. */
    constructor (requestedEvents: nat)
      requires requestedEvents > 0
      ensures Valid() && fresh(events) && log == [] && file == [] && isOpen && written == 0
      ensures events.Length <= requestedEvents < 2 * events.Length
    {
      PowFloorIsPowerOfTwo(requestedEvents);
      var capacity := PowFloor(requestedEvents);
      events := new Event[capacity](_ => Event(0, 0, 0, 0));
      mask := capacity - 1;
      recorded, written, isOpen, file := 0, 0, true, [];
      log, k := [], Log2(requestedEvents);
    }

    /** flight_record. */
    method Record(e: Event)
      requires Valid()
      modifies this`recorded, this`log, events
      ensures Valid() && log == old(log) + [e]
    {
      hide Holds, Covers, And;
      MaskIsRemainder(recorded, k);
      RecordHolds(events[..], log, e);
      CoversMore(file, written, log, e);
      var slot := And(recorded, mask);
      events[slot] := e;
      recorded := recorded + 1;
      log := log + [e];
    }

    /** flight_flush: everything recorded since the last one, oldest first, except what the ring has overwritten. */
    method Flush()
      requires Valid()
      modifies this`written, this`file
      ensures Valid()
      ensures !isOpen ==> file == old(file) && written == old(written)
      ensures isOpen ==>
                && written == |log|
                && |file| == |old(file)| + 1 && file[..|old(file)|] == old(file)
                && var c := file[|old(file)|];
                   && c.firstIndex == Max(old(written), |log| - events.Length)
                   && c.lost == c.firstIndex - old(written)
                   && c.events == log[c.firstIndex..]
    {
      hide Holds, Covers, And;
      var capacity := mask + 1;
      var pending, lost := recorded - written, 0;
      if !isOpen {
        return;
      }
      if pending > capacity {
        lost := pending - capacity;
        pending := capacity;
      }
      var firstIndex := recorded - pending;
      MaskIsRemainder(firstIndex, k);
      var firstSlot := And(firstIndex, mask);
      var slotsUntilEnd := capacity - firstSlot;
      var firstPart := if pending < slotsUntilEnd then pending else slotsUntilEnd;
      var secondPart := pending - firstPart;
      TwoParts(events[..], log, pending);
      var chunk := Chunk(firstIndex, lost, events[firstSlot..firstSlot + firstPart] + events[..secondPart]);
      assert chunk.events == events[..][firstSlot..firstSlot + firstPart] + events[..][..secondPart];
      CoversOneMore(file, written, log, chunk);
      file := file + [chunk];
      written := recorded;
    }

    /** flight_at_exit. */
    method AtExit()
      requires Valid()
      modifies this`written, this`file, this`isOpen
      ensures Valid() && !isOpen && (old(isOpen) ==> written == |log|)
      ensures Emitted(file) + Lost(file) == written
    {
      if isOpen {
        Flush();
        isOpen := false;
      }
      NothingUnaccounted(file, written, log);
    }
  }

  function Max(a: int, b: int): int {
    if a > b then a else b
  }

  lemma CoversOneMore(file: seq<Chunk>, written: nat, log: seq<Event>, c: Chunk)
    requires Covers(file, written, log)
    requires c.firstIndex == written + c.lost <= |log| && c.events == log[c.firstIndex..]
    ensures Covers(file + [c], |log|, log)
  {
    assert (file + [c])[..|file|] == file;
  }
}
