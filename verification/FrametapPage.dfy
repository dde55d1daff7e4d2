/** The page of frame numbers in guest memory: the host's writer, one store at a time, and a guest's reader that copies
    the page in any order at any speed. The memory barriers make every store visible in program order. */
module FrametapPage {

  const TWO_32 := 0x1_0000_0000
  const TWO_31 := 0x8000_0000
  const UINT32_MAX := TWO_32 - 1
  /** level, frame_count, last_frame_ns, frame_time_ns, frames_per_second_x100, overlay_cost_ns, drawable_width,
      drawable_height, frame_source, api: in the order the writer stores them. */
  const FIELDS := 10

  type Frame = f: seq<int> | |f| == FIELDS witness [0, 0, 0, 0, 0, 0, 0, 0, 0, 0]

  /** A reader between its two looks at the sequence: what it saw first, and the fields it has copied so far. */
  datatype Reader = Idle | Reading(sequence: nat, copy: map<nat, int>, since: nat)

  /** published holds every frame ever completed, the page's first content included. pc counts the stores of the
      publish under way: 0 between publishes, 1 once the sequence is odd. */
  datatype State = State(sequence: nat, fields: Frame, published: seq<Frame>, current: Frame, pc: nat, reader: Reader)

  function Init(first: Frame): State {
    State(0, first, [first], first, 0, Idle)
  }

  // The writer.

  /** The next store of the writer; frame is what the publish that starts here is about to write. */
  function Store(s: State, frame: Frame): State {
    if s.pc == 0 then s.(sequence := (s.sequence + 1) % TWO_32, current := frame, pc := 1)
    else if s.pc <= FIELDS then s.(fields := s.fields[s.pc - 1 := s.current[s.pc - 1]], pc := s.pc + 1)
    else s.(sequence := (s.sequence + 1) % TWO_32, published := s.published + [s.current], pc := 0)
  }

  // The reader.

  function Begin(s: State): State {
    if s.sequence % 2 == 1 then s.(reader := Idle)
    else s.(reader := Reading(s.sequence, map[], |s.published|))
  }

  function Copy(s: State, f: nat): State
    requires f < FIELDS
  {
    if s.reader.Reading? then s.(reader := s.reader.(copy := s.reader.copy[f := s.fields[f]])) else s
  }

  /** The reader's rule: all fields copied, and the sequence is what it was. */
  predicate Accepts(s: State) {
    && s.reader.Reading?
    && (forall f | 0 <= f < FIELDS :: f in s.reader.copy)
    && s.sequence == s.reader.sequence
  }

  function End(s: State): State {
    s.(reader := Idle)
  }

  // Runs.

  datatype Step = WriterStores(frame: Frame) | ReaderBegins | ReaderCopies(f: nat) | ReaderEnds

  function Next(s: State, step: Step): State {
    match step
    case WriterStores(frame) => Store(s, frame)
    case ReaderBegins => Begin(s)
    case ReaderCopies(f) => if f < FIELDS then Copy(s, f) else s
    case ReaderEnds => End(s)
  }

  function Run(s: State, steps: seq<Step>): State {
    if steps == [] then s else Next(Run(s, steps[..|steps| - 1]), steps[|steps| - 1])
  }

  // What every step keeps.

  predicate WriterInv(s: State) {
    && |s.published| > 0 && s.pc <= FIELDS + 1
    && s.sequence == (2 * (|s.published| - 1) + if s.pc > 0 then 1 else 0) % TWO_32
    && forall f | 0 <= f < FIELDS :: s.fields[f] == if f + 1 < s.pc then s.current[f] else s.published[|s.published| - 1][f]
  }

  predicate ReaderInv(s: State) {
    s.reader.Reading? ==>
      var r := s.reader;
      && 0 < r.since <= |s.published|
      && r.sequence == 2 * (r.since - 1) % TWO_32
      // As long as the writer has not touched the page since, the copies are those of the frame the reader began with.
      && (r.since == |s.published| && s.pc == 0 ==> forall f | f in r.copy :: f < FIELDS && r.copy[f] == s.published[r.since - 1][f])
  }

  lemma ParityOfSequence(n: nat, odd: bool)
    ensures (2 * n + if odd then 1 else 0) % TWO_32 % 2 == if odd then 1 else 0
  {
  }

  lemma StoreKeeps(s: State, frame: Frame)
    requires WriterInv(s) && ReaderInv(s)
    ensures WriterInv(Store(s, frame)) && ReaderInv(Store(s, frame))
  {
  }

  lemma NextKeeps(s: State, step: Step)
    requires WriterInv(s) && ReaderInv(s)
    ensures WriterInv(Next(s, step)) && ReaderInv(Next(s, step))
  {
    match step
    case WriterStores(frame) => StoreKeeps(s, frame);
    case ReaderBegins => ParityOfSequence(|s.published| - 1, s.pc > 0);
    case ReaderCopies(f) =>
    case ReaderEnds =>
  }

  lemma {:induction false} RunKeeps(first: Frame, steps: seq<Step>)
    ensures var s := Run(Init(first), steps); WriterInv(s) && ReaderInv(s)
  {
    hide WriterInv, ReaderInv, Next;
    if steps == [] {
      InitHolds(first);
    } else {
      RunKeeps(first, steps[..|steps| - 1]);
      NextKeeps(Run(Init(first), steps[..|steps| - 1]), steps[|steps| - 1]);
    }
  }

  lemma InitHolds(first: Frame)
    ensures WriterInv(Init(first)) && ReaderInv(Init(first))
  {
  }

  /** The sequence comes back exactly after a multiple of 2^31 publishes. */
  lemma SequenceReturns(n: nat, m: nat, odd: bool)
    requires n <= m
    ensures 2 * n % TWO_32 == (2 * m + if odd then 1 else 0) % TWO_32 <==> !odd && (m - n) % TWO_31 == 0
  {
    ParityOfSequence(n, false);
    ParityOfSequence(m, odd);
    var k := (m - n) / TWO_31;
    assert m - n == TWO_31 * k + (m - n) % TWO_31;
    assert 2 * m == 2 * n + TWO_32 * k + 2 * ((m - n) % TWO_31);
  }

  /** Exactly when a finished copy is accepted: the writer is at rest, a multiple of 2^31 publishes after the frame the
      reader began with. */
  lemma AcceptsExactly(first: Frame, steps: seq<Step>)
    requires Run(Init(first), steps).reader.Reading?
    requires forall f | 0 <= f < FIELDS :: f in Run(Init(first), steps).reader.copy
    ensures var s := Run(Init(first), steps);
            Accepts(s) <==> s.pc == 0 && (|s.published| - s.reader.since) % TWO_31 == 0
  {
    hide Run;
    RunKeeps(first, steps);
    var s := Run(Init(first), steps);
    SequenceReturns(s.reader.since - 1, |s.published| - 1, s.pc > 0);
  }

  /** Safety: whatever the interleaving, a copy accepted less than 2^31 publishes after it was begun is, field by field,
      one published frame: the last one. */
  lemma AcceptedIsOneFrame(first: Frame, steps: seq<Step>)
    requires var s := Run(Init(first), steps);
             Accepts(s) && |s.published| - s.reader.since < TWO_31
    ensures var s := Run(Init(first), steps);
            && |s.published| > 0
            && forall f | 0 <= f < FIELDS :: s.reader.copy[f] == s.published[|s.published| - 1][f]
  {
    hide Run;
    RunKeeps(first, steps);
    AcceptsExactly(first, steps);
  }

  /** Progress: a reader that begins between two publishes and is left alone accepts what it copies. */
  lemma QuietReadAccepted(s: State)
    requires WriterInv(s) && s.pc == 0
    ensures Accepts(CopyAll(Begin(s), FIELDS)) && CopyAll(Begin(s), FIELDS).published == s.published
  {
    ParityOfSequence(|s.published| - 1, false);
    CopyAllCopies(Begin(s), FIELDS);
  }

  function CopyAll(s: State, n: nat): State
    requires n <= FIELDS
  {
    if n == 0 then s else Copy(CopyAll(s, n - 1), n - 1)
  }

  lemma {:induction false} CopyAllCopies(s: State, n: nat)
    requires n <= FIELDS && s.reader.Reading?
    ensures var t := CopyAll(s, n);
            && t == s.(reader := t.reader) && t.reader.Reading? && t.reader.sequence == s.reader.sequence
            && forall f | 0 <= f < n :: f in t.reader.copy
  {
    if n > 0 {
      CopyAllCopies(s, n - 1);
    }
  }

  // The writer as it is written.

  function Min(a: int, b: int): int {
    if a < b then a else b
  }

  class Frametap {
    var pageSequence: nat
    var lastFrameNs: int
    /** The page in guest memory. */
    var sequence: nat
    var fields: seq<int>
    /** The same page as the step machine has it, with whatever reader is at work. */
    ghost var machine: State

    ghost predicate Matches()
      reads this
    {
      pageSequence == sequence == machine.sequence < TWO_32 && fields == machine.fields && |fields| == FIELDS
    }

    constructor (level: int)
      ensures Matches() && machine == Init([level, 0, 0, 0, 0, 0, 0, 0, 0, 0]) && lastFrameNs == 0
    {
      pageSequence, sequence, lastFrameNs := 0, 0, 0;
      fields := [level, 0, 0, 0, 0, 0, 0, 0, 0, 0];
      machine := Init([level, 0, 0, 0, 0, 0, 0, 0, 0, 0]);
    }

    /** The frame a publish at nowNs writes. */
    ghost function FrameAt(nowNs: int, level: int, count: int, fps: int, cost: int, width: int, height: int, source: int,
                           api: int): Frame
      reads this
    {
      var frameTime := if lastFrameNs != 0 then nowNs - lastFrameNs else 0;
      [level, count, nowNs, Min(frameTime, UINT32_MAX) % TWO_32, fps, cost, width % 0x10000, height % 0x10000,
       source, api]
    }

    /** That frame field by field: what the host counts, and the time since the frame before, none for the first one and at
        most what 32 bits hold. */
    lemma FrameHolds(nowNs: int, level: int, count: int, fps: int, cost: int, width: int, height: int, source: int, api: int)
      ensures var (f, since) := (FrameAt(nowNs, level, count, fps, cost, width, height, source, api), nowNs - lastFrameNs);
              && f[0] == level && f[1] == count && f[2] == nowNs && f[4] == fps && f[5] == cost && f[8] == source && f[9] == api
              && (lastFrameNs == 0 ==> f[3] == 0)
              && (lastFrameNs != 0 && 0 <= since <= 0xFFFF_FFFF ==> f[3] == since)
              && (lastFrameNs != 0 && since > 0xFFFF_FFFF ==> f[3] == 0xFFFF_FFFF)
              && (0 <= width < 0x1_0000 ==> f[6] == width) && (0 <= height < 0x1_0000 ==> f[7] == height)
    {
    }

    /** frametap_publish: twelve stores, which are twelve steps of the machine's writer. */
    method Publish(nowNs: int, level: int, count: int, fps: int, cost: int, width: int, height: int, source: int, api: int)
      requires Matches() && machine.pc == 0
      modifies this
      ensures Matches() && machine.pc == 0 && lastFrameNs == nowNs
      ensures var frame := old(FrameAt(nowNs, level, count, fps, cost, width, height, source, api));
              machine == Stores(old(machine), frame, FIELDS + 2) && fields == frame
      ensures sequence == (old(sequence) + 2) % 0x1_0000_0000
      ensures machine.published == old(machine.published)
                                   + [old(FrameAt(nowNs, level, count, fps, cost, width, height, source, api))]
    {
      TwoOn(sequence);
      ghost var frame := FrameAt(nowNs, level, count, fps, cost, width, height, source, api);
      ghost var start := machine;
      var frameTime := if lastFrameNs != 0 then nowNs - lastFrameNs else 0;
      lastFrameNs := nowNs;
      pageSequence := (pageSequence + 1) % TWO_32;
      sequence := pageSequence;
      machine := Store(machine, frame);
      var values := [level, count, nowNs, Min(frameTime, UINT32_MAX) % TWO_32, fps, cost, width % 0x10000, height % 0x10000,
       source, api];
      for f := 0 to FIELDS
        invariant Matches() && lastFrameNs == nowNs && sequence == (old(sequence) + 1) % TWO_32
        invariant machine.pc == f + 1 && machine.current == frame && machine.published == start.published
        invariant machine == Stores(start, frame, f + 1)
        invariant forall i | 0 <= i < f :: fields[i] == frame[i]
      {
        fields := fields[f := values[f]];
        machine := Store(machine, frame);
      }
      pageSequence := (pageSequence + 1) % TWO_32;
      sequence := pageSequence;
      machine := Store(machine, frame);
    }
  }

  lemma TwoOn(x: nat)
    ensures ((x + 1) % TWO_32 + 1) % TWO_32 == (x + 2) % TWO_32
  {
  }

  function Stores(s: State, frame: Frame, n: nat): State {
    if n == 0 then s else Store(Stores(s, frame, n - 1), frame)
  }
}
