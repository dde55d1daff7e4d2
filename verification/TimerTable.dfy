/** The multimedia timer table of the 16-bit era: sixteen slots under one lock, which is let go while a callback runs.
    Ids are 16 bits wide and carry the slot in their low four. */
module TimerTable {
  const SLOTS := 16
  const TWO_16 := 0x10000
  const TWO_31 := 0x8000_0000
  const TWO_32 := 0x1_0000_0000
  const MIN_INTERVAL := 1
  const MAX_INTERVAL := 65535

  /** What the two callback bits of the flags ask for; both together ask for nothing. */
  datatype Kind = Function | SetEvent | PulseEvent | Neither

  datatype Entry = Entry(id: nat, delay: nat, trigger: nat, periodic: bool, kind: Kind)

  /** The arming a slot holds: the value of the counter it took, the tick it was set at, and how often it has fired. */
  datatype Arming = Arming(gen: nat, setAt: nat, fired: nat)

  /** One firing: whose, at which tick, and the trigger time it was due for. */
  datatype Firing = Firing(gen: nat, setAt: nat, delay: nat, periodic: bool, ordinal: nat, scheduled: nat, now: nat)

  /** The callback the timer thread is in. */
  datatype Callback = NoCallback | InCallback(slot: nat, id: nat)

  datatype Outcome = NoTimers | NotDue(delta: int) | Fired | CallingBack

  // Ids.

  /** The id of a slot, given the counter: 16 bits. */
  function IdOf(gen: nat, slot: nat): nat {
    (SLOTS * gen + slot) % TWO_16
  }

  /** Only the low twelve bits of the counter reach the id. */
  lemma IdIs(gen: nat, slot: nat)
    requires slot < SLOTS
    ensures IdOf(gen, slot) == SLOTS * (gen % 4096) + slot
  {
    var q, r := gen / 4096, gen % 4096;
    assert SLOTS * gen + slot == TWO_16 * q + (SLOTS * r + slot);
  }

  lemma IdCarriesSlot(gen: nat, slot: nat)
    requires slot < SLOTS
    ensures IdOf(gen, slot) % SLOTS == slot
    ensures IdOf(gen, slot) == 0 <==> slot == 0 && gen % 4096 == 0
  {
    hide IdOf;
    IdIs(gen, slot);
  }

  lemma SameRemainder(a: nat, b: nat)
    requires a <= b
    ensures a % 4096 == b % 4096 <==> (b - a) % 4096 == 0
  {
  }

  /** Two armings of one slot share an id exactly when the counter moved by a multiple of 4096 in between. */
  lemma IdsCollide(gen: nat, gen': nat, slot: nat)
    requires slot < SLOTS && gen <= gen'
    ensures IdOf(gen, slot) == IdOf(gen', slot) <==> (gen' - gen) % 4096 == 0
  {
    hide IdOf;
    IdIs(gen, slot);
    IdIs(gen', slot);
    SameRemainder(gen, gen');
  }

  // Ticks.

  /** trigger - now as the signed 32-bit difference the poll looks at. */
  function Delta(trigger: nat, now: nat): int
    requires trigger < TWO_32 && now < TWO_32
  {
    var d := (trigger - now) % TWO_32;
    if d >= TWO_31 then d - TWO_32 else d
  }

  /** For times less than 2^31 ticks apart the difference has the right sign and size across any wrap. */
  lemma DeltaIsTrue(t: nat, n: nat)
    requires -TWO_31 <= t - n < TWO_31
    ensures Delta(t % TWO_32, n % TWO_32) == t - n
  {
    var a, b := t / TWO_32, n / TWO_32;
    assert t == TWO_32 * a + t % TWO_32 && n == TWO_32 * b + n % TWO_32;
  }

  /** A time that the 32-bit difference can tell from now. */
  predicate Near(t: nat, now: nat) {
    -TWO_31 <= t - now < TWO_31
  }

  /** Of two timers the poll prefers the one with the smaller number. That one can keep the other waiting, which is due,
      exactly if the two lie on different sides of a wrap of the tick. */
  lemma HiddenExactly(a: nat, b: nat)
    requires -TWO_31 < a - b < TWO_31 && a % TWO_32 <= b % TWO_32
    ensures (exists now: nat :: Near(a, now) && Near(b, now)
                           && Delta(b % TWO_32, now % TWO_32) <= 0 < Delta(a % TWO_32, now % TWO_32))
            <==> a / TWO_32 != b / TWO_32
  {
    hide Delta;
    Sides(a, b);
    if a / TWO_32 == b / TWO_32 {
      forall now: nat | Near(a, now) && Near(b, now)
        ensures !(Delta(b % TWO_32, now % TWO_32) <= 0 < Delta(a % TWO_32, now % TWO_32))
      {
        DeltaIsTrue(a, now);
        DeltaIsTrue(b, now);
      }
    } else {
      DeltaIsTrue(a, b);
      DeltaIsTrue(b, b);
      assert Near(a, b) && Near(b, b);
    }
  }

  /** The smaller number is the earlier time without a wrap in between, and the later one with it. */
  lemma Sides(a: nat, b: nat)
    requires -TWO_31 < a - b < TWO_31 && a % TWO_32 <= b % TWO_32
    ensures if a / TWO_32 == b / TWO_32 then a <= b else b < a
  {
    var p, q := a / TWO_32, b / TWO_32;
    assert a == TWO_32 * p + a % TWO_32 && b == TWO_32 * q + b % TWO_32;
  }

  // The log.

  function Count(log: seq<Firing>, gen: nat): nat {
    if log == [] then 0 else Count(log[..|log| - 1], gen) + if log[|log| - 1].gen == gen then 1 else 0
  }

  /** Every firing was due, came at its place on the timer's grid, and is the next one of its arming: an arming that is
      not periodic has one firing at most. */
  predicate GoodFiring(f: Firing, earlier: nat) {
    && f.ordinal == earlier + 1
    && f.scheduled == (f.setAt + f.delay * f.ordinal) % TWO_32
    && f.now < TWO_32 && Delta(f.scheduled, f.now) <= 0
    && (!f.periodic ==> f.ordinal == 1)
  }

  ghost predicate GoodLog(log: seq<Firing>, created: nat) {
    forall q | 0 <= q < |log| :: log[q].gen <= created && GoodFiring(log[q], Count(log[..q], log[q].gen))
  }

  lemma {:induction false} CountSplits(log: seq<Firing>, q: nat, gen: nat)
    requires q <= |log|
    ensures Count(log[..q], gen) <= Count(log, gen)
    ensures q < |log| && log[q].gen == gen ==> Count(log[..q], gen) < Count(log, gen)
    decreases |log|
  {
    if q == |log| {
      assert log[..q] == log;
    } else {
      var n := |log| - 1;
      assert log[..n][..q] == log[..q];
      CountSplits(log[..n], q, gen);
    }
  }

  /** At most one firing per arming of a one-shot timer. */
  lemma OneShotFiresOnce(log: seq<Firing>, created: nat, p: nat, q: nat)
    requires GoodLog(log, created) && p < q < |log| && log[p].gen == log[q].gen
    ensures log[q].periodic && log[q].ordinal > log[p].ordinal >= 1
  {
    CountSplits(log[..q], p, log[q].gen);
    assert log[..q][..p] == log[..p];
  }

  lemma {:induction false} CountOfNew(log: seq<Firing>, created: nat, gen: nat)
    requires (forall q | 0 <= q < |log| :: log[q].gen <= created) && gen > created
    ensures Count(log, gen) == 0
  {
    if log != [] {
      CountOfNew(log[..|log| - 1], created, gen);
    }
  }

  lemma LogGrows(log: seq<Firing>, created: nat, f: Firing)
    requires GoodLog(log, created) && f.gen <= created && GoodFiring(f, Count(log, f.gen))
    ensures GoodLog(log + [f], created)
    ensures forall g :: Count(log + [f], g) == Count(log, g) + if g == f.gen then 1 else 0
  {
    hide GoodFiring;
    var log' := log + [f];
    assert log'[..|log|] == log;
    forall q | 0 <= q < |log'|
      ensures log'[q].gen <= created && GoodFiring(log'[q], Count(log'[..q], log'[q].gen))
    {
      if q < |log| {
        assert log'[..q] == log[..q];
      }
    }
  }

  // The table.

  predicate EntryOk(e: Entry, a: Arming, i: nat, created: nat) {
    && e.id == IdOf(a.gen, i) && a.gen <= created
    && MIN_INTERVAL <= e.delay <= MAX_INTERVAL
    && a.setAt < TWO_32
    && e.trigger == (a.setAt + e.delay * (if e.periodic then a.fired + 1 else 1)) % TWO_32
    && (!e.periodic ==> a.fired <= 1)
  }

  datatype TimerCall =
    | Set(delay: nat, periodic: bool, kind: Kind, now: nat)
    | Kill(wID: nat)
    | PollOnce(now: nat)
    | CallbackReturns

  /** The whole table as a value, with what is known of it and what has fired. */
  datatype Table = Table(timers: seq<Entry>, armings: seq<Arming>, created: nat, callback: Callback, calling: nat, log: seq<Firing>)

  predicate Whole(s: Table) {
    |s.timers| == |s.armings| == SLOTS
  }

  /** What one call, or one turn of the timer thread, does to the table. */
  ghost predicate Did(call: TimerCall, s: Table, t: Table) {
    Whole(s) && Whole(t) &&
    match call
    case Set(_, _, _, _) => DidSet(call, s, t)
    case Kill(wID) =>
      var i := wID % 16;
      t == if s.timers[i].id == wID then s.(timers := s.timers[i := s.timers[i].(id := 0)]) else s
    case PollOnce(now) => if s.callback == NoCallback then DidPoll(now, s, t) else t == s
    case CallbackReturns => DidReturn(s, t)
  }

  /** With a delay from 1 to 65535 the first free slot takes the timer. */
  ghost predicate DidSet(call: TimerCall, s: Table, t: Table)
    requires call.Set? && Whole(s) && Whole(t)
  {
    if call.delay < 1 || call.delay > 65535 || (forall i | 0 <= i < SLOTS :: s.timers[i].id != 0) then t == s
    else
      exists i | 0 <= i < SLOTS && s.timers[i].id == 0 && (forall j | 0 <= j < i :: s.timers[j].id != 0) ::
        && t.timers[i] == Entry(t.timers[i].id, call.delay, (call.now + call.delay) % 0x1_0000_0000, call.periodic, call.kind)
        && t.timers[i].id != 0 && t.timers[i].id % 16 == i
        && s.created < t.created <= s.created + 2
        && t == s.(timers := s.timers[i := t.timers[i]], armings := s.armings[i := Arming(t.created, call.now, 0)], created := t.created)
  }

  /** The slot a poll looks at: the first of those in use with the smallest trigger time. */
  ghost predicate Selected(s: Table, i: nat) {
    && i < |s.timers| && s.timers[i].id != 0
    && (forall j | 0 <= j < |s.timers| && s.timers[j].id != 0 :: s.timers[i].trigger <= s.timers[j].trigger)
    && (forall j | 0 <= j < i && s.timers[j].id != 0 :: s.timers[j].trigger > s.timers[i].trigger)
  }

  ghost predicate DidPoll(now: nat, s: Table, t: Table)
    requires Whole(s)
  {
    if forall i | 0 <= i < SLOTS :: s.timers[i].id == 0 then t == s
    else
      exists i :: Selected(s, i) && DidFire(i, now, s, t)
  }

  /** A timer that is due fires: it is logged; a periodic one moves on by its delay, a one-shot leaves its slot at once or
      after its callback. */
  ghost predicate DidFire(i: nat, now: nat, s: Table, t: Table)
    requires Whole(s)
  {
    i < SLOTS && s.timers[i].trigger < TWO_32 && now < TWO_32 &&
    var (e, a) := (s.timers[i], s.armings[i]);
    if Delta(e.trigger, now) > 0 then t == s
    else
      t == s.(log := s.log + [Firing(a.gen, a.setAt, e.delay, e.periodic, a.fired + 1, e.trigger, now)],
              armings := s.armings[i := a.(fired := a.fired + 1)],
              callback := if e.kind == Function then InCallback(i, e.id) else NoCallback,
              calling := if e.kind == Function then a.gen else s.calling,
              timers := s.timers[i := if e.periodic then e.(trigger := (e.trigger + e.delay) % 0x1_0000_0000)
                                      else if e.kind == Function then e else e.(id := 0)])
  }

  /** The slot is freed if what is in it is a one-shot that shares its id with the callback. */
  ghost predicate DidReturn(s: Table, t: Table)
    requires Whole(s)
  {
    if s.callback == NoCallback || s.callback.slot >= SLOTS then t == s
    else
      var (i, e) := (s.callback.slot, s.timers[s.callback.slot]);
      t == s.(callback := NoCallback,
              timers := if e.id != 0 && !e.periodic && (s.armings[i].gen - s.calling) % 4096 == 0 then s.timers[i := e.(id := 0)]
                        else s.timers)
  }

  ghost predicate AllDid(calls: seq<TimerCall>, trace: seq<Table>)
    decreases |calls|
  {
    && |trace| == |calls| + 1
    && (calls != [] ==>
          var n := |calls| - 1;
          Did(calls[n], trace[n], trace[n + 1]) && AllDid(calls[..n], trace[..n + 1]))
  }

  lemma StillWaits(s: Table, i: nat, now: nat)
    requires Whole(s) && i < SLOTS && s.timers[i].trigger < TWO_32 && now < TWO_32 && Delta(s.timers[i].trigger, now) > 0
    ensures DidFire(i, now, s, s)
  {
  }

  lemma NothingDid(s: Table)
    ensures AllDid([], [s])
  {
  }

  lemma DidMore(calls: seq<TimerCall>, trace: seq<Table>, call: TimerCall, t: Table)
    requires AllDid(calls, trace) && Did(call, trace[|calls|], t)
    ensures AllDid(calls + [call], trace + [t])
  {
    hide Did;
    assert (calls + [call])[..|calls|] == calls && (trace + [t])[..|calls| + 1] == trace;
  }

  lemma OneShotsFireOnce(log: seq<Firing>, created: nat)
    requires GoodLog(log, created)
    ensures forall p, q | 0 <= p < q < |log| && log[p].gen == log[q].gen ::
              log[q].periodic && 1 <= log[p].ordinal < log[q].ordinal
  {
    forall p, q | 0 <= p < q < |log| && log[p].gen == log[q].gen
      ensures log[q].periodic && 1 <= log[p].ordinal < log[q].ordinal
    {
      OneShotFiresOnce(log, created, p, q);
    }
  }

  class Timers {
    const timers: array<Entry>
    var created: nat
    var callback: Callback
    /** What the armings in the slots are, the one the running callback belongs to, and all firings so far. */
    ghost var armings: seq<Arming>
    ghost var calling: nat
    ghost var log: seq<Firing>

    ghost function State(): Table
      reads this, timers
    {
      Table(timers[..], armings, created, callback, calling, log)
    }

    ghost predicate SlotsOk()
      reads this, timers
      requires timers.Length == SLOTS == |armings|
    {
      forall i | 0 <= i < SLOTS && timers[i].id != 0 ::
        && EntryOk(timers[i], armings[i], i, created)
        && Count(log, armings[i].gen) == armings[i].fired
        // A one-shot that has fired is only still there while its callback runs.
        && (!timers[i].periodic && armings[i].fired > 0 ==> callback.InCallback? && callback.slot == i && calling == armings[i].gen)
    }

    ghost predicate Unique()
      reads this, timers
      requires timers.Length == SLOTS == |armings|
    {
      forall i, j | 0 <= i < j < SLOTS && timers[i].id != 0 && timers[j].id != 0 :: armings[i].gen != armings[j].gen
    }

    /** The callback's id is that of its arming, and whatever is in the slot meanwhile was not armed before it. */
    ghost predicate CallbackOk()
      reads this, timers
      requires timers.Length == SLOTS == |armings|
    {
      callback.InCallback? ==>
        && callback.slot < SLOTS && calling <= created && callback.id == IdOf(calling, callback.slot) != 0
        && (timers[callback.slot].id != 0 ==> calling <= armings[callback.slot].gen)
    }

    ghost predicate Valid()
      reads this, timers
    {
      && timers.Length == SLOTS == |armings|
      && GoodLog(log, created)
      && SlotsOk() && Unique()
      && CallbackOk()
    }

    constructor ()
      ensures Valid() && fresh(timers) && log == [] && callback == NoCallback
      ensures forall i | 0 <= i < SLOTS :: timers[i].id == 0
    {
      timers := new Entry[SLOTS](_ => Entry(0, 0, 0, false, Neither));
      created, callback := 0, NoCallback;
      armings, calling, log := seq(SLOTS, i => Arming(0, 0, 0)), 0, [];
    }

    /** A fresh id for slot i: the counter moves on, twice if the first value would make the id zero. */
    method NextId(i: nat) returns (id: nat)
      requires i < SLOTS
      modifies this`created
      ensures old(created) < created <= old(created) + 2
      ensures id == IdOf(created, i) != 0 && id % SLOTS == i
    {
      created := created + 1;
      id := (SLOTS * created + i) % TWO_16;
      IdCarriesSlot(created, i);
      if id == 0 {
        created := created + 1;
        id := (SLOTS * created + i) % TWO_16;
        IdCarriesSlot(created, i);
      }
    }

    /** The first free slot, or SLOTS. */
    method FindFree() returns (i: nat)
      requires timers.Length == SLOTS
      ensures i <= SLOTS && (i < SLOTS ==> timers[i].id == 0)
      ensures forall j | 0 <= j < i :: timers[j].id != 0
    {
      i := 0;
      while i < SLOTS && timers[i].id != 0
        invariant i <= SLOTS
        invariant forall j | 0 <= j < i :: timers[j].id != 0
      {
        i := i + 1;
      }
    }

    /** A free slot takes a timer, under an id of its own. */
    method Arm(i: nat, delay: nat, periodic: bool, kind: Kind, now: nat) returns (id: nat)
      requires Valid() && now < TWO_32 && i < SLOTS && timers[i].id == 0 && MIN_INTERVAL <= delay <= MAX_INTERVAL
      modifies this`created, this`armings, timers
      ensures Valid()
      ensures id != 0 && id % SLOTS == i && timers[i] == Entry(id, delay, (now + delay) % TWO_32, periodic, kind)
      ensures armings[i].fired == 0 && armings[i].setAt == now && old(created) < armings[i].gen == created <= old(created) + 2
      ensures forall j | 0 <= j < SLOTS && j != i :: timers[j] == old(timers[j]) && armings[j] == old(armings[j])
    {
      hide GoodLog, GoodFiring, IdOf;
      ghost var before := created;
      id := NextId(i);
      timers[i] := Entry(id, delay, (now + delay) % TWO_32, periodic, kind);
      armings := armings[i := Arming(created, now, 0)];
      NewArming(log, before, created);
    }

    /** HookSetEvent: the first free slot takes the timer. */
    method SetEvent(delay: nat, periodic: bool, kind: Kind, now: nat) returns (id: nat)
      requires Valid() && now < TWO_32
      modifies this`created, this`armings, timers
      ensures Valid()
      ensures id != 0 <==> MIN_INTERVAL <= delay <= MAX_INTERVAL && exists i | 0 <= i < SLOTS :: old(timers[i].id) == 0
      ensures id != 0 ==>
                var i := id % SLOTS;
                && old(timers[i].id) == 0 && (forall j | 0 <= j < i :: old(timers[j].id) != 0)
                && timers[i] == Entry(id, delay, (now + delay) % TWO_32, periodic, kind)
                && armings[i].fired == 0 && armings[i].setAt == now
                && old(created) < armings[i].gen == created <= old(created) + 2
                && forall j | 0 <= j < SLOTS && j != i :: timers[j] == old(timers[j]) && armings[j] == old(armings[j])
      ensures id == 0 ==> unchanged(this) && unchanged(timers)
    {
      hide GoodLog, SlotsOk, Unique;
      if delay < MIN_INTERVAL || delay > MAX_INTERVAL {
        return 0;
      }
      var i := FindFree();
      if i == SLOTS {
        return 0;
      }
      id := Arm(i, delay, periodic, kind, now);
    }

    /** HookKillEvent. */
    method KillEvent(wID: nat) returns (ok: bool)
      requires Valid()
      modifies timers
      ensures Valid()
      ensures ok <==> old(timers[wID % SLOTS].id) == wID
      ensures forall j | 0 <= j < SLOTS :: timers[j] == if ok && j == wID % SLOTS then old(timers[j]).(id := 0) else old(timers[j])
    {
      hide GoodLog, GoodFiring, IdOf, Count, EntryOk;
      var i := wID % SLOTS;
      if timers[i].id != wID {
        return false;
      }
      timers[i] := timers[i].(id := 0);
      return true;
    }

    /** Slot i is in use, and no slot in use has a smaller trigger time as an unsigned number. */
    ghost predicate Earliest(i: nat)
      reads this, timers
      requires timers.Length == SLOTS
    {
      i < SLOTS && timers[i].id != 0 && forall j | 0 <= j < SLOTS && timers[j].id != 0 :: timers[i].trigger <= timers[j].trigger
    }

    /** A timer the poll would fire if it looked at it. */
    predicate Due(j: nat, now: nat)
      reads this, timers
      requires timers.Length == SLOTS && j < SLOTS && now < TWO_32
    {
      timers[j].id != 0 && timers[j].trigger < TWO_32 && Delta(timers[j].trigger, now) <= 0
    }

    /** times are the times at which the timers in use are due, counted on past every wrap, within 2^31 ticks of each other. */
    ghost predicate DueTimes(times: seq<nat>)
      reads this, timers
    {
      && timers.Length == SLOTS == |times|
      && (forall k | 0 <= k < SLOTS && timers[k].id != 0 :: timers[k].trigger == times[k] % TWO_32)
      && forall k, l | 0 <= k < l < SLOTS && timers[k].id != 0 && timers[l].id != 0 :: -TWO_31 < times[k] - times[l] < TWO_31
    }

    /** The slot the poll selects can keep another one waiting that is due exactly if a wrap lies between them. */
    lemma WaitsExactly(times: seq<nat>, i: nat, j: nat)
      requires DueTimes(times) && Earliest(i) && j < SLOTS && timers[j].id != 0
      ensures (exists now: nat :: Near(times[i], now) && Near(times[j], now) && Due(j, now % TWO_32) && !Due(i, now % TWO_32))
              <==> times[i] / TWO_32 != times[j] / TWO_32
    {
      hide Delta;
      assert -TWO_31 < times[i] - times[j] < TWO_31;
      assert forall now: nat :: Due(j, now % TWO_32) <==> Delta(times[j] % TWO_32, now % TWO_32) <= 0;
      assert forall now: nat :: Due(i, now % TWO_32) <==> Delta(times[i] % TWO_32, now % TWO_32) <= 0;
      HiddenExactly(times[i], times[j]);
    }

    /** The selection loop of the poll; SLOTS when the table is empty. */
    method Select() returns (i: nat)
      requires timers.Length == SLOTS
      ensures i == SLOTS <==> forall j | 0 <= j < SLOTS :: timers[j].id == 0
      ensures i != SLOTS ==> Earliest(i) && forall j | 0 <= j < i && timers[j].id != 0 :: timers[j].trigger > timers[i].trigger
    {
      i := 0;
      while i < SLOTS && timers[i].id == 0
        invariant i <= SLOTS
        invariant forall j | 0 <= j < i :: timers[j].id == 0
      {
        i := i + 1;
      }
      if i == SLOTS {
        return;
      }
      for j := i + 1 to SLOTS
        invariant i < j && timers[i].id != 0
        invariant forall k | 0 <= k < j && timers[k].id != 0 ::
                    timers[i].trigger <= timers[k].trigger && (k < i ==> timers[i].trigger < timers[k].trigger)
      {
        if timers[j].id != 0 && timers[j].trigger < timers[i].trigger {
          i := j;
        }
      }
    }

    /** The due timer at i fires: an event at once, a function with the lock let go. */
    method Fire(i: nat, now: nat)
      requires Valid() && callback == NoCallback && now < TWO_32 && i < SLOTS
      requires timers[i].id != 0 && timers[i].trigger < TWO_32 && Delta(timers[i].trigger, now) <= 0
      modifies this`callback, this`armings, this`calling, this`log, timers
      ensures Valid()
      ensures var e, a := old(timers[i]), old(armings[i]);
              && log == old(log) + [Firing(a.gen, a.setAt, e.delay, e.periodic, a.fired + 1, e.trigger, now)]
              && callback == (if e.kind == Function then InCallback(i, e.id) else NoCallback)
              && calling == (if e.kind == Function then a.gen else old(calling)) && armings[i] == a.(fired := a.fired + 1)
              && timers[i] == (if e.periodic then e.(trigger := (e.trigger + e.delay) % TWO_32)
                               else if e.kind == Function then e else e.(id := 0))
              && forall j | 0 <= j < SLOTS && j != i :: timers[j] == old(timers[j]) && armings[j] == old(armings[j])
    {
      hide GoodLog, GoodFiring, IdOf, Count, EntryOk, Delta;
      var e := timers[i];
      ghost var a := armings[i];
      EntryFacts(e, a, i, created);
      ghost var f := Firing(a.gen, a.setAt, e.delay, e.periodic, a.fired + 1, e.trigger, now);
      FiringIsGood(e, a, i, created, now);
      LogGrows(log, created, f);
      AdvanceKeeps(e, a, i, created);
      log := log + [f];
      armings := armings[i := a.(fired := a.fired + 1)];
      if e.periodic {
        timers[i] := e.(trigger := (e.trigger + e.delay) % TWO_32);
      }
      if e.kind == Function {
        callback, calling := InCallback(i, e.id), a.gen;
        return;
      }
      if !e.periodic {
        timers[i] := e.(id := 0);
      }
    }

    /** One round of TIME_MMSysTimeCallback, up to the point where a callback is entered. */
    method Poll(now: nat) returns (outcome: Outcome, i: nat)
      requires Valid() && callback == NoCallback && now < TWO_32
      modifies this`callback, this`armings, this`calling, this`log, timers
      ensures Valid()
      ensures outcome == NoTimers <==> forall j | 0 <= j < SLOTS :: old(timers[j].id) == 0
      ensures outcome != NoTimers ==> i < SLOTS && old(Earliest(i)) && (outcome.NotDue? <==> !old(Due(i, now)))
      ensures outcome != NoTimers ==> forall j | 0 <= j < i && old(timers[j]).id != 0 :: old(timers[j]).trigger > old(timers[i]).trigger
      ensures outcome.Fired? || outcome.CallingBack? ==> DidFire(i, now, old(State()), State())
      ensures outcome.NotDue? || outcome.NoTimers? ==> unchanged(this) && unchanged(timers)
      ensures outcome.NotDue? ==> outcome.delta > 0 && timers[i].trigger < TWO_32 && outcome.delta == Delta(timers[i].trigger, now)
      ensures outcome.Fired? || outcome.CallingBack? ==>
                && |log| == |old(log)| + 1 && log[..|old(log)|] == old(log)
                && log[|old(log)|].gen == old(armings[i]).gen && log[|old(log)|].scheduled == old(timers[i]).trigger
                && log[|old(log)|].now == now
                && (outcome.CallingBack? <==> callback == InCallback(i, old(timers[i]).id))
                && (outcome.CallingBack? <==> old(timers[i]).kind == Function)
    {
      hide SlotsOk, Unique, GoodLog, Delta;
      i := Select();
      if i == SLOTS {
        return NoTimers, 0;
      }
      SlotFacts(i);
      var trigger, kind := timers[i].trigger, timers[i].kind;
      var delta := (trigger - now) % TWO_32;
      delta := if delta >= TWO_31 then delta - TWO_32 else delta;
      DeltaIs(trigger, now);
      if delta > 0 {
        return NotDue(delta), i;
      }
      Fire(i, now);
      outcome := if kind == Function then CallingBack else Fired;
    }

    method RunSet(call: TimerCall)
      requires Valid() && call.Set? && call.now < TWO_32
      modifies this`created, this`armings, timers
      ensures Valid() && Did(call, old(State()), State())
    {
      hide GoodLog, SlotsOk, Unique, CallbackOk;
      ghost var s := State();
      var id := SetEvent(call.delay, call.periodic, call.kind, call.now);
      if id == 0 {
        assert State() == s;
      } else {
        ghost var i := id % SLOTS;
        assert armings[i] == Arming(created, call.now, 0);
        assert timers[..] == s.timers[i := timers[i]] && armings == s.armings[i := armings[i]];
        assert State().timers[i] == timers[i] && s.timers[i].id == 0 && forall j | 0 <= j < i :: s.timers[j].id != 0;
      }
    }

    method RunKill(call: TimerCall)
      requires Valid() && call.Kill?
      modifies timers
      ensures Valid() && Did(call, old(State()), State())
    {
      hide GoodLog, SlotsOk, Unique, CallbackOk;
      ghost var s := State();
      var ok := KillEvent(call.wID);
      assert timers[..] == if ok then s.timers[call.wID % SLOTS := s.timers[call.wID % SLOTS].(id := 0)] else s.timers;
    }

    method RunPoll(call: TimerCall)
      requires Valid() && call.PollOnce? && call.now < TWO_32
      modifies this`callback, this`armings, this`calling, this`log, timers
      ensures Valid() && Did(call, old(State()), State())
    {
      hide GoodLog, SlotsOk, Unique, CallbackOk, Delta, DidFire;
      if callback == NoCallback {
        ghost var s := State();
        assert forall j | 0 <= j < SLOTS :: s.timers[j] == timers[j];
        var outcome, i := Poll(call.now);
        if outcome != NoTimers {
          assert Selected(s, i);
          if outcome.NotDue? {
            assert State() == s;
            StillWaits(s, i, call.now);
          }
          assert DidFire(i, call.now, s, State());
        } else {
          assert State() == s;
        }
      }
    }

    method RunReturn(call: TimerCall)
      requires Valid() && call.CallbackReturns?
      modifies this`callback, timers
      ensures Valid() && Did(call, old(State()), State())
    {
      hide GoodLog, SlotsOk, Unique;
      ghost var s := State();
      if callback.InCallback? {
        Return();
        ghost var i := s.callback.slot;
        assert timers[..] == s.timers[i := timers[i]];
      }
    }

    /** Any interleaving of the guest's calls with the timer thread, callbacks included: no arming of a one-shot fires
        twice, and firing k of every arming was due and lay k delays after its start. */
    method Run(calls: seq<TimerCall>) returns (ghost trace: seq<Table>)
      requires Valid()
      requires forall k | 0 <= k < |calls| :: (calls[k].Set? || calls[k].PollOnce?) ==> calls[k].now < TWO_32
      modifies this, timers
      ensures Valid()
      ensures AllDid(calls, trace) && trace[0] == old(State()) && trace[|calls|] == State()
      ensures forall p, q | 0 <= p < q < |log| && log[p].gen == log[q].gen ::
                log[q].periodic && 1 <= log[p].ordinal < log[q].ordinal
      ensures forall q | 0 <= q < |log| ::
                && log[q].scheduled == (log[q].setAt + log[q].delay * log[q].ordinal) % TWO_32
                && log[q].now < TWO_32 && Delta(log[q].scheduled, log[q].now) <= 0
    {
      hide *;
      trace := [State()];
      NothingDid(State());
      assert calls[..0] == [];
      for k := 0 to |calls|
        invariant Valid() && |trace| == k + 1
        invariant AllDid(calls[..k], trace) && trace[0] == old(State()) && trace[k] == State()
      {
        match calls[k] {
          case Set(_, _, _, _) => RunSet(calls[k]);
          case Kill(_) => RunKill(calls[k]);
          case PollOnce(_) => RunPoll(calls[k]);
          case CallbackReturns => RunReturn(calls[k]);
        }
        DidMore(calls[..k], trace, calls[k], State());
        assert calls[..k + 1] == calls[..k] + [calls[k]];
        trace := trace + [State()];
      }
      assert calls[..|calls|] == calls;
      FiringsAre();
    }

    lemma FiringsAre()
      requires Valid()
      ensures forall p, q | 0 <= p < q < |log| && log[p].gen == log[q].gen ::
                log[q].periodic && 1 <= log[p].ordinal < log[q].ordinal
      ensures forall q | 0 <= q < |log| ::
                && log[q].scheduled == (log[q].setAt + log[q].delay * log[q].ordinal) % TWO_32
                && log[q].now < TWO_32 && Delta(log[q].scheduled, log[q].now) <= 0
    {
      hide SlotsOk, Unique, CallbackOk, Delta;
      OneShotsFireOnce(log, created);
    }

    lemma SlotFacts(i: nat)
      requires Valid() && i < SLOTS && timers[i].id != 0
      ensures timers[i].trigger < TWO_32
    {
      EntryFacts(timers[i], armings[i], i, created);
    }

    /** The lock is taken again after the callback: a one-shot is freed if the slot still has the callback's id. */
    method Return()
      requires Valid() && callback.InCallback?
      modifies this`callback, timers
      ensures Valid() && callback == NoCallback
      ensures var i := old(callback.slot);
              && forall j | 0 <= j < SLOTS && j != i :: timers[j] == old(timers[j])
      ensures var (i, e, gen) := (old(callback.slot), old(timers[callback.slot]), armings[old(callback.slot)].gen);
              timers[i] == if e.id != 0 && !e.periodic && (gen - calling) % 4096 == 0 then e.(id := 0) else e
    {
      hide GoodLog, GoodFiring, IdOf, Count;
      var i, id := callback.slot, callback.id;
      if timers[i].id != 0 {
        IdsCollide(calling, armings[i].gen, i);
      }
      callback := NoCallback;
      if timers[i].id == id && !timers[i].periodic {
        timers[i] := timers[i].(id := 0);
      }
    }
  }

  lemma AroundTheWrap()
    ensures Delta(0x10, 0xFFFF_FFF8) == 24 && Delta(0xFFFF_FFF0, 0xFFFF_FFF8) == -8
  {
  }

  /** Two timers set 24 ticks before a wrap, 8 and 40 ticks long: 16 ticks later the first one is overdue, and the poll
      waits for the second. */
  method OverdueTimerWaits() returns (t: Timers, outcome: Outcome, i: nat)
    ensures fresh(t) && t.timers.Length == SLOTS && i == 1 && outcome == NotDue(24)
    ensures t.timers[0].id != 0 && Delta(0xFFFF_FFF0, 0xFFFF_FFF8) == -8 && t.timers[0].trigger == 0xFFFF_FFF0
  {
    t := new Timers();
    AroundTheWrap();
    hide t.Valid, IdOf, Delta;
    assert t.timers[0].id == 0 && t.timers[1].id == 0;
    var first := t.SetEvent(8, false, Function, 0xFFFF_FFE8);
    assert first % SLOTS == 0;
    var second := t.SetEvent(40, false, Function, 0xFFFF_FFE8);
    assert second % SLOTS == 1;
    outcome, i := t.Poll(0xFFFF_FFF8);
  }

  lemma EntryFacts(e: Entry, a: Arming, i: nat, created: nat)
    requires EntryOk(e, a, i, created)
    ensures e.trigger < TWO_32 && a.gen <= created && e.id == IdOf(a.gen, i)
  {
  }

  lemma DeltaIs(trigger: nat, now: nat)
    requires trigger < TWO_32 && now < TWO_32
    ensures Delta(trigger, now) == var d := (trigger - now) % TWO_32; if d >= TWO_31 then d - TWO_32 else d
  {
  }

  lemma FiringIsGood(e: Entry, a: Arming, i: nat, created: nat, now: nat)
    requires EntryOk(e, a, i, created) && now < TWO_32 && e.trigger < TWO_32 && Delta(e.trigger, now) <= 0
    requires !e.periodic ==> a.fired == 0
    ensures GoodFiring(Firing(a.gen, a.setAt, e.delay, e.periodic, a.fired + 1, e.trigger, now), a.fired)
  {
    hide Delta, IdOf;
  }

  /** The next trigger time of a periodic timer is again on its grid. */
  lemma AdvanceKeeps(e: Entry, a: Arming, i: nat, created: nat)
    requires EntryOk(e, a, i, created)
    ensures e.periodic ==> EntryOk(e.(trigger := (e.trigger + e.delay) % TWO_32), a.(fired := a.fired + 1), i, created)
    ensures !e.periodic && a.fired == 0 ==> EntryOk(e, a.(fired := 1), i, created)
  {
    hide IdOf;
    if e.periodic {
      var x := a.setAt + e.delay * (a.fired + 1);
      assert a.setAt + e.delay * (a.fired + 2) == x + e.delay;
      ModOfSum(x, e.delay);
    }
  }

  lemma ModOfSum(x: nat, d: nat)
    ensures (x % TWO_32 + d) % TWO_32 == (x + d) % TWO_32
  {
  }

  /** A new arming has fired nothing yet, and the old log stays good. */
  lemma NewArming(log: seq<Firing>, before: nat, created: nat)
    requires GoodLog(log, before) && before < created
    ensures GoodLog(log, created) && Count(log, created) == 0
  {
    CountOfNew(log, before, created);
  }
}
