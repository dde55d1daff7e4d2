/** The KVM memory region of the last unmapped buffer is left standing until another mapping needs its place.
    The code it replaced added a region at every map and removed it at every unmap. */
module KeptRegions {

  datatype Region = Region(guest: nat, size: nat, host: nat, readonly: bool)

  datatype Op =
    | Add(r: Region)
    | Remove(r: Region, bufferIndex: int)
    | DropKept
    | DropOfBuffer(bufferIndex: int)

  // The simple code: a set that follows the adds and removes.

  function SimpleStep(s: set<Region>, op: Op): set<Region> {
    match op
    case Add(r) => s + {r}
    case Remove(r, _) => s - {r}
    case _ => s
  }

  function Simple(ops: seq<Op>): set<Region> {
    if ops == [] then {} else SimpleStep(Simple(ops[..|ops| - 1]), ops[|ops| - 1])
  }

  /** Only inactive regions are added and only active ones removed. */
  predicate Applies(op: Op, s: set<Region>) {
    match op
    case Add(r) => r !in s
    case Remove(r, _) => r in s
    case _ => true
  }

  ghost predicate WellBehaved(ops: seq<Op>) {
    forall k | 0 <= k < |ops| :: Applies(ops[k], Simple(ops[..k]))
  }

  predicate IsDrop(op: Op) {
    op.DropKept? || op.DropOfBuffer?
  }

  /** s is what the simple code had just before the most recent remove of ops, and nothing was added since. */
  ghost predicate BeforeLastRemove(s: set<Region>, ops: seq<Op>, r: Region, bufferIndex: int) {
    exists k | 0 <= k < |ops| ::
      && ops[k] == Remove(r, bufferIndex)
      && (forall j | k < j < |ops| :: IsDrop(ops[j]))
      && s == Simple(ops[..k])
  }

  /** s is a set the simple code had at some point. */
  ghost predicate HadOnce(s: set<Region>, ops: seq<Op>) {
    exists k | 0 <= k <= |ops| :: s == Simple(ops[..k])
  }

  lemma SimpleSnoc(ops: seq<Op>, op: Op)
    ensures Simple(ops + [op]) == SimpleStep(Simple(ops), op)
    ensures WellBehaved(ops) && Applies(op, Simple(ops)) ==> WellBehaved(ops + [op])
  {
    var ops' := ops + [op];
    assert ops'[..|ops|] == ops;
    if WellBehaved(ops) && Applies(op, Simple(ops)) {
      forall k | 0 <= k < |ops'|
        ensures Applies(ops'[k], Simple(ops'[..k]))
      {
        assert ops'[..k] == ops[..k];
      }
    }
  }

  lemma HadOnceSnoc(s: set<Region>, ops: seq<Op>, op: Op)
    requires HadOnce(s, ops)
    ensures HadOnce(s, ops + [op])
  {
    var k :| 0 <= k <= |ops| && s == Simple(ops[..k]);
    assert (ops + [op])[..k] == ops[..k];
  }

  lemma HasNow(ops: seq<Op>)
    ensures HadOnce(Simple(ops), ops)
  {
    assert ops[..|ops|] == ops;
  }

  lemma BeforeLastRemoveSnoc(s: set<Region>, ops: seq<Op>, op: Op, r: Region, bufferIndex: int)
    requires BeforeLastRemove(s, ops, r, bufferIndex) && IsDrop(op)
    ensures BeforeLastRemove(s, ops + [op], r, bufferIndex)
  {
    var k :| 0 <= k < |ops| && ops[k] == Remove(r, bufferIndex) && (forall j | k < j < |ops| :: IsDrop(ops[j]))
      && s == Simple(ops[..k]);
    var ops' := ops + [op];
    assert ops'[..k] == ops[..k] && ops'[k] == ops[k];
  }

  lemma RemovedJustNow(ops: seq<Op>, r: Region, bufferIndex: int)
    ensures BeforeLastRemove(Simple(ops), ops + [Remove(r, bufferIndex)], r, bufferIndex)
  {
    var ops' := ops + [Remove(r, bufferIndex)];
    assert ops'[..|ops|] == ops && ops'[|ops|] == Remove(r, bufferIndex);
  }

  /** What the code holds between two operations, and every set KVM has been brought to. */
  datatype Keeper = Keeper(kvm: set<Region>, isStanding: bool, kept: Region, bufferIndex: int, reuseCount: nat, held: seq<set<Region>>)

  /** Nothing is standing any more: KVM is asked for one removal if something was, and for nothing otherwise. */
  predicate Dropped(s: Keeper, t: Keeper) {
    if s.isStanding then t == s.(isStanding := false, kvm := s.kvm - {s.kept}, held := s.held + [s.kvm - {s.kept}])
    else t == s
  }

  /** What KVM is asked for in the course of an operation. A remove keeps its region standing; the add of a standing region
      takes it over and asks for nothing; another add comes after the removal of the standing one. */
  predicate Did(enabled: bool, op: Op, s: Keeper, t: Keeper) {
    var gone := if s.isStanding then s.kvm - {s.kept} else s.kvm;
    var begun := if s.isStanding then s.held + [gone] else s.held;
    match op
    case Add(r) =>
      if enabled && s.isStanding && s.kept == r then
        t == s.(isStanding := false, reuseCount := s.reuseCount + 1)
      else
        t == s.(isStanding := false, kvm := gone + {r}, held := begun + [gone + {r}])
    case Remove(r, index) =>
      if enabled then
        t == s.(isStanding := true, kept := r, bufferIndex := index, kvm := gone, held := begun)
      else
        t == s.(kvm := s.kvm - {r}, held := s.held + [s.kvm - {r}])
    case DropKept => Dropped(s, t)
    case DropOfBuffer(index) => if s.bufferIndex == index then Dropped(s, t) else t == s
  }

  ghost predicate AllDid(enabled: bool, ops: seq<Op>, trace: seq<Keeper>)
    decreases |ops|
  {
    && |trace| == |ops| + 1
    && (ops != [] ==>
          var n := |ops| - 1;
          Did(enabled, ops[n], trace[n], trace[n + 1]) && AllDid(enabled, ops[..n], trace[..n + 1]))
  }

  lemma DidMore(enabled: bool, ops: seq<Op>, trace: seq<Keeper>, op: Op, t: Keeper)
    requires AllDid(enabled, ops, trace) && Did(enabled, op, trace[|ops|], t)
    ensures AllDid(enabled, ops + [op], trace + [t])
  {
    assert (ops + [op])[..|ops|] == ops && (trace + [t])[..|ops| + 1] == trace;
  }

  /** A mapping that is taken down and put up again at once costs KVM nothing, and is counted. */
  lemma RemapIsFree(r: Region, index: int, s: Keeper, t: Keeper, u: Keeper)
    requires Did(true, Remove(r, index), s, t) && Did(true, Add(r), t, u) && !s.isStanding
    ensures u.kvm == s.kvm && u.held == s.held && !u.isStanding && u.reuseCount == s.reuseCount + 1
  {
  }

  class KeptGuestBufo {
    const enabled: bool
    /** The regions KVM holds. */
    var kvm: set<Region>
    var isStanding: bool
    var kept: Region
    var bufferIndex: int
    var reuseCount: nat
    /** Every operation so far, and every set KVM was ever brought to. */
    ghost var ops: seq<Op>
    ghost var held: seq<set<Region>>

    ghost function State(): Keeper
      reads this
    {
      Keeper(kvm, isStanding, kept, bufferIndex, reuseCount, held)
    }

    ghost predicate Refines()
      reads this
    {
      if isStanding then
        && kept in kvm && kept !in Simple(ops)
        && kvm - {kept} == Simple(ops)
        && BeforeLastRemove(kvm, ops, kept, bufferIndex)
      else
        kvm == Simple(ops)
    }

    ghost predicate Valid()
      reads this
    {
      && WellBehaved(ops)
      && Refines()
      && (!enabled ==> !isStanding)
      && forall k | 0 <= k < |held| :: HadOnce(held[k], ops)
    }

    constructor (enabled: bool)
      ensures Valid() && ops == [] && kvm == {} && held == [] && this.enabled == enabled
    {
      this.enabled := enabled;
      kvm, isStanding, kept, bufferIndex, reuseCount := {}, false, Region(0, 0, 0, true), 0, 0;
      ops, held := [], [];
    }

    /** kvm_update_guest_pa_range. */
    method KvmUpdate(r: Region, add: bool)
      modifies this`kvm, this`held
      ensures kvm == if add then old(kvm) + {r} else old(kvm) - {r}
      ensures held == old(held) + [kvm]
    {
      kvm := if add then kvm + {r} else kvm - {r};
      held := held + [kvm];
    }

    /** Removes the kept region, if there is one: the two sets are the same afterwards. */
    method RemoveKept()
      requires Valid()
      modifies this`kvm, this`held, this`isStanding
      ensures Valid() && !isStanding && kvm == Simple(ops)
      ensures Dropped(old(State()), State())
    {
      if !isStanding {
        return;
      }
      isStanding := false;
      KvmUpdate(kept, false);
      HasNow(ops);
    }

    /** The ghost record of one more operation that the simple code would have ignored. */
    ghost method Ignored(op: Op)
      requires Valid() && IsDrop(op)
      modifies this`ops
      ensures Valid() && ops == old(ops) + [op] && Simple(ops) == Simple(old(ops))
    {
      SimpleSnoc(ops, op);
      if isStanding {
        BeforeLastRemoveSnoc(kvm, ops, op, kept, bufferIndex);
      }
      forall k | 0 <= k < |held|
        ensures HadOnce(held[k], ops + [op])
      {
        HadOnceSnoc(held[k], ops, op);
      }
      ops := ops + [op];
    }

    method MGLRemoveKeptGuestBufo()
      requires Valid()
      modifies this
      ensures Valid() && ops == old(ops) + [DropKept] && kvm == Simple(ops)
      ensures Did(enabled, DropKept, old(State()), State())
    {
      RemoveKept();
      Ignored(DropKept);
    }

    method MGLRemoveKeptGuestBufoOfBuffer(index: int)
      requires Valid()
      modifies this
      ensures Valid() && ops == old(ops) + [DropOfBuffer(index)]
      ensures Did(enabled, DropOfBuffer(index), old(State()), State())
      ensures isStanding ==> bufferIndex != index
    {
      hide WellBehaved, HadOnce, BeforeLastRemove, Simple;
      if isStanding && bufferIndex == index {
        RemoveKept();
      }
      Ignored(DropOfBuffer(index));
    }

    /** Standing already: the mapping takes the kept region over. */
    method Reuse(r: Region)
      requires Valid() && isStanding && kept == r && r !in Simple(ops)
      modifies this`isStanding, this`reuseCount, this`ops
      ensures Valid() && ops == old(ops) + [Add(r)] && kvm == Simple(ops)
      ensures !isStanding && reuseCount == old(reuseCount) + 1
    {
      isStanding, reuseCount := false, reuseCount + 1;
      SimpleSnoc(ops, Add(r));
      forall k | 0 <= k < |held|
        ensures HadOnce(held[k], ops + [Add(r)])
      {
        HadOnceSnoc(held[k], ops, Add(r));
      }
      ops := ops + [Add(r)];
    }

    /** An add or a remove that goes to KVM at once, as the simple code does it. */
    method Direct(op: Op)
      requires Valid() && !isStanding && !IsDrop(op) && Applies(op, Simple(ops))
      modifies this`kvm, this`held, this`ops
      ensures Valid() && ops == old(ops) + [op] && kvm == Simple(ops)
      ensures kvm == (if op.Add? then old(kvm) + {op.r} else old(kvm) - {op.r}) && held == old(held) + [kvm]
    {
      KvmUpdate(op.r, op.Add?);
      ghost var ops' := ops + [op];
      SimpleSnoc(ops, op);
      HasNow(ops');
      forall k | 0 <= k < |held|
        ensures HadOnce(held[k], ops')
      {
        if k < |held| - 1 {
          HadOnceSnoc(held[k], ops, op);
        }
      }
      ops := ops';
    }

    /** The unmapped region becomes the kept one; KVM is left alone. */
    method Keep(r: Region, index: int)
      requires Valid() && enabled && !isStanding && r in Simple(ops)
      modifies this`isStanding, this`kept, this`bufferIndex, this`ops
      ensures Valid() && ops == old(ops) + [Remove(r, index)] && isStanding && kept == r
      ensures bufferIndex == index
    {
      kept, bufferIndex, isStanding := r, index, true;
      ghost var op := Remove(r, index);
      SimpleSnoc(ops, op);
      RemovedJustNow(ops, r, index);
      forall k | 0 <= k < |held|
        ensures HadOnce(held[k], ops + [op])
      {
        HadOnceSnoc(held[k], ops, op);
      }
      ops := ops + [op];
    }

    /** update_guest_bufo_region. After every add the two sets are equal, and an add that finds its region standing asks KVM
        for nothing; a remove leaves its region standing and asks for no more than the removal of the one before. */
    method UpdateRegion(r: Region, index: int, add: bool)
      requires Valid()
      requires add ==> r !in Simple(ops)
      requires !add ==> r in Simple(ops)
      modifies this
      ensures Valid() && ops == old(ops) + [if add then Add(r) else Remove(r, index)]
      ensures add ==> kvm == Simple(ops)
      ensures Did(enabled, if add then Add(r) else Remove(r, index), old(State()), State())
      ensures enabled && !add ==> isStanding && kept == r && bufferIndex == index && r in kvm
      ensures enabled && add && old(isStanding) && old(kept) == r ==>
                kvm == old(kvm) && held == old(held) && reuseCount == old(reuseCount) + 1
    {
      hide WellBehaved, HadOnce, BeforeLastRemove, Simple, Applies;
      if !enabled {
        Direct(if add then Add(r) else Remove(r, index));
        return;
      }
      var isKeptRegion := isStanding && kept == r;
      if add {
        if isKeptRegion {
          Reuse(r);
          return;
        }
        RemoveKept();
        Direct(Add(r));
        return;
      }
      RemoveKept();
      Keep(r, index);
    }

    /** Any run: KVM only ever holds sets the simple code had, at the end the set of the simple code or the one just
        before its last remove, and if the simple code never lets two regions overlap, KVM never does. */
    method Run(todo: seq<Op>) returns (ghost trace: seq<Keeper>)
      requires Valid() && ops == [] && held == [] && WellBehaved(todo)
      modifies this
      ensures Valid() && ops == todo
      ensures AllDid(enabled, todo, trace) && trace[0] == old(State()) && trace[|todo|] == State()
      ensures kvm == Simple(todo) || BeforeLastRemove(kvm, todo, kept, bufferIndex)
      ensures (forall k | 0 <= k <= |todo| :: Disjoint(Simple(todo[..k]))) ==> forall k | 0 <= k < |held| :: Disjoint(held[k])
    {
      hide Did;
      trace := [State()];
      for k := 0 to |todo|
        invariant Valid() && ops == todo[..k]
        invariant AllDid(enabled, todo[..k], trace) && trace[0] == old(State()) && trace[k] == State()
      {
        ghost var before := trace;
        assert todo[..k + 1] == todo[..k] + [todo[k]];
        assert Applies(todo[k], Simple(todo[..k]));
        match todo[k] {
          case Add(r) => UpdateRegion(r, 0, true);
          case Remove(r, index) => UpdateRegion(r, index, false);
          case DropKept => MGLRemoveKeptGuestBufo();
          case DropOfBuffer(index) => MGLRemoveKeptGuestBufoOfBuffer(index);
        }
        DidMore(enabled, todo[..k], before, todo[k], State());
        trace := trace + [State()];
      }
      assert todo[..|todo|] == todo;
    }
  }

  predicate Overlap(a: Region, b: Region) {
    a.guest < b.guest + b.size && b.guest < a.guest + a.size
  }

  ghost predicate Disjoint(s: set<Region>) {
    forall a, b | a in s && b in s && a != b :: !Overlap(a, b)
  }
}
